# Dineo front-end core, modelled in Dafny

Dineo is a restaurant's one-page site. This project models the three
scripts that hold the site's logic:

- **The table-reservation form** (`js/bookTable.js`). On submit, the handler
  reads the five fields (full name, phone, guests, date, time). It runs three
  checks in order:
  1. presence;
  2. a Moroccan phone pattern;
  3. "the date is not before today".

  On the first failure it shows one error notice; a missing field also gets
  its input highlighted. Otherwise it builds a twelve-line WhatsApp message,
  puts it into a `wa.me` link, and switches the submit button to a spinner.
  After a short delay it restores the button, opens the link, shows a success
  notice that removes itself later, and resets the form. While the user types
  in the phone field, an input handler strips everything but digits and
  regroups them with spaces.
- **The gallery filter** (`js/filterGallery.js`). A click on a filter button
  makes that button the only active one. It shows the items its filter
  selects (with a fade-in) and hides the rest.
- **The hero banner** (`js/switchHeroImages.js`). A counter walks around five
  background images: one step when the page loads, then one per interval tick.

## Modules

| file | module | what it holds |
|---|---|---|
| `wrappers.dfy` | `Wrappers` | `Option` |
| `text.dfy` | `Text` | JavaScript's `trim()` (its whitespace set) and `replace(/\D/g, '')` |
| `phone.dfy` | `PhoneNumber` | the phone pattern as a grammar (`PhoneParts`), its renderer, a parser proved to decide the pattern |
| `phone_format.dfy` | `PhoneFormat` | the input formatter as a method with its specification function, and how the formatted field fares against the pattern |
| `reservation.dfy` | `Reservation` | the three checks, the notice texts, the WhatsApp message and link |
| `booking_form.dfy` | `BookingForm` | the form as a `class`: values, highlights, notices, button, pending timers; one method per handler and per timer callback |
| `gallery.dfy` | `Gallery` | the filter bar as a `class` over arrays of button and item state |
| `hero.dfy` | `Hero` | the rotator as a `class` with its counter and the banner's background |

A timer in the page becomes a queue entry in the model. Its callback is a
method the host calls when the timer fires: `Form.FireSendTimer` and
`Form.FireSuccessDismiss`.

### What the proofs show about the page

- The phone field can pass the pattern only in one case: its digits form a
  ten-digit national number, '0', then 1-9, then eight digits
  (`PhoneFormat.PhoneFieldAcceptedIff`).
  - The formatter always removes the `+`. Digits starting with "212" or
    "00212" are still spaced at indexes 5, 8, 11 and 14, but never into the
    national pairs.
  - So although the pattern names the `+212` and `00212` forms, a number
    typed in either form is always turned down on submit
    (`PhoneFormat.InternationalFormRejected`).
- Only the space after the first two digits depends on a leading '0'. The
  insertions at 5, 8, 11 and 14 depend only on the text's length.
  - The first space is added even when no digit follows, so "0" and "06"
    each gain a trailing space (`PhoneFormat.ShortNationalTrailingSpace`).
    The trim at submit removes it.
- The presence check tests the date field as typed, but the highlighter tests
  it trimmed. Name, phone, guests and time are highlighted exactly when they
  failed the presence check. The date field is highlighted at least then
  (`BookingForm.HighlightMarksMissing`).

## Model

| member | source | states |
|---|---|---|
| Text.Trim | js/bookTable.js:9-10 | the trimmed value is the input with exactly its leading and trailing runs of whitespace cut off: empty exactly when the input is all whitespace, otherwise neither starting nor ending with whitespace |
| Text.TrimKeepsDigits | js/bookTable.js:10 | trimming never changes which digits a value holds |
| Text.DigitsOf | js/bookTable.js:237 | the digit filter never lengthens its input |
| Text.DigitsOfMembers | js/bookTable.js:237 | a character is in the filter's result exactly when it is a digit that occurs in the input |
| Text.DigitsOfDigits | js/bookTable.js:237 | what the digit filter returns consists of digits only |
| Text.DigitsFixed | js/bookTable.js:237 | a string of digits passes through the digit filter unchanged |
| PhoneNumber.ParsePhone | js/bookTable.js:23 | an accepted string is a well-formed prefix, gap, leading digit and four separated pairs that render back to the string itself |
| PhoneNumber.PrefixLength | js/bookTable.js:23 | the prefix found is one of `+212`, `00212`, `0`, taken from the start of the string |
| PhoneNumber.ParseRender | js/bookTable.js:23 | every well-formed number renders to text the parser reads back to the same parts |
| PhoneNumber.IsMoroccanPhone | js/bookTable.js:23-24 | a number the test accepts starts with '+' or '0' and ends with a digit |
| PhoneNumber.PhoneAcceptedIff | js/bookTable.js:23-24 | a string passes the phone check if and only if it is the rendering of some well-formed number |
| PhoneNumber.AcceptsNational | js/bookTable.js:23 | "0612345678" passes the phone check |
| PhoneNumber.RejectsZeroAfterPrefix | js/bookTable.js:23 | "0012345678" fails it: after the prefix the pattern wants 1-9 |
| PhoneFormat.Formatted | js/bookTable.js:237-256 | the field shows the input's digits plus at most one space per insertion, five at most |
| PhoneFormat.FormatPhoneInput | js/bookTable.js:236-258 | the insertion chain yields the specified layout of the input's digits |
| PhoneFormat.GuardsInOrder | js/bookTable.js:244-255 | the four length-guarded insertions apply at 5, 8, 11 and 14, in that order |
| PhoneFormat.FormattedKeepsDigits | js/bookTable.js:237-256 | the formatted value holds the input's digits in order and nothing but spaces besides, and never a '+' |
| PhoneFormat.FormattedIdempotent | js/bookTable.js:236-258 | formatting an already formatted value leaves it as it is |
| PhoneFormat.ShortNationalTrailingSpace | js/bookTable.js:241-243 | one or two digits starting with '0' come out followed by a space |
| PhoneFormat.FormattedFront | js/bookTable.js:240 | the value is empty exactly when the input has no digit, and it never starts with a space |
| PhoneFormat.NationalShape | js/bookTable.js:240-255 | ten digits starting with '0' come out as five pairs separated by single spaces |
| PhoneFormat.FormatsExample | js/bookTable.js:239 | "0612345678" is shown as "06 12 34 56 78" |
| PhoneFormat.NationalAccepted | js/bookTable.js:23-24 | a formatted national number passes the phone check once trimmed |
| PhoneFormat.AcceptedIsNational | js/bookTable.js:23-24 | a formatted field that passes the phone check holds a national number |
| PhoneFormat.PhoneFieldAcceptedIff | js/bookTable.js:236-258 | the formatted phone field passes the check if and only if its digits are '0', 1-9 and eight digits more |
| PhoneFormat.InternationalFormRejected | js/bookTable.js:23-24 | digits typed as 212… or 00212… never pass, once formatted |
| Reservation.Validate | js/bookTable.js:9-42 | missing field, bad phone, past date or send, each if and only if the earlier checks passed and its own failed; a send carries the trimmed name and phone |
| Reservation.EarlierChecksWin | js/bookTable.js:16-28 | a missing field decides the outcome whatever the phone and date; a bad phone decides it whatever the date |
| Reservation.TodayIsNotPast | js/bookTable.js:31-39 | a selected day equal to today and an unreadable date pass the date check; a selected day is refused exactly when it is before today |
| Reservation.BeforeIsStrictOrder | js/bookTable.js:35 | the day comparison is irreflexive, asymmetric, transitive and total |
| Reservation.ErrorText | js/bookTable.js:16-39 | each failed check has its own notice text and a send has none |
| Reservation.GuestUnit | js/bookTable.js:87 | "Person" exactly for the guest value "1", "People" otherwise |
| Reservation.Capitalized | js/bookTable.js:89 | the time keeps its length, gets its first character upper-cased and the rest untouched |
| Reservation.CapitalizedIdempotent | js/bookTable.js:89 | capitalizing twice is capitalizing once |
| Reservation.MessageLines | js/bookTable.js:80-91 | the message template line by line: the title, a line of eight spaces, the customer heading, name, phone, an empty line, the reservation heading, guests with their unit, date, capitalized time, an empty line, the submission moment |
| Reservation.MessageReadsBack | js/bookTable.js:80-91 | split at its newlines, the message gives back its twelve lines, with name, phone, guests and unit, date, time and submission moment each on its own labelled line |
| Reservation.WhatsAppUrl | js/bookTable.js:94-98 | the link is the chat address for 0633908104 followed by exactly the encoded message |
| Reservation.WhatsAppUrlInjective | js/bookTable.js:94-98 | with a lossless encoding, different messages give different links |
| BookingForm.BlankFieldsIff | js/bookTable.js:55-67 | the highlighter marks a field exactly when its own emptiness test holds |
| BookingForm.HighlightMarksMissing | js/bookTable.js:16-67 | name, phone, guests and time are highlighted exactly when they failed the presence check, and the date at least then |
| BookingForm.HighlightCoversMissing | js/bookTable.js:16-67 | when the presence check fails some field is highlighted; a highlight other than the date's means the presence check failed |
| BookingForm.Detach | js/bookTable.js:181-186 | a notice still on the page is taken off (one fewer, and on a page of at most one notice none with that id is left); one no longer there leaves the page unchanged |
| BookingForm.Form.constructor | js/bookTable.js:1-5 | the form starts empty, with no highlight, no notice, an enabled button and no timer running |
| BookingForm.Form.Input | js/bookTable.js:45-52 | typing into a field sets its value (the phone's formatted) and removes its highlight; nothing else changes |
| BookingForm.Form.ShowMessage | js/bookTable.js:130-190 | the new notice replaces the one shown; a success notice also gets its removal scheduled |
| BookingForm.Form.FireSuccessDismiss | js/bookTable.js:179-190 | the oldest scheduled removal empties the page when its notice is still shown, and otherwise changes nothing; an error notice is never removed, since the invariant keeps removals for success notices only |
| BookingForm.Form.HighlightEmptyFields | js/bookTable.js:55-67 | the highlights grow by exactly the blank required fields |
| BookingForm.Form.SendWhatsAppReservation | js/bookTable.js:70-104 | the button shows the spinner and is disabled; the link for the message is queued with the label to restore |
| BookingForm.Form.FireSendTimer | js/bookTable.js:107-127 | the button comes back enabled with its old label, the link is opened, the success notice shows, the form is empty and nothing is highlighted |
| BookingForm.Form.Respond | js/bookTable.js:16-42 | a failed check shows its error notice, adding the blank fields' highlights for a missing field; a valid reservation is sent |
| BookingForm.Form.Submit | js/bookTable.js:5-43 | the state after a submit, as decided by the three checks on the current values |
| Gallery.FilterBar.constructor | js/filterGallery.js:1-2 | the buttons with the active flags the markup gives them, and the items with no inline style |
| Gallery.FilterBar.Click | js/filterGallery.js:5-22 | after a click only the clicked button is active; an item is shown and fades in when the filter selects it, and is hidden with its animation kept otherwise |
| Gallery.ExactlyOneActive | js/filterGallery.js:8-9 | exactly one button is active after a click, the clicked one |
| Gallery.AllShowsEverything | js/filterGallery.js:16-17 | the "all" filter shows every item |
| Gallery.FilterSelectsCategory | js/filterGallery.js:11-21 | any other filter shows an item exactly when its category equals the filter |
| Gallery.ClickIdempotent | js/filterGallery.js:5-22 | a second click on the same button changes no item's animation |
| Hero.Rotator.constructor | js/switchHeroImages.js:11-19 | on load the first image is shown and the counter moves to 1 |
| Hero.Rotator.ChangeHeroBg | js/switchHeroImages.js:13-16 | a step shows the image at the counter and advances the counter around the list |
| Hero.Next | js/switchHeroImages.js:15 | the counter always stays a valid image index |
| Hero.LaterStep | js/switchHeroImages.js:15 | k+1 steps are k steps then one more |
| Hero.FullCycle | js/switchHeroImages.js:3-15 | five steps from any index show every image exactly once and return to the start |
| Hero.BackgroundInjective | js/switchHeroImages.js:3-14 | different images give different background values |

## Left out

- Styling is not modelled. That covers border colours, shadows, notice colours, icons, padding and opacity. It also covers the `<style>` element the form script injects (js/bookTable.js:194-231). A highlight is a field's membership in a set, and a notice is its kind and its text.
- Focus moves (`focus()`) and `preventDefault()` have no effect on the modelled state.
- Timer durations are not modelled: 1500 ms for the send, 5000 ms and 300 ms for the success notice, and 10 ms for the fade-in. A timer is a queued callback, and the order of firing is the caller's.
  - The success notice's fade-out and its removal are one step.
  - The hero's `setInterval` is the caller repeating `ChangeHeroBg`. The interval is 10000 ms, even though the comment beside it says 5 seconds.
- Date parsing (`new Date(date)`), the clock, and the locale renderings (`toLocaleDateString`, `toLocaleString`) are parameters of `Submit`: the selected day, today, and two strings.
- Reservation.TodayIsNotPast holds for the day the host passes as `selected`, not for the date as typed. The page parses "YYYY-MM-DD" as midnight UTC and compares it with local midnight. So the model matches the page only when `selected` is the local calendar day of that instant. West of UTC that is the day before the date typed, and a booking for today is then refused as past.
- `encodeURIComponent` is the parameter `encode`. Reservation.WhatsAppUrlInjective assumes, in its requires, that it loses nothing.
- `window.open` appends the link to `openedLinks`. The new tab is not modelled.
- `bookingForm.reset()` is modelled as every field becoming empty. A select whose first option has a value would reset to that value instead.
- Reservation.Capitalized upper-cases only 'a' to 'z'. `toUpperCase` also maps other letters, and can lengthen a string (for example 'ß').
- BookingForm.Form.Input applies to all five fields. The page attaches the listener to `.form-input` and `.form-select` elements, which the markup is assumed to give all five.
- The lookup of page elements is not modelled: the form, its button and fields, the gallery's buttons and items, and the hero element. The form script's `if (bookingForm)` and `if (phoneInput)` guards are taken as true.
- Gallery.FilterBar.Click handles only the `active` class. Other classes on the buttons are left untouched by the source and absent from the model.
- BookingForm.Form.ShowMessage assumes at most one notice is on the page, as the form invariant keeps it. The page removes only the first `.form-message` element.

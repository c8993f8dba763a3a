/**
 * The pure part of the reservation form's submit handler: the three checks
 * run in order, the text of each notice, the WhatsApp message assembled
 * from a valid reservation, and the link that carries it.
 */
module Reservation {
  import opened Wrappers
  import opened Text
  import opened PhoneNumber

  /** A calendar day, compared year first, then month, then day. */
  datatype Day = Day(year: int, month: int, day: int)

  predicate Before(a: Day, b: Day) {
    a.year < b.year
    || (a.year == b.year && a.month < b.month)
    || (a.year == b.year && a.month == b.month && a.day < b.day)
  }

  /** `Before` is a strict total order on days. */
  lemma BeforeIsStrictOrder(a: Day, b: Day, c: Day)
    ensures !Before(a, a)
    ensures Before(a, b) ==> !Before(b, a)
    ensures Before(a, b) && Before(b, c) ==> Before(a, c)
    ensures a == b || Before(a, b) || Before(b, a)
  {
  }

  /**
   * The date check: `selected` is what the host made of the date field
   * (`None` for an unreadable date, which compares false with anything),
   * `today` is the current day at midnight. Only a strictly earlier day is
   * in the past.
   */
  predicate IsPast(selected: Option<Day>, today: Day) {
    selected.Some? && Before(selected.value, today)
  }

  /** The raw values of the five reservation fields. */
  datatype Entry = Entry(fullName: string, phone: string, guests: string, date: string, time: string)

  /** The presence check: name and phone are read trimmed, the others as they are. */
  predicate AnyMissing(e: Entry) {
    Trim(e.fullName) == [] || Trim(e.phone) == [] || e.guests == [] || e.date == [] || e.time == []
  }

  /** What a submit leads to: one of three errors, or sending the trimmed reservation. */
  datatype Outcome = MissingFields | InvalidPhone | PastDate | Send(booking: Entry)

  /** The submit handler's checks, in the order it makes them. */
  function Validate(e: Entry, selected: Option<Day>, today: Day): (o: Outcome)
    ensures o == MissingFields <==> AnyMissing(e)
    ensures o == InvalidPhone <==> !AnyMissing(e) && !IsMoroccanPhone(Trim(e.phone))
    ensures o == PastDate <==> !AnyMissing(e) && IsMoroccanPhone(Trim(e.phone)) && IsPast(selected, today)
    ensures o.Send? <==> !AnyMissing(e) && IsMoroccanPhone(Trim(e.phone)) && !IsPast(selected, today)
    ensures o.Send? ==> o.booking == Entry(Trim(e.fullName), Trim(e.phone), e.guests, e.date, e.time)
  {
    var fullName, phone := Trim(e.fullName), Trim(e.phone);
    if fullName == [] || phone == [] || e.guests == [] || e.date == [] || e.time == [] then
      MissingFields
    else if !IsMoroccanPhone(phone) then
      InvalidPhone
    else if IsPast(selected, today) then
      PastDate
    else
      Send(Entry(fullName, phone, e.guests, e.date, e.time))
  }

  /**
   * A missing field decides the outcome on its own: neither the phone nor
   * the date is looked at. A bad phone likewise hides the date.
   */
  lemma EarlierChecksWin(e: Entry, s1: Option<Day>, t1: Day, s2: Option<Day>, t2: Day)
    ensures AnyMissing(e) ==> Validate(e, s1, t1) == Validate(e, s2, t2) == MissingFields
    ensures !IsMoroccanPhone(Trim(e.phone)) ==> Validate(e, s1, t1) == Validate(e, s2, t2)
  {
    var o1, o2 := Validate(e, s1, t1), Validate(e, s2, t2);
    assert !IsMoroccanPhone(Trim(e.phone)) ==> o1 == (if AnyMissing(e) then MissingFields else InvalidPhone);
    assert !IsMoroccanPhone(Trim(e.phone)) ==> o2 == (if AnyMissing(e) then MissingFields else InvalidPhone);
  }

  /** The date check lets the current day through and stops every earlier one. */
  lemma TodayIsNotPast(e: Entry, d: Day, today: Day)
    requires !AnyMissing(e) && IsMoroccanPhone(Trim(e.phone))
    ensures Validate(e, Some(today), today).Send?
    ensures Validate(e, Some(d), today) == PastDate <==> Before(d, today)
    ensures Validate(e, None, today).Send?
  {
    BeforeIsStrictOrder(today, today, today);
  }

  datatype Kind = Success | Error

  const MissingText := "Please fill in all fields"
  const PhoneText := "Please enter a valid Moroccan phone number"
  const DateText := "Please select a future date"
  const SentText := "Reservation sent successfully! Check your WhatsApp to complete the booking."

  /** The error notice for a failed check; a reservation being sent has none yet. */
  function ErrorText(o: Outcome): (r: Option<string>)
    ensures r.None? <==> o.Send?
    ensures r == Some(MissingText) <==> o == MissingFields
    ensures r == Some(PhoneText) <==> o == InvalidPhone
    ensures r == Some(DateText) <==> o == PastDate
  {
    match o
    case MissingFields => Some(MissingText)
    case InvalidPhone => Some(PhoneText)
    case PastDate => Some(DateText)
    case Send(_) => None
  }

  /** "Person" for exactly one guest, "People" for any other value of the field. */
  function GuestUnit(guests: string): (u: string)
    ensures u == "Person" <==> guests == "1"
    ensures u == "People" <==> guests != "1"
  {
    if guests == "1" then "Person" else "People"
  }

  predicate IsLowerAscii(c: char) {
    'a' <= c <= 'z'
  }

  function UpperAscii(c: char): (u: char)
    ensures !IsLowerAscii(u)
    ensures !IsLowerAscii(c) ==> u == c
  {
    if IsLowerAscii(c) then (c as int - 32) as char else c
  }

  /** The time slot with its first character upper-cased and the rest untouched. */
  function Capitalized(s: string): (r: string)
    ensures |r| == |s|
    ensures s != [] ==> r[0] == UpperAscii(s[0]) && r[1..] == s[1..]
  {
    if s == [] then [] else [UpperAscii(s[0])] + s[1..]
  }

  /** Capitalizing twice is capitalizing once. */
  lemma CapitalizedIdempotent(s: string)
    ensures Capitalized(Capitalized(s)) == Capitalized(s)
  {
    if s != [] {
      var r := Capitalized(s);
      assert [r[0]] + r[1..] == r;
    }
  }

  /**
   * What goes into the message: the trimmed name and phone, the raw guest
   * count and time slot, and the host's renderings of the chosen day and of
   * the moment of submission.
   */
  datatype Details = Details(
    fullName: string, phone: string, guests: string, time: string,
    formattedDate: string, submitted: string)

  const TitleLine := "\U{1F4CB} *NEW TABLE RESERVATION* \U{1F4CB}"
  const IndentLine := "        "
  const CustomerHeading := "\U{1F464} *Customer Details:*"
  const NameLabel := "\U{2022} Name: "
  const PhoneLabel := "\U{2022} Phone: "
  const BookingHeading := "\U{1FA91} *Reservation Details:*"
  const GuestsLabel := "\U{2022} Guests: "
  const DateLabel := "\U{2022} Date: "
  const TimeLabel := "\U{2022} Time: "
  const SubmittedLabel := "\U{23F0} *Submitted:* "

  /** The twelve lines of the message, top to bottom. */
  function MessageLines(d: Details): (ls: seq<string>)
    ensures |ls| == 12
  {
    [ TitleLine,
      IndentLine,
      CustomerHeading,
      NameLabel + d.fullName,
      PhoneLabel + d.phone,
      "",
      BookingHeading,
      GuestsLabel + d.guests + " " + GuestUnit(d.guests),
      DateLabel + d.formattedDate,
      TimeLabel + Capitalized(d.time),
      "",
      SubmittedLabel + d.submitted ]
  }

  /** Lines separated by single line feeds. */
  function JoinLines(ls: seq<string>): string
  {
    if ls == [] then []
    else if |ls| == 1 then ls[0]
    else ls[0] + "\n" + JoinLines(ls[1..])
  }

  /** The message sent to the restaurant. */
  function ReservationMessage(d: Details): string {
    JoinLines(MessageLines(d))
  }

  /** Index of the first line feed in `s`, or `|s|` when there is none. */
  function FirstNewline(s: string): (n: nat)
    ensures n <= |s| && (n < |s| ==> s[n] == '\n')
    ensures forall i :: 0 <= i < n ==> s[i] != '\n'
  {
    if s == [] || s[0] == '\n' then 0 else 1 + FirstNewline(s[1..])
  }

  /** The text cut at every line feed. */
  function SplitLines(s: string): (ls: seq<string>)
    ensures ls != []
    decreases |s|
  {
    var n := FirstNewline(s);
    if n == |s| then [s] else [s[..n]] + SplitLines(s[n + 1..])
  }

  predicate NoNewline(s: string) {
    forall i :: 0 <= i < |s| ==> s[i] != '\n'
  }

  predicate NoNewlines(ls: seq<string>) {
    forall k :: 0 <= k < |ls| ==> NoNewline(ls[k])
  }

  /** The first line feed of `l + "\n" + rest` is the one after `l`. */
  lemma FirstNewlineAfter(l: string, rest: string)
    requires NoNewline(l)
    ensures FirstNewline(l + "\n" + rest) == |l|
  {
    var s := l + "\n" + rest;
    var n := FirstNewline(s);
    assert s[|l|] == '\n';
    assert forall i :: 0 <= i < |l| ==> s[i] == l[i];
  }

  lemma FirstNewlineNone(l: string)
    requires NoNewline(l)
    ensures FirstNewline(l) == |l|
  {
  }

  /** Lines without line feeds are read back by cutting their join. */
  lemma {:induction false} SplitJoin(ls: seq<string>)
    requires ls != [] && NoNewlines(ls)
    ensures SplitLines(JoinLines(ls)) == ls
    decreases |ls|
  {
    if |ls| == 1 {
      FirstNewlineNone(ls[0]);
    } else {
      var l, rest := ls[0], JoinLines(ls[1..]);
      var s := l + "\n" + rest;
      assert NoNewline(ls[0]);
      FirstNewlineAfter(l, rest);
      assert s[..|l|] == l && s[|l| + 1..] == rest;
      assert NoNewlines(ls[1..]) by {
        forall k | 0 <= k < |ls[1..]| ensures NoNewline(ls[1..][k]) {
          assert ls[1..][k] == ls[k + 1];
        }
      }
      SplitJoin(ls[1..]);
      assert [ls[0]] + ls[1..] == ls;
    }
  }

  lemma NoNewlineJoin(a: string, b: string)
    requires NoNewline(a) && NoNewline(b)
    ensures NoNewline(a + b)
  {
    assert forall i :: |a| <= i < |a + b| ==> (a + b)[i] == b[i - |a|];
  }

  lemma FixedTextSingleLine()
    ensures NoNewline(TitleLine) && NoNewline(IndentLine) && NoNewline(CustomerHeading)
    ensures NoNewline(NameLabel) && NoNewline(PhoneLabel) && NoNewline(BookingHeading)
    ensures NoNewline(GuestsLabel) && NoNewline(DateLabel) && NoNewline(TimeLabel)
    ensures NoNewline(SubmittedLabel) && NoNewline(" ") && NoNewline("")
    ensures NoNewline("Person") && NoNewline("People")
  {
  }

  lemma CapitalizedSingleLine(s: string)
    requires NoNewline(s)
    ensures NoNewline(Capitalized(s))
  {
    if s != [] {
      assert Capitalized(s)[0] == UpperAscii(s[0]);
      assert forall i :: 1 <= i < |s| ==> Capitalized(s)[i] == s[1..][i - 1];
    }
  }

  /** The parts of the message that come from the reservation. */
  predicate SingleLineDetails(d: Details) {
    NoNewline(d.fullName) && NoNewline(d.phone) && NoNewline(d.guests)
    && NoNewline(d.time) && NoNewline(d.formattedDate) && NoNewline(d.submitted)
  }

  lemma LinesSingle(d: Details)
    requires SingleLineDetails(d)
    ensures NoNewlines(MessageLines(d))
  {
    FixedTextSingleLine();
    CapitalizedSingleLine(d.time);
    NoNewlineJoin(NameLabel, d.fullName);
    NoNewlineJoin(PhoneLabel, d.phone);
    NoNewlineJoin(GuestsLabel, d.guests);
    NoNewlineJoin(GuestsLabel + d.guests, " ");
    NoNewlineJoin(GuestsLabel + d.guests + " ", GuestUnit(d.guests));
    NoNewlineJoin(DateLabel, d.formattedDate);
    NoNewlineJoin(TimeLabel, Capitalized(d.time));
    NoNewlineJoin(SubmittedLabel, d.submitted);
  }

  /**
   * Every value of a reservation can be read back from the message line
   * that holds it, when none of them spans several lines.
   */
  lemma MessageReadsBack(d: Details)
    requires SingleLineDetails(d)
    ensures SplitLines(ReservationMessage(d)) == MessageLines(d)
    ensures var ls := SplitLines(ReservationMessage(d));
      && ls[3] == NameLabel + d.fullName
      && ls[4] == PhoneLabel + d.phone
      && ls[7] == GuestsLabel + d.guests + " " + GuestUnit(d.guests)
      && ls[8] == DateLabel + d.formattedDate
      && ls[9] == TimeLabel + Capitalized(d.time)
      && ls[11] == SubmittedLabel + d.submitted
  {
    LinesSingle(d);
    SplitJoin(MessageLines(d));
  }

  const WhatsAppNumber := "0633908104"
  const UrlPrefix := "https://wa.me/" + WhatsAppNumber + "?text="

  /**
   * The link that opens a chat with the restaurant's number with `message`
   * typed in; `encode` is the host's percent-encoding of a component.
   */
  function WhatsAppUrl(encode: string -> string, message: string): (url: string)
    ensures |UrlPrefix| <= |url| && url[..|UrlPrefix|] == UrlPrefix
    ensures url[|UrlPrefix|..] == encode(message)
  {
    UrlPrefix + encode(message)
  }

  /** Distinct messages give distinct links, as long as the encoding loses nothing. */
  lemma WhatsAppUrlInjective(encode: string -> string, m1: string, m2: string)
    requires forall a, b :: encode(a) == encode(b) ==> a == b
    ensures WhatsAppUrl(encode, m1) == WhatsAppUrl(encode, m2) ==> m1 == m2
  {
    var u1, u2 := WhatsAppUrl(encode, m1), WhatsAppUrl(encode, m2);
    assert u1 == u2 ==> u1[|UrlPrefix|..] == u2[|UrlPrefix|..];
  }

  /** The message for a reservation the checks let through. */
  function BookingMessage(b: Entry, formattedDate: string, submitted: string): string {
    ReservationMessage(Details(b.fullName, b.phone, b.guests, b.time, formattedDate, submitted))
  }
}

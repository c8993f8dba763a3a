/**
 * The reservation form as the page holds it: the five field values, which
 * fields are highlighted as empty, the notice shown above the submit button,
 * the submit button's label and disabled flag, and the work that the page's
 * timers still have to do. Each timer callback is a step method that the
 * host calls when the timer fires.
 */
module BookingForm {
  import opened Wrappers
  import opened Text
  import opened PhoneFormat
  import opened Reservation

  datatype Field = FullName | Phone | Guests | Date | Time
  {
    /** Where the field stands in the highlighter's list. */
    function Index(): (i: nat)
      ensures i < 5
    {
      match this
      case FullName => 0
      case Phone => 1
      case Guests => 2
      case Date => 3
      case Time => 4
    }
  }

  /** The fields the highlighter walks through, in its order. */
  const RequiredFields: seq<Field> := [FullName, Phone, Guests, Date, Time]

  function FieldValue(e: Entry, f: Field): string {
    match f
    case FullName => e.fullName
    case Phone => e.phone
    case Guests => e.guests
    case Date => e.date
    case Time => e.time
  }

  /**
   * How the highlighter decides that a field is empty: the two selects by
   * their raw value, the three inputs after trimming.
   */
  predicate Blank(e: Entry, f: Field) {
    if f == Guests || f == Time then FieldValue(e, f) == [] else Trim(FieldValue(e, f)) == []
  }

  /** The fields among `fs` that the highlighter finds empty, gathered in the order of `fs`. */
  function BlankAmong(e: Entry, fs: seq<Field>): set<Field>
    decreases |fs|
  {
    if fs == [] then {}
    else
      var last := fs[|fs| - 1];
      BlankAmong(e, fs[..|fs| - 1]) + (if Blank(e, last) then {last} else {})
  }

  lemma BlankAmongStep(e: Entry, fs: seq<Field>, i: nat)
    requires i < |fs|
    ensures BlankAmong(e, fs[..i + 1]) == BlankAmong(e, fs[..i]) + (if Blank(e, fs[i]) then {fs[i]} else {})
  {
    assert fs[..i + 1][..i] == fs[..i];
  }

  function BlankFields(e: Entry): set<Field> {
    BlankAmong(e, RequiredFields)
  }

  lemma {:induction false} BlankAmongIff(e: Entry, fs: seq<Field>, f: Field)
    ensures f in BlankAmong(e, fs) <==> f in fs && Blank(e, f)
    decreases |fs|
  {
    if fs != [] {
      var init := fs[..|fs| - 1];
      BlankAmongIff(e, init, f);
      assert fs == init + [fs[|fs| - 1]];
    }
  }

  /** Every field is a required one, so the highlighter marks exactly the blank fields. */
  lemma BlankFieldsIff(e: Entry, f: Field)
    ensures f in BlankFields(e) <==> Blank(e, f)
  {
    BlankAmongIff(e, RequiredFields, f);
    assert f == RequiredFields[f.Index()];
  }

  /**
   * The highlighter marks the name, phone, guest and time fields exactly
   * when they make the presence check fail, and the date field at least
   * then: the presence check reads the date untrimmed, the highlighter
   * trimmed.
   */
  lemma HighlightMarksMissing(e: Entry)
    ensures Trim(e.fullName) == [] <==> FullName in BlankFields(e)
    ensures Trim(e.phone) == [] <==> Phone in BlankFields(e)
    ensures e.guests == [] <==> Guests in BlankFields(e)
    ensures e.date == [] ==> Date in BlankFields(e)
    ensures e.time == [] <==> Time in BlankFields(e)
  {
    TrimFront(e.date);
    BlankFieldsIff(e, FullName);
    BlankFieldsIff(e, Phone);
    BlankFieldsIff(e, Guests);
    BlankFieldsIff(e, Date);
    BlankFieldsIff(e, Time);
  }

  /**
   * Whenever the presence check fails the highlighter marks some field,
   * and a highlight on any field other than the date means that the
   * presence check failed.
   */
  lemma HighlightCoversMissing(e: Entry)
    ensures AnyMissing(e) ==> BlankFields(e) != {}
    ensures (BlankFields(e) - {Date}) != {} ==> AnyMissing(e)
  {
    HighlightMarksMissing(e);
    var b := BlankFields(e);
    assert forall f :: f in b - {Date} ==> f == FullName || f == Phone || f == Guests || f == Time;
  }

  /** A notice on the page; `id` tells apart notices that read the same. */
  datatype Notice = Notice(id: nat, kind: Kind, text: string)

  /** The first notice with id `id` taken off the page, if it is still there. */
  function Detach(ns: seq<Notice>, id: nat): (r: seq<Notice>)
    ensures |r| <= |ns|
    ensures forall k :: 0 <= k < |r| ==> r[k] in ns
    ensures (forall k :: 0 <= k < |ns| ==> ns[k].id != id) ==> r == ns
    ensures (exists k :: 0 <= k < |ns| && ns[k].id == id) ==> |r| == |ns| - 1
    ensures |ns| <= 1 ==> forall k :: 0 <= k < |r| ==> r[k].id != id
  {
    if ns == [] then []
    else if ns[0].id == id then ns[1..]
    else [ns[0]] + Detach(ns[1..], id)
  }

  /** The entry with field `f` set to `v` and the other four as they were. */
  function WithField(e: Entry, f: Field, v: string): (r: Entry)
    ensures FieldValue(r, f) == v
    ensures forall g :: g != f ==> FieldValue(r, g) == FieldValue(e, g)
  {
    match f
    case FullName => e.(fullName := v)
    case Phone => e.(phone := v)
    case Guests => e.(guests := v)
    case Date => e.(date := v)
    case Time => e.(time := v)
  }

  /** The values after the form's reset. */
  const EmptyEntry := Entry("", "", "", "", "")

  /** A send waiting for its timer: the link to open, and the label to put back. */
  datatype PendingSend = PendingSend(url: string, restoreLabel: string)

  /** The submit button: its inner markup and whether it is disabled. */
  datatype Button = Button(caption: string, disabled: bool)

  const SendingLabel := "<i class=\"fa-solid fa-spinner fa-spin\"></i> Sending..."

  class Form {
    /** What the five fields hold. */
    var values: Entry
    /** Fields drawn with the error border. */
    var highlighted: set<Field>
    /** The notice elements on the page, in document order. */
    var notices: seq<Notice>
    var nextNotice: nat
    /** Ids of the success notices whose removal timer is still running, oldest first. */
    var dismissals: seq<nat>
    var button: Button
    /** Sends whose timer is still running, oldest first. */
    var pendingSends: seq<PendingSend>
    /** The links handed to the browser to open, oldest first. */
    var openedLinks: seq<string>

    /**
     * At most one notice is on the page; ids handed out so far are below
     * `nextNotice`; only success notices have a removal scheduled; and a
     * disabled button shows the spinner.
     */
    ghost predicate Valid()
      reads this
    {
      |notices| <= 1
      && (forall k :: 0 <= k < |notices| ==> notices[k].id < nextNotice)
      && (forall k :: 0 <= k < |dismissals| ==> dismissals[k] < nextNotice)
      && (forall k :: 0 <= k < |notices| && notices[k].id in dismissals ==> notices[k].kind == Success)
      && (button.disabled ==> button.caption == SendingLabel && pendingSends != [])
    }

    /** An empty form whose submit button reads `idleLabel`. */
    constructor (idleLabel: string)
      ensures Valid()
      ensures values == EmptyEntry && highlighted == {}
      ensures notices == [] && nextNotice == 0 && dismissals == []
      ensures button == Button(idleLabel, false) && pendingSends == [] && openedLinks == []
    {
      values, highlighted := EmptyEntry, {};
      notices, nextNotice, dismissals := [], 0, [];
      button, pendingSends, openedLinks := Button(idleLabel, false), [], [];
    }

    /**
     * The user edits field `f` so that it holds `raw`: its highlight goes,
     * and the phone field shows its text as the formatter lays it out.
     */
    method Input(f: Field, raw: string)
      requires Valid()
      modifies this
      ensures Valid()
      ensures values == WithField(old(values), f, if f == Phone then Formatted(raw) else raw)
      ensures highlighted == old(highlighted) - {f}
      ensures notices == old(notices) && nextNotice == old(nextNotice) && dismissals == old(dismissals)
      ensures button == old(button) && pendingSends == old(pendingSends) && openedLinks == old(openedLinks)
    {
      var shown := raw;
      if f == Phone {
        shown := FormatPhoneInput(raw);
      }
      values, highlighted := WithField(values, f, shown), highlighted - {f};
    }

    /**
     * Replaces whatever notice is on the page by a new one; a success notice
     * also gets its removal timer.
     */
    method ShowMessage(text: string, kind: Kind)
      requires Valid()
      modifies this
      ensures Valid()
      ensures notices == [Notice(old(nextNotice), kind, text)] && nextNotice == old(nextNotice) + 1
      ensures dismissals == old(dismissals) + (if kind == Success then [old(nextNotice)] else [])
      ensures values == old(values) && highlighted == old(highlighted)
      ensures button == old(button) && pendingSends == old(pendingSends) && openedLinks == old(openedLinks)
    {
      // the page's lookup finds the first notice element, if any
      var kept := if |notices| > 0 then notices[1..] else notices;
      var n := Notice(nextNotice, kind, text);
      notices, nextNotice := kept + [n], nextNotice + 1;
      if kind == Success {
        dismissals := dismissals + [n.id];
      }
    }

    /**
     * The removal timer of the oldest success notice fires: that notice
     * leaves the page if it is still there; any other notice, in particular
     * an error notice, stays.
     */
    method FireSuccessDismiss()
      requires Valid() && dismissals != []
      modifies this
      ensures Valid()
      ensures dismissals == old(dismissals[1..])
      ensures notices == Detach(old(notices), old(dismissals[0]))
      ensures old(notices) == [] || old(notices[0].id) != old(dismissals[0]) ==> notices == old(notices)
      ensures old(notices) != [] && old(notices[0].id) == old(dismissals[0]) ==> notices == []
      ensures old(notices) != [] && old(notices[0].kind) == Error ==> notices == old(notices)
      ensures values == old(values) && highlighted == old(highlighted) && nextNotice == old(nextNotice)
      ensures button == old(button) && pendingSends == old(pendingSends) && openedLinks == old(openedLinks)
    {
      var id := dismissals[0];
      dismissals, notices := dismissals[1..], Detach(notices, id);
    }

    /** Marks every required field the highlighter finds empty; other highlights stay. */
    method HighlightEmptyFields()
      requires Valid()
      modifies this
      ensures Valid()
      ensures highlighted == old(highlighted) + BlankFields(values)
      ensures values == old(values) && notices == old(notices) && nextNotice == old(nextNotice)
      ensures dismissals == old(dismissals)
      ensures button == old(button) && pendingSends == old(pendingSends) && openedLinks == old(openedLinks)
    {
      var e := values;
      var marked := highlighted;
      var i := 0;
      while i < |RequiredFields|
        modifies {}
        invariant 0 <= i <= |RequiredFields|
        invariant marked == old(highlighted) + BlankAmong(e, RequiredFields[..i])
      {
        var f := RequiredFields[i];
        var value := FieldValue(e, f);
        if Trim(value) == [] && f != Guests && f != Time {
          marked := marked + {f};
        } else if (f == Guests || f == Time) && value == [] {
          marked := marked + {f};
        }
        BlankAmongStep(e, RequiredFields, i);
        i := i + 1;
      }
      assert RequiredFields[..i] == RequiredFields;
      highlighted := marked;
    }

    /**
     * Puts the button into its sending state and starts the timer that will
     * open the WhatsApp link for the reservation `b`.
     */
    method SendWhatsAppReservation(b: Entry, formattedDate: string, submitted: string, encode: string -> string)
      requires Valid()
      modifies this
      ensures Valid()
      ensures button == Button(SendingLabel, true)
      ensures pendingSends == old(pendingSends)
        + [PendingSend(WhatsAppUrl(encode, BookingMessage(b, formattedDate, submitted)), old(button.caption))]
      ensures values == old(values) && highlighted == old(highlighted)
      ensures notices == old(notices) && nextNotice == old(nextNotice) && dismissals == old(dismissals)
      ensures openedLinks == old(openedLinks)
    {
      var url := WhatsAppUrl(encode, BookingMessage(b, formattedDate, submitted));
      var originalText := button.caption;
      button := Button(SendingLabel, true);
      pendingSends := pendingSends + [PendingSend(url, originalText)];
    }

    /**
     * The oldest send timer fires: the button gets back the label it had
     * before that send and is enabled, the link is opened, the success
     * notice is shown, the form is emptied and every highlight is cleared.
     */
    method FireSendTimer()
      requires Valid() && pendingSends != []
      modifies this
      ensures Valid()
      ensures button == Button(old(pendingSends[0].restoreLabel), false)
      ensures pendingSends == old(pendingSends[1..])
      ensures openedLinks == old(openedLinks) + [old(pendingSends[0].url)]
      ensures notices == [Notice(old(nextNotice), Success, SentText)] && nextNotice == old(nextNotice) + 1
      ensures dismissals == old(dismissals) + [old(nextNotice)]
      ensures values == EmptyEntry && highlighted == {}
    {
      var p := pendingSends[0];
      pendingSends, button := pendingSends[1..], Button(p.restoreLabel, false);
      openedLinks := openedLinks + [p.url];
      ShowMessage(SentText, Success);
      // the form's reset, then every border back to normal
      values, highlighted := EmptyEntry, {};
    }

    /**
     * What the submit handler does once the checks have given `o`: an error
     * notice, with the empty fields highlighted when some are missing, or
     * the send of the trimmed reservation.
     */
    method Respond(o: Outcome, formattedDate: string, submitted: string, encode: string -> string)
      requires Valid()
      modifies this
      ensures Valid()
      ensures values == old(values) && openedLinks == old(openedLinks)
      ensures o.Send? ==>
        && notices == old(notices) && nextNotice == old(nextNotice) && dismissals == old(dismissals)
        && highlighted == old(highlighted)
        && button == Button(SendingLabel, true)
        && pendingSends == old(pendingSends)
          + [PendingSend(WhatsAppUrl(encode, BookingMessage(o.booking, formattedDate, submitted)),
                         old(button.caption))]
      ensures !o.Send? ==>
        && notices == [Notice(old(nextNotice), Error, ErrorText(o).value)]
        && nextNotice == old(nextNotice) + 1 && dismissals == old(dismissals)
        && highlighted == old(highlighted) + (if o == MissingFields then BlankFields(old(values)) else {})
        && button == old(button) && pendingSends == old(pendingSends)
    {
      match o {
        case MissingFields =>
          ShowMessage(MissingText, Error);
          HighlightEmptyFields();
        case InvalidPhone =>
          ShowMessage(PhoneText, Error);
        case PastDate =>
          ShowMessage(DateText, Error);
        case Send(b) =>
          SendWhatsAppReservation(b, formattedDate, submitted, encode);
      }
    }

    /**
     * The form is submitted. `selected` is the host's reading of the date
     * field, `today` the current day, `formattedDate` and `submitted` its
     * renderings of the chosen day and of the present moment, `encode` its
     * percent-encoding.
     */
    method Submit(selected: Option<Day>, today: Day, formattedDate: string, submitted: string,
                  encode: string -> string)
      requires Valid()
      modifies this
      ensures Valid()
      ensures values == old(values) && openedLinks == old(openedLinks)
      ensures var o := Validate(old(values), selected, today);
        && (o.Send? ==>
              && notices == old(notices) && nextNotice == old(nextNotice) && dismissals == old(dismissals)
              && highlighted == old(highlighted)
              && button == Button(SendingLabel, true)
              && pendingSends == old(pendingSends)
                + [PendingSend(WhatsAppUrl(encode, BookingMessage(o.booking, formattedDate, submitted)),
                               old(button.caption))])
        && (!o.Send? ==>
              && notices == [Notice(old(nextNotice), Error, ErrorText(o).value)]
              && nextNotice == old(nextNotice) + 1 && dismissals == old(dismissals)
              && highlighted == old(highlighted) + (if o == MissingFields then BlankFields(old(values)) else {})
              && button == old(button) && pendingSends == old(pendingSends))
    {
      var o := Validate(values, selected, today);
      Respond(o, formattedDate, submitted, encode);
    }
  }
}

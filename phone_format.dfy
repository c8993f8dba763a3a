/**
 * The phone field's `input` handler: every keystroke replaces the field's
 * text by its digits, then puts a space after the first two digits if the
 * text starts with '0', and a space at indexes 5, 8, 11 and 14 of the text
 * built so far for as long as the text is longer than that index. A ten-digit
 * number starting with '0' comes out in five pairs ("06 12 34 56 78").
 */
module PhoneFormat {
  import opened Text
  import opened PhoneNumber

  /** `substring(0, at) + ' ' + substring(at)` for an index inside the text. */
  function InsertSpace(s: string, at: nat): (r: string)
    requires at <= |s|
    ensures |r| == |s| + 1 && r[at] == ' '
  {
    s[..at] + " " + s[at..]
  }

  /** One guarded insertion: a space goes in at index `at` if the text is longer than `at`. */
  function SpaceAt(s: string, at: nat): string {
    if |s| > at then InsertSpace(s, at) else s
  }

  /**
   * The unguarded first insertion for a text starting with '0'; `substring`
   * clamps its index, so "0" becomes "0 " and "06" becomes "06 ".
   */
  function Opening(d: string): string {
    if d != [] && d[0] == '0' then InsertSpace(d, if |d| < 2 then |d| else 2) else d
  }

  /** The indexes of the guarded insertions, in the order the handler makes them. */
  const Guards: seq<nat> := [5, 8, 11, 14]

  /** The guarded insertions at each of `ats`, in order. */
  function SpaceAtEach(s: string, ats: seq<nat>): string
    decreases |ats|
  {
    if ats == [] then s else SpaceAtEach(SpaceAt(s, ats[0]), ats[1..])
  }

  /** The non-empty digit string `d` as the handler lays it out. */
  function Grouped(d: string): string {
    SpaceAtEach(Opening(d), Guards)
  }

  /**
   * What the field shows after an `input` event whose text was `raw`: its
   * digits with at most one space from each of the five insertions.
   */
  function Formatted(raw: string): (r: string)
    ensures |DigitsOf(raw)| <= |r| <= |DigitsOf(raw)| + 1 + |Guards|
  {
    var d := DigitsOf(raw);
    if d == [] then []
    else
      SpaceAtEachLength(Opening(d), Guards);
      Grouped(d)
  }

  /** Each guarded insertion adds one character or none. */
  lemma {:induction false} SpaceAtEachLength(s: string, ats: seq<nat>)
    decreases |ats|
    ensures |s| <= |SpaceAtEach(s, ats)| <= |s| + |ats|
  {
    if ats != [] {
      SpaceAtEachLength(SpaceAt(s, ats[0]), ats[1..]);
    }
  }

  lemma GuardsInOrder(s: string)
    ensures SpaceAtEach(s, Guards) == SpaceAt(SpaceAt(SpaceAt(SpaceAt(s, 5), 8), 11), 14)
  {
    var s1 := SpaceAt(s, 5);
    var s2 := SpaceAt(s1, 8);
    var s3 := SpaceAt(s2, 11);
    assert Guards[1..] == [8, 11, 14] && Guards[1..][1..] == [11, 14] && Guards[1..][1..][1..] == [14];
    assert SpaceAtEach(s3, [14]) == SpaceAt(s3, 14);
    assert SpaceAtEach(s2, [11, 14]) == SpaceAtEach(s3, [14]);
    assert SpaceAtEach(s1, [8, 11, 14]) == SpaceAtEach(s2, [11, 14]);
  }

  /** The handler as written: strip the non-digits, then the chain of insertions. */
  method FormatPhoneInput(raw: string) returns (value: string)
    ensures value == Formatted(raw)
  {
    value := DigitsOf(raw);
    if |value| > 0 {
      ghost var d := value;
      if value[0] == '0' {
        // substring(0, 2) and substring(2) clamp to the text's length
        var cut := if |value| < 2 then |value| else 2;
        value := value[..cut] + " " + value[cut..];
      }
      GuardsInOrder(value);
      if |value| > 5 {
        value := value[..5] + " " + value[5..];
      }
      if |value| > 8 {
        value := value[..8] + " " + value[8..];
      }
      if |value| > 11 {
        value := value[..11] + " " + value[11..];
      }
      if |value| > 14 {
        value := value[..14] + " " + value[14..];
      }
    }
  }

  /** What the phone field can hold once the handler has run: digits and spaces only. */
  predicate DigitsAndSpaces(s: string) {
    forall i :: 0 <= i < |s| ==> IsDigit(s[i]) || s[i] == ' '
  }

  lemma DigitsAndSpacesAppend(a: string, b: string)
    requires DigitsAndSpaces(a) && DigitsAndSpaces(b)
    ensures DigitsAndSpaces(a + b)
  {
    assert forall i :: |a| <= i < |a + b| ==> (a + b)[i] == b[i - |a|];
  }

  /** An inserted space changes neither the digits nor the non-space characters of a text. */
  lemma InsertKeeps(s: string, at: nat)
    requires at <= |s|
    ensures WithoutSpaces(InsertSpace(s, at)) == WithoutSpaces(s)
    ensures DigitsOf(InsertSpace(s, at)) == DigitsOf(s)
    ensures DigitsAndSpaces(s) ==> DigitsAndSpaces(InsertSpace(s, at))
  {
    InsertKeepsText(s, at);
    InsertKeepsDigits(s, at);
    InsertKeepsClass(s, at);
  }

  lemma InsertKeepsText(s: string, at: nat)
    requires at <= |s|
    ensures WithoutSpaces(InsertSpace(s, at)) == WithoutSpaces(s)
  {
    var a, b, sb := s[..at], s[at..], " " + s[at..];
    assert s == a + b && InsertSpace(s, at) == a + sb;
    assert sb[1..] == b;
    assert WithoutSpaces(sb) == WithoutSpaces(b);
    WithoutSpacesAppend(a, sb);
    WithoutSpacesAppend(a, b);
  }

  lemma InsertKeepsDigits(s: string, at: nat)
    requires at <= |s|
    ensures DigitsOf(InsertSpace(s, at)) == DigitsOf(s)
  {
    var a, b, sb := s[..at], s[at..], " " + s[at..];
    assert s == a + b && InsertSpace(s, at) == a + sb;
    assert sb[1..] == b;
    assert DigitsOf(sb) == DigitsOf(b);
    DigitsOfAppend(a, sb);
    DigitsOfAppend(a, b);
  }

  lemma InsertKeepsClass(s: string, at: nat)
    requires at <= |s|
    ensures DigitsAndSpaces(s) ==> DigitsAndSpaces(InsertSpace(s, at))
  {
    var r := InsertSpace(s, at);
    assert forall i :: 0 <= i < at ==> r[i] == s[i];
    assert forall i :: at < i < |r| ==> r[i] == s[i - 1];
  }

  /** `InsertKeeps` for the guarded insertion. */
  lemma SpaceAtKeeps(s: string, at: nat)
    ensures WithoutSpaces(SpaceAt(s, at)) == WithoutSpaces(s)
    ensures DigitsOf(SpaceAt(s, at)) == DigitsOf(s)
    ensures DigitsAndSpaces(s) ==> DigitsAndSpaces(SpaceAt(s, at))
  {
    if |s| > at {
      InsertKeeps(s, at);
    }
  }

  lemma {:induction false} SpaceAtEachKeeps(s: string, ats: seq<nat>)
    decreases |ats|
    ensures WithoutSpaces(SpaceAtEach(s, ats)) == WithoutSpaces(s)
    ensures DigitsOf(SpaceAtEach(s, ats)) == DigitsOf(s)
    ensures DigitsAndSpaces(s) ==> DigitsAndSpaces(SpaceAtEach(s, ats))
  {
    if ats != [] {
      SpaceAtKeeps(s, ats[0]);
      SpaceAtEachKeeps(SpaceAt(s, ats[0]), ats[1..]);
    }
  }

  /**
   * The handler keeps exactly the digits that were typed, in order, and
   * leaves nothing but digits and spaces: a '+' never survives.
   */
  lemma FormattedKeepsDigits(raw: string)
    ensures WithoutSpaces(Formatted(raw)) == DigitsOf(raw)
    ensures DigitsOf(Formatted(raw)) == DigitsOf(raw)
    ensures DigitsAndSpaces(Formatted(raw)) && '+' !in Formatted(raw)
  {
    var d := DigitsOf(raw);
    if d != [] {
      DigitsOfDigits(raw);
      DigitsFixed(d);
      if d[0] == '0' {
        InsertKeeps(d, if |d| < 2 then |d| else 2);
      }
      SpaceAtEachKeeps(Opening(d), Guards);
    }
  }

  /** Running the handler again on what it produced changes nothing. */
  lemma FormattedIdempotent(raw: string)
    ensures Formatted(Formatted(raw)) == Formatted(raw)
  {
    FormattedKeepsDigits(raw);
  }

  /** Every index in `ats` is at least `n`. */
  predicate AtLeast(ats: seq<nat>, n: nat) {
    forall k :: 0 <= k < |ats| ==> ats[k] >= n
  }

  /** Guarded insertions beyond the end of a text leave it alone. */
  lemma {:induction false} SpaceAtEachShort(s: string, ats: seq<nat>)
    decreases |ats|
    requires AtLeast(ats, |s|)
    ensures SpaceAtEach(s, ats) == s
  {
    if ats != [] {
      assert AtLeast(ats[1..], |s|);
      SpaceAtEachShort(s, ats[1..]);
    }
  }

  /** "0" and "0d" are shown with a trailing space, from the unguarded first insertion. */
  lemma ShortNationalTrailingSpace(raw: string)
    requires var d := DigitsOf(raw); d != [] && d[0] == '0' && |d| <= 2
    ensures Formatted(raw) == DigitsOf(raw) + " "
  {
    var d := DigitsOf(raw);
    assert d[..|d|] == d && d[|d|..] == [];
    assert Opening(d) == d + " ";
    SpaceAtEachShort(d + " ", Guards);
  }

  /** A guarded insertion at `at` leaves the characters before `at` where they were. */
  lemma SpaceAtKeepsFront(s: string, at: nat, i: nat)
    requires i < at && i < |s|
    ensures |SpaceAt(s, at)| >= |s| && SpaceAt(s, at)[i] == s[i]
  {
  }

  /** Guarded insertions beyond index `i` leave the character at `i` where it was. */
  lemma {:induction false} SpaceAtEachKeepsFront(s: string, ats: seq<nat>, i: nat)
    decreases |ats|
    requires i < |s| && AtLeast(ats, i + 1)
    ensures |SpaceAtEach(s, ats)| >= |s| && SpaceAtEach(s, ats)[i] == s[i]
  {
    if ats != [] {
      SpaceAtKeepsFront(s, ats[0], i);
      assert AtLeast(ats[1..], i + 1);
      SpaceAtEachKeepsFront(SpaceAt(s, ats[0]), ats[1..], i);
    }
  }

  /** The first character shown is the first digit typed. */
  lemma FormattedStart(raw: string)
    requires DigitsOf(raw) != []
    ensures Formatted(raw) != [] && Formatted(raw)[0] == DigitsOf(raw)[0]
  {
    var o := Opening(DigitsOf(raw));
    assert AtLeast(Guards, 1);
    SpaceAtEachKeepsFront(o, Guards, 0);
  }

  /** The field is empty exactly when no digit was typed, and otherwise starts with no space. */
  lemma FormattedFront(raw: string)
    ensures DigitsOf(raw) == [] <==> Formatted(raw) == []
    ensures Formatted(raw) != [] ==> !IsJsSpace(Formatted(raw)[0])
  {
    var d := DigitsOf(raw);
    if d != [] {
      FormattedStart(raw);
      DigitsOfDigits(raw);
      DigitNotSpace(d[0]);
    }
  }

  /** With a leading '0', the third character shown is the space after the first pair. */
  lemma NationalThirdIsSpace(raw: string)
    requires var d := DigitsOf(raw); d != [] && d[0] == '0'
    ensures |Formatted(raw)| <= 3 || Formatted(raw)[2] == ' '
  {
    var o := Opening(DigitsOf(raw));
    assert AtLeast(Guards, 3);
    if |o| > 3 {
      SpaceAtEachKeepsFront(o, Guards, 2);
    } else {
      SpaceAtEachShort(o, Guards);
    }
  }

  /** A ten-digit national number `d` as the field shows it: five pairs, one space apart. */
  function FivePairs(d: string): (r: string)
    requires |d| == 10
    ensures |r| == 14
  {
    [d[0], d[1], ' ', d[2], d[3], ' ', d[4], d[5], ' ', d[6], d[7], ' ', d[8], d[9]]
  }

  /** An insertion two characters into the untouched rest of the digits closes one more pair. */
  lemma PairStep(p: string, d: string, i: nat)
    requires i + 2 < |d|
    ensures SpaceAt(p + d[i..], |p| + 2) == p + [d[i], d[i + 1], ' '] + d[i + 2..]
  {
    var s := p + d[i..];
    assert s[..|p| + 2] == p + [d[i], d[i + 1]];
    assert s[|p| + 2..] == d[i + 2..];
  }

  /** The last guarded insertion finds a ten-digit national number already complete. */
  lemma LastPair(p4: string, d: string)
    requires |d| == 10 && p4 == [d[0], d[1], ' ', d[2], d[3], ' ', d[4], d[5], ' ', d[6], d[7], ' ']
    ensures SpaceAt(p4 + d[8..], 14) == FivePairs(d)
  {
    assert p4 + d[8..] == FivePairs(d);
  }

  /** A ten-digit digit string with a leading '0' is laid out in five pairs. */
  lemma NationalGrouped(d: string)
    requires |d| == 10 && d[0] == '0'
    ensures Grouped(d) == FivePairs(d)
  {
    var o := Opening(d);
    var p1 := [d[0], d[1], ' '];
    assert o == p1 + d[2..];
    GuardsInOrder(o);
    PairStep(p1, d, 2);
    var p2 := p1 + [d[2], d[3], ' '];
    var s1 := SpaceAt(o, 5);
    assert s1 == p2 + d[4..];
    PairStep(p2, d, 4);
    var p3 := p2 + [d[4], d[5], ' '];
    var s2 := SpaceAt(s1, 8);
    assert s2 == p3 + d[6..];
    PairStep(p3, d, 6);
    var p4 := p3 + [d[6], d[7], ' '];
    var s3 := SpaceAt(s2, 11);
    assert s3 == p4 + d[8..];
    LastPair(p4, d);
  }

  /** A ten-digit number typed with a leading '0' is shown in five pairs. */
  lemma NationalShape(raw: string)
    requires var d := DigitsOf(raw); |d| == 10 && d[0] == '0'
    ensures Formatted(raw) == FivePairs(DigitsOf(raw))
  {
    NationalGrouped(DigitsOf(raw));
  }

  /**
   * The digit strings that leave the phone field accepted by the pattern:
   * '0', a digit 1-9, then eight more digits.
   */
  predicate NationalNumber(d: string) {
    |d| == 10 && AllDigits(d) && d[0] == '0' && IsLeadDigit(d[1])
  }

  lemma {:induction false} SeparatorsHaveNoDigits(s: string, cls: CharClass)
    requires AllIn(s, cls)
    ensures DigitsOf(s) == []
  {
    if s != [] {
      SeparatorsHaveNoDigits(s[1..], cls);
    }
  }

  lemma {:induction false} GroupDigitsCount(gs: seq<Group>)
    requires GroupsOk(gs)
    ensures |DigitsOf(RenderGroups(gs))| == 2 * |gs|
  {
    if gs != [] {
      var g := gs[0];
      GroupDigitsCount(gs[1..]);
      SeparatorsHaveNoDigits(g.sep, Separator);
      DigitsFixed(g.pair);
      DigitsOfAppend(g.sep + g.pair, RenderGroups(gs[1..]));
      DigitsOfAppend(g.sep, g.pair);
    }
  }

  /** A number written with the national prefix holds ten digits: '0', the leading digit, four pairs. */
  lemma NationalRenderDigits(p: PhoneParts)
    requires WellFormed(p) && p.prefix == "0"
    ensures var e := DigitsOf(Render(p)); |e| == 10 && e[0] == '0' && e[1] == p.lead
  {
    var rest := RenderGroups(p.groups);
    GroupDigitsCount(p.groups);
    SeparatorsHaveNoDigits(p.gap, Space);
    assert Render(p) == (("0" + p.gap) + [p.lead]) + rest;
    DigitsOfAppend(("0" + p.gap) + [p.lead], rest);
    DigitsOfAppend("0" + p.gap, [p.lead]);
    DigitsOfAppend("0", p.gap);
  }

  /** Rendering and checking a list of groups, one group at a time. */
  lemma GroupsCons(g: Group, gs: seq<Group>)
    ensures RenderGroups([g] + gs) == g.sep + g.pair + RenderGroups(gs)
    ensures GroupsOk([g] + gs) <==> GroupOk(g) && GroupsOk(gs)
  {
    assert ([g] + gs)[1..] == gs;
  }

  /** The digit pair `d[i]`, `d[i + 1]` after one space. */
  function SpacedPair(d: string, i: nat): (g: Group)
    requires i + 1 < |d| && IsDigit(d[i]) && IsDigit(d[i + 1])
    ensures GroupOk(g) && g.sep + g.pair == [' ', d[i], d[i + 1]]
  {
    Group(" ", [d[i], d[i + 1]])
  }

  /** The parts the pattern finds in `FivePairs(d)`: prefix "0", no gap, four pairs after single spaces. */
  function NationalParts(d: string): (p: PhoneParts)
    requires NationalNumber(d)
    ensures WellFormed(p) && Render(p) == FivePairs(d)
  {
    var g1, g2, g3, g4 := SpacedPair(d, 2), SpacedPair(d, 4), SpacedPair(d, 6), SpacedPair(d, 8);
    GroupsCons(g4, []);
    GroupsCons(g3, [g4]);
    GroupsCons(g2, [g3, g4]);
    GroupsCons(g1, [g2, g3, g4]);
    assert [g1] + [g2, g3, g4] == [g1, g2, g3, g4];
    assert [g2] + [g3, g4] == [g2, g3, g4];
    assert [g3] + [g4] == [g3, g4];
    PhoneParts("0", "", d[1], [g1, g2, g3, g4])
  }

  lemma FivePairsTrimmed(d: string)
    requires NationalNumber(d)
    ensures Trim(FivePairs(d)) == FivePairs(d)
  {
    assert IsDigit(d[9]);
    TrimKeeps(FivePairs(d));
  }

  /** A national number typed into the field passes the pattern once trimmed. */
  lemma NationalAccepted(raw: string)
    requires NationalNumber(DigitsOf(raw))
    ensures IsMoroccanPhone(Trim(Formatted(raw)))
  {
    var d := DigitsOf(raw);
    NationalShape(raw);
    FivePairsTrimmed(d);
    ParseRender(NationalParts(d));
  }

  /** The field never starts with whitespace, so trimming only cuts its end. */
  lemma FormattedTrimStart(raw: string)
    requires Trim(Formatted(raw)) != []
    ensures DigitsOf(raw) != []
    ensures var f, t := Formatted(raw), Trim(Formatted(raw)); |t| <= |f| && t == f[..|t|]
  {
    FormattedFront(raw);
    TrimFront(Formatted(raw));
  }

  /**
   * A number the pattern took apart out of the start of a field that begins
   * with the digit typed first, and holds a space third when that digit is
   * '0', was written with the national prefix.
   */
  lemma OnlyNationalPrefix(p: PhoneParts, f: string, c: char)
    requires WellFormed(p) && |Render(p)| <= |f| && Render(p) == f[..|Render(p)|]
    requires f != [] && f[0] == c && IsDigit(c)
    requires c == '0' ==> |f| <= 3 || f[2] == ' '
    ensures p.prefix == "0"
  {
    var t := Render(p);
    assert t[..|p.prefix|] == p.prefix;
    assert t[0] == f[0];
    assert |t| <= 2 || t[2] == f[2];
  }

  /** Whatever passes the pattern after formatting and trimming was a national number. */
  lemma AcceptedIsNational(raw: string)
    requires IsMoroccanPhone(Trim(Formatted(raw)))
    ensures NationalNumber(DigitsOf(raw))
  {
    var d, f := DigitsOf(raw), Formatted(raw);
    var t := Trim(f);
    var p := ParsePhone(t).value;
    assert WellFormed(p) && Render(p) == t;
    FormattedTrimStart(raw);
    FormattedStart(raw);
    if d[0] == '0' {
      NationalThirdIsSpace(raw);
    }
    DigitsOfDigits(raw);
    OnlyNationalPrefix(p, f, d[0]);
    FormattedKeepsDigits(raw);
    TrimKeepsDigits(f);
    NationalRenderDigits(p);
  }

  /**
   * The phone check after formatting: the trimmed field passes the pattern
   * exactly when the digits typed form a national number. A number typed
   * with "+212" or "00212" loses its '+' or gains extra digits, and fails.
   */
  lemma PhoneFieldAcceptedIff(raw: string)
    ensures IsMoroccanPhone(Trim(Formatted(raw))) <==> NationalNumber(DigitsOf(raw))
  {
    if NationalNumber(DigitsOf(raw)) {
      NationalAccepted(raw);
    }
    if IsMoroccanPhone(Trim(Formatted(raw))) {
      AcceptedIsNational(raw);
    }
  }

  /** "0612345678" is shown as "06 12 34 56 78". */
  lemma FormatsExample(raw: string)
    requires raw == "0612345678"
    ensures Formatted(raw) == "06 12 34 56 78"
  {
    DigitsFixed(raw);
    NationalShape(raw);
  }

  /** Digits that begin "212" or "00212" are not a national number. */
  lemma InternationalNotNational(d: string)
    requires (|d| >= 3 && d[..3] == "212") || (|d| >= 5 && d[..5] == "00212")
    ensures !NationalNumber(d)
  {
    if |d| >= 3 && d[..3] == "212" {
      assert d[0] == d[..3][0];
    } else {
      assert d[1] == d[..5][1];
    }
  }

  /**
   * A number typed with its international prefix, "+212" or "00212", never
   * passes the phone check: the field keeps only its digits, and those do
   * not form a national number.
   */
  lemma InternationalFormRejected(raw: string)
    requires var d := DigitsOf(raw); (|d| >= 3 && d[..3] == "212") || (|d| >= 5 && d[..5] == "00212")
    ensures !IsMoroccanPhone(Trim(Formatted(raw)))
  {
    InternationalNotNational(DigitsOf(raw));
    PhoneFieldAcceptedIff(raw);
  }
}

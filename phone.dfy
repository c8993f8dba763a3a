/**
 * The Moroccan phone-number pattern the reservation form tests the trimmed
 * phone field against:
 *   ^(?:(?:\+|00)212|0)\s*[1-9](?:[\s.-]*\d{2}){4}$
 * A number is taken apart into its parts (prefix, gap, leading digit, four
 * separated digit pairs); `Render` puts parts back together. The pattern
 * accepts a string exactly when some well-formed parts render to it.
 */
module PhoneNumber {
  import opened Wrappers
  import opened Text

  /** The three alternatives of `(?:(?:\+|00)212|0)`. */
  const Prefixes: seq<string> := ["+212", "00212", "0"]

  /** The class `[\s.-]`. */
  predicate IsSeparator(c: char) {
    IsJsSpace(c) || c == '.' || c == '-'
  }

  /** The class `[1-9]`. */
  predicate IsLeadDigit(c: char) {
    '1' <= c <= '9'
  }

  /** The pattern's `{4}`: the number of digit pairs after the leading digit. */
  const GroupCount: nat := 4

  /** One `[\s.-]*\d{2}` repetition. */
  datatype Group = Group(sep: string, pair: string)

  datatype PhoneParts = PhoneParts(prefix: string, gap: string, lead: char, groups: seq<Group>)

  predicate GroupOk(g: Group) {
    AllIn(g.sep, Separator) && |g.pair| == 2 && IsDigit(g.pair[0]) && IsDigit(g.pair[1])
  }

  predicate GroupsOk(gs: seq<Group>) {
    gs == [] || (GroupOk(gs[0]) && GroupsOk(gs[1..]))
  }

  predicate WellFormed(p: PhoneParts) {
    p.prefix in Prefixes && AllIn(p.gap, Space) && IsLeadDigit(p.lead)
    && |p.groups| == GroupCount && GroupsOk(p.groups)
  }

  function RenderGroups(gs: seq<Group>): string {
    if gs == [] then [] else gs[0].sep + gs[0].pair + RenderGroups(gs[1..])
  }

  function Render(p: PhoneParts): string {
    p.prefix + p.gap + [p.lead] + RenderGroups(p.groups)
  }

  /** The two repeated classes of the pattern: `\s` and `[\s.-]`. */
  datatype CharClass = Space | Separator

  predicate InClass(c: char, cls: CharClass) {
    match cls
    case Space => IsJsSpace(c)
    case Separator => IsSeparator(c)
  }

  /** Every character of `s` is in `cls`: `s` matches `cls*`. */
  predicate AllIn(s: string, cls: CharClass) {
    s == [] || (InClass(s[0], cls) && AllIn(s[1..], cls))
  }

  /** Length of the longest prefix of `s` drawn from `cls`: how far a greedy `cls*` reaches. */
  function Span(s: string, cls: CharClass): (n: nat)
    ensures n <= |s|
    ensures AllIn(s[..n], cls)
    ensures n == |s| || !InClass(s[n], cls)
  {
    if s != [] && InClass(s[0], cls) then
      var n := 1 + Span(s[1..], cls);
      assert s[..n][1..] == s[1..][..n - 1];
      n
    else
      0
  }

  /**
   * Matches `count` repetitions of `[\s.-]*\d{2}` and then the end of the
   * text; what it returns is well formed and spells out `s` exactly.
   */
  function ParseGroups(s: string, count: nat): (r: Option<seq<Group>>)
    ensures r.Some? ==> |r.value| == count && GroupsOk(r.value) && RenderGroups(r.value) == s
  {
    if count == 0 then
      if s == [] then Some([]) else None
    else
      var n := Span(s, Separator);
      var rest := s[n..];
      if |rest| >= 2 && IsDigit(rest[0]) && IsDigit(rest[1]) then
        var tail := ParseGroups(rest[2..], count - 1);
        if tail.None? then None
        else
          var gs := [Group(s[..n], rest[..2])] + tail.value;
          assert gs[1..] == tail.value;
          assert s == s[..n] + rest[..2] + rest[2..];
          Some(gs)
      else
        None
  }

  /** `p` has the given prefix and its remaining parts are well formed and spell out `rest`. */
  predicate ProperTail(p: PhoneParts, prefix: string, rest: string) {
    p.prefix == prefix && AllIn(p.gap, Space) && IsLeadDigit(p.lead)
    && |p.groups| == GroupCount && GroupsOk(p.groups)
    && p.gap + [p.lead] + RenderGroups(p.groups) == rest
  }

  /** Matches `\s*[1-9](?:[\s.-]*\d{2}){4}$` after the given prefix. */
  function ParseAfterPrefix(prefix: string, s: string): (r: Option<PhoneParts>)
    ensures r.Some? ==> ProperTail(r.value, prefix, s)
  {
    var n := Span(s, Space);
    if n < |s| && IsLeadDigit(s[n]) then
      var groups := ParseGroups(s[n + 1..], GroupCount);
      if groups.None? then None
      else
        assert s == s[..n] + [s[n]] + s[n + 1..];
        Some(PhoneParts(prefix, s[..n], s[n], groups.value))
    else
      None
  }

  /**
   * Matches the whole pattern. The alternatives are tried in order; once a
   * prefix has matched, no other alternative can match the same text (a
   * text starting "00212" cannot continue "0" with `\s*[1-9]`), so no
   * backtracking into the prefix is needed. PhoneAcceptedIff confirms it.
   */
  function ParsePhone(s: string): (r: Option<PhoneParts>)
    ensures r.Some? ==> WellFormed(r.value) && Render(r.value) == s
  {
    var k := PrefixLength(s);
    if k == 0 then None
    else
      var r := ParseAfterPrefix(s[..k], s[k..]);
      if r.None? then None
      else
        RenderAfterPrefix(r.value, s, k);
        r
  }

  /** Length of the prefix alternative that matches at the start of `s`, or 0 when none does. */
  function PrefixLength(s: string): (k: nat)
    ensures k <= |s| && (k == 0 || s[..k] in Prefixes)
  {
    if StartsIntl(s) then
      assert s[..4] == Prefixes[0];
      4
    else if StartsZeroZero(s) then
      assert s[..5] == Prefixes[1];
      5
    else if |s| >= 1 && s[0] == '0' then
      assert s[..1] == Prefixes[2];
      1
    else
      0
  }

  lemma RenderAfterPrefix(p: PhoneParts, s: string, k: nat)
    requires k <= |s| && s[..k] in Prefixes && ProperTail(p, s[..k], s[k..])
    ensures WellFormed(p) && Render(p) == s
  {
    assert s == s[..k] + s[k..];
  }

  /** `s` begins with "+212". */
  predicate StartsIntl(s: string) {
    |s| >= 4 && s[0] == '+' && s[1] == '2' && s[2] == '1' && s[3] == '2'
  }

  /** `s` begins with "00212". */
  predicate StartsZeroZero(s: string) {
    |s| >= 5 && s[0] == '0' && s[1] == '0' && s[2] == '2' && s[3] == '1' && s[4] == '2'
  }

  /**
   * `phoneRegex.test(s)`. An accepted number starts with its prefix's '+' or
   * '0' and ends with the last digit of its last pair.
   */
  predicate IsMoroccanPhone(s: string): (b: bool)
    ensures b ==> s != [] && (s[0] == '+' || s[0] == '0') && IsDigit(s[|s| - 1])
  {
    AcceptedEnds(s);
    ParsePhone(s).Some?
  }

  lemma AcceptedEnds(s: string)
    ensures ParsePhone(s).Some? ==> s != [] && (s[0] == '+' || s[0] == '0') && IsDigit(s[|s| - 1])
  {
    var r := ParsePhone(s);
    if r.Some? {
      RenderEnds(r.value);
    }
  }

  lemma RenderEnds(p: PhoneParts)
    requires WellFormed(p)
    ensures var s := Render(p); s != [] && (s[0] == '+' || s[0] == '0') && IsDigit(s[|s| - 1])
  {
    var t := RenderGroups(p.groups);
    RenderGroupsEnds(p.groups);
    var head := p.prefix + p.gap + [p.lead];
    assert Render(p) == head + t;
    assert p.prefix[0] == '+' || p.prefix[0] == '0' by {
      assert p.prefix == Prefixes[0] || p.prefix == Prefixes[1] || p.prefix == Prefixes[2];
    }
    assert head[0] == p.prefix[0];
  }

  /** The text of one or more well-formed groups ends with a digit. */
  lemma {:induction false} RenderGroupsEnds(gs: seq<Group>)
    requires gs != [] && GroupsOk(gs)
    ensures var t := RenderGroups(gs); t != [] && IsDigit(t[|t| - 1])
    decreases |gs|
  {
    var rest := RenderGroups(gs[1..]);
    assert RenderGroups(gs) == gs[0].sep + gs[0].pair + rest;
    if gs[1..] != [] {
      RenderGroupsEnds(gs[1..]);
    } else {
      assert rest == [];
    }
  }

  lemma {:induction false} SpanOver(w: string, t: string, cls: CharClass)
    requires AllIn(w, cls)
    requires t == [] || !InClass(t[0], cls)
    ensures Span(w + t, cls) == |w|
  {
    if w != [] {
      assert (w + t)[1..] == w[1..] + t;
      SpanOver(w[1..], t, cls);
    } else {
      assert w + t == t;
    }
  }

  /** One round of ParseGroups on a text that starts with a well-formed group. */
  lemma ParseGroupsCons(g: Group, more: string, count: nat)
    requires GroupOk(g) && count > 0
    ensures ParseGroups(g.sep + g.pair + more, count)
         == (var t := ParseGroups(more, count - 1);
             if t.None? then None else Some([Group(g.sep, g.pair)] + t.value))
  {
    GroupText(g, more);
  }

  /** Where a well-formed group's text splits, and how far its separator run reaches. */
  lemma GroupText(g: Group, more: string)
    requires GroupOk(g)
    ensures var s := g.sep + g.pair + more;
      Span(s, Separator) == |g.sep| && s[..|g.sep|] == g.sep
      && |s[|g.sep|..]| >= 2 && IsDigit(s[|g.sep|..][0]) && IsDigit(s[|g.sep|..][1])
      && s[|g.sep|..][..2] == g.pair && s[|g.sep|..][2..] == more
  {
    var s := g.sep + g.pair + more;
    var tail := g.pair + more;
    assert s == g.sep + tail;
    SpanOver(g.sep, tail, Separator);
    assert s[|g.sep|..] == tail;
    assert tail[..2] == g.pair && tail[2..] == more;
  }

  lemma {:induction false} ParseRenderGroups(gs: seq<Group>)
    requires GroupsOk(gs)
    ensures ParseGroups(RenderGroups(gs), |gs|) == Some(gs)
  {
    if gs != [] {
      var g := gs[0];
      ParseGroupsCons(g, RenderGroups(gs[1..]), |gs|);
      ParseRenderGroups(gs[1..]);
      assert [Group(g.sep, g.pair)] + gs[1..] == gs;
    }
  }

  lemma ParseAfterPrefixRender(p: PhoneParts)
    requires WellFormed(p)
    ensures ParseAfterPrefix(p.prefix, p.gap + [p.lead] + RenderGroups(p.groups)) == Some(p)
  {
    var body := [p.lead] + RenderGroups(p.groups);
    var s := p.gap + body;
    assert s == p.gap + [p.lead] + RenderGroups(p.groups);
    SpanOver(p.gap, body, Space);
    assert s[|p.gap|] == p.lead;
    assert s[|p.gap| + 1..] == RenderGroups(p.groups);
    assert s[..|p.gap|] == p.gap;
    ParseRenderGroups(p.groups);
  }

  /**
   * The prefix of a rendering is found again: in particular a rendering
   * with prefix "0" never looks like "00212", since what follows its "0"
   * is whitespace or a digit 1-9.
   */
  lemma PrefixLengthOfRender(p: PhoneParts)
    requires WellFormed(p)
    ensures PrefixLength(Render(p)) == |p.prefix|
  {
    var rest := p.gap + [p.lead] + RenderGroups(p.groups);
    var s := Render(p);
    assert s == p.prefix + rest;
    if p.prefix == "0" {
      assert s[1] == rest[0];
      assert rest[0] == (if p.gap == [] then p.lead else p.gap[0]);
      assert !StartsIntl(s) && !StartsZeroZero(s);
    } else if p.prefix == "00212" {
      assert StartsZeroZero(s) && !StartsIntl(s);
    } else {
      assert StartsIntl(s);
    }
  }

  /** Parsing the rendering of well-formed parts gives back those parts. */
  lemma ParseRender(p: PhoneParts)
    requires WellFormed(p)
    ensures ParsePhone(Render(p)) == Some(p)
  {
    var rest := p.gap + [p.lead] + RenderGroups(p.groups);
    var s := Render(p);
    assert s == p.prefix + rest;
    PrefixLengthOfRender(p);
    var k := |p.prefix|;
    ParsePhoneUnfold(s, k);
    assert s[..k] == p.prefix && s[k..] == rest;
    ParseAfterPrefixRender(p);
  }

  lemma ParsePhoneUnfold(s: string, k: nat)
    requires k == PrefixLength(s) && k > 0
    ensures ParsePhone(s) == ParseAfterPrefix(s[..k], s[k..])
  {
  }

  /** The pattern accepts exactly the renderings of well-formed parts. */
  lemma PhoneAcceptedIff(s: string)
    ensures IsMoroccanPhone(s) <==> exists p :: WellFormed(p) && Render(p) == s
  {
    if IsMoroccanPhone(s) {
      var p := ParsePhone(s).value;
      assert WellFormed(p) && Render(p) == s;
    }
    forall p | WellFormed(p) && Render(p) == s
      ensures IsMoroccanPhone(s)
    {
      ParseRender(p);
    }
  }

  /** "0612345678" is accepted. */
  lemma AcceptsNational()
    ensures IsMoroccanPhone("0612345678")
  {
    var p := PhoneParts("0", "", '6', [Group("", "12"), Group("", "34"), Group("", "56"), Group("", "78")]);
    assert Render(p) == "0612345678";
    ParseRender(p);
  }

  /** "0012345678" is rejected: after a leading "0" the next digit must be 1-9. */
  lemma RejectsZeroAfterPrefix()
    ensures !IsMoroccanPhone("0012345678")
  {
    var s := "0012345678";
    assert !StartsIntl(s) && !StartsZeroZero(s);
    assert s[1..][0] == '0';
    assert Span(s[1..], Space) == 0;
  }
}

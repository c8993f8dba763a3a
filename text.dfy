/**
 * The pieces of the JavaScript host that the reservation form leans on:
 * the `\s` character class (which is also what `String.prototype.trim`
 * strips), the `\d` class, `trim`, and `replace(/\D/g, '')`.
 */
module Text {

  /** ECMAScript WhiteSpace or LineTerminator: the set `\s` matches and `trim` removes. */
  predicate IsJsSpace(c: char) {
    c == '\t' || c == '\n' || c == '\U{000B}' || c == '\U{000C}' || c == '\r' || c == ' '
    || c == '\U{00A0}' || c == '\U{1680}' || ('\U{2000}' <= c <= '\U{200A}')
    || c == '\U{2028}' || c == '\U{2029}' || c == '\U{202F}' || c == '\U{205F}'
    || c == '\U{3000}' || c == '\U{FEFF}'
  }

  /** The `\d` class: an ASCII decimal digit. */
  predicate IsDigit(c: char) {
    '0' <= c <= '9'
  }

  predicate AllSpace(s: string) {
    forall i :: 0 <= i < |s| ==> IsJsSpace(s[i])
  }

  predicate AllDigits(s: string) {
    forall i :: 0 <= i < |s| ==> IsDigit(s[i])
  }

  /** How many whitespace characters `s` starts with. */
  function LeadingSpaces(s: string): (n: nat)
    ensures n <= |s| && AllSpace(s[..n])
    ensures n == |s| || !IsJsSpace(s[n])
  {
    if s != [] && IsJsSpace(s[0]) then
      var m := LeadingSpaces(s[1..]);
      SpaceThenSpaces(s, m + 1);
      m + 1
    else
      0
  }

  /** Where the whitespace that `s` ends with begins. */
  function TrailingStart(s: string): (n: nat)
    ensures n <= |s| && AllSpace(s[n..])
    ensures n == 0 || !IsJsSpace(s[n - 1])
  {
    if s != [] && IsJsSpace(s[|s| - 1]) then
      var m := TrailingStart(s[..|s| - 1]);
      SpacesThenSpace(s, m);
      m
    else
      |s|
  }

  lemma SpaceThenSpaces(s: string, n: nat)
    requires 0 < n <= |s| && IsJsSpace(s[0]) && AllSpace(s[1..][..n - 1])
    ensures AllSpace(s[..n])
  {
    assert forall i :: 1 <= i < n ==> s[..n][i] == s[1..][..n - 1][i - 1];
  }

  lemma SpacesThenSpace(s: string, n: nat)
    requires n < |s| && IsJsSpace(s[|s| - 1]) && AllSpace(s[..|s| - 1][n..])
    ensures AllSpace(s[n..])
  {
    assert forall i :: 0 <= i < |s| - 1 - n ==> s[n..][i] == s[..|s| - 1][n..][i];
  }

  /**
   * `String.prototype.trim`: `s` without the whitespace it starts and ends
   * with. The result is the stretch of `s` between a run of leading and a
   * run of trailing whitespace, and neither of its ends is whitespace.
   */
  function Trim(s: string): (r: string)
    ensures r == [] <==> AllSpace(s)
    ensures r == [] || (!IsJsSpace(r[0]) && !IsJsSpace(r[|r| - 1]))
    ensures var a := LeadingSpaces(s);
      && a + |r| <= |s| && r == s[a..a + |r|]
      && AllSpace(s[..a]) && AllSpace(s[a + |r|..])
  {
    var a := LeadingSpaces(s);
    var n := TrailingStart(s[a..]);
    TrimBlank(s, a, n);
    assert s[a..][n..] == s[a + n..];
    s[a..a + n]
  }

  lemma TrimBlank(s: string, a: nat, n: nat)
    requires a + n <= |s|
    requires AllSpace(s[..a]) && (a == |s| || !IsJsSpace(s[a]))
    requires AllSpace(s[a..][n..]) && (n == 0 || !IsJsSpace(s[a..][n - 1]))
    ensures n == 0 <==> AllSpace(s)
    ensures n > 0 ==> !IsJsSpace(s[a]) && !IsJsSpace(s[a + n - 1])
  {
    if n == 0 {
      assert s[a..][0..] == s[a..];
      AllSpaceJoin(s, a);
    } else {
      assert s[a + n - 1] == s[a..][n - 1];
    }
  }

  lemma AllSpaceJoin(s: string, a: nat)
    requires a <= |s| && AllSpace(s[..a]) && AllSpace(s[a..])
    ensures AllSpace(s)
  {
    assert forall i :: 0 <= i < a ==> s[i] == s[..a][i];
    assert forall i :: a <= i < |s| ==> s[i] == s[a..][i - a];
  }

  /** A string that neither starts nor ends with whitespace is left alone by `trim`. */
  lemma TrimKeeps(s: string)
    requires s == [] || (!IsJsSpace(s[0]) && !IsJsSpace(s[|s| - 1]))
    ensures Trim(s) == s
  {
  }

  /** `replace(/\D/g, '')`: the digits of `s`, in order. */
  function DigitsOf(s: string): (r: string)
    ensures |r| <= |s|
  {
    if s == [] then []
    else (if IsDigit(s[0]) then [s[0]] else []) + DigitsOf(s[1..])
  }

  /** The filter keeps every digit that occurs in `s` and nothing else. */
  lemma {:induction false} DigitsOfMembers(s: string)
    ensures forall c :: c in DigitsOf(s) <==> c in s && IsDigit(c)
  {
    if s != [] {
      DigitsOfMembers(s[1..]);
      assert s == [s[0]] + s[1..];
    }
  }

  /** `s` with every plain space `' '` deleted. */
  function WithoutSpaces(s: string): string
  {
    if s == [] then []
    else (if s[0] == ' ' then [] else [s[0]]) + WithoutSpaces(s[1..])
  }

  lemma {:induction false} DigitsOfAppend(a: string, b: string)
    ensures DigitsOf(a + b) == DigitsOf(a) + DigitsOf(b)
  {
    if a != [] {
      assert (a + b)[1..] == a[1..] + b;
      DigitsOfAppend(a[1..], b);
    } else {
      assert a + b == b;
    }
  }

  lemma {:induction false} WithoutSpacesAppend(a: string, b: string)
    ensures WithoutSpaces(a + b) == WithoutSpaces(a) + WithoutSpaces(b)
  {
    if a != [] {
      assert (a + b)[1..] == a[1..] + b;
      WithoutSpacesAppend(a[1..], b);
    } else {
      assert a + b == b;
    }
  }

  /** A string of digits is its own digit filter and has no spaces to delete. */
  lemma {:induction false} DigitsFixed(s: string)
    requires AllDigits(s)
    ensures DigitsOf(s) == s && WithoutSpaces(s) == s
  {
    if s != [] {
      DigitsFixed(s[1..]);
    }
  }

  lemma {:induction false} SpacesHaveNoDigits(s: string)
    requires AllSpace(s)
    ensures DigitsOf(s) == []
  {
    if s != [] {
      assert AllSpace(s[1..]);
      SpacesHaveNoDigits(s[1..]);
    }
  }

  /** Trimming empties the empty text, and cuts only the end of a text that starts with no space. */
  lemma TrimFront(s: string)
    ensures s == [] ==> Trim(s) == []
    ensures s != [] && !IsJsSpace(s[0]) ==> |Trim(s)| <= |s| && Trim(s) == s[..|Trim(s)|]
  {
    if s != [] && !IsJsSpace(s[0]) {
      assert LeadingSpaces(s) == 0;
      assert s[0..] == s;
    }
  }

  lemma DigitNotSpace(c: char)
    requires IsDigit(c)
    ensures !IsJsSpace(c)
  {
  }

  lemma DigitsOfSplit(s: string, i: nat)
    requires i <= |s|
    ensures DigitsOf(s) == DigitsOf(s[..i]) + DigitsOf(s[i..])
  {
    assert s == s[..i] + s[i..];
    DigitsOfAppend(s[..i], s[i..]);
  }

  /** `trim` removes no digit. */
  lemma TrimKeepsDigits(s: string)
    ensures DigitsOf(Trim(s)) == DigitsOf(s)
  {
    var a := LeadingSpaces(s);
    var n := TrailingStart(s[a..]);
    assert Trim(s) == s[a..][..n];
    DigitsOfSplit(s, a);
    SpacesHaveNoDigits(s[..a]);
    DigitsOfSplit(s[a..], n);
    SpacesHaveNoDigits(s[a..][n..]);
  }

  /** What `replace(/\D/g, '')` leaves is all digits. */
  lemma {:induction false} DigitsOfDigits(s: string)
    ensures AllDigits(DigitsOf(s))
  {
    if s != [] {
      DigitsOfDigits(s[1..]);
    }
  }

  /** `WithoutSpaces` leaves no space behind. */
  lemma {:induction false} WithoutSpacesHasNone(s: string)
    ensures ' ' !in WithoutSpaces(s) && |WithoutSpaces(s)| <= |s|
  {
    if s != [] {
      WithoutSpacesHasNone(s[1..]);
    }
  }
}

/**
 * The hero banner's rotating background: a counter over a fixed list of
 * five images, advanced once when the page loads and then on every tick of
 * an interval timer.
 */
module Hero {
  const Images: seq<string> := [
    "imgs/Hero-1.webp",
    "imgs/Hero-2.webp",
    "imgs/Hero-3.webp",
    "imgs/Hero-4.webp",
    "imgs/Hero-5.webp"
  ]

  /** The CSS value that shows image `i`. */
  function Background(i: nat): string
    requires i < |Images|
  {
    "url(" + Images[i] + ")"
  }

  /** The counter after one step. */
  function Next(i: nat): (j: nat)
    ensures j < |Images|
  {
    (i + 1) % |Images|
  }

  /** The counter after `k` steps from `i`. */
  function Later(i: nat, k: nat): (j: nat)
    ensures j < |Images|
  {
    (i + k) % |Images|
  }

  lemma LaterStep(i: nat, k: nat)
    ensures Later(i, k + 1) == Next(Later(i, k))
  {
  }

  /** The image numbers, '1' to '5', sit at the same place in every path. */
  lemma ImageNumber(i: nat)
    requires i < |Images|
    ensures |Images[i]| == 16 && Images[i][10] == ('1' as int + i) as char
  {
    if i == 0 {
    } else if i == 1 {
    } else if i == 2 {
    } else if i == 3 {
    } else {
    }
  }

  /** Distinct images give distinct backgrounds. */
  lemma BackgroundInjective(i: nat, j: nat)
    requires i < |Images| && j < |Images| && i != j
    ensures Background(i) != Background(j)
  {
    ImageNumber(i);
    ImageNumber(j);
    assert Background(i)[14] == Images[i][10];
    assert Background(j)[14] == Images[j][10];
  }

  /** The counter values that `|Images|` steps from `i` run through, in order. */
  function Visits(i: nat): (v: seq<nat>)
    ensures |v| == |Images|
  {
    seq(|Images|, k requires 0 <= k < |Images| => Later(i, k))
  }

  lemma LaterBelow(i: nat, k: nat)
    requires i < |Images| && k < |Images|
    ensures Later(i, k) == if i + k < |Images| then i + k else i + k - |Images|
  {
  }

  /**
   * Five steps from any counter value visit each of the five images exactly
   * once and bring the counter back where it started.
   */
  lemma FullCycle(i: nat)
    requires i < |Images|
    ensures Later(i, |Images|) == i
    ensures forall k, m :: 0 <= k < m < |Images| ==> Visits(i)[k] != Visits(i)[m]
    ensures forall n :: 0 <= n < |Images| ==> n in Visits(i)
  {
    var v := Visits(i);
    forall k, m | 0 <= k < m < |Images|
      ensures v[k] != v[m]
    {
      LaterBelow(i, k);
      LaterBelow(i, m);
    }
    forall n | 0 <= n < |Images|
      ensures n in v
    {
      var k := if i <= n then n - i else n + |Images| - i;
      LaterBelow(i, k);
      assert v[k] == n;
    }
  }

  class Rotator {
    /** Index of the image the next step shows. */
    var index: nat
    /** The banner's inline `background-image`, empty until the first step. */
    var background: string

    ghost predicate Valid()
      reads this
    {
      index < |Images|
    }

    /** The page's load: the counter starts at 0 and the first step shows the first image. */
    constructor ()
      ensures Valid()
      ensures background == Background(0) && index == 1
    {
      index := 0;
      background := "";
      new;
      ChangeHeroBg();
    }

    /** One step: show the image at the counter, then advance it around the list. */
    method ChangeHeroBg()
      requires Valid()
      modifies this
      ensures Valid()
      ensures background == Background(old(index))
      ensures index == Next(old(index))
    {
      background := "url(" + Images[index] + ")";
      index := (index + 1) % |Images|;
    }
  }
}

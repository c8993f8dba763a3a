/**
 * The gallery's filter buttons. A click makes the clicked button the only
 * active one and shows exactly the items its filter selects.
 */
module Gallery {
  import opened Wrappers

  /** An item's inline display: never set yet, 'block', or 'none'. */
  datatype Display = Unset | Block | Hidden

  /** The animation a shown item is given. */
  const FadeIn := "fadeIn 0.4s ease"

  /** The filter value that selects every item. */
  const All := "all"

  /**
   * Whether a button whose `data-filter` is `filter` shows an item whose
   * `data-category` is `category`; a missing attribute is `None`, and two
   * missing attributes compare equal.
   */
  predicate Shows(filter: Option<string>, category: Option<string>) {
    filter == Some(All) || filter == category
  }

  /** The buttons' active flags once button `b` of `n` was clicked. */
  function ActiveAfter(n: nat, b: nat): seq<bool> {
    seq(n, i => i == b)
  }

  /** The items' displays after a click on a button whose filter is `filter`. */
  function DisplayAfter(filter: Option<string>, categories: seq<Option<string>>): seq<Display> {
    seq(|categories|, j requires 0 <= j < |categories| => if Shows(filter, categories[j]) then Block else Hidden)
  }

  /** The items' animations after such a click: shown items fade in, hidden ones keep theirs. */
  function AnimationAfter(filter: Option<string>, categories: seq<Option<string>>, before: seq<string>): seq<string>
    requires |before| == |categories|
  {
    seq(|categories|, j requires 0 <= j < |categories| => if Shows(filter, categories[j]) then FadeIn else before[j])
  }

  function CountTrue(s: seq<bool>): nat {
    if s == [] then 0 else (if s[0] then 1 else 0) + CountTrue(s[1..])
  }

  lemma {:induction false} CountTrueNone(s: seq<bool>)
    requires forall i :: 0 <= i < |s| ==> !s[i]
    ensures CountTrue(s) == 0
  {
    if s != [] {
      CountTrueNone(s[1..]);
    }
  }

  lemma {:induction false} CountTrueOne(s: seq<bool>, b: nat)
    requires b < |s| && forall i :: 0 <= i < |s| ==> (s[i] <==> i == b)
    ensures CountTrue(s) == 1
  {
    if b == 0 {
      CountTrueNone(s[1..]);
    } else {
      CountTrueOne(s[1..], b - 1);
    }
  }

  /** After a click exactly one button is active: the clicked one. */
  lemma ExactlyOneActive(n: nat, b: nat)
    requires b < n
    ensures CountTrue(ActiveAfter(n, b)) == 1
    ensures ActiveAfter(n, b)[b]
  {
    CountTrueOne(ActiveAfter(n, b), b);
  }

  /** The 'all' filter shows every item. */
  lemma AllShowsEverything(categories: seq<Option<string>>)
    ensures forall j :: 0 <= j < |categories| ==> DisplayAfter(Some(All), categories)[j] == Block
  {
  }

  /**
   * Any other filter shows exactly the items of its own category, and a
   * button without a filter shows exactly the items without a category.
   */
  lemma FilterSelectsCategory(filter: Option<string>, categories: seq<Option<string>>, j: nat)
    requires filter != Some(All) && j < |categories|
    ensures DisplayAfter(filter, categories)[j] == Block <==> categories[j] == filter
    ensures DisplayAfter(filter, categories)[j] == Hidden <==> categories[j] != filter
  {
  }

  /** A second click on the same button changes nothing: every item keeps its animation. */
  lemma ClickIdempotent(filter: Option<string>, categories: seq<Option<string>>, before: seq<string>)
    requires |before| == |categories|
    ensures AnimationAfter(filter, categories, AnimationAfter(filter, categories, before))
         == AnimationAfter(filter, categories, before)
  {
  }

  class FilterBar {
    /** Each button's `data-filter`, each item's `data-category`: read, never written. */
    const filters: seq<Option<string>>
    const categories: seq<Option<string>>
    /** Whether each button has the `active` class. */
    const active: array<bool>
    /** Each item's inline `display` and `animation`. */
    const display: array<Display>
    const animation: array<string>

    ghost predicate Valid()
      reads this
    {
      active.Length == |filters| && display.Length == |categories| && animation.Length == |categories|
    }

    /**
     * The page's buttons and items as the markup gives them: each button's
     * filter and whether the markup marks it active, each item's category,
     * and no inline style on any item yet.
     */
    constructor (filters: seq<Option<string>>, initiallyActive: seq<bool>, categories: seq<Option<string>>)
      requires |initiallyActive| == |filters|
      ensures Valid()
      ensures this.filters == filters && this.categories == categories
      ensures fresh(active) && fresh(display) && fresh(animation)
      ensures active[..] == initiallyActive
      ensures forall j :: 0 <= j < display.Length ==> display[j] == Unset
      ensures forall j :: 0 <= j < animation.Length ==> animation[j] == ""
    {
      this.filters, this.categories := filters, categories;
      active := new bool[|filters|](i requires 0 <= i < |filters| => initiallyActive[i]);
      display := new Display[|categories|](_ => Unset);
      animation := new string[|categories|](_ => "");
    }

    /** Button `b` is clicked. */
    method Click(b: nat)
      requires Valid() && b < active.Length
      modifies active, display, animation
      ensures Valid()
      ensures active[..] == ActiveAfter(|filters|, b)
      ensures display[..] == DisplayAfter(filters[b], categories)
      ensures animation[..] == AnimationAfter(filters[b], categories, old(animation[..]))
    {
      var i := 0;
      while i < active.Length
        modifies active
        invariant 0 <= i <= active.Length
        invariant forall k :: 0 <= k < i ==> !active[k]
      {
        active[i] := false;
        i := i + 1;
      }
      active[b] := true;

      var filter := filters[b];
      var j := 0;
      while j < display.Length
        modifies display, animation
        invariant 0 <= j <= display.Length
        invariant forall k :: 0 <= k < j ==> display[k] == DisplayAfter(filter, categories)[k]
        invariant forall k :: 0 <= k < j ==> animation[k] == AnimationAfter(filter, categories, old(animation[..]))[k]
        invariant forall k :: j <= k < animation.Length ==> animation[k] == old(animation[k])
      {
        if filter == Some(All) || filter == categories[j] {
          display[j] := Block;
          animation[j] := FadeIn;
        } else {
          display[j] := Hidden;
        }
        j := j + 1;
      }
    }
  }
}

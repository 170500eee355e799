/**
  `build_repetition` of common/json_schema_to_grammar.cpp: lists of items with separators between them.
 */
module Repetition {
  import opened Wrappers

  /** What is printed, over an item rule and a separator rule whose languages do not matter. */
  datatype Gram =
    | Nothing
    | Item
    | Separator
    | Cat(left: Gram, right: Gram)
    | Optional(body: Gram)
    | Plus(body: Gram)
    | Star(body: Gram)
    | Counted(body: Gram, least: nat, most: Option<nat>)

  datatype Languages = Languages(item: string -> bool, separator: string -> bool)

  ghost predicate Accepts(l: Languages, g: Gram, w: string)
    decreases g, 0, 0
  {
    match g
    case Nothing => w == ""
    case Item => l.item(w)
    case Separator => l.separator(w)
    case Cat(a, b) => exists k :: 0 <= k <= |w| && Accepts(l, a, w[..k]) && Accepts(l, b, w[k..])
    case Optional(b) => w == "" || Accepts(l, b, w)
    case Plus(b) => exists n: nat :: n >= 1 && Times(l, b, n, w)
    case Star(b) => exists n: nat :: Times(l, b, n, w)
    case Counted(b, least, most) => exists n: nat :: least <= n && (most.Some? ==> n <= most.value) && Times(l, b, n, w)
  }

  /** w is n words of g, one after the other. */
  ghost predicate Times(l: Languages, g: Gram, n: nat, w: string)
    decreases g, 1, n
  {
    if n == 0 then w == ""
    else exists k :: 0 <= k <= |w| && Accepts(l, g, w[..k]) && Times(l, g, n - 1, w[k..])
  }

  const INT_MAX := 0x7FFF_FFFF

  function Build(item: Gram, min: int, max: int, separator: Option<Gram>): Gram
    requires 0 <= min && 0 <= max
    decreases separator.Some?
  {
    var hasMax := max != INT_MAX;
    if max == 0 then Nothing
    else if min == 0 && max == 1 then Optional(item)
    else if separator.None? then
      if min == 1 && !hasMax then Plus(item)
      else if min == 0 && !hasMax then Star(item)
      else Counted(item, min, if hasMax then Some(max) else None)
    else
      var result := Cat(item,
          Build(Cat(separator.value, item), if min == 0 then 0 else min - 1, if hasMax then max - 1 else max, None));
      if min == 0 then Optional(result) else result
  }

  predicate InBounds(n: nat, min: int, max: int) { min <= n && (max != INT_MAX ==> n <= max) }

  lemma TimesOne(l: Languages, g: Gram, w: string)
    ensures Times(l, g, 1, w) <==> Accepts(l, g, w)
  {
    assert w[..|w|] == w && w[|w|..] == "";
    if Times(l, g, 1, w) {
      var k :| 0 <= k <= |w| && Accepts(l, g, w[..k]) && Times(l, g, 0, w[k..]);
      assert k == |w|;
    }
    if Accepts(l, g, w) {
      assert Times(l, g, 0, w[|w|..]);
    }
  }

  /** n items in a row, for some n within the bounds. */
  ghost predicate IsRow(l: Languages, item: Gram, min: int, max: int, w: string) {
    exists n: nat :: InBounds(n, min, max) && Times(l, item, n, w)
  }

  lemma BuildNothing(l: Languages, item: Gram, w: string)
    ensures w == "" <==> IsRow(l, item, 0, 0, w)
  {
    assert InBounds(0, 0, 0) && (Times(l, item, 0, w) <==> w == "");
  }

  lemma BuildOptional(l: Languages, item: Gram, w: string)
    ensures Accepts(l, Optional(item), w) <==> IsRow(l, item, 0, 1, w)
  {
    TimesOne(l, item, w);
    assert InBounds(0, 0, 1) && InBounds(1, 0, 1);
    assert Times(l, item, 0, w) <==> w == "";
  }

  lemma BuildPlus(l: Languages, item: Gram, w: string)
    ensures Accepts(l, Plus(item), w) <==> IsRow(l, item, 1, INT_MAX, w)
  {
    if n: nat :| n >= 1 && Times(l, item, n, w) {
      assert InBounds(n, 1, INT_MAX);
    }
  }

  lemma BuildStar(l: Languages, item: Gram, w: string)
    ensures Accepts(l, Star(item), w) <==> IsRow(l, item, 0, INT_MAX, w)
  {
    if n: nat :| Times(l, item, n, w) {
      assert InBounds(n, 0, INT_MAX);
    }
  }

  lemma BuildCounted(l: Languages, item: Gram, min: nat, max: nat, w: string)
    ensures Accepts(l, Counted(item, min, if max != INT_MAX then Some(max) else None), w)
            <==> IsRow(l, item, min, max, w)
  {
    if n: nat :| min <= n && (max != INT_MAX ==> n <= max) && Times(l, item, n, w) {
      assert InBounds(n, min, max);
    }
  }

  /** Without a separator: n items in a row, for the n within the bounds. */
  lemma BuildPlain(l: Languages, item: Gram, min: int, max: int, w: string)
    requires 0 <= min <= max <= INT_MAX
    ensures Accepts(l, Build(item, min, max, None), w)
            <==> exists n: nat :: InBounds(n, min, max) && Times(l, item, n, w)
  {
    if max == 0 {
      BuildNothing(l, item, w);
    } else if min == 0 && max == 1 {
      BuildOptional(l, item, w);
    } else if min == 1 && max == INT_MAX {
      BuildPlus(l, item, w);
    } else if min == 0 && max == INT_MAX {
      BuildStar(l, item, w);
    } else {
      BuildCounted(l, item, min, max, w);
    }
    assert IsRow(l, item, min, max, w) <==> exists n: nat :: InBounds(n, min, max) && Times(l, item, n, w);
  }

  /** n items, and a separator between each two neighbours. */
  ghost predicate IsList(l: Languages, n: nat, w: string)
    decreases n
  {
    if n == 0 then w == ""
    else if n == 1 then l.item(w)
    else exists i, j :: 0 <= i <= j <= |w| && l.item(w[..i]) && l.separator(w[i..j]) && IsList(l, n - 1, w[j..])
  }

  ghost const PAIR := Cat(Separator, Item)

  /** A first item, and then n - 1 pairs of a separator and an item. */
  ghost predicate IsPaired(l: Languages, n: nat, w: string)
    requires n >= 1
  {
    exists k :: 0 <= k <= |w| && l.item(w[..k]) && Times(l, PAIR, n - 1, w[k..])
  }

  lemma OnePaired(l: Languages, w: string)
    ensures IsPaired(l, 1, w) <==> l.item(w)
  {
    assert w[..|w|] == w && w[|w|..] == "";
    if l.item(w) {
      assert Times(l, PAIR, 0, w[|w|..]);
    }
    if k :| 0 <= k <= |w| && l.item(w[..k]) && Times(l, PAIR, 0, w[k..]) {
      assert k == |w|;
    }
  }

  lemma {:induction false} ListIsPaired(l: Languages, n: nat, w: string)
    requires n >= 1 && IsList(l, n, w)
    ensures IsPaired(l, n, w)
    decreases n
  {
    if n == 1 {
      OnePaired(l, w);
    } else {
      var i, j :| 0 <= i <= j <= |w| && l.item(w[..i]) && l.separator(w[i..j]) && IsList(l, n - 1, w[j..]);
      ListIsPaired(l, n - 1, w[j..]);
      PairedCons(l, n, w, i, j);
    }
  }

  lemma PairedCons(l: Languages, n: nat, w: string, i: nat, j: nat)
    requires n >= 2 && i <= j <= |w| && l.item(w[..i]) && l.separator(w[i..j]) && IsPaired(l, n - 1, w[j..])
    ensures IsPaired(l, n, w)
  {
    var tail := w[j..];
    var k :| 0 <= k <= |tail| && l.item(tail[..k]) && Times(l, PAIR, n - 2, tail[k..]);
    assert w[i..][..j - i] == w[i..j] && w[i..][j - i..] == tail;
    FirstPair(l, n - 1, w[i..], j - i, k, tail);
  }

  lemma {:induction false} PairedIsList(l: Languages, n: nat, w: string)
    requires n >= 1 && IsPaired(l, n, w)
    ensures IsList(l, n, w)
    decreases n
  {
    if n == 1 {
      OnePaired(l, w);
    } else {
      var i, j := PairedUncons(l, n, w);
      PairedIsList(l, n - 1, w[j..]);
    }
  }

  lemma PairedUncons(l: Languages, n: nat, w: string) returns (i: nat, j: nat)
    requires n >= 2 && IsPaired(l, n, w)
    ensures i <= j <= |w| && l.item(w[..i]) && l.separator(w[i..j]) && IsPaired(l, n - 1, w[j..])
  {
    i :| 0 <= i <= |w| && l.item(w[..i]) && Times(l, PAIR, n - 1, w[i..]);
    var h, m := SplitPair(l, n - 1, w[i..]);
    j := i + h;
    Regroup(l, n - 1, w, i, h, m);
  }

  lemma Regroup(l: Languages, n: nat, w: string, i: nat, h: nat, m: nat)
    requires n >= 1 && h <= m && i + m <= |w| && l.separator(w[i..][..h]) && l.item(w[i..][h..m])
    requires Times(l, PAIR, n - 1, w[i..][m..])
    ensures l.separator(w[i..i + h]) && IsPaired(l, n, w[i + h..])
  {
    SliceTwice(w, i, h, m);
    PairedFrom(l, n, w[i + h..], m - h);
  }

  lemma PairedFrom(l: Languages, n: nat, w: string, i: nat)
    requires n >= 1 && i <= |w| && l.item(w[..i]) && Times(l, PAIR, n - 1, w[i..])
    ensures IsPaired(l, n, w)
  {
  }

  lemma SliceTwice(w: string, i: nat, h: nat, m: nat)
    requires h <= m && i + m <= |w|
    ensures w[i..][..h] == w[i..i + h] && w[i..][h..m] == w[i + h..][..m - h] && w[i..][m..] == w[i + h..][m - h..]
  {
  }

  lemma SplitPair(l: Languages, n: nat, rest: string) returns (h: nat, m: nat)
    requires n >= 1 && Times(l, PAIR, n, rest)
    ensures h <= m <= |rest| && l.separator(rest[..h]) && l.item(rest[h..m]) && Times(l, PAIR, n - 1, rest[m..])
  {
    m :| 0 <= m <= |rest| && Accepts(l, PAIR, rest[..m]) && Times(l, PAIR, n - 1, rest[m..]);
    var p := rest[..m];
    h :| 0 <= h <= |p| && Accepts(l, Separator, p[..h]) && Accepts(l, Item, p[h..]);
    assert p[..h] == rest[..h] && p[h..] == rest[h..m];
  }

  /** Gluing a separator and an item to a row of pairs. */
  lemma FirstPair(l: Languages, n: nat, rest: string, h: nat, k: nat, tail: string)
    requires n >= 1 && h <= |rest| && tail == rest[h..] && k <= |tail|
    requires l.separator(rest[..h]) && l.item(tail[..k]) && Times(l, PAIR, n - 1, tail[k..])
    ensures Times(l, PAIR, n, rest)
  {
    var p := rest[..h + k];
    assert p[..h] == rest[..h] && p[h..] == tail[..k];
    assert Accepts(l, Separator, p[..h]) && Accepts(l, Item, p[h..]);
    assert Accepts(l, PAIR, p);
    assert rest[h + k..] == tail[k..];
  }

  /** With a separator, `build_repetition` prints exactly the lists whose length lies within the bounds. */
  lemma BuildSeparated(l: Languages, min: int, max: int, w: string)
    requires 0 <= min <= max <= INT_MAX
    ensures Accepts(l, Build(Item, min, max, Some(Separator)), w)
            <==> exists n: nat :: InBounds(n, min, max) && IsList(l, n, w)
  {
    if max == 0 {
      assert InBounds(0, min, max);
      assert IsList(l, 0, w) <==> w == "";
    } else if min == 0 && max == 1 {
      assert InBounds(0, 0, 1) && InBounds(1, 0, 1);
      assert IsList(l, 0, w) <==> w == "";
      assert IsList(l, 1, w) <==> l.item(w);
      assert Accepts(l, Optional(Item), w) <==> w == "" || Accepts(l, Item, w);
    } else {
      FirstAndPairs(l, min, max, w);
      if min == 0 {
        assert InBounds(0, min, max) && (IsList(l, 0, w) <==> w == "");
      }
    }
  }

  /** The printed sequence of an item and a repetition of pairs is a list with at least one item. */
  lemma FirstAndPairs(l: Languages, min: int, max: int, w: string)
    requires 0 <= min <= max <= INT_MAX && max > 0
    ensures var lo, hi := if min == 0 then 0 else min - 1, if max != INT_MAX then max - 1 else max;
            Accepts(l, Cat(Item, Build(PAIR, lo, hi, None)), w) <==> IsListWithin(l, min, max, w)
  {
    var lo, hi := if min == 0 then 0 else min - 1, if max != INT_MAX then max - 1 else max;
    forall k | 0 <= k <= |w|
      ensures Accepts(l, Build(PAIR, lo, hi, None), w[k..])
              <==> exists m: nat :: InBounds(m, lo, hi) && Times(l, PAIR, m, w[k..])
    {
      BuildPlain(l, PAIR, lo, hi, w[k..]);
    }
    PairsWithin(l, min, max, lo, hi, w);
  }

  ghost predicate IsListWithin(l: Languages, min: int, max: int, w: string) {
    exists n: nat :: n >= 1 && InBounds(n, min, max) && IsList(l, n, w)
  }

  lemma PairsWithin(l: Languages, min: int, max: int, lo: int, hi: int, w: string)
    requires 0 <= min <= max <= INT_MAX && max > 0
    requires lo == (if min == 0 then 0 else min - 1) && hi == if max != INT_MAX then max - 1 else max
    ensures (exists k ::
               0 <= k <= |w| && Accepts(l, Item, w[..k])
               && (exists m: nat :: InBounds(m, lo, hi) && Times(l, PAIR, m, w[k..])))
            <==> IsListWithin(l, min, max, w)
  {
    if k :|
      0 <= k <= |w| && Accepts(l, Item, w[..k]) && (exists m: nat :: InBounds(m, lo, hi) && Times(l, PAIR, m, w[k..])) {
      var m: nat :| InBounds(m, lo, hi) && Times(l, PAIR, m, w[k..]);
      PairedIsList(l, m + 1, w);
      assert InBounds(m + 1, min, max);
    }
    if n: nat :| n >= 1 && InBounds(n, min, max) && IsList(l, n, w) {
      ListIsPaired(l, n, w);
      var k :| 0 <= k <= |w| && l.item(w[..k]) && Times(l, PAIR, n - 1, w[k..]);
      assert InBounds(n - 1, lo, hi);
      assert Accepts(l, Item, w[..k]);
    }
  }
}

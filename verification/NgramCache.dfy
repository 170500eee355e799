/**
  common/ngram_cache.cpp: counts of the tokens that follow each n-gram, updated as tokens are appended, merged, and
  written to a file and read back.
 */
module NgramCache {
  import opened Wrappers

  datatype Token = Token(id: int)

  const NULL_TOKEN := Token(-1)
  const NGRAM_MAX := 4

  /** Always NGRAM_MAX tokens, the missing ones null. */
  type Ngram = seq<Token>

  type Part = map<Token, int>

  type Cache = map<Ngram, Part>

  /** `common_ngram`, from the tokens of an n-gram. */
  function Padded(tokens: seq<Token>): (g: Ngram)
    ensures |g| == NGRAM_MAX
  {
    seq(NGRAM_MAX, i requires 0 <= i => if i < |tokens| then tokens[i] else NULL_TOKEN)
  }

  /** How often the token was counted after the n-gram. */
  function Get(c: Cache, g: Ngram, t: Token): int { if g in c && t in c[g] then c[g][t] else 0 }

  /** Nothing is stored that was never counted. */
  predicate IsSound(c: Cache) {
    forall g :: g in c ==> |g| == NGRAM_MAX && c[g] != map[] && forall t :: t in c[g] ==> c[g][t] > 0
  }

  /** A cache is determined by its counts. */
  lemma CountsDetermine(c: Cache, d: Cache)
    requires IsSound(c) && IsSound(d) && forall g, t :: Get(c, g, t) == Get(d, g, t)
    ensures c == d
  {
    forall g | g in c || g in d
      ensures g in c && g in d && c[g] == d[g]
    {
      SameKeys(c, d, g);
      SameKeys(d, c, g);
      assert forall t :: t in c[g] <==> Get(c, g, t) > 0;
      assert forall t :: t in d[g] <==> Get(d, g, t) > 0;
      forall t | t in c[g]
        ensures t in d[g] && c[g][t] == d[g][t]
      {
        assert Get(c, g, t) == Get(d, g, t);
      }
      forall t | t in d[g]
        ensures t in c[g]
      {
        assert Get(c, g, t) == Get(d, g, t);
      }
    }
  }

  lemma NoItems(part: Part)
    ensures part.Items == {} ==> part == map[]
  {
    forall t | t in part
      ensures (t, part[t]) in part.Items
    {
    }
  }

  lemma AnyKey(part: Part) returns (t: Token)
    requires part != map[]
    ensures t in part
  {
    NoItems(part);
    var item :| item in part.Items;
    t := item.0;
  }

  lemma SameKeys(c: Cache, d: Cache, g: Ngram)
    requires IsSound(c) && forall t :: Get(c, g, t) == Get(d, g, t)
    ensures g in c ==> g in d
  {
    if g in c {
      var t := AnyKey(c[g]);
      assert Get(d, g, t) > 0;
    }
  }

  // ---- counting ----

  /** The n-gram of the given size before position i, and then the token t. */
  predicate Follows(inp: seq<Token>, i: nat, size: nat, g: Ngram, t: Token)
    requires i < |inp|
  {
    i >= size && Padded(inp[i - size..i]) == g && inp[i] == t
  }

  /** The number of positions from lo up to hi at which t follows g as an n-gram of the given size. */
  function Count(inp: seq<Token>, lo: nat, hi: nat, size: nat, g: Ngram, t: Token): (n: nat)
    requires hi <= |inp|
  {
    if hi <= lo then 0
    else Count(inp, lo, hi - 1, size, g, t) + if Follows(inp, hi - 1, size, g, t) then 1 else 0
  }

  /** The same over all sizes from min up to max. */
  function Total(inp: seq<Token>, lo: nat, min: nat, max: int, g: Ngram, t: Token): (n: nat)
    decreases max - min
  {
    if max < min then 0 else Total(inp, lo, min, max - 1, g, t) + Count(inp, lo, |inp|, max, g, t)
  }

  lemma {:induction false} CountSplit(inp: seq<Token>, more: seq<Token>, hi: nat, size: nat, g: Ngram, t: Token)
    requires |inp| <= hi <= |inp + more|
    ensures Count(inp + more, 0, hi, size, g, t)
            == Count(inp, 0, |inp|, size, g, t) + Count(inp + more, |inp|, hi, size, g, t)
    decreases hi
  {
    if hi == |inp| {
      CountPrefix(inp, more, hi, size, g, t);
    } else {
      CountSplit(inp, more, hi - 1, size, g, t);
    }
  }

  lemma FollowsPrefix(inp: seq<Token>, more: seq<Token>, i: nat, size: nat, g: Ngram, t: Token)
    requires i < |inp|
    ensures Follows(inp + more, i, size, g, t) == Follows(inp, i, size, g, t)
  {
    if i >= size {
      assert (inp + more)[i - size..i] == inp[i - size..i];
    }
  }

  lemma {:induction false} CountPrefix(inp: seq<Token>, more: seq<Token>, hi: nat, size: nat, g: Ngram, t: Token)
    requires hi <= |inp|
    ensures Count(inp + more, 0, hi, size, g, t) == Count(inp, 0, hi, size, g, t)
    decreases hi
  {
    if hi > 0 {
      CountPrefix(inp, more, hi - 1, size, g, t);
      FollowsPrefix(inp, more, hi - 1, size, g, t);
    }
  }

  lemma {:induction false} TotalSplit(inp: seq<Token>, more: seq<Token>, min: nat, max: int, g: Ngram, t: Token)
    ensures Total(inp + more, 0, min, max, g, t)
            == Total(inp, 0, min, max, g, t) + Total(inp + more, |inp|, min, max, g, t)
    decreases max - min
  {
    if max >= min {
      TotalSplit(inp, more, min, max - 1, g, t);
      CountSplit(inp, more, |inp + more|, max, g, t);
    }
  }

  lemma {:induction false} CountNone(inp: seq<Token>, lo: nat, hi: nat, size: nat, g: Ngram, t: Token)
    requires hi <= |inp| && hi <= size
    ensures Count(inp, lo, hi, size, g, t) == 0
    decreases hi
  {
    if hi > lo {
      CountNone(inp, lo, hi - 1, size, g, t);
    }
  }

  /** Positions before the first full n-gram count for nothing. */
  lemma {:induction false} CountFrom(inp: seq<Token>, lo: nat, lo': nat, hi: nat, size: nat, g: Ngram, t: Token)
    requires hi <= |inp| && lo' == if lo < size then size else lo
    ensures Count(inp, lo', hi, size, g, t) == Count(inp, lo, hi, size, g, t)
    decreases hi
  {
    if hi <= lo' {
      if lo < size {
        CountNone(inp, lo, hi, size, g, t);
      }
    } else {
      CountFrom(inp, lo, lo', hi - 1, size, g, t);
      CountLast(inp, lo', hi, size, g, t);
      CountLast(inp, lo, hi, size, g, t);
    }
  }

  lemma CountLast(inp: seq<Token>, lo: nat, hi: nat, size: nat, g: Ngram, t: Token)
    requires lo < hi <= |inp|
    ensures Count(inp, lo, hi, size, g, t)
            == Count(inp, lo, hi - 1, size, g, t) + if Follows(inp, hi - 1, size, g, t) then 1 else 0
  {
  }

  // ---- without null tokens the sizes do not mix ----

  predicate NoNulls(inp: seq<Token>) { forall i :: 0 <= i < |inp| ==> inp[i] != NULL_TOKEN }

  lemma ShorterPads(a: seq<Token>, b: seq<Token>)
    requires NoNulls(b) && |b| <= NGRAM_MAX
    ensures |a| < |b| ==> Padded(a) != Padded(b)
  {
    if |a| < |b| {
      assert Padded(a)[|a|] == NULL_TOKEN && Padded(b)[|a|] == b[|a|];
    }
  }

  lemma PaddedInjective(a: seq<Token>, b: seq<Token>)
    requires NoNulls(a) && NoNulls(b) && |a| <= NGRAM_MAX && |b| <= NGRAM_MAX && Padded(a) == Padded(b)
    ensures a == b
  {
    ShorterPads(a, b);
    ShorterPads(b, a);
    forall i | 0 <= i < |a|
      ensures a[i] == b[i]
    {
      assert Padded(a)[i] == Padded(b)[i];
    }
  }

  /** At position i the token t follows the tokens u. */
  predicate Ends(inp: seq<Token>, i: nat, u: seq<Token>, t: Token)
    requires i < |inp|
  {
    i >= |u| && inp[i - |u|..i] == u && inp[i] == t
  }

  /** The number of positions at which t follows the tokens u. */
  function Occurrences(inp: seq<Token>, hi: nat, u: seq<Token>, t: Token): nat
    requires hi <= |inp|
  {
    if hi == 0 then 0
    else Occurrences(inp, hi - 1, u, t) + if Ends(inp, hi - 1, u, t) then 1 else 0
  }

  lemma FollowsIs(inp: seq<Token>, i: nat, size: nat, u: seq<Token>, t: Token)
    requires i < |inp| && NoNulls(inp) && NoNulls(u) && size <= NGRAM_MAX && |u| <= NGRAM_MAX
    ensures Follows(inp, i, size, Padded(u), t) <==> size == |u| && Ends(inp, i, u, t)
  {
    if i >= size {
      var v := inp[i - size..i];
      if Padded(v) == Padded(u) {
        PaddedInjective(v, u);
      }
    }
  }

  lemma {:induction false} CountIsOccurrences(inp: seq<Token>, hi: nat, size: nat, u: seq<Token>, t: Token)
    requires hi <= |inp| && NoNulls(inp) && NoNulls(u) && size <= NGRAM_MAX && |u| <= NGRAM_MAX
    ensures Count(inp, 0, hi, size, Padded(u), t) == if size == |u| then Occurrences(inp, hi, u, t) else 0
    decreases hi
  {
    if hi > 0 {
      CountIsOccurrences(inp, hi - 1, size, u, t);
      FollowsIs(inp, hi - 1, size, u, t);
      CountLast(inp, 0, hi, size, Padded(u), t);
    }
  }

  /** The total for an n-gram is exactly the number of positions where the token follows it. */
  lemma {:induction false} TotalIsOccurrences(inp: seq<Token>, min: nat, max: nat, u: seq<Token>, t: Token)
    requires NoNulls(inp) && NoNulls(u) && max <= NGRAM_MAX && |u| <= NGRAM_MAX && min <= |u|
    ensures Total(inp, 0, min, max, Padded(u), t) == if |u| <= max then Occurrences(inp, |inp|, u, t) else 0
    decreases max
  {
    if max >= min {
      CountIsOccurrences(inp, |inp|, max, u, t);
      if max > 0 {
        TotalIsOccurrences(inp, min, max - 1, u, t);
      } else {
        assert Total(inp, 0, min, -1, Padded(u), t) == 0;
      }
    }
  }

  // ---- the cache as an object ----

  /** One more of t after g. */
  function Counted(c: Cache, g: Ngram, t: Token, n: int): Cache {
    if g !in c then c[g := map[t := n]] else if t !in c[g] then c[g := c[g][t := n]] else c[g := c[g][t := c[g][t] + n]]
  }

  lemma CountedGets(c: Cache, g: Ngram, t: Token, n: int)
    requires IsSound(c) && n > 0 && |g| == NGRAM_MAX
    ensures IsSound(Counted(c, g, t, n))
    ensures forall g', t' :: Get(Counted(c, g, t, n), g', t') == Get(c, g', t') + if g' == g && t' == t then n else 0
  {
    var d := Counted(c, g, t, n);
    forall g' | g' in d
      ensures |g'| == NGRAM_MAX && d[g'] != map[] && forall t' :: t' in d[g'] ==> d[g'][t'] > 0
    {
      if g' == g {
        assert t in d[g'];
      }
    }
  }

  /** d counts, beyond c, the positions from lo up to hi for n-grams of one size. */
  ghost predicate AddsCount(c: Cache, d: Cache, inp: seq<Token>, lo: nat, hi: nat, size: nat)
    requires hi <= |inp|
  {
    forall g, t :: Get(d, g, t) == Get(c, g, t) + Count(inp, lo, hi, size, g, t)
  }

  /** d counts, beyond c, the positions from lo on for n-grams of all sizes from min up to max. */
  ghost predicate AddsTotal(c: Cache, d: Cache, inp: seq<Token>, lo: nat, min: nat, max: int) {
    forall g, t :: Get(d, g, t) == Get(c, g, t) + Total(inp, lo, min, max, g, t)
  }

  /** The counts of d are those of c and of other. */
  ghost predicate AddsCache(c: Cache, d: Cache, other: Cache) {
    forall g, t :: Get(d, g, t) == Get(c, g, t) + Get(other, g, t)
  }

  lemma CountMore(c: Cache, before: Cache, inp: seq<Token>, lo: nat, i: nat, size: nat)
    requires size <= lo <= i < |inp| && IsSound(before) && AddsCount(c, before, inp, lo, i, size)
    ensures var after := Counted(before, Padded(inp[i - size..i]), inp[i], 1);
            IsSound(after) && AddsCount(c, after, inp, lo, i + 1, size)
  {
    CountedGets(before, Padded(inp[i - size..i]), inp[i], 1);
  }

  lemma NoneCounted(c: Cache, inp: seq<Token>, lo: nat, size: nat)
    ensures lo <= |inp| ==> AddsCount(c, c, inp, lo, lo, size)
    ensures lo > |inp| ==> AddsCount(c, c, inp, lo, |inp|, size)
  {
  }

  lemma TotalMore(c: Cache, before: Cache, after: Cache, inp: seq<Token>, lo: nat, lo': nat, min: nat, size: nat)
    requires min <= size && AddsTotal(c, before, inp, lo, min, size - 1) && lo' == if lo < size then size else lo
    requires AddsCount(before, after, inp, lo', |inp|, size)
    ensures AddsTotal(c, after, inp, lo, min, size)
  {
    forall g, t
      ensures Get(after, g, t) == Get(c, g, t) + Total(inp, lo, min, size, g, t)
    {
      CountFrom(inp, lo, lo', |inp|, size, g, t);
      assert Get(before, g, t) == Get(c, g, t) + Total(inp, lo, min, size - 1, g, t);
    }
  }

  /** The first new position. */
  function FirstNew(inp: seq<Token>, nNew: int): nat { if |inp| - nNew < 0 then 0 else |inp| - nNew }

  /** The tokens of the part that are no longer to do have been added after g. */
  ghost predicate Merged(c: Cache, d: Cache, g: Ngram, part: Part, todo: set<(Token, int)>) {
    forall g', t :: Get(d, g', t) == Get(c, g', t) + if g' == g && t in part
        && (t, part[t]) !in todo then part[t] else 0
  }

  lemma MergeStep(c: Cache, before: Cache, after: Cache, g: Ngram, t: Token, part: Part, todo: set<(Token, int)>)
    requires IsSound(before) && t in part && (t, part[t]) in todo && part[t] > 0
             && after == Counted(before, g, t, part[t]) && g in before
    requires Merged(c, before, g, part, todo)
    ensures IsSound(after) && Merged(c, after, g, part, todo - {(t, part[t])}) && after.Keys == before.Keys
  {
    CountedGets(before, g, t, part[t]);
  }

  ghost predicate MergedAll(c: Cache, d: Cache, other: Cache, todo: set<Ngram>) {
    forall g, t :: Get(d, g, t) == Get(c, g, t) + if g in todo then 0 else Get(other, g, t)
  }

  lemma MergedOne(c: Cache, before: Cache, after: Cache, other: Cache, g: Ngram, todo: set<Ngram>)
    requires MergedAll(c, before, other, todo) && g in todo
    requires forall g', t :: Get(after, g', t) == Get(before, g', t) + if g' == g then Get(other, g, t) else 0
    ensures MergedAll(c, after, other, todo - {g})
  {
  }

  class CountCache {
    var cache: Cache

    constructor ()
      ensures cache == map[]
    {
      cache := map[];
    }

    method CountOne(g: Ngram, t: Token)
      requires IsSound(cache)
      modifies this
      ensures cache == Counted(old(cache), g, t, 1)
    {
      if g !in cache {
        cache := cache[g := map[t := 1]];
      } else if t !in cache[g] {
        cache := cache[g := cache[g][t := 1]];
      } else {
        cache := cache[g := cache[g][t := cache[g][t] + 1]];
      }
    }

    /** The inner loop of `common_ngram_cache_update`. */
    method UpdateSize(inp: seq<Token>, lo: nat, size: nat)
      requires IsSound(cache) && lo >= size
      modifies this
      ensures IsSound(cache) && AddsCount(old(cache), cache, inp, lo, |inp|, size)
    {
      var i := lo;
      NoneCounted(cache, inp, lo, size);
      while i < |inp|
        invariant lo <= i && (i <= |inp| || i == lo) && IsSound(cache)
        invariant i <= |inp| ==> AddsCount(old(cache), cache, inp, lo, i, size)
        invariant i > |inp| ==> cache == old(cache)
      {
        CountMore(old(cache), cache, inp, lo, i, size);
        CountOne(Padded(inp[i - size..i]), inp[i]);
        i := i + 1;
      }
    }

    /** `common_ngram_cache_update`: every n-gram and token gets as many counts as there are new positions for them. */
    method Update(ngramMin: nat, ngramMax: int, inp: seq<Token>, nNew: int)
      requires IsSound(cache)
      modifies this
      ensures IsSound(cache) && AddsTotal(old(cache), cache, inp, FirstNew(inp, nNew), ngramMin, ngramMax)
    {
      var size := ngramMin;
      while size <= ngramMax
        invariant ngramMin <= size && (size <= ngramMax + 1 || size == ngramMin) && IsSound(cache)
        invariant AddsTotal(old(cache), cache, inp, FirstNew(inp, nNew), ngramMin, size - 1)
      {
        var lo := if |inp| - nNew < size then size else |inp| - nNew;
        ghost var before := cache;
        UpdateSize(inp, lo, size);
        TotalMore(old(cache), before, cache, inp, FirstNew(inp, nNew), lo, ngramMin, size);
        size := size + 1;
      }
    }

    method AddCount(g: Ngram, t: Token, n: int)
      requires g in cache
      modifies this
      ensures cache == Counted(old(cache), g, t, n)
    {
      if t !in cache[g] {
        cache := cache[g := cache[g][t := n]];
      } else {
        cache := cache[g := cache[g][t := cache[g][t] + n]];
      }
    }

    /** The inner loop of `common_ngram_cache_merge`. */
    method MergePart(g: Ngram, part: Part)
      requires IsSound(cache) && g in cache && forall t :: t in part ==> part[t] > 0
      modifies this
      ensures IsSound(cache) && cache.Keys == old(cache).Keys
      ensures forall g', t :: Get(cache, g', t) == Get(old(cache), g', t) + if g' == g && t in part then part[t] else 0
    {
      var todo := part.Items;
      while todo != {}
        invariant todo <= part.Items && IsSound(cache) && cache.Keys == old(cache).Keys
        invariant Merged(old(cache), cache, g, part, todo)
      {
        var item :| item in todo;
        ghost var before := cache;
        AddCount(g, item.0, item.1);
        MergeStep(old(cache), before, cache, g, item.0, part, todo);
        todo := todo - {item};
      }
    }

    /** `common_ngram_cache_merge`: the counts of the other cache are added to those of this one. */
    method Merge(other: Cache)
      requires IsSound(cache) && IsSound(other)
      modifies this
      ensures IsSound(cache) && AddsCache(old(cache), cache, other)
    {
      var todo := other.Keys;
      while todo != {}
        invariant todo <= other.Keys && IsSound(cache)
        invariant MergedAll(old(cache), cache, other, todo)
      {
        var g: Ngram :| g in todo;
        ghost var before := cache;
        if g !in cache {
          cache := cache[g := other[g]];
        } else {
          MergePart(g, other[g]);
        }
        MergedOne(old(cache), before, cache, other, g, todo);
        todo := todo - {g};
      }
    }
  }

  // ---- incremental updates ----

  /** The cache that is built from the whole input at once. */
  ghost predicate IsBuilt(c: Cache, min: nat, max: int, inp: seq<Token>) {
    IsSound(c) && AddsTotal(map[], c, inp, 0, min, max)
  }

  /** One update with the appended tokens turns the cache of the shorter input into that of the longer one. */
  lemma UpdateExtends(c: Cache, d: Cache, min: nat, max: int, inp: seq<Token>, more: seq<Token>)
    requires IsBuilt(c, min, max, inp) && IsSound(d)
    requires AddsTotal(c, d, inp + more, FirstNew(inp + more, |more|), min, max)
    ensures IsBuilt(d, min, max, inp + more)
  {
    forall g, t
      ensures Get(d, g, t) == Get(map[], g, t) + Total(inp + more, 0, min, max, g, t)
    {
      TotalSplit(inp, more, min, max, g, t);
      assert Get(c, g, t) == Get(map[], g, t) + Total(inp, 0, min, max, g, t);
      assert Get(d, g, t) == Get(c, g, t) + Total(inp + more, |inp|, min, max, g, t);
    }
  }

  function Flatten(chunks: seq<seq<Token>>): seq<Token> {
    if chunks == [] then [] else Flatten(chunks[..|chunks| - 1]) + chunks[|chunks| - 1]
  }

  /** However the tokens are appended, the cache is the one that is built from all of them at once. */
  method UpdateInChunks(min: nat, max: int, chunks: seq<seq<Token>>, rebuilt: CountCache)
    returns (incremental: CountCache)
    requires IsBuilt(rebuilt.cache, min, max, Flatten(chunks))
    ensures fresh(incremental) && incremental.cache == rebuilt.cache
  {
    incremental := new CountCache();
    NothingBuilt(min, max);
    var inp: seq<Token> := [];
    var k := 0;
    while k < |chunks|
      invariant 0 <= k <= |chunks| && inp == Flatten(chunks[..k]) && fresh(incremental)
      invariant IsBuilt(incremental.cache, min, max, inp)
    {
      assert chunks[..k + 1][..k] == chunks[..k];
      ghost var before := incremental.cache;
      incremental.Update(min, max, inp + chunks[k], |chunks[k]|);
      UpdateExtends(before, incremental.cache, min, max, inp, chunks[k]);
      inp := inp + chunks[k];
      k := k + 1;
    }
    assert chunks[..k] == chunks;
    BuiltUnique(incremental.cache, rebuilt.cache, min, max, inp);
  }

  lemma {:induction false} NothingBuilt(min: nat, max: int)
    ensures IsBuilt(map[], min, max, [])
  {
    forall g, t
      ensures Total([], 0, min, max, g, t) == 0
    {
      NothingCounted(min, max, g, t);
    }
  }

  lemma {:induction false} NothingCounted(min: nat, max: int, g: Ngram, t: Token)
    ensures Total([], 0, min, max, g, t) == 0
    decreases max - min
  {
    if max >= min {
      NothingCounted(min, max - 1, g, t);
    }
  }

  lemma BuiltUnique(c: Cache, d: Cache, min: nat, max: int, inp: seq<Token>)
    requires IsBuilt(c, min, max, inp) && IsBuilt(d, min, max, inp)
    ensures c == d
  {
    forall g, t
      ensures Get(c, g, t) == Get(d, g, t)
    {
      assert Get(c, g, t) == Get(map[], g, t) + Total(inp, 0, min, max, g, t);
      assert Get(d, g, t) == Get(map[], g, t) + Total(inp, 0, min, max, g, t);
    }
    CountsDetermine(c, d);
  }

  // ---- files ----

  /** A file as its 32-bit words. */
  type Words = seq<int>

  /** The loop over the tokens of an n-gram; an unreadable token or a count that is not positive aborts. */
  function LoadPart(words: Words, n: nat, part: Part): (r: Option<(Part, Words)>)
    ensures r.Some? ==> |r.value.1| <= |words|
    decreases n
  {
    if n == 0 then Some((part, words))
    else if |words| < 2 || words[1] <= 0 then None
    else LoadPart(words[2..], n - 1, if Token(words[0]) in part then part else part[Token(words[0]) := words[1]])
  }

  function FromWords(words: Words): (g: Ngram)
    requires |words| >= NGRAM_MAX
    ensures |g| == NGRAM_MAX
  {
    seq(NGRAM_MAX, i requires 0 <= i < NGRAM_MAX => Token(words[i]))
  }

  function ToWords(g: Ngram): (words: Words)
    ensures |words| == |g|
  {
    seq(|g|, i requires 0 <= i < |g| => g[i].id)
  }

  /** `common_ngram_cache_load`; an n-gram that cannot be read ends the file. */
  function LoadFrom(words: Words, c: Cache): Option<Cache>
    decreases |words|
  {
    if |words| < NGRAM_MAX then Some(c)
    else if |words| == NGRAM_MAX || words[NGRAM_MAX] <= 0 then None
    else
      var part := LoadPart(words[NGRAM_MAX + 1..], words[NGRAM_MAX], map[]);
      if part.None? then None
      else
        var g := FromWords(words);
        LoadFrom(part.value.1, if g in c then c else c[g := part.value.0])
  }

  /** Reading the words turns the part p into q, and the number of tokens to read from n to left. */
  ghost predicate WritesPart(out: Words, n: nat, left: nat, p: Part, q: Part) {
    forall more: Words :: LoadPart(out + more, n, p) == LoadPart(more, left, q)
  }

  lemma NothingWritten(n: nat, p: Part)
    ensures WritesPart([], n, n, p, p)
  {
    forall more: Words
      ensures LoadPart([] + more, n, p) == LoadPart(more, n, p)
    {
      assert [] + more == more;
    }
  }

  lemma PairWritten(out: Words, n: nat, left: nat, p: Part, q: Part, t: Token, count: int)
    requires left > 0 && WritesPart(out, n, left, p, q) && t !in q && count > 0
    ensures WritesPart(out + [t.id, count], n, left - 1, p, q[t := count])
  {
    forall more: Words
      ensures LoadPart(out + [t.id, count] + more, n, p) == LoadPart(more, left - 1, q[t := count])
    {
      assert out + [t.id, count] + more == out + ([t.id, count] + more);
      assert LoadPart(out + ([t.id, count] + more), n, p) == LoadPart([t.id, count] + more, left, q);
      assert ([t.id, count] + more)[2..] == more;
    }
  }

  /** Reading the words turns the cache c into d and goes on after them. */
  ghost predicate Writes(out: Words, c: Cache, d: Cache) {
    forall more: Words :: LoadFrom(out + more, c) == LoadFrom(more, d)
  }

  function Header(g: Ngram, part: Part): Words { ToWords(g) + [|part.Items|] }

  lemma BlockWritten(out: Words, c: Cache, d: Cache, g: Ngram, part: Part, pairs: Words)
    requires Writes(out, c, d) && |g| == NGRAM_MAX && g !in d && part.Items != {}
             && WritesPart(pairs, |part.Items|, 0, map[], part)
    ensures Writes(out + (Header(g, part) + pairs), c, d[g := part])
  {
    forall more: Words
      ensures LoadFrom(out + (Header(g, part) + pairs) + more, c) == LoadFrom(more, d[g := part])
    {
      ThreeParts(out, Header(g, part), pairs, more);
      assert LoadFrom(out + (Header(g, part) + (pairs + more)), c) == LoadFrom(Header(g, part) + (pairs + more), d);
      OneBlock(d, g, part, pairs, more);
    }
  }

  lemma ThreeParts(a: Words, b: Words, c: Words, d: Words)
    ensures a + (b + c) + d == a + (b + (c + d))
  {
  }

  lemma OneBlock(d: Cache, g: Ngram, part: Part, pairs: Words, more: Words)
    requires |g| == NGRAM_MAX && g !in d && part.Items != {} && WritesPart(pairs, |part.Items|, 0, map[], part)
    ensures LoadFrom(Header(g, part) + (pairs + more), d) == LoadFrom(more, d[g := part])
  {
    var block := Header(g, part) + (pairs + more);
    assert FromWords(block) == g && block[NGRAM_MAX] == |part.Items| && block[NGRAM_MAX + 1..] == pairs + more;
    assert LoadPart(pairs + more, |part.Items|, map[]) == LoadPart(more, 0, part);
  }

  /** The entries of the part that are no longer to do. */
  function DoneOf(part: Part, todo: set<(Token, int)>): Part { map t | t in part && (t, part[t]) !in todo :: part[t] }

  lemma DoneMore(part: Part, todo: set<(Token, int)>, item: (Token, int))
    requires item in todo && todo <= part.Items
    ensures item.0 !in DoneOf(part, todo) && item.0 in part && part[item.0] == item.1
    ensures DoneOf(part, todo - {item}) == DoneOf(part, todo)[item.0 := item.1]
  {
  }

  lemma DoneAll(part: Part)
    ensures DoneOf(part, {}) == part && DoneOf(part, part.Items) == map[]
  {
  }

  /** The pairs of one n-gram, in any order. */
  method SavePart(part: Part) returns (out: Words)
    requires forall t :: t in part ==> part[t] > 0
    ensures WritesPart(out, |part.Items|, 0, map[], part)
  {
    out := [];
    NothingWritten(|part.Items|, map[]);
    DoneAll(part);
    var todo := part.Items;
    ghost var left, done: Part := |part.Items|, map[];
    while todo != {}
      invariant todo <= part.Items && left == |todo| && done == DoneOf(part, todo)
      invariant WritesPart(out, |part.Items|, left, map[], done)
    {
      var item :| item in todo;
      DoneMore(part, todo, item);
      PairWritten(out, |part.Items|, left, map[], done, item.0, item.1);
      out := out + [item.0.id, item.1];
      todo := todo - {item};
      left, done := left - 1, done[item.0 := item.1];
    }
  }

  /** `common_ngram_cache_save`: whatever the order of the entries, loading the file gives the cache back. */
  method Save(c: Cache) returns (out: Words)
    requires IsSound(c)
    ensures LoadFrom(out, map[]) == Some(c)
  {
    out := [];
    assert forall more: Words :: [] + more == more;
    var todo := c.Keys;
    ghost var done: Cache := map[];
    while todo != {}
      invariant todo <= c.Keys
      invariant forall g :: g in done <==> g in c && g !in todo
      invariant forall g :: g in done ==> done[g] == c[g]
      invariant Writes(out, map[], done)
    {
      var g: Ngram :| g in todo;
      var pairs := SavePart(c[g]);
      NoItems(c[g]);
      BlockWritten(out, map[], done, g, c[g], pairs);
      out := out + (Header(g, c[g]) + pairs);
      done := done[g := c[g]];
      todo := todo - {g};
    }
    assert done == c && out + [] == out;
  }

  method ReadPart(words: Words, n: nat) returns (r: Option<(Part, Words)>)
    ensures r == LoadPart(words, n, map[])
  {
    var part: Part, rest, i := map[], words, 0;
    while i < n
      invariant 0 <= i <= n
      invariant LoadPart(words, n, map[]) == LoadPart(rest, n - i, part)
    {
      if |rest| < 2 || rest[1] <= 0 {
        return None;
      }
      if Token(rest[0]) !in part {
        part := part[Token(rest[0]) := rest[1]];
      }
      rest := rest[2..];
      i := i + 1;
    }
    return Some((part, rest));
  }

  method Load(words: Words) returns (r: Option<Cache>)
    ensures r == LoadFrom(words, map[])
  {
    var c: Cache, rest := map[], words;
    while |rest| >= NGRAM_MAX
      invariant LoadFrom(words, map[]) == LoadFrom(rest, c)
      decreases |rest|
    {
      var g := FromWords(rest);
      if |rest| == NGRAM_MAX || rest[NGRAM_MAX] <= 0 {
        return None;
      }
      var part := ReadPart(rest[NGRAM_MAX + 1..], rest[NGRAM_MAX]);
      if part.None? {
        return None;
      }
      if g !in c {
        c := c[g := part.value.0];
      }
      rest := part.value.1;
    }
    return Some(c);
  }
}

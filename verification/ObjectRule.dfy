/**
  `_build_object_rule` of common/json_schema_to_grammar.cpp: which sequences of entries the printed rule
  accepts. The key-value rules are terminals, and "{", "," and "}" stand for these literals with the space rule.
 */
module ObjectRule {
  import opened Wrappers
  import opened RuleSet

  datatype Entry = Property(name: string) | Additional

  datatype Token = Open | Comma | Close | Kv(entry: Entry)

  type Word = seq<Token>

  datatype Gram =
    | Empty
    | Term(token: Token)
    | Cat(left: Gram, right: Gram)
    | Or(left: Gram, right: Gram)
    | Optional(body: Gram)
    | Star(body: Gram)
    | Ref(rule: string)

  /** The language of a grammar without references. */
  ghost predicate Accepts(g: Gram, w: Word)
    decreases g, 0, 0
  {
    match g
    case Empty => w == []
    case Term(t) => w == [t]
    case Cat(a, b) => exists k :: 0 <= k <= |w| && Accepts(a, w[..k]) && Accepts(b, w[k..])
    case Or(a, b) => Accepts(a, w) || Accepts(b, w)
    case Optional(b) => w == [] || Accepts(b, w)
    case Star(b) => exists n: nat :: Times(b, n, w)
    case Ref(_) => false
  }

  ghost predicate Times(g: Gram, n: nat, w: Word)
    decreases g, 1, n
  {
    if n == 0 then w == []
    else exists k :: 0 <= k <= |w| && Accepts(g, w[..k]) && Times(g, n - 1, w[k..])
  }

  /** The grammar with its references replaced by the rules they name, through at most d names. */
  function Inline(rules: map<string, Gram>, d: nat, g: Gram): Option<Gram>
    decreases d, g
  {
    match g
    case Cat(a, b) =>
      var x, y := Inline(rules, d, a), Inline(rules, d, b);
      if x.Some? && y.Some? then Some(Cat(x.value, y.value)) else None
    case Or(a, b) =>
      var x, y := Inline(rules, d, a), Inline(rules, d, b);
      if x.Some? && y.Some? then Some(Or(x.value, y.value)) else None
    case Optional(b) => var x := Inline(rules, d, b); if x.Some? then Some(Optional(x.value)) else None
    case Star(b) => var x := Inline(rules, d, b); if x.Some? then Some(Star(x.value)) else None
    case Ref(k) => if d > 0 && k in rules then Inline(rules, d - 1, rules[k]) else None
    case _ => Some(g)
  }

  /** Rules added later change no inlining. */
  lemma {:induction false} InlineExtends(old': map<string, Gram>, new': map<string, Gram>, d: nat, d': nat, g: Gram)
    requires Extends(old', new') && d <= d'
    ensures Inline(old', d, g).Some? ==> Inline(new', d', g) == Inline(old', d, g)
    decreases d, g
  {
    match g
    case Cat(a, b) =>
      InlineExtends(old', new', d, d', a);
      InlineExtends(old', new', d, d', b);
    case Or(a, b) =>
      InlineExtends(old', new', d, d', a);
      InlineExtends(old', new', d, d', b);
    case Optional(b) => InlineExtends(old', new', d, d', b);
    case Star(b) => InlineExtends(old', new', d, d', b);
    case Ref(k) =>
      if d > 0 && k in old' {
        InlineExtends(old', new', d - 1, d' - 1, old'[k]);
      }
    case _ =>
  }

  // ---- what is printed, without references ----

  const STAR := "*"

  /** `prop_kv_rule_names`: the additional entry takes the name "*", also from a property of that name. */
  function EntryOf(k: string, add: bool): Entry { if k == STAR && add then Additional else Property(k) }

  function KvOf(k: string, add: bool): Gram { Term(Kv(EntryOf(k, add))) }

  function CommaKv(k: string, add: bool): Gram { Cat(Term(Comma), KvOf(k, add)) }

  /** The first key of `get_recursive_refs`. */
  function Head(k: string, add: bool, firstIsOptional: bool): Gram {
    if firstIsOptional then (if k == STAR then Star(CommaKv(k, add)) else Optional(CommaKv(k, add)))
    else if k == STAR then Cat(KvOf(k, add), Star(CommaKv(k, add)))
    else KvOf(k, add)
  }

  /** `get_recursive_refs`, with the rules of the remaining keys in place of their names. */
  function Refs(ks: seq<string>, add: bool, firstIsOptional: bool): Gram {
    if ks == [] then Empty
    else if |ks| == 1 then Head(ks[0], add, firstIsOptional)
    else Cat(Head(ks[0], add, firstIsOptional), Refs(ks[1..], add, true))
  }

  // ---- entries and their words ----

  function CommaEach(es: seq<Entry>): Word {
    if es == [] then [] else [Comma, Kv(es[0])] + CommaEach(es[1..])
  }

  /** Entries with commas exactly between them. */
  function Join(es: seq<Entry>): Word {
    if es == [] then [] else [Kv(es[0])] + CommaEach(es[1..])
  }

  function Copies(e: Entry, n: nat): (es: seq<Entry>)
    ensures |es| == n && forall i :: 0 <= i < n ==> es[i] == e
  {
    seq(n, _ => e)
  }

  lemma {:induction false} CommaEachAppend(a: seq<Entry>, b: seq<Entry>)
    ensures CommaEach(a + b) == CommaEach(a) + CommaEach(b)
  {
    if a == [] {
      assert a + b == b;
    } else {
      assert (a + b)[1..] == a[1..] + b;
      CommaEachAppend(a[1..], b);
    }
  }

  /** How many copies a key may contribute. */
  predicate MayRepeat(k: string, n: nat) { n <= 1 || k == STAR }

  /** chosen takes entries from the keys in order, n from the first one; only "*" may give more than one. */
  ghost predicate IsSelection(ks: seq<string>, add: bool, chosen: seq<Entry>)
    decreases |ks|
  {
    if ks == [] then chosen == []
    else exists n: nat ::
      && n <= |chosen|
      && MayRepeat(ks[0], n)
      && chosen[..n] == Copies(EntryOf(ks[0], add), n)
      && IsSelection(ks[1..], add, chosen[n..])
  }

  lemma SelectMore(ks: seq<string>, add: bool, n: nat, rest: seq<Entry>)
    requires ks != [] && MayRepeat(ks[0], n) && IsSelection(ks[1..], add, rest)
    ensures IsSelection(ks, add, Copies(EntryOf(ks[0], add), n) + rest)
  {
    var chosen := Copies(EntryOf(ks[0], add), n) + rest;
    assert chosen[..n] == Copies(EntryOf(ks[0], add), n) && chosen[n..] == rest;
  }

  lemma SelectionSplits(ks: seq<string>, add: bool, chosen: seq<Entry>) returns (n: nat, rest: seq<Entry>)
    requires ks != [] && IsSelection(ks, add, chosen)
    ensures MayRepeat(ks[0], n) && IsSelection(ks[1..], add, rest) && chosen == Copies(EntryOf(ks[0], add), n) + rest
  {
    n :| n <= |chosen| && MayRepeat(ks[0], n) && chosen[..n] == Copies(EntryOf(ks[0], add), n)
        && IsSelection(ks[1..], add, chosen[n..]);
    rest := chosen[n..];
  }

  lemma JoinWords(a: Gram, b: Gram, u: Word, v: Word)
    requires Accepts(a, u) && Accepts(b, v)
    ensures Accepts(Cat(a, b), u + v)
  {
    var w := u + v;
    assert w[..|u|] == u && w[|u|..] == v;
  }

  lemma SplitWord(a: Gram, b: Gram, w: Word) returns (u: Word, v: Word)
    requires Accepts(Cat(a, b), w)
    ensures w == u + v && Accepts(a, u) && Accepts(b, v)
  {
    var k :| 0 <= k <= |w| && Accepts(a, w[..k]) && Accepts(b, w[k..]);
    u, v := w[..k], w[k..];
  }

  lemma CommaKvMeans(k: string, add: bool, w: Word)
    ensures Accepts(CommaKv(k, add), w) <==> w == [Comma, Kv(EntryOf(k, add))]
  {
    if Accepts(CommaKv(k, add), w) {
      var u, v := SplitWord(Term(Comma), KvOf(k, add), w);
    }
    JoinWords(Term(Comma), KvOf(k, add), [Comma], [Kv(EntryOf(k, add))]);
    assert [Comma] + [Kv(EntryOf(k, add))] == [Comma, Kv(EntryOf(k, add))];
  }

  lemma CopiesStep(e: Entry, n: nat)
    ensures CommaEach(Copies(e, n + 1)) == [Comma, Kv(e)] + CommaEach(Copies(e, n))
    ensures Join(Copies(e, n + 1)) == [Kv(e)] + CommaEach(Copies(e, n))
  {
    assert Copies(e, n + 1)[1..] == Copies(e, n);
  }

  lemma {:induction false} TimesGives(k: string, add: bool, n: nat, w: Word)
    requires Times(CommaKv(k, add), n, w)
    ensures w == CommaEach(Copies(EntryOf(k, add), n))
  {
    if n > 0 {
      var i :| 0 <= i <= |w| && Accepts(CommaKv(k, add), w[..i]) && Times(CommaKv(k, add), n - 1, w[i..]);
      CommaKvMeans(k, add, w[..i]);
      TimesGives(k, add, n - 1, w[i..]);
      CopiesStep(EntryOf(k, add), n - 1);
      assert w == w[..i] + w[i..];
    }
  }

  lemma {:induction false} TimesOf(k: string, add: bool, n: nat)
    ensures Times(CommaKv(k, add), n, CommaEach(Copies(EntryOf(k, add), n)))
  {
    if n > 0 {
      var e := EntryOf(k, add);
      var w := CommaEach(Copies(e, n));
      CopiesStep(e, n - 1);
      TimesOf(k, add, n - 1);
      CommaKvMeans(k, add, w[..2]);
      assert w[2..] == CommaEach(Copies(e, n - 1));
    }
  }

  /** The words of the first key, when it may be left out: its entries, each after a comma. */
  lemma HeadOptionalGives(k: string, add: bool, w: Word) returns (n: nat)
    requires Accepts(Head(k, add, true), w)
    ensures MayRepeat(k, n) && w == CommaEach(Copies(EntryOf(k, add), n))
  {
    if k == STAR {
      n :| Times(CommaKv(k, add), n, w);
      TimesGives(k, add, n, w);
    } else if w == [] {
      n := 0;
    } else {
      n := 1;
      CommaKvMeans(k, add, w);
      CopiesStep(EntryOf(k, add), 0);
    }
  }

  lemma HeadOptionalOf(k: string, add: bool, n: nat)
    requires MayRepeat(k, n)
    ensures Accepts(Head(k, add, true), CommaEach(Copies(EntryOf(k, add), n)))
  {
    TimesOf(k, add, n);
    if k != STAR && n == 1 {
      CopiesStep(EntryOf(k, add), 0);
      CommaKvMeans(k, add, CommaEach(Copies(EntryOf(k, add), n)));
    }
  }

  /** The words of the first key, when it must be there: its entries, with commas between them. */
  lemma HeadRequiredGives(k: string, add: bool, w: Word) returns (n: nat)
    requires Accepts(Head(k, add, false), w)
    ensures n >= 1 && MayRepeat(k, n) && w == Join(Copies(EntryOf(k, add), n))
  {
    if k == STAR {
      var u, v := SplitWord(KvOf(k, add), Star(CommaKv(k, add)), w);
      var m: nat :| Times(CommaKv(k, add), m, v);
      TimesGives(k, add, m, v);
      CopiesStep(EntryOf(k, add), m);
      n := m + 1;
    } else {
      n := 1;
      CopiesStep(EntryOf(k, add), 0);
    }
  }

  lemma StarOf(k: string, add: bool, n: nat)
    ensures Accepts(Star(CommaKv(k, add)), CommaEach(Copies(EntryOf(k, add), n)))
  {
    TimesOf(k, add, n);
  }

  lemma HeadRequiredOf(k: string, add: bool, n: nat)
    requires n >= 1 && MayRepeat(k, n)
    ensures Accepts(Head(k, add, false), Join(Copies(EntryOf(k, add), n)))
  {
    CopiesStep(EntryOf(k, add), n - 1);
    if k == STAR {
      StarOf(k, add, n - 1);
      JoinWords(KvOf(k, add), Star(CommaKv(k, add)), [Kv(EntryOf(k, add))], CommaEach(Copies(EntryOf(k, add), n - 1)));
    }
  }

  /** A printed reference is its first key and then the rest, also when there is no rest. */
  lemma RefsSplit(ks: seq<string>, add: bool, first: bool, w: Word) returns (u: Word, v: Word)
    requires ks != [] && Accepts(Refs(ks, add, first), w)
    ensures w == u + v && Accepts(Head(ks[0], add, first), u) && Accepts(Refs(ks[1..], add, true), v)
  {
    if |ks| == 1 {
      u, v := w, [];
    } else {
      u, v := SplitWord(Head(ks[0], add, first), Refs(ks[1..], add, true), w);
    }
  }

  lemma RefsJoin(ks: seq<string>, add: bool, first: bool, u: Word, v: Word)
    requires ks != [] && Accepts(Head(ks[0], add, first), u) && Accepts(Refs(ks[1..], add, true), v)
    ensures Accepts(Refs(ks, add, first), u + v)
  {
    if |ks| == 1 {
      assert u + v == u;
    } else {
      JoinWords(Head(ks[0], add, first), Refs(ks[1..], add, true), u, v);
    }
  }

  /** When everything may be left out, the words are the selections, a comma before each entry. */
  lemma {:induction false} RefsOptionalGives(ks: seq<string>, add: bool, w: Word) returns (chosen: seq<Entry>)
    requires Accepts(Refs(ks, add, true), w)
    ensures IsSelection(ks, add, chosen) && w == CommaEach(chosen)
    decreases |ks|
  {
    if ks == [] {
      chosen := [];
    } else {
      var u, v := RefsSplit(ks, add, true, w);
      var n := HeadOptionalGives(ks[0], add, u);
      var rest := RefsOptionalGives(ks[1..], add, v);
      SelectMore(ks, add, n, rest);
      CommaEachAppend(Copies(EntryOf(ks[0], add), n), rest);
      chosen := Copies(EntryOf(ks[0], add), n) + rest;
    }
  }

  lemma {:induction false} RefsOptionalOf(ks: seq<string>, add: bool, chosen: seq<Entry>)
    requires IsSelection(ks, add, chosen)
    ensures Accepts(Refs(ks, add, true), CommaEach(chosen))
    decreases |ks|
  {
    if ks != [] {
      var n, rest := SelectionSplits(ks, add, chosen);
      HeadOptionalOf(ks[0], add, n);
      RefsOptionalOf(ks[1..], add, rest);
      CommaEachAppend(Copies(EntryOf(ks[0], add), n), rest);
      RefsJoin(ks, add, true, CommaEach(Copies(EntryOf(ks[0], add), n)), CommaEach(rest));
    }
  }

  lemma JoinAppend(a: seq<Entry>, b: seq<Entry>)
    requires a != []
    ensures Join(a + b) == Join(a) + CommaEach(b)
  {
    assert (a + b)[1..] == a[1..] + b;
    CommaEachAppend(a[1..], b);
  }

  /** When the first key must be there, commas stand exactly between the entries. */
  lemma RefsRequiredGives(ks: seq<string>, add: bool, w: Word) returns (chosen: seq<Entry>)
    requires ks != [] && Accepts(Refs(ks, add, false), w)
    ensures chosen != [] && IsSelection(ks, add, chosen) && w == Join(chosen)
  {
    var u, v := RefsSplit(ks, add, false, w);
    var n := HeadRequiredGives(ks[0], add, u);
    var rest := RefsOptionalGives(ks[1..], add, v);
    SelectMore(ks, add, n, rest);
    JoinAppend(Copies(EntryOf(ks[0], add), n), rest);
    chosen := Copies(EntryOf(ks[0], add), n) + rest;
  }

  lemma RefsRequiredOf(ks: seq<string>, add: bool, n: nat, rest: seq<Entry>)
    requires ks != [] && n >= 1 && MayRepeat(ks[0], n) && IsSelection(ks[1..], add, rest)
    ensures Accepts(Refs(ks, add, false), Join(Copies(EntryOf(ks[0], add), n) + rest))
  {
    HeadRequiredOf(ks[0], add, n);
    RefsOptionalOf(ks[1..], add, rest);
    JoinAppend(Copies(EntryOf(ks[0], add), n), rest);
    RefsJoin(ks, add, false, Join(Copies(EntryOf(ks[0], add), n)), CommaEach(rest));
  }

  /** The alternatives, one for each key that can come first, from the i-th on. */
  function Alternatives(ks: seq<string>, add: bool, i: nat): Gram
    requires i < |ks|
    decreases i
  {
    if i == 0 then Refs(ks, add, false) else Or(Alternatives(ks, add, i - 1), Refs(ks[i..], add, false))
  }

  lemma {:induction false} SkipKeys(ks: seq<string>, add: bool, i: nat, chosen: seq<Entry>)
    requires i <= |ks| && IsSelection(ks[i..], add, chosen)
    ensures IsSelection(ks, add, chosen)
  {
    if i == 0 {
      assert ks[0..] == ks;
    } else {
      assert ks[i - 1..][1..] == ks[i..];
      SelectMore(ks[i - 1..], add, 0, chosen);
      assert Copies(EntryOf(ks[i - 1..][0], add), 0) + chosen == chosen;
      SkipKeys(ks, add, i - 1, chosen);
    }
  }

  lemma {:induction false} AlternativesGive(ks: seq<string>, add: bool, i: nat, w: Word) returns (chosen: seq<Entry>)
    requires i < |ks| && Accepts(Alternatives(ks, add, i), w)
    ensures chosen != [] && IsSelection(ks, add, chosen) && w == Join(chosen)
    decreases i
  {
    if i > 0 && Accepts(Alternatives(ks, add, i - 1), w) {
      chosen := AlternativesGive(ks, add, i - 1, w);
    } else {
      assert ks[0..] == ks;
      chosen := RefsRequiredGives(ks[i..], add, w);
      SkipKeys(ks, add, i, chosen);
    }
  }

  lemma {:induction false} AlternativeOf(ks: seq<string>, add: bool, i: nat, j: nat, w: Word)
    requires j <= i < |ks| && Accepts(Refs(ks[j..], add, false), w)
    ensures Accepts(Alternatives(ks, add, i), w)
  {
    if i == j {
      assert ks[0..] == ks;
    } else {
      AlternativeOf(ks, add, i - 1, j, w);
    }
  }

  lemma {:induction false} AlternativesOf(ks: seq<string>, add: bool, j: nat, chosen: seq<Entry>)
    requires j <= |ks| && chosen != [] && IsSelection(ks[j..], add, chosen)
    ensures |ks| > 0 && Accepts(Alternatives(ks, add, |ks| - 1), Join(chosen))
    decreases |ks| - j
  {
    var n, rest := SelectionSplits(ks[j..], add, chosen);
    assert ks[j..][1..] == ks[j + 1..];
    if n == 0 {
      assert Copies(EntryOf(ks[j], add), 0) + rest == rest;
      AlternativesOf(ks, add, j + 1, chosen);
    } else {
      StartingAt(ks, add, j, n, rest);
    }
  }

  lemma StartingAt(ks: seq<string>, add: bool, j: nat, n: nat, rest: seq<Entry>)
    requires j < |ks| && n >= 1 && MayRepeat(ks[j], n) && IsSelection(ks[j..][1..], add, rest)
    ensures Accepts(Alternatives(ks, add, |ks| - 1), Join(Copies(EntryOf(ks[j], add), n) + rest))
  {
    RefsRequiredOf(ks[j..], add, n, rest);
    AlternativeOf(ks, add, |ks| - 1, j, Join(Copies(EntryOf(ks[j], add), n) + rest));
  }

  /** The alternatives accept exactly the non-empty selections, with commas exactly between the entries. */
  lemma AlternativesMean(ks: seq<string>, add: bool, w: Word)
    requires ks != []
    ensures Accepts(Alternatives(ks, add, |ks| - 1), w)
            <==> exists chosen :: chosen != [] && IsSelection(ks, add, chosen) && w == Join(chosen)
  {
    if Accepts(Alternatives(ks, add, |ks| - 1), w) {
      var chosen := AlternativesGive(ks, add, |ks| - 1, w);
    }
    if chosen :| chosen != [] && IsSelection(ks, add, chosen) && w == Join(chosen) {
      assert ks[0..] == ks;
      AlternativesOf(ks, add, 0, chosen);
    }
  }

  // ---- the whole rule ----

  /** The brace and the first i required entries, as the loop prints them. */
  function RequiredUpTo(req: seq<string>, add: bool, i: nat): Gram
    requires i <= |req|
  {
    if i == 0 then Term(Open)
    else Cat(if i == 1 then Term(Open) else Cat(RequiredUpTo(req, add, i - 1), Term(Comma)), KvOf(req[i - 1], add))
  }

  /** The optional part and the closing brace. */
  function ObjectGram(req: seq<string>, ks: seq<string>, add: bool): Gram {
    var start := RequiredUpTo(req, add, |req|);
    Cat(if ks == [] then start else Cat(start, OptionalPart(req == [], ks, add)), Term(Close))
  }

  /** The alternatives, after a comma unless nothing is before them. */
  function OptionalPart(first: bool, ks: seq<string>, add: bool): Gram
    requires ks != []
  {
    var alternatives := Alternatives(ks, add, |ks| - 1);
    Optional(if first then alternatives else Cat(Term(Comma), alternatives))
  }

  function Entries(req: seq<string>, add: bool): (es: seq<Entry>)
    ensures |es| == |req|
  {
    seq(|req|, i requires 0 <= i < |req| => EntryOf(req[i], add))
  }

  function Braces(es: seq<Entry>): Word { [Open] + Join(es) + [Close] }

  lemma JoinSnoc(a: seq<Entry>, e: Entry)
    ensures Join(a + [e]) == if a == [] then [Kv(e)] else Join(a) + [Comma] + [Kv(e)]
  {
    if a == [] {
      assert a + [e] == [e];
    } else {
      JoinAppend(a, [e]);
      assert Join(a) + [Comma, Kv(e)] == Join(a) + [Comma] + [Kv(e)];
    }
  }

  lemma EntriesStep(req: seq<string>, add: bool, i: nat)
    requires 0 < i <= |req|
    ensures Entries(req, add)[..i] == Entries(req, add)[..i - 1] + [EntryOf(req[i - 1], add)]
  {
  }

  lemma {:induction false} RequiredGives(req: seq<string>, add: bool, i: nat, w: Word)
    requires i <= |req| && Accepts(RequiredUpTo(req, add, i), w)
    ensures w == [Open] + Join(Entries(req, add)[..i])
  {
    if i > 0 {
      var es, e := Entries(req, add)[..i - 1], EntryOf(req[i - 1], add);
      EntriesStep(req, add, i);
      JoinSnoc(es, e);
      if i == 1 {
        var u, v := SplitWord(Term(Open), KvOf(req[0], add), w);
      } else {
        var x := BeforeLast(RequiredUpTo(req, add, i - 1), req[i - 1], add, w);
        RequiredGives(req, add, i - 1, x);
        assert [Open] + Join(es) + [Comma] + [Kv(e)] == [Open] + (Join(es) + [Comma] + [Kv(e)]);
      }
    }
  }

  lemma BeforeLast(before: Gram, k: string, add: bool, w: Word) returns (x: Word)
    requires Accepts(Cat(Cat(before, Term(Comma)), KvOf(k, add)), w)
    ensures Accepts(before, x) && w == x + [Comma] + [Kv(EntryOf(k, add))]
  {
    var u, v := SplitWord(Cat(before, Term(Comma)), KvOf(k, add), w);
    var y;
    x, y := SplitWord(before, Term(Comma), u);
  }

  lemma {:induction false} RequiredOf(req: seq<string>, add: bool, i: nat)
    requires i <= |req|
    ensures Accepts(RequiredUpTo(req, add, i), [Open] + Join(Entries(req, add)[..i]))
  {
    if i > 0 {
      var es, e := Entries(req, add)[..i - 1], EntryOf(req[i - 1], add);
      EntriesStep(req, add, i);
      JoinSnoc(es, e);
      if i == 1 {
        JoinWords(Term(Open), KvOf(req[0], add), [Open], [Kv(e)]);
      } else {
        var before := RequiredUpTo(req, add, i - 1);
        RequiredOf(req, add, i - 1);
        JoinWords(before, Term(Comma), [Open] + Join(es), [Comma]);
        JoinWords(Cat(before, Term(Comma)), KvOf(req[i - 1], add), [Open] + Join(es) + [Comma], [Kv(e)]);
        assert [Open] + Join(es) + [Comma] + [Kv(e)] == [Open] + Join(es + [e]);
      }
    }
  }

  lemma JoinAfter(es: seq<Entry>, chosen: seq<Entry>)
    ensures chosen == [] ==> Join(es + chosen) == Join(es)
    ensures es == [] ==> Join(es + chosen) == Join(chosen)
    ensures es != [] && chosen != [] ==> Join(es + chosen) == Join(es) + ([Comma] + Join(chosen))
  {
    if chosen == [] {
      assert es + chosen == es;
    } else if es == [] {
      assert es + chosen == chosen;
    } else {
      JoinAppend(es, chosen);
      assert CommaEach(chosen) == [Comma] + Join(chosen);
    }
  }

  /** The optional part adds the chosen entries to those that are there. */
  lemma OptionalGives(es: seq<Entry>, ks: seq<string>, add: bool, w: Word) returns (chosen: seq<Entry>)
    requires ks != [] && Accepts(OptionalPart(es == [], ks, add), w)
    ensures IsSelection(ks, add, chosen) && Join(es + chosen) == Join(es) + w
  {
    var alternatives := Alternatives(ks, add, |ks| - 1);
    if w == [] {
      chosen := [];
      EmptySelection(ks, add);
    } else if es == [] {
      chosen := AlternativesGive(ks, add, |ks| - 1, w);
    } else {
      var v := AfterComma(alternatives, w);
      chosen := AlternativesGive(ks, add, |ks| - 1, v);
    }
    JoinAfter(es, chosen);
  }

  lemma AfterComma(g: Gram, w: Word) returns (v: Word)
    requires Accepts(Cat(Term(Comma), g), w)
    ensures w == [Comma] + v && Accepts(g, v)
  {
    var u;
    u, v := SplitWord(Term(Comma), g, w);
  }

  lemma {:induction false} EmptySelection(ks: seq<string>, add: bool)
    ensures IsSelection(ks, add, [])
  {
    if ks != [] {
      EmptySelection(ks[1..], add);
      SelectMore(ks, add, 0, []);
      assert Copies(EntryOf(ks[0], add), 0) + [] == [];
    }
  }

  lemma OptionalOf(es: seq<Entry>, ks: seq<string>, add: bool, chosen: seq<Entry>) returns (w: Word)
    requires ks != [] && IsSelection(ks, add, chosen)
    ensures Accepts(OptionalPart(es == [], ks, add), w) && Join(es + chosen) == Join(es) + w
  {
    JoinAfter(es, chosen);
    if chosen == [] {
      w := [];
    } else {
      assert ks[0..] == ks;
      AlternativesOf(ks, add, 0, chosen);
      w := Join(chosen);
      if es != [] {
        JoinWords(Term(Comma), Alternatives(ks, add, |ks| - 1), [Comma], w);
        w := [Comma] + w;
      }
    }
  }

  lemma ObjectGives(req: seq<string>, ks: seq<string>, add: bool, w: Word) returns (chosen: seq<Entry>)
    requires Accepts(ObjectGram(req, ks, add), w)
    ensures IsSelection(ks, add, chosen) && w == Braces(Entries(req, add) + chosen)
  {
    var es, start := Entries(req, add), RequiredUpTo(req, add, |req|);
    assert es[..|req|] == es;
    if ks == [] {
      var u, v := SplitWord(start, Term(Close), w);
      RequiredGives(req, add, |req|, u);
      chosen := [];
      assert es + chosen == es;
    } else {
      var x, v := SplitWord(Cat(start, OptionalPart(req == [], ks, add)), Term(Close), w);
      chosen := BodyGives(req, ks, add, x);
    }
  }

  lemma BodyGives(req: seq<string>, ks: seq<string>, add: bool, x: Word) returns (chosen: seq<Entry>)
    requires ks != [] && Accepts(Cat(RequiredUpTo(req, add, |req|), OptionalPart(req == [], ks, add)), x)
    ensures IsSelection(ks, add, chosen) && x == [Open] + Join(Entries(req, add) + chosen)
  {
    var es := Entries(req, add);
    var u, y := SplitWord(RequiredUpTo(req, add, |req|), OptionalPart(req == [], ks, add), x);
    RequiredGives(req, add, |req|, u);
    assert es[..|req|] == es;
    chosen := OptionalGives(es, ks, add, y);
    OpenBefore(Join(es), y, Join(es + chosen));
  }

  lemma OpenBefore(a: Word, y: Word, b: Word)
    requires b == a + y
    ensures [Open] + a + y == [Open] + b
  {
  }

  lemma ObjectOf(req: seq<string>, ks: seq<string>, add: bool, chosen: seq<Entry>)
    requires IsSelection(ks, add, chosen)
    ensures Accepts(ObjectGram(req, ks, add), Braces(Entries(req, add) + chosen))
  {
    var es, start := Entries(req, add), RequiredUpTo(req, add, |req|);
    assert es[..|req|] == es;
    RequiredOf(req, add, |req|);
    if ks == [] {
      JoinWords(start, Term(Close), [Open] + Join(es), [Close]);
      assert es + chosen == es;
    } else {
      BodyOf(start, es, ks, add, chosen);
      JoinWords(Cat(start, OptionalPart(req == [], ks, add)), Term(Close), [Open] + Join(es + chosen), [Close]);
    }
  }

  lemma BodyOf(start: Gram, es: seq<Entry>, ks: seq<string>, add: bool, chosen: seq<Entry>)
    requires ks != [] && IsSelection(ks, add, chosen) && Accepts(start, [Open] + Join(es))
    ensures Accepts(Cat(start, OptionalPart(es == [], ks, add)), [Open] + Join(es + chosen))
  {
    var y := OptionalOf(es, ks, add, chosen);
    JoinOpen(start, OptionalPart(es == [], ks, add), Join(es), y);
  }

  lemma JoinOpen(start: Gram, part: Gram, u: Word, y: Word)
    requires Accepts(start, [Open] + u) && Accepts(part, y)
    ensures Accepts(Cat(start, part), [Open] + (u + y))
  {
    JoinWords(start, part, [Open] + u, y);
    assert [Open] + u + y == [Open] + (u + y);
  }

  // ---- what the rule should accept ----

  /** `optional_props`: the name "*" stands for the additional entry. */
  function Keys(opt: seq<string>, add: bool): seq<string> { opt + if add then [STAR] else [] }

  function Properties(names: seq<string>): (es: seq<Entry>)
    ensures |es| == |names| && forall i :: 0 <= i < |es| ==> es[i] == Property(names[i])
  {
    seq(|names|, i requires 0 <= i < |names| => Property(names[i]))
  }

  /** Each optional property in its turn is left out or comes next; additional entries come last. */
  predicate InOrder(opt: seq<string>, add: bool, chosen: seq<Entry>)
    decreases |opt|
  {
    if opt == [] then chosen == Copies(Additional, |chosen|) && (chosen != [] ==> add)
    else
      || InOrder(opt[1..], add, chosen)
      || (chosen != [] && chosen[0] == Property(opt[0]) && InOrder(opt[1..], add, chosen[1..]))
  }

  ghost predicate IsObject(req: seq<string>, opt: seq<string>, add: bool, w: Word) {
    exists chosen :: InOrder(opt, add, chosen) && w == Braces(Properties(req) + chosen)
  }

  lemma {:induction false} InOrderSelects(opt: seq<string>, add: bool, chosen: seq<Entry>)
    requires STAR !in opt && InOrder(opt, add, chosen)
    ensures IsSelection(Keys(opt, add), add, chosen)
    decreases |opt|
  {
    var ks := Keys(opt, add);
    if opt == [] {
      if add {
        assert ks[1..] == [] && Copies(Additional, |chosen|) + [] == chosen;
        SelectMore(ks, add, |chosen|, []);
      }
    } else {
      var n := if InOrder(opt[1..], add, chosen) then 0 else 1;
      assert ks[1..] == Keys(opt[1..], add);
      InOrderSelects(opt[1..], add, chosen[n..]);
      SelectMore(ks, add, n, chosen[n..]);
      assert Copies(EntryOf(ks[0], add), n) + chosen[n..] == chosen;
    }
  }

  lemma {:induction false} SelectionInOrder(opt: seq<string>, add: bool, chosen: seq<Entry>)
    requires STAR !in opt && IsSelection(Keys(opt, add), add, chosen)
    ensures InOrder(opt, add, chosen)
    decreases |opt|
  {
    var ks := Keys(opt, add);
    if opt == [] {
      if add {
        var n, rest := SelectionSplits(ks, add, chosen);
        assert chosen == Copies(Additional, |chosen|);
      }
    } else {
      var n, rest := SelectionSplits(ks, add, chosen);
      assert ks[1..] == Keys(opt[1..], add);
      SelectionInOrder(opt[1..], add, rest);
      assert chosen[n..] == rest;
    }
  }

  lemma PlainEntries(req: seq<string>, add: bool)
    requires add ==> STAR !in req
    ensures Entries(req, add) == Properties(req)
  {
  }

  /** No property is taken for the additional entry, or the other way round. */
  predicate StarFree(req: seq<string>, opt: seq<string>, add: bool) { STAR !in opt && (add ==> STAR !in req) }

  lemma ObjectExact(req: seq<string>, opt: seq<string>, add: bool, w: Word)
    requires StarFree(req, opt, add)
    ensures Accepts(ObjectGram(req, Keys(opt, add), add), w) <==> IsObject(req, opt, add, w)
  {
    PlainEntries(req, add);
    if Accepts(ObjectGram(req, Keys(opt, add), add), w) {
      var chosen := ObjectGives(req, Keys(opt, add), add, w);
      SelectionInOrder(opt, add, chosen);
    }
    if IsObject(req, opt, add, w) {
      var chosen :| InOrder(opt, add, chosen) && w == Braces(Properties(req) + chosen);
      InOrderSelects(opt, add, chosen);
      ObjectOf(req, Keys(opt, add), add, chosen);
    }
  }

  // ---- a property named "*" ----

  lemma {:induction false} CommaEachLength(es: seq<Entry>)
    ensures |CommaEach(es)| == 2 * |es|
  {
    if es != [] {
      CommaEachLength(es[1..]);
    }
  }

  lemma {:induction false} InOrderLength(opt: seq<string>, chosen: seq<Entry>)
    requires InOrder(opt, false, chosen)
    ensures |chosen| <= |opt|
    decreases |opt|
  {
    if opt != [] {
      if InOrder(opt[1..], false, chosen) {
        InOrderLength(opt[1..], chosen);
      } else {
        InOrderLength(opt[1..], chosen[1..]);
      }
    }
  }

  /** Without additional properties, an optional property "*" may be written any number of times. */
  lemma StarRepeats(req: seq<string>, opt: seq<string>)
    requires STAR in opt
    ensures exists w :: Accepts(ObjectGram(req, Keys(opt, false), false), w) && !IsObject(req, opt, false, w)
  {
    var ks := Keys(opt, false);
    var j :| 0 <= j < |opt| && opt[j] == STAR;
    var chosen := Copies(Property(STAR), |opt| + 1);
    EmptySelection(ks[j..][1..], false);
    SelectMore(ks[j..], false, |opt| + 1, []);
    assert chosen + [] == chosen;
    SkipKeys(ks, false, j, chosen);
    ObjectOf(req, ks, false, chosen);
    var w := Braces(Entries(req, false) + chosen);
    if IsObject(req, opt, false, w) {
      var other :| InOrder(opt, false, other) && w == Braces(Properties(req) + other);
      InOrderLength(opt, other);
      CommaEachLength((Properties(req) + other)[1..]);
      CommaEachLength((Entries(req, false) + chosen)[1..]);
      assert false;
    }
  }

  lemma {:induction false} JoinHas(es: seq<Entry>, e: Entry)
    ensures Kv(e) in CommaEach(es) <==> e in es
  {
    if es != [] {
      JoinHas(es[1..], e);
      assert es == [es[0]] + es[1..];
    }
  }

  lemma BracesHave(es: seq<Entry>, e: Entry)
    ensures Kv(e) in Braces(es) <==> e in es
  {
    if es != [] {
      JoinHas(es[1..], e);
      assert es == [es[0]] + es[1..];
    }
  }

  lemma {:induction false} NeverSelected(ks: seq<string>, chosen: seq<Entry>)
    requires IsSelection(ks, true, chosen)
    ensures Property(STAR) !in chosen
    decreases |ks|
  {
    if ks != [] {
      var n, rest := SelectionSplits(ks, true, chosen);
      NeverSelected(ks[1..], rest);
    }
  }

  /** With additional properties, no word has a property "*". */
  lemma StarMissing(req: seq<string>, opt: seq<string>, w: Word)
    requires Kv(Property(STAR)) in w
    ensures !Accepts(ObjectGram(req, Keys(opt, true), true), w)
  {
    if Accepts(ObjectGram(req, Keys(opt, true), true), w) {
      var chosen := ObjectGives(req, Keys(opt, true), true, w);
      NeverSelected(Keys(opt, true), chosen);
      BracesHave(Entries(req, true) + chosen, Property(STAR));
    }
  }

  lemma {:induction false} PickOne(opt: seq<string>, add: bool, chosen: seq<Entry>)
    requires chosen == [] || (STAR in opt && chosen == [Property(STAR)])
    ensures InOrder(opt, add, chosen)
    decreases |opt|
  {
    if opt != [] {
      if chosen != [] && opt[0] == STAR {
        PickOne(opt[1..], add, chosen[1..]);
      } else {
        PickOne(opt[1..], add, chosen);
      }
    }
  }

  lemma StarLost(req: seq<string>, opt: seq<string>)
    requires STAR in opt || STAR in req
    ensures exists w :: IsObject(req, opt, true, w) && !Accepts(ObjectGram(req, Keys(opt, true), true), w)
  {
    var chosen := if STAR in opt then [Property(STAR)] else [];
    PickOne(opt, true, chosen);
    var es := Properties(req) + chosen;
    assert Property(STAR) in es by {
      if STAR in opt {
        assert es[|req|] == Property(STAR);
      } else {
        var i :| 0 <= i < |req| && req[i] == STAR;
        assert es[i] == Property(STAR);
      }
    }
    BracesHave(es, Property(STAR));
    StarMissing(req, opt, Braces(es));
    assert IsObject(req, opt, true, Braces(es));
  }

  /** The grammar accepts exactly the objects of the schema. */
  ghost predicate AcceptsObjects(g: Gram, req: seq<string>, opt: seq<string>, add: bool) {
    forall w :: Accepts(g, w) <==> IsObject(req, opt, add, w)
  }

  ghost predicate Exact(req: seq<string>, opt: seq<string>, add: bool) {
    AcceptsObjects(ObjectGram(req, Keys(opt, add), add), req, opt, add)
  }

  /**
    The rule accepts exactly the objects of the schema if and only if "*" names no property it can be confused with.
   */
  lemma ExactIffStarFree(req: seq<string>, opt: seq<string>, add: bool)
    ensures Exact(req, opt, add) <==> StarFree(req, opt, add)
  {
    if StarFree(req, opt, add) {
      forall w {
        ObjectExact(req, opt, add, w);
      }
    } else if add {
      StarLost(req, opt);
    } else {
      StarRepeats(req, opt);
    }
  }

  // ---- printing it ----

  function Prefixed(name: string, rest: string): string { name + (if name == "" then "" else "-") + rest }

  lemma InlineHead(rules: map<string, Gram>, d: nat, k: string, add: bool, first: bool)
    ensures Inline(rules, d, Head(k, add, first)) == Some(Head(k, add, first))
  {
    assert Inline(rules, d, CommaKv(k, add)) == Some(CommaKv(k, add));
  }

  /** `get_recursive_refs`: the remaining keys become a rule of their own, named after the first one. */
  method GetRecursiveRefs(rules: Rules<Gram>, name: string, ks: seq<string>, add: bool, firstIsOptional: bool)
    returns (res: Gram)
    modifies rules
    ensures Extends(old(rules.rules), rules.rules)
    ensures Inline(rules.rules, |ks|, res) == Some(Refs(ks, add, firstIsOptional))
    decreases |ks|
  {
    if ks == [] {
      return Empty;
    }
    res := Head(ks[0], add, firstIsOptional);
    if |ks| > 1 {
      var rest := GetRecursiveRefs(rules, name, ks[1..], add, true);
      ghost var before := rules.rules;
      var key := rules.AddRule(Prefixed(name, ks[0] + "-rest"), rest);
      InlineExtends(before, rules.rules, |ks| - 1, |ks| - 1, rest);
      assert Inline(rules.rules, |ks|, Ref(key)) == Some(Refs(ks[1..], add, true));
      res := Cat(res, Ref(key));
    }
    InlineHead(rules.rules, |ks|, ks[0], add, firstIsOptional);
  }

  function Those(names: seq<string>, among: set<string>, inside: bool): seq<string> {
    if names == [] then []
    else
      var n := |names| - 1;
      Those(names[..n], among, inside) + if (names[n] in among) == inside then [names[n]] else []
  }

  /** The required entries, in the order of the properties, with commas between them. */
  method PrintRequired(req: seq<string>, add: bool) returns (rule: Gram)
    ensures rule == RequiredUpTo(req, add, |req|)
  {
    rule := Term(Open);
    var i := 0;
    while i < |req|
      invariant 0 <= i <= |req|
      invariant rule == RequiredUpTo(req, add, i)
    {
      if i > 0 {
        rule := Cat(rule, Term(Comma));
      }
      rule := Cat(rule, KvOf(req[i], add));
      i := i + 1;
    }
  }

  lemma InlineRequired(rules: map<string, Gram>, d: nat, req: seq<string>, add: bool, i: nat)
    requires i <= |req|
    ensures Inline(rules, d, RequiredUpTo(req, add, i)) == Some(RequiredUpTo(req, add, i))
  {
    if i > 0 {
      InlineRequired(rules, d, req, add, i - 1);
      assert Inline(rules, d, KvOf(req[i - 1], add)) == Some(KvOf(req[i - 1], add));
      if i > 1 {
        var before := RequiredUpTo(req, add, i - 1);
        assert Inline(rules, d, Term(Comma)) == Some(Term(Comma));
        assert Inline(rules, d, Cat(before, Term(Comma))) == Some(Cat(before, Term(Comma)));
      }
    }
  }

  /** The alternatives of the optional part, one for each key that can come first. */
  method PrintAlternatives(rules: Rules<Gram>, name: string, ks: seq<string>, add: bool) returns (rule: Gram)
    requires ks != []
    modifies rules
    ensures Extends(old(rules.rules), rules.rules)
    ensures Inline(rules.rules, |ks|, rule) == Some(Alternatives(ks, add, |ks| - 1))
  {
    assert ks[0..] == ks;
    rule := GetRecursiveRefs(rules, name, ks, add, false);
    var i := 1;
    while i < |ks|
      invariant 1 <= i <= |ks|
      invariant Extends(old(rules.rules), rules.rules)
      invariant Inline(rules.rules, |ks|, rule) == Some(Alternatives(ks, add, i - 1))
    {
      ghost var before := rules.rules;
      var refs := GetRecursiveRefs(rules, name, ks[i..], add, false);
      OneMoreAlternative(before, rules.rules, ks, add, i, rule, refs);
      rule := Or(rule, refs);
      i := i + 1;
    }
  }

  lemma OneMoreAlternative(before: map<string, Gram>, after: map<string, Gram>, ks: seq<string>, add: bool, i: nat,
                           rule: Gram, refs: Gram)
    requires 0 < i < |ks| && Extends(before, after)
    requires Inline(before, |ks|, rule) == Some(Alternatives(ks, add, i - 1))
    requires Inline(after, |ks| - i, refs) == Some(Refs(ks[i..], add, false))
    ensures Inline(after, |ks|, Or(rule, refs)) == Some(Alternatives(ks, add, i))
  {
    InlineExtends(before, after, |ks|, |ks|, rule);
    InlineExtends(after, after, |ks| - i, |ks|, refs);
  }

  /** `required_props` and `optional_props`. */
  method Partition(properties: seq<string>, required: set<string>, additional: bool)
    returns (req: seq<string>, opt: seq<string>)
    ensures req == Those(properties, required, true)
    ensures opt == Keys(Those(properties, required, false), additional)
  {
    req, opt := [], [];
    var i := 0;
    while i < |properties|
      invariant 0 <= i <= |properties|
      invariant req == Those(properties[..i], required, true) && opt == Those(properties[..i], required, false)
    {
      assert properties[..i + 1][..i] == properties[..i];
      if properties[i] in required {
        req := req + [properties[i]];
      } else {
        opt := opt + [properties[i]];
      }
      i := i + 1;
    }
    assert properties[..i] == properties;
    if additional {
      opt := opt + [STAR];
    }
  }

  lemma InlineCat(rules: map<string, Gram>, d: nat, a: Gram, b: Gram)
    requires Inline(rules, d, a).Some? && Inline(rules, d, b).Some?
    ensures Inline(rules, d, Cat(a, b)) == Some(Cat(Inline(rules, d, a).value, Inline(rules, d, b).value))
  {
  }

  /** The optional part, after a comma when required entries are before it. */
  method PrintOptional(rules: Rules<Gram>, name: string, first: bool, ks: seq<string>, add: bool) returns (rule: Gram)
    requires ks != []
    modifies rules
    ensures Extends(old(rules.rules), rules.rules)
    ensures Inline(rules.rules, |ks|, rule) == Some(OptionalPart(first, ks, add))
  {
    rule := PrintAlternatives(rules, name, ks, add);
    if !first {
      assert Inline(rules.rules, |ks|, Term(Comma)) == Some(Term(Comma));
      InlineCat(rules.rules, |ks|, Term(Comma), rule);
      rule := Cat(Term(Comma), rule);
    }
    rule := Optional(rule);
  }

  /**
    `_build_object_rule`: with its references replaced by the rules they name, the result is ObjectGram, and it accepts
    exactly the objects of the schema if and only if "*" names no property it can be confused with.
   */
  method BuildObjectRule(rules: Rules<Gram>, properties: seq<string>, required: set<string>, additional: bool,
                         name: string)
    returns (rule: Gram)
    modifies rules
    ensures Extends(old(rules.rules), rules.rules)
    ensures var req, ks := Those(properties, required, true), Keys(Those(properties, required, false), additional);
            Inline(rules.rules, |ks|, rule) == Some(ObjectGram(req, ks, additional))
    ensures var req, opt := Those(properties, required, true), Those(properties, required, false);
            var g := Inline(rules.rules, |Keys(opt, additional)|, rule);
            g.Some? && (AcceptsObjects(g.value, req, opt, additional) <==> StarFree(req, opt, additional))
  {
    var req, opt := Partition(properties, required, additional);
    rule := PrintRequired(req, additional);
    if opt != [] {
      var optional := PrintOptional(rules, name, req == [], opt, additional);
      InlineRequired(rules.rules, |opt|, req, additional, |req|);
      InlineCat(rules.rules, |opt|, rule, optional);
      rule := Cat(rule, optional);
    } else {
      InlineRequired(rules.rules, |opt|, req, additional, |req|);
    }
    assert Inline(rules.rules, |opt|, Term(Close)) == Some(Term(Close));
    InlineCat(rules.rules, |opt|, rule, Term(Close));
    rule := Cat(rule, Term(Close));
    ExactIffStarFree(req, Those(properties, required, false), additional);
  }
}

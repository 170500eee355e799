/**
  `regex_to_reversed_partial_regex` on the text of a pattern: what its loop over the characters makes of every
  pattern that is written down as usual.
 */
module RegexText {
  import opened Wrappers
  import opened Decimals
  import opened RegexPartial

  datatype Error =
    | UnmatchedClass
    | NothingToQuantify
    | NothingToRepeat
    | UnmatchedBrace
    | InvalidRange
    | InvalidNumber
    | UnmatchedGroup
    | EmptyAlternative

  datatype Result<T> = Ok(value: T) | Err(error: Error)

  /** What one call of `process` returns: its text, and the pattern from the iterator on. */
  datatype Processed = Processed(text: string, rest: string)

  type Alternatives = seq<seq<string>>

  function Back(alts: Alternatives): seq<string>
    requires alts != []
  {
    alts[|alts| - 1]
  }

  function WithBack(alts: Alternatives, parts: seq<string>): (r: Alternatives)
    requires alts != []
    ensures |r| == |alts| && Back(r) == parts
  {
    alts[|alts| - 1 := parts]
  }

  function Push(alts: Alternatives, part: string): (r: Alternatives)
    requires alts != []
    ensures |r| == |alts|
  {
    WithBack(alts, Back(alts) + [part])
  }

  /** Where the class that is open at i ends. */
  function ClassEnd(s: string, i: nat): (e: Option<nat>)
    ensures e.Some? ==> i <= e.value < |s|
    decreases |s| - i
  {
    if i >= |s| then None
    else if s[i] == '\\' then (if i + 1 < |s| then ClassEnd(s, i + 2) else None)
    else if s[i] == ']' then Some(i)
    else ClassEnd(s, i + 1)
  }

  function Find(s: string, c: char, i: nat): (e: Option<nat>)
    ensures e.Some? ==> i <= e.value < |s|
    decreases |s| - i
  {
    if i >= |s| then None else if s[i] == c then Some(i) else Find(s, c, i + 1)
  }

  /** `string_split` at commas. */
  function Split(s: string): (parts: seq<string>)
    ensures parts != []
    decreases |s|
  {
    var e := Find(s, ',', 0);
    if e.None? then [s] else [s[..e.value]] + Split(s[e.value + 1..])
  }

  function DigitCount(s: string): (n: nat)
    ensures n <= |s| && IsDigits(s[..n])
  {
    if s != [] && '0' <= s[0] <= '9' then
      var n := 1 + DigitCount(s[1..]);
      assert s[..n] == [s[0]] + s[1..][..n - 1];
      n
    else 0
  }

  const INT_MAX := 0x7FFF_FFFF

  predicate IsSpace(c: char) { c == ' ' || '\t' <= c <= '\r' }

  /** `std::stoi`: spaces, a sign, digits, and whatever follows them. */
  function Stoi(s: string): Option<int>
    decreases |s|
  {
    if s != [] && IsSpace(s[0]) then Stoi(s[1..])
    else
      var signed := s != [] && (s[0] == '-' || s[0] == '+');
      var t := if signed then s[1..] else s;
      var n := DigitCount(t);
      var v := if signed && s[0] == '-' then -Val(t[..n]) else Val(t[..n]);
      if n == 0 || !(-INT_MAX - 1 <= v <= INT_MAX) then None else Some(v)
  }

  /** The numbers between the braces: a missing first one is 0, a missing second one is no bound. */
  function Range(s: string): (r: Result<(int, Option<int>)>)
    ensures r.Ok? && r.value.1.Some? ==> r.value.0 <= r.value.1.value
  {
    var parts := Split(s);
    if |parts| > 2 then Err(InvalidRange)
    else
      var min := if parts[0] == [] then Some(0) else Stoi(parts[0]);
      if min.None? then Err(InvalidNumber)
      else if |parts| == 1 then Ok((min.value, min))
      else if parts[1] == [] then Ok((min.value, None))
      else
        var max := Stoi(parts[1]);
        if max.None? then Err(InvalidNumber)
        else if max.value < min.value then Err(InvalidRange)
        else Ok((min.value, max))
  }

  function Repeated(part: string, min: int, max: Option<int>): seq<string>
    requires max.Some? ==> min <= max.value
  {
    Copies(part, if min > 0 then min else 0) + if max.None? then [part + "*"] else Copies(part + "?", max.value - min)
  }

  /** The optional groups around the parts, as the loops at the end of `process` write them. */
  function ChainText(parts: seq<string>): string {
    if parts == [] then [] else if |parts| == 1 then parts[0] else "(?:" + ChainText(parts[1..]) + ")?" + parts[0]
  }

  function JoinText(alts: Alternatives): string
    requires alts != []
  {
    if |alts| == 1 then ChainText(alts[0]) else JoinText(alts[..|alts| - 1]) + "|" + ChainText(Back(alts))
  }

  /** An alternative without parts makes the loop bound `parts.size() - 1` wrap around. */
  function Finish(alts: Alternatives, s: string): Result<Processed>
    requires alts != []
  {
    if [] in alts then Err(EmptyAlternative) else Ok(Processed(JoinText(alts), s))
  }

  function StartsPlain(s: string): bool { |s| >= 2 && s[0] == '?' && s[1] == ':' }

  datatype Stepped = Stepped(rest: string, alts: Alternatives)

  /** A quantifier goes behind the last part; the question mark of a lazy star is dropped. */
  function QuantifierStep(s: string, alts: Alternatives): (r: Result<Stepped>)
    requires s != [] && alts != []
    ensures r.Ok? ==> |r.value.rest| < |s| && r.value.alts != []
  {
    var parts := Back(alts);
    if parts == [] then Err(NothingToQuantify)
    else
      var alts' := WithBack(alts, parts[|parts| - 1 := parts[|parts| - 1] + [s[0]]]);
      Ok(Stepped(if s[0] == '*' && |s| > 1 && s[1] == '?' then s[2..] else s[1..], alts'))
  }

  /** A counted repetition replaces the last part by its copies. */
  function BraceStep(s: string, alts: Alternatives): (r: Result<Stepped>)
    requires s != [] && alts != []
    ensures r.Ok? ==> |r.value.rest| < |s| && r.value.alts != []
  {
    var parts, e := Back(alts), Find(s, '}', 1);
    if parts == [] then Err(NothingToRepeat)
    else if e.None? then Err(UnmatchedBrace)
    else
      var range := Range(s[1..e.value]);
      if range.Err? then Err(range.error)
      else
        var copies := Repeated(parts[|parts| - 1], range.value.0, range.value.1);
        Ok(Stepped(s[e.value + 1..], WithBack(alts, parts[..|parts| - 1] + copies)))
  }

  function SingleStep(s: string, alts: Alternatives): (r: Result<Stepped>)
    requires s != [] && alts != []
    ensures r.Ok? ==> |r.value.rest| < |s| && r.value.alts != []
  {
    if s[0] == '[' then
      var e := ClassEnd(s, 1);
      if e.None? then Err(UnmatchedClass) else Ok(Stepped(s[e.value + 1..], Push(alts, s[..e.value + 1])))
    else if s[0] == '\\' then Ok(if |s| > 1 then Stepped(s[2..], Push(alts, s[..2])) else Stepped([], alts))
    else Ok(Stepped(s[1..], Push(alts, s[..1])))
  }

  /** One turn of the loop, except at a group. */
  function Step(s: string, alts: Alternatives): (r: Result<Stepped>)
    requires s != [] && alts != []
    ensures r.Ok? ==> |r.value.rest| < |s| && r.value.alts != []
  {
    if s[0] == '*' || s[0] == '?' || s[0] == '+' then QuantifierStep(s, alts)
    else if s[0] == '{' then BraceStep(s, alts)
    else if s[0] == '|' then Ok(Stepped(s[1..], alts + [[]]))
    else SingleStep(s, alts)
  }

  /** `process` from the pattern s on, with these alternatives. */
  function Process(s: string, alts: Alternatives): (r: Result<Processed>)
    requires alts != []
    ensures r.Ok? ==> |r.value.rest| <= |s| && (r.value.rest == [] || r.value.rest[0] == ')')
    decreases |s|
  {
    if s == [] || s[0] == ')' then Finish(alts, s)
    else if s[0] == '(' then
      var sub := Process(if StartsPlain(s[1..]) then s[3..] else s[1..], [[]]);
      if sub.Err? then sub
      else if sub.value.rest == [] then Err(UnmatchedGroup)
      else Process(sub.value.rest[1..], Push(alts, "(?:" + sub.value.text + ")"))
    else
      var r := Step(s, alts);
      if r.Err? then Err(r.error) else Process(r.value.rest, r.value.alts)
  }

  /** The whole transformation. */
  function ToReversedPartial(pattern: string): Result<string> {
    var r := Process(pattern, [[]]);
    if r.Err? then Err(r.error)
    else if r.value.rest != [] then Err(UnmatchedGroup)
    else Ok("^(" + r.value.text + ")")
  }

  // ---- patterns as they are written ----

  predicate IsSpecial(c: char) { c in "[*?+{()|\\" }

  /** One character, a backslash and a character, or a class up to its bracket. */
  predicate IsSingle(t: string) {
    || (|t| == 1 && !IsSpecial(t[0]))
    || (|t| == 2 && t[0] == '\\')
    || (|t| >= 2 && t[0] == '[' && ClassEnd(t, 1) == Some(|t| - 1))
  }

  function ShowBounds(b: Bounds): string {
    match b
    case Exactly(n) => "{" + Decimal(n) + "}"
    case AtLeast(n) => "{" + Decimal(n) + ",}"
    case Between(low, high) => "{" + Decimal(low) + "," + Decimal(high) + "}"
  }

  function ShowQuantifier(q: Quantifier): string {
    match q
    case Once => ""
    case ZeroOrMore(lazy) => if lazy then "*?" else "*"
    case OneOrMore(lazy) => if lazy then "+?" else "+"
    case ZeroOrOne(lazy) => if lazy then "??" else "?"
    case Counted(b, lazy) => if lazy then ShowBounds(b) + "?" else ShowBounds(b)
  }

  function ShowAtom(a: Atom): string {
    match a
    case Single(t) => t
    case Group(plain, alts) => (if plain then "(?:" else "(") + ShowAlternatives(alts) + ")"
  }

  function ShowItem(item: Item): string { ShowAtom(item.atom) + ShowQuantifier(item.quantifier) }

  function ShowItems(items: Items): string {
    if items == [] then "" else ShowItem(items[0]) + ShowItems(items[1..])
  }

  function ShowAlternatives(alts: seq<Sequence>): string {
    if alts == [] then ""
    else if |alts| == 1 then ShowItems(alts[0].items)
    else ShowItems(alts[0].items) + "|" + ShowAlternatives(alts[1..])
  }

  predicate FitsBounds(b: Bounds) {
    match b
    case Exactly(n) => n <= INT_MAX
    case AtLeast(n) => n <= INT_MAX
    case Between(low, high) => low <= high <= INT_MAX
  }

  /** `{0}` and `{0,0}`, the only bounds that leave no part behind. */
  predicate IsNone(b: Bounds) { b == Exactly(0) || b == Between(0, 0) }

  /** The bounds are numbers in order, and no question mark stands where no part is left for it. */
  predicate IsWritableQuantifier(q: Quantifier) { q.Counted? ==> FitsBounds(q.bounds) && !(q.lazy && IsNone(q.bounds)) }

  predicate IsWritable(items: Items)
    decreases items
  {
    forall i :: 0 <= i < |items| ==> IsWritableItem(items[i])
  }

  predicate IsWritableItem(item: Item)
    decreases item
  {
    IsWritableQuantifier(item.quantifier) && IsWritableAtom(item.atom)
  }

  predicate IsWritableAtom(a: Atom)
    decreases a
  {
    match a
    case Single(t) => IsSingle(t)
    case Group(_, alts) => |alts| > 0 && forall i :: 0 <= i < |alts| ==> IsWritable(alts[i].items)
  }

  predicate AllWritable(alts: seq<Sequence>) { |alts| > 0 && forall i :: 0 <= i < |alts| ==> IsWritable(alts[i].items) }

  // ---- the text of the transformed pattern ----

  function NodeText(p: Node): string {
    match p
    case Basic(t) => t
    case Marked(b, mark) => NodeText(b) + mark
    case Grouped(chains) => if chains == [] then "(?:)" else "(?:" + JoinText(ChainTexts(chains)) + ")"
  }

  function PartTexts(ps: Parts): (r: seq<string>)
    ensures |r| == |ps|
  {
    if ps == [] then [] else [NodeText(ps[0])] + PartTexts(ps[1..])
  }

  function ChainTexts(chains: seq<Chain>): (r: Alternatives)
    ensures |r| == |chains|
  {
    if chains == [] then [] else [PartTexts(chains[0].parts)] + ChainTexts(chains[1..])
  }

  // ---- one element ----

  lemma {:induction false} ClassEndLocal(t: string, rest: string, i: nat)
    requires ClassEnd(t, i).Some?
    ensures ClassEnd(t + rest, i) == ClassEnd(t, i)
    decreases |t| - i
  {
    assert (t + rest)[i] == t[i];
    if t[i] == '\\' {
      ClassEndLocal(t, rest, i + 2);
    } else if t[i] != ']' {
      ClassEndLocal(t, rest, i + 1);
    }
  }

  lemma StepSingle(t: string, rest: string, alts: Alternatives)
    requires IsSingle(t) && alts != []
    ensures Process(t + rest, alts) == Process(rest, Push(alts, t))
  {
    var s := t + rest;
    assert s[..|t|] == t && s[|t|..] == rest;
    assert s[0] == t[0];
    if |t| >= 2 && t[0] == '[' {
      ClassEndLocal(t, rest, 1);
    }
  }

  /** A quantifier cannot start here. */
  predicate NoQuantifier(s: string) { s == [] || s[0] !in "*?+{" }

  /** The last part with a mark behind it. */
  function MarkLast(alts: Alternatives, mark: string): (r: Alternatives)
    requires alts != [] && Back(alts) != []
    ensures |r| == |alts| && Back(r) != []
  {
    var parts := Back(alts);
    WithBack(alts, parts[|parts| - 1 := parts[|parts| - 1] + mark])
  }

  lemma MarkTwice(alts: Alternatives, a: string, b: string)
    requires alts != [] && Back(alts) != []
    ensures MarkLast(MarkLast(alts, a), b) == MarkLast(alts, a + b)
  {
    var parts := Back(alts);
    var last := parts[|parts| - 1];
    assert (last + a) + b == last + (a + b);
    assert parts[|parts| - 1 := last + a][|parts| - 1 := last + a + b] == parts[|parts| - 1 := last + (a + b)];
    assert MarkLast(MarkLast(alts, a), b) == alts[|alts| - 1 := parts[|parts| - 1 := last + (a + b)]];
  }

  lemma StepMark(c: char, rest: string, alts: Alternatives)
    requires alts != [] && Back(alts) != [] && (c == '*' || c == '+' || c == '?')
    requires c == '*' ==> rest == [] || rest[0] != '?'
    ensures Process([c] + rest, alts) == Process(rest, MarkLast(alts, [c]))
  {
    var s := [c] + rest;
    assert s[1..] == rest && s[0] == c;
  }

  lemma StepLazyStar(rest: string, alts: Alternatives)
    requires alts != [] && Back(alts) != []
    ensures Process("*?" + rest, alts) == Process(rest, MarkLast(alts, "*"))
  {
    var s := "*?" + rest;
    assert s[0] == '*' && s[1] == '?' && s[2..] == rest;
  }

  function MarkOf(q: Quantifier): string
    requires !q.Once? && !q.Counted?
  {
    match q
    case ZeroOrMore(_) => "*"
    case OneOrMore(lazy) => if lazy then "+?" else "+"
    case ZeroOrOne(lazy) => if lazy then "??" else "?"
  }

  lemma StepMarks(q: Quantifier, rest: string, alts: Alternatives)
    requires alts != [] && Back(alts) != [] && !q.Once? && !q.Counted? && NoQuantifier(rest)
    ensures Process(ShowQuantifier(q) + rest, alts) == Process(rest, MarkLast(alts, MarkOf(q)))
  {
    if q.ZeroOrMore? {
      if q.lazy {
        StepLazyStar(rest, alts);
      } else {
        StepMark('*', rest, alts);
      }
    } else {
      var c := if q.OneOrMore? then '+' else '?';
      if q.lazy {
        assert ShowQuantifier(q) + rest == [c] + ("?" + rest);
        StepMark(c, "?" + rest, alts);
        StepMark('?', rest, MarkLast(alts, [c]));
        MarkTwice(alts, [c], "?");
        assert [c] + "?" == MarkOf(q);
      } else {
        StepMark(c, rest, alts);
      }
    }
  }

  // ---- counted repetitions ----

  lemma {:induction false} FindAfter(a: string, c: char, rest: string, i: nat)
    requires i <= |a| && c !in a
    ensures Find(a + [c] + rest, c, i) == Some(|a|)
    decreases |a| - i
  {
    if i < |a| {
      assert (a + [c] + rest)[i] == a[i];
      FindAfter(a, c, rest, i + 1);
    }
  }

  lemma {:induction false} FindNone(a: string, c: char, i: nat)
    requires i <= |a| && c !in a
    ensures Find(a, c, i) == None
    decreases |a| - i
  {
    if i < |a| {
      FindNone(a, c, i + 1);
    }
  }

  lemma {:induction false} AllCounted(s: string)
    requires IsDigits(s)
    ensures DigitCount(s) == |s|
  {
    if s != [] {
      AllCounted(s[1..]);
    }
  }

  lemma StoiDecimal(n: nat)
    requires n <= INT_MAX
    ensures Stoi(Decimal(n)) == Some(n)
  {
    var s := Decimal(n);
    AllCounted(s);
    ValDecimal(n);
    assert s[..|s|] == s && '0' <= s[0] <= '9';
  }

  function ShowInner(b: Bounds): string {
    match b
    case Exactly(n) => Decimal(n)
    case AtLeast(n) => Decimal(n) + ","
    case Between(low, high) => Decimal(low) + "," + Decimal(high)
  }

  lemma NoCommas(n: nat)
    ensures ',' !in Decimal(n) && '}' !in Decimal(n)
  {
  }

  lemma SplitTwo(a: string, b: string)
    requires ',' !in a && ',' !in b
    ensures Split(a + "," + b) == [a, b]
  {
    var s := a + "," + b;
    FindAfter(a, ',', b, 0);
    FindNone(b, ',', 0);
    assert s[..|a|] == a && s[|a| + 1..] == b;
  }

  function RangeOf(b: Bounds): (r: (int, Option<int>))
    ensures FitsBounds(b) && r.1.Some? ==> r.0 <= r.1.value
  {
    match b
    case Exactly(n) => (n, Some(n))
    case AtLeast(n) => (n, None)
    case Between(low, high) => (low, Some(high))
  }

  lemma RangeShown(b: Bounds)
    requires FitsBounds(b)
    ensures Range(ShowInner(b)) == Ok(RangeOf(b))
  {
    match b
    case Exactly(n) =>
      NoCommas(n);
      FindNone(Decimal(n), ',', 0);
      StoiDecimal(n);
    case AtLeast(n) =>
      NoCommas(n);
      SplitTwo(Decimal(n), "");
      assert Decimal(n) + "," == Decimal(n) + "," + "";
      StoiDecimal(n);
    case Between(low, high) =>
      NoCommas(low);
      NoCommas(high);
      SplitTwo(Decimal(low), Decimal(high));
      StoiDecimal(low);
      StoiDecimal(high);
  }

  function CopiesOf(part: string, b: Bounds): seq<string> {
    match b
    case Exactly(n) => Copies(part, n)
    case AtLeast(n) => Copies(part, n) + [part + "*"]
    case Between(low, high) => Copies(part, low) + Copies(part + "?", if low <= high then high - low else 0)
  }

  lemma BoundsText(b: Bounds, rest: string)
    ensures var s, e := ShowBounds(b) + rest, |ShowInner(b)| + 1;
            s != [] && s[0] == '{' && e < |s| && Find(s, '}', 1) == Some(e) && s[1..e] == ShowInner(b)
                && s[e + 1..] == rest
  {
    InnerHasNoBrace(b);
    BoundsInBraces(b);
    BracesText(ShowInner(b), rest, ShowBounds(b) + rest);
  }

  lemma BoundsInBraces(b: Bounds)
    ensures ShowBounds(b) == "{" + ShowInner(b) + "}"
  {
  }

  lemma BracesText(inner: string, rest: string, s: string)
    requires '}' !in inner && s == "{" + inner + "}" + rest
    ensures var e := |inner| + 1;
            s != [] && s[0] == '{' && e < |s| && Find(s, '}', 1) == Some(e) && s[1..e] == inner && s[e + 1..] == rest
  {
    FindAfter("{" + inner, '}', rest, 1);
  }

  lemma ProcessStep(s: string, alts: Alternatives, r: Stepped)
    requires s != [] && s[0] != ')' && s[0] != '(' && alts != [] && Step(s, alts) == Ok(r)
    ensures r.alts != [] && Process(s, alts) == Process(r.rest, r.alts)
  {
  }

  /** The step at a brace, over what has been read between the braces. */
  lemma StepBraces(s: string, e: nat, rest: string, alts: Alternatives, b: Bounds)
    requires s != [] && s[0] == '{' && 1 <= e < |s| && Find(s, '}', 1) == Some(e) && s[e + 1..] == rest
    requires FitsBounds(b) && Range(s[1..e]) == Ok(RangeOf(b)) && alts != [] && Back(alts) != []
    ensures var parts := Back(alts);
            Process(s, alts) == Process(rest, WithBack(alts, parts[..|parts| - 1] + CopiesOf(parts[|parts| - 1], b)))
  {
    var parts := Back(alts);
    RepeatedShown(parts[|parts| - 1], b);
    ProcessStep(s, alts, Stepped(rest, WithBack(alts, parts[..|parts| - 1] + CopiesOf(parts[|parts| - 1], b))));
  }

  lemma StepCounted(b: Bounds, rest: string, alts: Alternatives)
    requires FitsBounds(b) && alts != [] && Back(alts) != []
    ensures var parts := Back(alts);
            Process(ShowBounds(b) + rest, alts)
            == Process(rest, WithBack(alts, parts[..|parts| - 1] + CopiesOf(parts[|parts| - 1], b)))
  {
    BoundsText(b, rest);
    RangeShown(b);
    StepBraces(ShowBounds(b) + rest, |ShowInner(b)| + 1, rest, alts, b);
  }

  lemma InnerHasNoBrace(b: Bounds)
    ensures '}' !in ShowInner(b)
  {
    match b
    case Exactly(n) => NoCommas(n);
    case AtLeast(n) => NoCommas(n);
    case Between(low, high) =>
      NoCommas(low);
      NoCommas(high);
  }

  lemma RepeatedShown(part: string, b: Bounds)
    requires FitsBounds(b)
    ensures Repeated(part, RangeOf(b).0, RangeOf(b).1) == CopiesOf(part, b)
  {
    assert b.Exactly? ==> Copies(part, b.n) + Copies(part + "?", 0) == Copies(part, b.n);
  }

  // ---- whole patterns ----

  lemma {:induction false} PartTextsAppend(ps: Parts, qs: Parts)
    ensures PartTexts(ps + qs) == PartTexts(ps) + PartTexts(qs)
  {
    if ps == [] {
      assert ps + qs == qs;
    } else {
      assert (ps + qs)[1..] == ps[1..] + qs;
      PartTextsAppend(ps[1..], qs);
    }
  }

  lemma {:induction false} PartTextsCopies(p: Node, n: nat)
    ensures PartTexts(Copies(p, n)) == Copies(NodeText(p), n)
  {
    if n > 0 {
      assert Copies(p, n)[1..] == Copies(p, n - 1);
      PartTextsCopies(p, n - 1);
      assert Copies(NodeText(p), n) == [NodeText(p)] + Copies(NodeText(p), n - 1);
    }
  }

  lemma TextsOfCopies(p: Node, b: Bounds)
    ensures PartTexts(CountedParts(p, b)) == CopiesOf(NodeText(p), b)
  {
    match b
    case Exactly(n) => PartTextsCopies(p, n);
    case AtLeast(n) =>
      PartTextsCopies(p, n);
      PartTextsAppend(Copies(p, n), [Marked(p, "*")]);
    case Between(low, high) =>
      var optional := Copies(Marked(p, "?"), if low <= high then high - low else 0);
      PartTextsCopies(p, low);
      PartTextsCopies(Marked(p, "?"), |optional|);
      PartTextsAppend(Copies(p, low), optional);
  }

  function QuestionedTexts(parts: seq<string>): seq<string> {
    if parts == [] then [] else parts[|parts| - 1 := parts[|parts| - 1] + "?"]
  }

  lemma TextsOfQuestioned(ps: Parts)
    ensures PartTexts(Questioned(ps)) == QuestionedTexts(PartTexts(ps))
  {
    if ps != [] {
      var n := |ps| - 1;
      PartTextsAppend(ps[..n], [ps[n]]);
      assert ps == ps[..n] + [ps[n]];
      var q := if ps[n].Marked? then Marked(ps[n].body, ps[n].mark + "?") else Marked(ps[n], "?");
      QuestionedText(ps[n], q);
      PartTextsAppend(ps[..n], [q]);
      OneText(ps[n]);
      OneText(q);
      LastReplaced(PartTexts(ps[..n]), NodeText(ps[n]), NodeText(q));
    }
  }

  lemma QuestionedText(p: Node, q: Node)
    requires q == if p.Marked? then Marked(p.body, p.mark + "?") else Marked(p, "?")
    ensures NodeText(q) == NodeText(p) + "?"
  {
    if p.Marked? {
      assert NodeText(p.body) + (p.mark + "?") == NodeText(p.body) + p.mark + "?";
    }
  }

  lemma OneText(p: Node)
    ensures PartTexts([p]) == [NodeText(p)]
  {
    assert [p][1..] == [];
  }

  lemma LastReplaced(front: seq<string>, t: string, u: string)
    ensures (front + [t])[|front + [t]| - 1 := u] == front + [u]
  {
  }

  lemma TextsOfMarked(item: Item)
    requires !item.quantifier.Once? && !item.quantifier.Counted?
    ensures PartTexts(PartsOf(item)) == [NodeText(NodeOf(item.atom)) + MarkOf(item.quantifier)]
  {
    var p := Marked(NodeOf(item.atom), MarkOf(item.quantifier));
    assert PartsOf(item) == [p];
    assert [p][1..] == [];
  }

  lemma AtomStart(a: Atom)
    requires IsWritableAtom(a)
    ensures ShowAtom(a) != [] && ShowAtom(a)[0] !in "*?+{|)"
  {
  }

  lemma ItemsStart(items: Items, rest: string)
    requires IsWritable(items) && (items == [] ==> NoQuantifier(rest))
    ensures NoQuantifier(ShowItems(items) + rest)
  {
    if items != [] {
      assert IsWritableItem(items[0]);
      AtomStart(items[0].atom);
    } else {
      assert ShowItems(items) + rest == rest;
    }
  }

  lemma PushedBack(alts: Alternatives, part: string, parts: seq<string>)
    requires alts != []
    ensures WithBack(Push(alts, part), parts) == WithBack(alts, parts)
  {
  }

  /** What follows a sequence: the end, a bar or a closing parenthesis. */
  predicate EndsItems(rest: string) { rest == [] || rest[0] == '|' || rest[0] == ')' }

  /** An element adds its parts, or the whole pattern fails at an empty alternative inside. */
  ghost predicate ProcessesTo(s: string, alts: Alternatives, supported: bool, rest: string, alts': Alternatives)
    requires alts != [] && alts' != []
  {
    Process(s, alts) == if supported then Process(rest, alts') else Err(EmptyAlternative)
  }

  lemma {:induction false} ProcessAtom(a: Atom, rest: string, alts: Alternatives)
    requires IsWritableAtom(a) && alts != []
    ensures ProcessesTo(ShowAtom(a) + rest, alts, IsSupportedAtom(a), rest, Push(alts, NodeText(NodeOf(a))))
    decreases a
  {
    match a
    case Single(t) => StepSingle(t, rest, alts);
    case Group(plain, inner) =>
      ProcessAll(inner, ")" + rest);
      GroupText(plain, inner);
      StepGroup(plain, inner, rest, alts);
  }

  lemma GroupText(plain: bool, inner: seq<Sequence>)
    requires inner != []
    ensures var a := Group(plain, inner);
            IsSupportedAtom(a) == AllSupported(inner)
                && NodeText(NodeOf(a)) == "(?:" + JoinText(ChainTexts(Transform(inner))) + ")"
  {
    assert NodeOf(Group(plain, inner)).chains == Transform(inner);
  }

  function OutcomeOf(inner: seq<Sequence>, rest: string): Result<Processed>
    requires inner != []
  {
    if AllSupported(inner) then Ok(Processed(JoinText(ChainTexts(Transform(inner))), rest)) else Err(EmptyAlternative)
  }

  lemma StepGroup(plain: bool, inner: seq<Sequence>, rest: string, alts: Alternatives)
    requires inner != [] && AllWritable(inner) && alts != []
    requires Process(ShowAlternatives(inner) + (")" + rest), [[]]) == OutcomeOf(inner, ")" + rest)
    ensures ProcessesTo((if plain then "(?:" else "(") + ShowAlternatives(inner) + ")" + rest, alts,
            AllSupported(inner), rest,
                        Push(alts, "(?:" + JoinText(ChainTexts(Transform(inner))) + ")"))
  {
    var body := ShowAlternatives(inner) + (")" + rest);
    var s := (if plain then "(?:" else "(") + ShowAlternatives(inner) + ")" + rest;
    if plain {
      assert s == "(?:" + body;
    } else {
      BodyStart(inner, rest);
      assert s == "(" + body;
    }
    StepInto(plain, s, body, alts);
    assert (")" + rest)[1..] == rest;
  }

  lemma StepInto(plain: bool, s: string, body: string, alts: Alternatives)
    requires s == (if plain then "(?:" else "(") + body && (plain || !StartsPlain(body)) && alts != []
    ensures var sub := Process(body, [[]]);
            Process(s, alts) == if sub.Err? then sub
                                else if sub.value.rest == [] then Err(UnmatchedGroup)
                                else Process(sub.value.rest[1..], Push(alts, "(?:" + sub.value.text + ")"))
  {
    if plain {
      assert s[0] == '(' && s[1..] == "?:" + body && s[3..] == body;
    } else {
      assert s[0] == '(' && s[1..] == body;
    }
  }

  lemma BodyStart(inner: seq<Sequence>, rest: string)
    requires inner != [] && AllWritable(inner)
    ensures !StartsPlain(ShowAlternatives(inner) + (")" + rest))
  {
    assert IsWritable(inner[0].items);
    if |inner| == 1 {
      ItemsStart(inner[0].items, ")" + rest);
    } else {
      ShowMore(inner, ")" + rest);
      ItemsStart(inner[0].items, "|" + (ShowAlternatives(inner[1..]) + (")" + rest)));
    }
  }

  lemma {:induction false} ProcessItem(item: Item, rest: string, alts: Alternatives)
    requires IsWritableItem(item) && alts != [] && NoQuantifier(rest)
    ensures ProcessesTo(ShowItem(item) + rest, alts, IsSupportedItem(item), rest,
                        WithBack(alts, Back(alts) + PartTexts(PartsOf(item))))
    decreases item
  {
    var q, text := item.quantifier, NodeText(NodeOf(item.atom));
    var pushed := Push(alts, text);
    assert ShowItem(item) + rest == ShowAtom(item.atom) + (ShowQuantifier(q) + rest);
    ProcessAtom(item.atom, ShowQuantifier(q) + rest, alts);
    if q.Once? {
      assert "" + rest == rest;
      assert PartsOf(item) == [NodeOf(item.atom)] && PartsOf(item)[1..] == [];
      assert PartTexts(PartsOf(item)) == [text];
    } else {
      QuantifiedItem(item, rest, alts);
    }
  }

  lemma QuantifiedItem(item: Item, rest: string, alts: Alternatives)
    requires IsWritableItem(item) && alts != [] && NoQuantifier(rest) && !item.quantifier.Once?
    ensures Process(ShowQuantifier(item.quantifier) + rest, Push(alts, NodeText(NodeOf(item.atom))))
            == Process(rest, WithBack(alts, Back(alts) + PartTexts(PartsOf(item))))
  {
    var q := item.quantifier;
    if q.Counted? {
      if q.lazy {
        ReluctantItem(item, rest, alts);
      } else {
        CountedItem(item, rest, alts);
      }
    } else {
      MarkedItem(item, rest, alts);
    }
  }

  lemma PushedParts(alts: Alternatives, text: string)
    requires alts != []
    ensures var parts := Back(Push(alts, text));
            parts == Back(alts) + [text] && parts != [] && parts[|parts| - 1] == text
                && parts[..|parts| - 1] == Back(alts)
  {
  }

  lemma MarkedItem(item: Item, rest: string, alts: Alternatives)
    requires alts != [] && NoQuantifier(rest) && !item.quantifier.Once? && !item.quantifier.Counted?
    ensures Process(ShowQuantifier(item.quantifier) + rest, Push(alts, NodeText(NodeOf(item.atom))))
            == Process(rest, WithBack(alts, Back(alts) + PartTexts(PartsOf(item))))
  {
    var q, text := item.quantifier, NodeText(NodeOf(item.atom));
    PushedParts(alts, text);
    StepMarks(q, rest, Push(alts, text));
    TextsOfMarked(item);
    LastReplaced(Back(alts), text, text + MarkOf(q));
    PushedBack(alts, text, Back(alts) + [text + MarkOf(q)]);
  }

  /** A part and the bounds behind it become its copies. */
  lemma StepPart(text: string, b: Bounds, rest: string, alts: Alternatives)
    requires FitsBounds(b) && alts != []
    ensures Process(ShowBounds(b) + rest, Push(alts, text))
         == Process(rest, WithBack(alts, Back(alts) + CopiesOf(text, b)))
  {
    PushedParts(alts, text);
    StepCounted(b, rest, Push(alts, text));
    PushedBack(alts, text, Back(alts) + CopiesOf(text, b));
  }

  lemma CountedItem(item: Item, rest: string, alts: Alternatives)
    requires IsWritableItem(item) && alts != [] && item.quantifier.Counted? && !item.quantifier.lazy
    ensures Process(ShowQuantifier(item.quantifier) + rest, Push(alts, NodeText(NodeOf(item.atom))))
            == Process(rest, WithBack(alts, Back(alts) + PartTexts(PartsOf(item))))
  {
    var text, b := NodeText(NodeOf(item.atom)), item.quantifier.bounds;
    StepPart(text, b, rest, alts);
    TextsOfCopies(NodeOf(item.atom), b);
  }

  /** The question mark behind the bounds is put behind the last copy. */
  lemma ReluctantItem(item: Item, rest: string, alts: Alternatives)
    requires IsWritableItem(item) && alts != [] && item.quantifier.Counted? && item.quantifier.lazy
    ensures Process(ShowQuantifier(item.quantifier) + rest, Push(alts, NodeText(NodeOf(item.atom))))
            == Process(rest, WithBack(alts, Back(alts) + PartTexts(PartsOf(item))))
  {
    var p, b := NodeOf(item.atom), item.quantifier.bounds;
    ReluctantStep(NodeText(p), b, rest, alts);
    TextsOfCopies(p, b);
    TextsOfQuestioned(CountedParts(p, b));
  }

  lemma ReluctantStep(text: string, b: Bounds, rest: string, alts: Alternatives)
    requires FitsBounds(b) && !IsNone(b) && alts != []
    ensures Process(ShowBounds(b) + "?" + rest, Push(alts, text))
         == Process(rest, WithBack(alts, Back(alts) + QuestionedTexts(CopiesOf(text, b))))
  {
    var texts := CopiesOf(text, b);
    assert ShowBounds(b) + "?" + rest == ShowBounds(b) + ("?" + rest);
    StepPart(text, b, "?" + rest, alts);
    QuestionAlone(rest, WithBack(alts, Back(alts) + texts));
    MarkedBehind(alts, texts);
  }

  lemma MarkedBehind(alts: Alternatives, texts: seq<string>)
    requires alts != [] && texts != []
    ensures MarkLast(WithBack(alts, Back(alts) + texts), "?") == WithBack(alts, Back(alts) + QuestionedTexts(texts))
  {
    var n := |texts| - 1;
    assert texts == texts[..n] + [texts[n]];
    assert QuestionedTexts(texts) == texts[..n] + [texts[n] + "?"];
    LastReplaced(Back(alts) + texts[..n], texts[n], texts[n] + "?");
    assert Back(alts) + texts == Back(alts) + texts[..n] + [texts[n]];
    assert Back(alts) + texts[..n] + [texts[n] + "?"] == Back(alts) + QuestionedTexts(texts);
  }

  lemma NothingPushed(alts: Alternatives, texts: seq<string>)
    requires alts != [] && texts == []
    ensures WithBack(alts, Back(alts) + texts) == alts
  {
    assert Back(alts) + texts == Back(alts);
  }

  /**
    `{0}?` leaves no copy for its question mark: it goes behind what precedes the element, and is an error if nothing
    does.
   */
  lemma ReluctantNothing(text: string, b: Bounds, rest: string, alts: Alternatives)
    requires IsNone(b) && alts != []
    ensures Process(ShowBounds(b) + "?" + rest, Push(alts, text))
            == if Back(alts) == [] then Err(NothingToQuantify) else Process(rest, MarkLast(alts, "?"))
  {
    assert ShowBounds(b) + "?" + rest == ShowBounds(b) + ("?" + rest);
    StepPart(text, b, "?" + rest, alts);
    NothingPushed(alts, CopiesOf(text, b));
    QuestionAlone(rest, alts);
  }

  lemma QuestionAlone(rest: string, alts: Alternatives)
    requires alts != []
    ensures Process("?" + rest, alts)
         == if Back(alts) == [] then Err(NothingToQuantify) else Process(rest, MarkLast(alts, "?"))
  {
    if Back(alts) != [] {
      StepMark('?', rest, alts);
    }
  }

  predicate GroupsSupported(items: Items) { forall i :: 0 <= i < |items| ==> IsSupportedItem(items[i]) }

  lemma {:induction false} ProcessItems(items: Items, rest: string, alts: Alternatives)
    requires IsWritable(items) && alts != [] && EndsItems(rest)
    ensures ProcessesTo(ShowItems(items) + rest, alts, GroupsSupported(items), rest,
                        WithBack(alts, Back(alts) + PartTexts(PartsOfAll(items))))
    decreases items, 0
  {
    if items == [] {
      assert ShowItems(items) + rest == rest && Back(alts) + [] == Back(alts);
      assert WithBack(alts, Back(alts)) == alts;
    } else {
      var more := ShowItems(items[1..]) + rest;
      assert ShowItems(items) + rest == ShowItem(items[0]) + more;
      assert IsWritableItem(items[0]);
      ItemsStart(items[1..], rest);
      ProcessItem(items[0], more, alts);
      var alts' := WithBack(alts, Back(alts) + PartTexts(PartsOf(items[0])));
      ProcessItems(items[1..], rest, alts');
      ItemsMore(items, alts);
      GroupsSupportedMore(items);
    }
  }

  lemma WithBackTwice(alts: Alternatives, a: seq<string>, b: seq<string>)
    requires alts != []
    ensures var alts' := WithBack(alts, Back(alts) + a);
            WithBack(alts', Back(alts') + b) == WithBack(alts, Back(alts) + (a + b))
  {
    assert Back(alts) + a + b == Back(alts) + (a + b);
  }

  lemma ItemsMore(items: Items, alts: Alternatives)
    requires items != [] && alts != []
    ensures var alts' := WithBack(alts, Back(alts) + PartTexts(PartsOf(items[0])));
            WithBack(alts', Back(alts') + PartTexts(PartsOfAll(items[1..])))
                == WithBack(alts, Back(alts) + PartTexts(PartsOfAll(items)))
  {
    PartTextsAppend(PartsOf(items[0]), PartsOfAll(items[1..]));
    WithBackTwice(alts, PartTexts(PartsOf(items[0])), PartTexts(PartsOfAll(items[1..])));
  }

  lemma GroupsSupportedMore(items: Items)
    requires items != []
    ensures GroupsSupported(items) == (IsSupportedItem(items[0]) && GroupsSupported(items[1..]))
  {
  }

  predicate AllGroupsSupported(alts: seq<Sequence>) { forall i :: 0 <= i < |alts| ==> GroupsSupported(alts[i].items) }

  lemma {:induction false} ProcessFirst(items: Items, rest: string, done: Alternatives)
    requires IsWritable(items) && EndsItems(rest)
    ensures ProcessesTo(ShowItems(items) + rest, done + [[]], GroupsSupported(items), rest,
            done + [PartTexts(PartsOfAll(items))])
    decreases items, 1
  {
    var texts, here := PartTexts(PartsOfAll(items)), done + [[]];
    ProcessItems(items, rest, here);
    assert Back(here) == [] && [] + texts == texts && here[|done| := texts] == done + [texts];
  }

  lemma StepBar(s: string, alts: Alternatives)
    requires alts != []
    ensures Process("|" + s, alts) == Process(s, alts + [[]])
  {
    assert ("|" + s)[1..] == s;
  }

  /** The alternatives are read one after the other, behind those that are done. */
  lemma {:induction false} ProcessAlternatives(inner: seq<Sequence>, rest: string, done: Alternatives)
    requires inner != [] && AllWritable(inner) && (rest == [] || rest[0] == ')')
    ensures Process(ShowAlternatives(inner) + rest, done + [[]])
            == if AllGroupsSupported(inner) then Finish(done + ChainTexts(Transform(inner)), rest)
               else Err(EmptyAlternative)
    decreases inner, 0
  {
    assert IsWritable(inner[0].items);
    var texts := PartTexts(PartsOfAll(inner[0].items));
    if |inner| == 1 {
      ProcessFirst(inner[0].items, rest, done);
      OneAlternative(inner);
    } else {
      var after := ShowAlternatives(inner[1..]) + rest;
      ShowMore(inner, rest);
      ProcessFirst(inner[0].items, "|" + after, done);
      StepBar(after, done + [texts]);
      ProcessAlternatives(inner[1..], rest, done + [texts]);
      AlternativesMore(inner, done);
    }
  }

  lemma OneAlternative(inner: seq<Sequence>)
    requires |inner| == 1
    ensures ChainTexts(Transform(inner)) == [PartTexts(PartsOfAll(inner[0].items))]
    ensures AllGroupsSupported(inner) == GroupsSupported(inner[0].items)
  {
  }

  lemma ShowMore(inner: seq<Sequence>, rest: string)
    requires |inner| > 1
    ensures ShowAlternatives(inner) + rest == ShowItems(inner[0].items) + ("|" + (ShowAlternatives(inner[1..]) + rest))
  {
  }

  lemma {:induction false} ProcessAll(inner: seq<Sequence>, rest: string)
    requires inner != [] && AllWritable(inner) && (rest == [] || rest[0] == ')')
    ensures Process(ShowAlternatives(inner) + rest, [[]]) == OutcomeOf(inner, rest)
    decreases inner, 1
  {
    ProcessAlternatives(inner, rest, []);
    NothingBefore(ChainTexts(Transform(inner)));
    FinishOutcome(inner, rest);
  }

  lemma NothingBefore(alts: Alternatives)
    ensures var none: Alternatives := []; none + [[]] == [[]] && none + alts == alts
  {
  }

  lemma FinishOutcome(inner: seq<Sequence>, rest: string)
    requires inner != []
    ensures OutcomeOf(inner, rest)
            == if AllGroupsSupported(inner) then Finish(ChainTexts(Transform(inner)), rest) else Err(EmptyAlternative)
  {
    FinishMeans(inner);
  }

  lemma AlternativesMore(inner: seq<Sequence>, done: Alternatives)
    requires |inner| > 1
    ensures var texts := PartTexts(PartsOfAll(inner[0].items));
            done + [texts] + ChainTexts(Transform(inner[1..])) == done + ChainTexts(Transform(inner))
    ensures AllGroupsSupported(inner) == (GroupsSupported(inner[0].items) && AllGroupsSupported(inner[1..]))
  {
    assert Transform(inner)[1..] == Transform(inner[1..]);
  }

  lemma {:induction false} ChainTextsAt(chains: seq<Chain>, i: nat)
    requires i < |chains|
    ensures ChainTexts(chains)[i] == PartTexts(chains[i].parts)
  {
    if i > 0 {
      ChainTextsAt(chains[1..], i - 1);
    }
  }

  /** The loops at the end fail exactly if some alternative has no parts. */
  lemma FinishMeans(inner: seq<Sequence>)
    requires inner != []
    ensures AllSupported(inner) <==> AllGroupsSupported(inner) && [] !in ChainTexts(Transform(inner))
  {
    forall i | 0 <= i < |inner|
      ensures ChainTexts(Transform(inner))[i] == [] <==> PartsOfAll(inner[i].items) == []
      ensures IsSupported(inner[i].items) == (GroupsSupported(inner[i].items) && PartsOfAll(inner[i].items) != [])
    {
      ChainTextsAt(Transform(inner), i);
    }
  }

  /** A pattern as it is written is transformed exactly if no alternative is empty, and then into its transformation. */
  lemma TransformsWritten(alts: seq<Sequence>)
    requires AllWritable(alts)
    ensures ToReversedPartial(ShowAlternatives(alts))
            == if AllSupported(alts) then Ok("^(" + JoinText(ChainTexts(Transform(alts))) + ")")
               else Err(EmptyAlternative)
  {
    ProcessAll(alts, "");
    assert ShowAlternatives(alts) + "" == ShowAlternatives(alts);
  }

  // ---- reluctant stars and empty alternatives ----

  /** The pattern with the quantifiers, also inside groups, whose reluctance is lost. */
  function Eager(alts: seq<Sequence>): (r: seq<Sequence>)
    ensures |r| == |alts|
  {
    if alts == [] then [] else [Sequence(EagerItems(alts[0].items))] + Eager(alts[1..])
  }

  function EagerItems(items: Items): (r: Items)
    ensures |r| == |items|
    decreases items
  {
    if items == [] then [] else [EagerItem(items[0])] + EagerItems(items[1..])
  }

  function EagerItem(item: Item): Item
    decreases item
  {
    Item(EagerAtom(item.atom), EagerQuantifier(item.quantifier))
  }

  /** An eager star for a reluctant one, and `{n-1,n}` for a reluctant `{n}`. */
  function EagerQuantifier(q: Quantifier): Quantifier {
    if q.ZeroOrMore? then ZeroOrMore(false)
    else if !q.Counted? || !q.lazy then q
    else if q.bounds.Exactly? && q.bounds.n > 0 then Counted(Between(q.bounds.n - 1, q.bounds.n), false)
    else if q.bounds.Between? && q.bounds.low == q.bounds.high > 0 then
      Counted(Between(q.bounds.low - 1, q.bounds.high), false)
    else q
  }

  function EagerAtom(a: Atom): Atom
    decreases a
  {
    match a
    case Single(_) => a
    case Group(plain, alts) => Group(plain, Eager(alts))
  }

  lemma {:induction false} EagerAt(alts: seq<Sequence>, i: nat)
    requires i < |alts|
    ensures Eager(alts)[i].items == EagerItems(alts[i].items)
  {
    if i > 0 {
      EagerAt(alts[1..], i - 1);
    }
  }

  lemma {:induction false} EagerItemsAt(items: Items, i: nat)
    requires i < |items|
    ensures EagerItems(items)[i] == EagerItem(items[i])
  {
    if i > 0 {
      EagerItemsAt(items[1..], i - 1);
    }
  }

  /** Atoms become the same parts, and are refused or not together. */
  lemma {:induction false} EagerAtomKeeps(a: Atom)
    ensures NodeOf(EagerAtom(a)) == NodeOf(a)
    ensures IsSupportedAtom(EagerAtom(a)) == IsSupportedAtom(a) && IsWritableAtom(EagerAtom(a)) == IsWritableAtom(a)
    decreases a
  {
    if a.Group? {
      forall i | 0 <= i < |a.alternatives|
        ensures var b, e := a.alternatives[i].items, Eager(a.alternatives)[i].items;
                PartsOfAll(e) == PartsOfAll(b) && IsSupported(e) == IsSupported(b) && IsWritable(e) == IsWritable(b)
      {
        EagerAt(a.alternatives, i);
        EagerItemsKeep(a.alternatives[i].items);
      }
    }
  }

  /** One copy less, and an optional one in its place. */
  lemma EagerQuantifierKeeps(p: Node, q: Quantifier)
    requires !p.Marked?
    ensures IsWritableQuantifier(EagerQuantifier(q)) == IsWritableQuantifier(q)
    ensures q.Counted? && q != EagerQuantifier(q) ==>
              Questioned(CountedParts(p, q.bounds)) == CountedParts(p, EagerQuantifier(q).bounds)
  {
    if q.Counted? && q != EagerQuantifier(q) {
      var n := EagerQuantifier(q).bounds.high;
      assert CountedParts(p, q.bounds) == Copies(p, n - 1) + [p];
      assert Questioned(CountedParts(p, q.bounds)) == Copies(p, n - 1) + [Marked(p, "?")];
      assert Copies(Marked(p, "?"), 1) == [Marked(p, "?")];
    }
  }

  lemma EagerItemKeeps(item: Item)
    ensures PartsOf(EagerItem(item)) == PartsOf(item)
    ensures IsSupportedItem(EagerItem(item)) == IsSupportedItem(item)
    ensures IsWritableItem(EagerItem(item)) == IsWritableItem(item)
    decreases item
  {
    EagerAtomKeeps(item.atom);
    EagerQuantifierKeeps(NodeOf(item.atom), item.quantifier);
  }

  lemma {:induction false} EagerParts(items: Items)
    ensures PartsOfAll(EagerItems(items)) == PartsOfAll(items)
    decreases items, 0
  {
    if items != [] {
      EagerItemKeeps(items[0]);
      EagerParts(items[1..]);
    }
  }

  lemma {:induction false} EagerItemsKeep(items: Items)
    ensures PartsOfAll(EagerItems(items)) == PartsOfAll(items)
    ensures IsSupported(EagerItems(items)) == IsSupported(items) && IsWritable(EagerItems(items)) == IsWritable(items)
    decreases items, 1
  {
    EagerParts(items);
    forall i | 0 <= i < |items|
      ensures IsSupportedItem(EagerItems(items)[i]) == IsSupportedItem(items[i])
      ensures IsWritableItem(EagerItems(items)[i]) == IsWritableItem(items[i])
    {
      EagerItemsAt(items, i);
      EagerItemKeeps(items[i]);
    }
  }

  /**
    The question mark of a reluctant star is dropped, and that of a reluctant `{n}` makes its last copy optional,
    wherever they stand: a pattern becomes what it becomes with `*` and `{n-1,n}` in their place, also where that is an
    error.
   */
  lemma ReluctanceIsLost(alts: seq<Sequence>)
    requires AllWritable(alts)
    ensures AllWritable(Eager(alts))
    ensures ToReversedPartial(ShowAlternatives(alts)) == ToReversedPartial(ShowAlternatives(Eager(alts)))
  {
    var a := Group(true, alts);
    EagerAtomKeeps(a);
    assert NodeOf(a).chains == Transform(alts) && NodeOf(EagerAtom(a)).chains == Transform(Eager(alts));
    TransformsWritten(alts);
    TransformsWritten(Eager(alts));
  }

  /** The quantifiers that leave no part behind. */
  predicate IsDropped(q: Quantifier) { q.Counted? && IsNone(q.bounds) }

  /** Somewhere, perhaps inside a group, an alternative has no elements but those that are dropped. */
  predicate HasEmptyAlternative(alts: seq<Sequence>)
    decreases alts
  {
    exists i :: 0 <= i < |alts| && IsEmptyAlternative(alts[i].items)
  }

  predicate IsEmptyAlternative(items: Items)
    decreases items
  {
    (forall i :: 0 <= i < |items| ==> IsDropped(items[i].quantifier))
    || exists i :: 0 <= i < |items| && IsEmptyInside(items[i])
  }

  predicate IsEmptyInside(item: Item)
    decreases item
  {
    HoldsEmptyAlternative(item.atom)
  }

  predicate HoldsEmptyAlternative(a: Atom)
    decreases a
  {
    a.Group? && exists i :: 0 <= i < |a.alternatives| && IsEmptyAlternative(a.alternatives[i].items)
  }

  lemma {:induction false} NoPartsIff(items: Items)
    requires IsWritable(items)
    ensures PartsOfAll(items) == [] <==> forall i :: 0 <= i < |items| ==> IsDropped(items[i].quantifier)
  {
    if items != [] {
      assert IsWritableItem(items[0]);
      NoPartsIff(items[1..]);
      PartsDroppedIff(items[0]);
      DroppedMore(items);
    }
  }

  lemma PartsDroppedIff(item: Item)
    requires IsWritableItem(item)
    ensures PartsOf(item) == [] <==> IsDropped(item.quantifier)
  {
  }

  lemma DroppedMore(items: Items)
    requires items != []
    ensures (forall i :: 0 <= i < |items| ==> IsDropped(items[i].quantifier))
            <==> IsDropped(items[0].quantifier) && forall i :: 0 <= i < |items[1..]| ==>
               IsDropped(items[1..][i].quantifier)
  {
    forall i | 0 <= i < |items| && IsDropped(items[0].quantifier)
      ensures i > 0 ==> items[i] == items[1..][i - 1]
    {
    }
  }

  lemma {:induction false} RefusedAtom(a: Atom)
    requires IsWritableAtom(a)
    ensures IsSupportedAtom(a) <==> !HoldsEmptyAlternative(a)
    decreases a
  {
    if a.Group? {
      forall i | 0 <= i < |a.alternatives|
        ensures IsSupported(a.alternatives[i].items) <==> !IsEmptyAlternative(a.alternatives[i].items)
      {
        RefusedItems(a.alternatives[i].items);
      }
    }
  }

  lemma {:induction false} RefusedItems(items: Items)
    requires IsWritable(items)
    ensures IsSupported(items) <==> !IsEmptyAlternative(items)
    decreases items
  {
    NoPartsIff(items);
    forall i | 0 <= i < |items|
      ensures IsSupportedItem(items[i]) <==> !IsEmptyInside(items[i])
    {
      RefusedItem(items[i]);
    }
  }

  lemma RefusedItem(item: Item)
    requires IsWritableItem(item)
    ensures IsSupportedItem(item) <==> !IsEmptyInside(item)
    decreases item
  {
    RefusedAtom(item.atom);
  }

  /**
    A pattern is refused if and only if one of its alternatives has nothing to write, whatever it matches: matching the
    empty text is no reason.
   */
  lemma RefusedIffEmptyAlternative(alts: seq<Sequence>)
    requires AllWritable(alts)
    ensures ToReversedPartial(ShowAlternatives(alts)).Err? <==> HasEmptyAlternative(alts)
  {
    TransformsWritten(alts);
    forall i | 0 <= i < |alts|
      ensures IsSupported(alts[i].items) <==> !IsEmptyAlternative(alts[i].items)
    {
      RefusedItems(alts[i].items);
    }
  }

  /** So a reluctant star alone is not refused, although it matches the empty text. */
  lemma LazyStarIsAccepted(m: Charset)
    ensures var alts := [Sequence([Item(Single("a"), ZeroOrMore(true))])];
            ShowAlternatives(alts) == "a*?" && Matches(m, alts, "")
    ensures ToReversedPartial("a*?") == Ok("^(a*)")
  {
    var item, part := Item(Single("a"), ZeroOrMore(true)), Marked(Basic("a"), "*");
    var alts := [Sequence([item])];
    assert [item][1..] == [] && ShowItems([item]) == ShowItem(item) + "";
    assert ShowItem(item) == "a" + "*?" == "a*?";
    assert ShowAlternatives(alts) == ShowItems([item]) == "a*?";
    assert IsWritableItem(item) && IsWritable([item]) && IsSupportedItem(item);
    OnePart(part, [item]);
    assert Transform(alts)[1..] == [] && NodeText(part) == "a" + "*" == "a*";
    assert ChainTexts(Transform(alts)) == [PartTexts([part])] + ChainTexts([]) == [["a*"]];
    TransformsWritten(alts);
    assert "^(" + "a*" + ")" == "^(a*)";
    MatchesNothing(m, item);
  }

  lemma MatchesNothing(m: Charset, item: Item)
    requires Within(0, item.quantifier)
    ensures Matches(m, [Sequence([item])], "")
  {
    var nothing: string := "";
    assert Power(m, item.atom, 0, nothing) && InItem(m, item, nothing) && nothing[..0] == nothing[0..] == nothing;
    assert [item][1..] == [] && InSequence(m, [], nothing[0..]);
    assert InSequence(m, [Sequence([item])][0].items, nothing);
  }

  lemma OnePart(part: Node, items: Items)
    requires |items| == 1 && PartsOf(items[0]) == [part]
    ensures PartsOfAll(items) == [part] && PartTexts([part]) == [NodeText(part)]
  {
    assert [part] + [] == [part] && [part][1..] == [];
  }
}

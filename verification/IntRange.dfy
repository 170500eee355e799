/**
  `build_min_max_int` of common/json_schema_to_grammar.cpp for closed ranges: the grammar it prints accepts
  exactly the numerals of the range.
 */
module IntRange {
  import opened Wrappers
  import opened Decimals

  /** What the source writes into its stream: literals, classes, counted digits, sequences and alternatives. */
  datatype Gram =
    | Lit(text: string)
    | Class(first: char, last: char)
    | Digits(count: nat)
    | Cat(left: Gram, right: Gram)
    | Or(left: Gram, right: Gram)

  predicate Accepts(g: Gram, w: string)
    decreases g
  {
    match g
    case Lit(text) => w == text
    case Class(first, last) => |w| == 1 && first <= w[0] <= last
    case Digits(count) => |w| == count && IsDigits(w)
    case Cat(l, r) => exists k :: 0 <= k <= |w| && Accepts(l, w[..k]) && Accepts(r, w[k..])
    case Or(l, r) => Accepts(l, w) || Accepts(r, w)
  }

  lemma CatClass(first: char, last: char, g: Gram, w: string)
    ensures Accepts(Cat(Class(first, last), g), w) <==> |w| >= 1 && first <= w[0] <= last && Accepts(g, w[1..])
  {
    if |w| >= 1 && first <= w[0] <= last && Accepts(g, w[1..]) {
      assert Accepts(Class(first, last), w[..1]);
    }
  }

  lemma CatLit(text: string, g: Gram, w: string)
    ensures Accepts(Cat(Lit(text), g), w) <==> text <= w && Accepts(g, w[|text|..])
  {
    if text <= w && Accepts(g, w[|text|..]) {
      assert w[..|text|] == text;
      assert Accepts(Lit(text), w[..|text|]);
    }
  }

  // ---- uniform_range ----

  function CommonPrefix(a: string, b: string): (n: nat)
    requires |a| == |b|
    ensures n <= |a| && a[..n] == b[..n] && (n < |a| ==> a[n] != b[n])
  {
    if a != [] && a[0] == b[0] then 1 + CommonPrefix(a[1..], b[1..]) else 0
  }

  /** The part behind the common prefix, when more than one digit is left. */
  function Split(from: string, to: string): Gram
    requires |from| == |to| > 1 && IsDigits(from) && IsDigits(to)
    decreases |from|, 0
  {
    var n := |from| - 1;
    var fromSub, toSub := from[1..], to[1..];
    var zeros, nines := Repeat('0', n), Repeat('9', n);
    var last := Cat(Class(to[0], to[0]), Uniform(zeros, toSub));
    if fromSub == zeros then Or(Cat(Class(from[0], Pred(to[0])), Digits(n)), last)
    else
      var first := Cat(Class(from[0], from[0]), Uniform(fromSub, nines));
      if from[0] < Pred(to[0]) then
        if toSub == nines then Or(first, Cat(Class(Succ(from[0]), to[0]), Digits(n)))
        else Or(Or(first, Cat(Class(Succ(from[0]), Pred(to[0])), Digits(n))), last)
      else Or(first, last)
  }

  function Pred(c: char): char
    requires '0' <= c <= '9'
  {
    c - 1 as char
  }

  function Succ(c: char): char
    requires '0' <= c <= '9'
  {
    c + 1 as char
  }

  /** `uniform_range`. */
  function Uniform(from: string, to: string): Gram
    requires |from| == |to| && IsDigits(from) && IsDigits(to)
    decreases |from|, 1
  {
    var i := CommonPrefix(from, to);
    if i == |from| then Lit(from)
    else
      var rest := if |from| - i > 1 then Split(from[i..], to[i..]) else Class(from[i], to[i]);
      if i > 0 then Cat(Lit(from[..i]), rest) else rest
  }

  predicate Between(from: string, to: string, w: string)
    requires |from| == |to|
  {
    |w| == |from| && IsDigits(w) && Leq(from, w) && Leq(w, to)
  }

  lemma {:induction false} LeqPrefix(a: string, b: string, i: nat)
    requires |a| == |b| && i <= |a| && a[..i] == b[..i]
    ensures Leq(a, b) <==> Leq(a[i..], b[i..])
    decreases i
  {
    if i == 0 {
      assert a[0..] == a && b[0..] == b;
    } else {
      assert a[0] == a[..i][0] && b[0] == b[..i][0];
      assert a[1..][..i - 1] == a[..i][1..] && b[1..][..i - 1] == b[..i][1..];
      assert a[1..][i - 1..] == a[i..] && b[1..][i - 1..] == b[i..];
      LeqPrefix(a[1..], b[1..], i - 1);
    }
  }

  /** What lies between two numerals with a common beginning begins like them. */
  lemma {:induction false} BetweenPrefix(from: string, to: string, w: string, i: nat)
    requires |from| == |to| == |w| && i <= |w| && from[..i] == to[..i] && Leq(from, w) && Leq(w, to)
    ensures w[..i] == from[..i]
    decreases i
  {
    if i > 0 {
      assert from[0] == from[..i][0] && to[0] == to[..i][0];
      assert from[1..][..i - 1] == from[..i][1..] && to[1..][..i - 1] == to[..i][1..];
      BetweenPrefix(from[1..], to[1..], w[1..], i - 1);
      assert w[..i] == [w[0]] + w[1..][..i - 1] && from[..i] == [from[0]] + from[1..][..i - 1];
    }
  }

  lemma CutPrefix(from: string, to: string, w: string, i: nat)
    requires |from| == |to| && i <= |from| && from[..i] == to[..i] && IsDigits(from)
    ensures Between(from, to, w) <==> |w| == |from| && from[..i] <= w && Between(from[i..], to[i..], w[i..])
  {
    if Between(from, to, w) {
      BetweenPrefix(from, to, w, i);
    }
    if |w| == |from| && from[..i] <= w {
      assert w[..i] == from[..i];
      LeqPrefix(from, w, i);
      LeqPrefix(w, to, i);
      assert IsDigits(w) <==> IsDigits(w[i..]) by {
        assert forall k :: 0 <= k < i ==> w[k] == from[k];
        assert forall k :: i <= k < |w| ==> w[k] == w[i..][k - i];
      }
    }
  }

  /** The first digit decides, or leaves one of the two bounds. */
  lemma FirstDigit(from: string, to: string, w: string)
    requires |from| == |to| > 0 && from[0] < to[0] && IsDigits(from) && IsDigits(to) && |w| == |from|
    ensures IsDigits(w) ==>
              (Between(from, to, w) <==>
                (w[0] == from[0] && Leq(from[1..], w[1..])) || from[0] < w[0] < to[0]
                    || (w[0] == to[0] && Leq(w[1..], to[1..])))
  {
  }

  lemma DigitsTail(w: string)
    requires w != []
    ensures IsDigits(w) <==> '0' <= w[0] <= '9' && IsDigits(w[1..])
  {
    if '0' <= w[0] <= '9' && IsDigits(w[1..]) {
      forall i | 0 <= i < |w|
        ensures '0' <= w[i] <= '9'
      {
        if i > 0 { assert w[i] == w[1..][i - 1]; }
      }
    }
  }

  /**
    What the branches of the split make of a first digit c: low, high and any say whether what follows it is at least
    the rest of the lower bound, at most that of the upper one, and digits at all.
   */
  predicate InSplit(from: string, to: string, c: char, low: bool, high: bool, any: bool)
    requires |from| == |to| > 1 && IsDigits(from) && IsDigits(to)
  {
    var n := |from| - 1;
    if from[1..] == Repeat('0', n) then (from[0] <= c <= Pred(to[0]) && any) || (c == to[0] && high)
    else
      || (c == from[0] && low)
      || (if from[0] < Pred(to[0]) && to[1..] == Repeat('9', n) then Succ(from[0]) <= c <= to[0] && any
          else (from[0] < Pred(to[0]) && Succ(from[0]) <= c <= Pred(to[0]) && any) || (c == to[0] && high))
  }

  /** A digit of the class and then a word of g. */
  predicate Branch(first: char, last: char, w: string, rest: bool) { w != [] && first <= w[0] <= last && rest }

  lemma TwoBranches(g: Gram, h: Gram, w: string, a: bool, b: bool)
    requires (Accepts(g, w) <==> a) && (Accepts(h, w) <==> b)
    ensures Accepts(Or(g, h), w) <==> a || b
  {
  }

  lemma BranchMeans(first: char, last: char, g: Gram, w: string)
    ensures Accepts(Cat(Class(first, last), g), w) <==> w != [] && Branch(first, last, w, Accepts(g, w[1..]))
  {
    CatClass(first, last, g, w);
  }

  lemma SplitFromZeros(from: string, to: string, w: string, last: Gram)
    requires |from| == |to| > 1 && IsDigits(from) && IsDigits(to) && w != []
    ensures Accepts(Or(Cat(Class(from[0], Pred(to[0])), Digits(|from| - 1)), Cat(Class(to[0], to[0]), last)), w)
            <==> Branch(from[0], Pred(to[0]), w, Accepts(Digits(|from| - 1), w[1..]))
                 || Branch(to[0], to[0], w, Accepts(last, w[1..]))
  {
    BranchMeans(from[0], Pred(to[0]), Digits(|from| - 1), w);
    BranchMeans(to[0], to[0], last, w);
  }

  lemma ThreeBranches(c: char, first: Gram, a: char, b: char, n: nat, d: char, last: Gram, w: string)
    requires w != []
    ensures Accepts(Or(Or(Cat(Class(c, c), first), Cat(Class(a, b), Digits(n))), Cat(Class(d, d), last)), w)
            <==> Branch(c, c, w, Accepts(first, w[1..])) || Branch(a, b, w, Accepts(Digits(n), w[1..]))
                 || Branch(d, d, w, Accepts(last, w[1..]))
  {
    var g, h, k := Cat(Class(c, c), first), Cat(Class(a, b), Digits(n)), Cat(Class(d, d), last);
    var x, y, z := Branch(c, c, w, Accepts(first, w[1..])), Branch(a, b, w, Accepts(Digits(n), w[1..])),
                   Branch(d, d, w, Accepts(last, w[1..]));
    BranchMeans(c, c, first, w);
    BranchMeans(a, b, Digits(n), w);
    TwoBranches(g, h, w, x, y);
    BranchMeans(d, d, last, w);
    TwoBranches(Or(g, h), k, w, x || y, z);
  }

  lemma FirstAndOther(c: char, first: Gram, a: char, b: char, other: Gram, w: string)
    requires w != []
    ensures Accepts(Or(Cat(Class(c, c), first), Cat(Class(a, b), other)), w)
            <==> Branch(c, c, w, Accepts(first, w[1..])) || Branch(a, b, w, Accepts(other, w[1..]))
  {
    BranchMeans(c, c, first, w);
    BranchMeans(a, b, other, w);
  }

  /** The parenthesis that is printed, over the grammars of the two ends. */
  function SplitGram(from: string, to: string, first: Gram, last: Gram): Gram
    requires |from| == |to| > 1 && IsDigits(from) && IsDigits(to)
  {
    var n := |from| - 1;
    if from[1..] == Repeat('0', n) then Or(Cat(Class(from[0], Pred(to[0])), Digits(n)), Cat(Class(to[0], to[0]), last))
    else if from[0] >= Pred(to[0]) then Or(Cat(Class(from[0], from[0]), first), Cat(Class(to[0], to[0]), last))
    else if to[1..]
        == Repeat('9', n) then Or(Cat(Class(from[0], from[0]), first), Cat(Class(Succ(from[0]), to[0]), Digits(n)))
    else Or(Or(Cat(Class(from[0], from[0]), first), Cat(Class(Succ(from[0]), Pred(to[0])), Digits(n))),
        Cat(Class(to[0], to[0]), last))
  }

  lemma SplitIs(from: string, to: string)
    requires |from| == |to| > 1 && IsDigits(from) && IsDigits(to)
    ensures Split(from, to)
            == SplitGram(from, to, Uniform(from[1..], Repeat('9', |from| - 1)),
               Uniform(Repeat('0', |from| - 1), to[1..]))
  {
  }

  lemma SplitAccepts(from: string, to: string, first: Gram, last: Gram, w: string)
    requires |from| == |to| > 1 && IsDigits(from) && IsDigits(to) && w != []
    ensures Accepts(SplitGram(from, to, first, last), w)
            <==> InSplit(from, to, w[0], Accepts(first, w[1..]), Accepts(last, w[1..]),
               Accepts(Digits(|from| - 1), w[1..]))
  {
    var n := |from| - 1;
    if from[1..] == Repeat('0', n) {
      SplitFromZeros(from, to, w, last);
    } else if from[0] >= Pred(to[0]) {
      FirstAndOther(from[0], first, to[0], to[0], last, w);
    } else if to[1..] == Repeat('9', n) {
      FirstAndOther(from[0], first, Succ(from[0]), to[0], Digits(n), w);
    } else {
      ThreeBranches(from[0], first, Succ(from[0]), Pred(to[0]), n, to[0], last, w);
    }
  }

  lemma SplitNotEmpty(from: string, to: string, first: Gram, last: Gram)
    requires |from| == |to| > 1 && IsDigits(from) && IsDigits(to)
    ensures !Accepts(SplitGram(from, to, first, last), "")
  {
    NoBranch(from[0], from[0], first);
    NoBranch(to[0], to[0], last);
    NoBranch(from[0], Pred(to[0]), Digits(|from| - 1));
    NoBranch(Succ(from[0]), to[0], Digits(|from| - 1));
    NoBranch(Succ(from[0]), Pred(to[0]), Digits(|from| - 1));
  }

  lemma NoBranch(first: char, last: char, g: Gram)
    ensures !Accepts(Cat(Class(first, last), g), "")
  {
    BranchMeans(first, last, g, "");
  }

  /** Of as many digits, those from the lower bound on and those up to the upper one. */
  lemma BetweenEnds(from: string, to: string, t: string)
    requires |from| == |to| && IsDigits(from) && IsDigits(to)
    ensures var n := |from|;
            && (Between(from, Repeat('9', n), t) <==> |t| == n && IsDigits(t) && Leq(from, t))
            && (Between(Repeat('0', n), to, t) <==> |t| == n && IsDigits(t) && Leq(t, to))
            && (|t| == n && IsDigits(t) && from == Repeat('0', n) ==> Leq(from, t))
            && (|t| == n && IsDigits(t) && to == Repeat('9', n) ==> Leq(t, to))
  {
    if |t| == |from| && IsDigits(t) {
      ZerosLeast(t);
      NinesGreatest(t);
    }
  }

  lemma SplitBetween(from: string, to: string, w: string)
    requires |from| == |to| > 1 && IsDigits(from) && IsDigits(to) && from[0] < to[0] && w != []
    ensures var n := |from| - 1;
            InSplit(from, to, w[0], Between(from[1..], Repeat('9', n), w[1..]),
                Between(Repeat('0', n), to[1..], w[1..]),
                    |w[1..]| == n && IsDigits(w[1..]))
            <==> Between(from, to, w)
  {
    DigitsTail(w);
    BetweenEnds(from[1..], to[1..], w[1..]);
    if |w| == |from| && IsDigits(w) {
      FirstDigit(from, to, w);
    }
  }

  lemma {:induction false} SplitMeans(from: string, to: string, w: string)
    requires |from| == |to| > 1 && IsDigits(from) && IsDigits(to) && from[0] < to[0]
    ensures Accepts(Split(from, to), w) <==> Between(from, to, w)
    decreases |from|, 0
  {
    var n := |from| - 1;
    var first, last := Uniform(from[1..], Repeat('9', n)), Uniform(Repeat('0', n), to[1..]);
    SplitIs(from, to);
    if w == [] {
      SplitNotEmpty(from, to, first, last);
    } else {
      SplitAccepts(from, to, first, last, w);
      ZerosLeast(to[1..]);
      NinesGreatest(from[1..]);
      UniformMeans(from[1..], Repeat('9', n), w[1..]);
      UniformMeans(Repeat('0', n), to[1..], w[1..]);
      SplitBetween(from, to, w);
    }
  }

  /** `uniform_range` prints exactly the numerals between its bounds. */
  lemma {:induction false} UniformMeans(from: string, to: string, w: string)
    requires |from| == |to| && IsDigits(from) && IsDigits(to) && Leq(from, to)
    ensures Accepts(Uniform(from, to), w) <==> Between(from, to, w)
    decreases |from|, 1
  {
    var i := CommonPrefix(from, to);
    CutPrefix(from, to, w, i);
    LeqPrefix(from, to, i);
    if i == |from| {
      assert from[..i] == from && to[..i] == to;
      assert |w| == |from| && from <= w ==> w == from;
    } else {
      var a, b := from[i..], to[i..];
      var rest := if |from| - i > 1 then Split(a, b) else Class(from[i], to[i]);
      CatLit(from[..i], rest, w);
      if i <= |w| {
        if |from| - i > 1 {
          SplitMeans(a, b, w[i..]);
        } else {
          OneDigit(from[i], to[i], w[i..]);
          assert a == [from[i]] && b == [to[i]];
        }
      }
      assert w[0..] == w && from[0..] == from && to[0..] == to;
    }
  }

  lemma OneDigit(first: char, last: char, w: string)
    requires '0' <= first < last <= '9'
    ensures Accepts(Class(first, last), w) <==> Between([first], [last], w)
  {
    if |w| == 1 {
      assert Leq([first], w) <==> first <= w[0];
      assert Leq(w, [last]) <==> w[0] <= last;
    }
  }

  method UniformRange(from: string, to: string) returns (g: Gram)
    requires |from| == |to| && IsDigits(from) && IsDigits(to)
    ensures g == Uniform(from, to)
    decreases |from|, 1
  {
    var i := 0;
    while i < |from| && from[i] == to[i]
      invariant 0 <= i <= |from| && CommonPrefix(from, to) == i + CommonPrefix(from[i..], to[i..])
    {
      i := i + 1;
    }
    if i == |from| {
      return Lit(from);
    }
    if |from| - i - 1 > 0 {
      g := SplitRange(from[i..], to[i..]);
    } else {
      g := Class(from[i], to[i]);
    }
    if i > 0 {
      g := Cat(Lit(from[..i]), g);
    }
  }

  /** The parenthesis of `uniform_range`, behind the common prefix. */
  method SplitRange(from: string, to: string) returns (g: Gram)
    requires |from| == |to| > 1 && IsDigits(from) && IsDigits(to)
    ensures g == Split(from, to)
    decreases |from|, 0
  {
    var subLen := |from| - 1;
    var zeros, nines := Repeat('0', subLen), Repeat('9', subLen);
    var toReached := false;
    if from[1..] == zeros {
      g := Cat(Class(from[0], Pred(to[0])), Digits(subLen));
    } else {
      var sub := UniformRange(from[1..], nines);
      g := Cat(Class(from[0], from[0]), sub);
      if from[0] < Pred(to[0]) {
        if to[1..] == nines {
          g := Or(g, Cat(Class(Succ(from[0]), to[0]), Digits(subLen)));
          toReached := true;
        } else {
          g := Or(g, Cat(Class(Succ(from[0]), Pred(to[0])), Digits(subLen)));
        }
      }
    }
    if !toReached {
      var sub := UniformRange(zeros, to[1..]);
      g := Or(g, Cat(Class(to[0], to[0]), sub));
    }
  }

  // ---- build_min_max_int ----

  /** The alternative so far, and one more. */
  function Join(printed: Option<Gram>, g: Gram): Gram {
    match printed
    case None => g
    case Some(p) => Or(p, g)
  }

  /** A canonical lower bound keeps the numerals of its length canonical. */
  lemma CanonicalBetween(from: string, to: string, w: string)
    requires |from| == |to| && IsCanonical(from)
    ensures Between(from, to, w) <==> |w| == |from| && IsCanonical(w) && Leq(from, w) && Leq(w, to)
  {
  }

  /** The least numeral with n digits. */
  function Power(n: nat): (s: string)
    requires n >= 1
    ensures IsCanonical(s) && |s| == n
  {
    "1" + Repeat('0', n - 1)
  }

  lemma PowerLeast(w: string)
    requires IsCanonical(w) && |w| > 1
    ensures Leq(Power(|w|), w)
  {
    assert Power(|w|)[1..] == Repeat('0', |w| - 1);
    ZerosLeast(w[1..]);
  }

  /** The lower bound that the loop uses for numerals with n digits. */
  function LowerBound(min: nat, n: nat): string
    requires n >= |Decimal(min)|
  {
    if n == |Decimal(min)| then Decimal(min) else Power(n)
  }

  lemma LowerBoundMeans(min: nat, w: string)
    requires IsCanonical(w) && |w| >= |Decimal(min)|
    ensures Leq(LowerBound(min, |w|), w) <==> min <= Val(w)
  {
    ValDecimal(min);
    if |w| == |Decimal(min)| {
      LeqVal(Decimal(min), w);
    } else {
      PowerLeast(w);
      ShorterIsLess(Decimal(min), w);
    }
  }

  ghost predicate AcceptsNumbers(g: Gram, min: nat, max: nat) {
    forall w :: Accepts(g, w) <==> IsCanonical(w) && min <= Val(w) <= max
  }

  /** What has been printed accepts the numerals from min on with fewer than n digits. */
  ghost predicate AcceptsShorter(printed: Option<Gram>, min: nat, n: nat) {
    forall w :: printed.Some? && Accepts(printed.value, w) <==> IsCanonical(w) && |w| < n && min <= Val(w)
  }

  /** The loop over digit counts, for bounds that are not negative. */
  method BuildNonNegative(min: nat, max: nat) returns (g: Gram)
    requires min <= max
    ensures AcceptsNumbers(g, min, max)
  {
    var minS, maxS := Decimal(min), Decimal(max);
    DigitCounts(min, max);
    NothingShorter(min);
    var minDigits, maxDigits := |minS|, |maxS|;
    var printed: Option<Gram> := None;
    var digits := minDigits;
    while digits < maxDigits
      invariant minDigits <= digits <= maxDigits && minS == LowerBound(min, digits)
                && AcceptsShorter(printed, min, digits)
    {
      FullChunks(printed, min, digits);
      var range := UniformRange(minS, Repeat('9', digits));
      printed := Some(Join(printed, range));
      minS := "1" + Repeat('0', digits);
      digits := digits + 1;
    }
    LastChunks(printed, min, max);
    var range := UniformRange(minS, maxS);
    g := Join(printed, range);
  }

  lemma NothingShorter(min: nat)
    ensures AcceptsShorter(None, min, |Decimal(min)|)
  {
    forall w | IsCanonical(w) && |w| < |Decimal(min)|
      ensures Val(w) < min
    {
      ShorterIsLess(w, Decimal(min));
      ValDecimal(min);
    }
  }

  lemma FullChunks(printed: Option<Gram>, min: nat, n: nat)
    requires n >= |Decimal(min)| && AcceptsShorter(printed, min, n)
    ensures |LowerBound(min, n)| == n && IsDigits(LowerBound(min, n))
    ensures AcceptsShorter(Some(Join(printed, Uniform(LowerBound(min, n), Repeat('9', n)))), min, n + 1)
  {
    FullChunk(min, n, "");
    forall w
      ensures Accepts(Uniform(LowerBound(min, n), Repeat('9', n)), w) <==> IsCanonical(w) && |w| == n && min <= Val(w)
    {
      FullChunk(min, n, w);
    }
  }

  lemma LastChunks(printed: Option<Gram>, min: nat, max: nat)
    requires min <= max && |Decimal(min)| <= |Decimal(max)| && AcceptsShorter(printed, min, |Decimal(max)|)
    ensures var n := |Decimal(max)|;
            && |LowerBound(min, n)| == n && IsDigits(LowerBound(min, n))
            && AcceptsNumbers(Join(printed, Uniform(LowerBound(min, n), Decimal(max))), min, max)
  {
    LastChunk(min, max, "");
    forall w
      ensures Accepts(Join(printed, Uniform(LowerBound(min, |Decimal(max)|), Decimal(max))), w)
              <==> IsCanonical(w) && min <= Val(w) <= max
    {
      LastChunk(min, max, w);
    }
  }

  lemma DigitCounts(min: nat, max: nat)
    requires min <= max
    ensures |Decimal(min)| <= |Decimal(max)|
  {
    ValDecimal(min);
    ValDecimal(max);
    if |Decimal(max)| < |Decimal(min)| {
      ShorterIsLess(Decimal(max), Decimal(min));
    }
  }

  lemma FullChunk(min: nat, n: nat, w: string)
    requires n >= |Decimal(min)|
    ensures |LowerBound(min, n)| == n && IsDigits(LowerBound(min, n))
    ensures Accepts(Uniform(LowerBound(min, n), Repeat('9', n)), w) <==> IsCanonical(w) && |w| == n && min <= Val(w)
  {
    var from := LowerBound(min, n);
    NinesGreatest(from);
    UniformMeans(from, Repeat('9', n), w);
    CanonicalBetween(from, Repeat('9', n), w);
    if |w| == n && IsCanonical(w) {
      NinesGreatest(w);
      LowerBoundMeans(min, w);
    }
  }

  /** The last range, together with the shorter numerals before it. */
  lemma LastChunk(min: nat, max: nat, w: string)
    requires min <= max && |Decimal(min)| <= |Decimal(max)|
    ensures var n := |Decimal(max)|;
            && |LowerBound(min, n)| == n && IsDigits(LowerBound(min, n))
            && ((IsCanonical(w) && |w| < n && min <= Val(w)) || Accepts(Uniform(LowerBound(min, n), Decimal(max)), w)
                <==> IsCanonical(w) && min <= Val(w) <= max)
  {
    var n := |Decimal(max)|;
    var from, to := LowerBound(min, n), Decimal(max);
    ValDecimal(max);
    LowerBoundMeans(min, to);
    UniformMeans(from, to, w);
    CanonicalBetween(from, to, w);
    if IsCanonical(w) {
      if |w| == n {
        LowerBoundMeans(min, w);
        LeqVal(w, to);
      } else if |w| < n {
        ShorterIsLess(w, to);
      } else {
        ShorterIsLess(to, w);
      }
    }
  }

  const INT64_MAX := 0x7FFF_FFFF_FFFF_FFFF

  /** `std::to_string`. */
  function Numeral(v: int): string {
    if v < 0 then "-" + Decimal(-v) else Decimal(v)
  }

  /** The numerals of a closed range; below zero the source also lets the numeral of minus zero through. */
  ghost predicate InRange(min: int, max: int, w: string) {
    (exists v :: min <= v <= max && w == Numeral(v)) || (min < 0 <= max && w == "-0")
  }

  /** `build_min_max_int` with both bounds given: the printed grammar accepts exactly the range. */
  method BuildMinMaxInt(min: int, max: int) returns (g: Gram)
    requires -INT64_MAX < min <= max < INT64_MAX
    ensures forall w :: Accepts(g, w) <==> InRange(min, max, w)
  {
    if min < 0 && max < 0 {
      var n := BuildNonNegative(-max, -min);
      g := Cat(Lit("-"), n);
      forall w
        ensures Accepts(g, w) <==> InRange(min, max, w)
      {
        NegativeExact(min, max, n, w);
      }
    } else if min < 0 {
      var n := BuildNonNegative(0, -min);
      var p := BuildNonNegative(0, max);
      g := Or(Cat(Lit("-"), n), p);
      forall w
        ensures Accepts(g, w) <==> InRange(min, max, w)
      {
        StraddlingExact(min, max, n, p, w);
      }
    } else {
      g := BuildNonNegative(min, max);
      forall w
        ensures Accepts(g, w) <==> InRange(min, max, w)
      {
        CanonicalIsDecimal(min, max, w);
        assert forall v :: min <= v <= max ==> Numeral(v) == Decimal(v);
      }
    }
  }

  lemma NegativeExact(min: int, max: int, n: Gram, w: string)
    requires min <= max < 0 && AcceptsNumbers(n, -max, -min)
    ensures Accepts(Cat(Lit("-"), n), w) <==> InRange(min, max, w)
  {
    CatLit("-", n, w);
    NegativeMeans(-max, -min, n, w);
    BothNegative(min, max, w);
  }

  lemma StraddlingExact(min: int, max: int, n: Gram, p: Gram, w: string)
    requires min < 0 <= max && AcceptsNumbers(n, 0, -min) && AcceptsNumbers(p, 0, max)
    ensures Accepts(Or(Cat(Lit("-"), n), p), w) <==> InRange(min, max, w)
  {
    MinusMeans(min, n, w);
    CanonicalIsDecimal(0, max, w);
    Straddling(min, max, w);
  }

  lemma MinusMeans(min: int, n: Gram, w: string)
    requires min < 0 && AcceptsNumbers(n, 0, -min)
    ensures Accepts(Cat(Lit("-"), n), w) <==> IsMinusDecimal(0, -min, w)
  {
    CatLit("-", n, w);
    NegativeMeans(0, -min, n, w);
  }

  ghost predicate IsMinusDecimal(lo: nat, hi: nat, w: string) {
    exists v: nat :: lo <= v <= hi && w == "-" + Decimal(v)
  }

  ghost predicate IsDecimalOf(lo: nat, hi: nat, w: string) { exists v: nat :: lo <= v <= hi && w == Decimal(v) }

  lemma CanonicalIsDecimal(lo: nat, hi: nat, w: string)
    ensures IsCanonical(w) && lo <= Val(w) <= hi <==> IsDecimalOf(lo, hi, w)
  {
    if IsCanonical(w) {
      DecimalVal(w);
    }
    forall v: nat | lo <= v <= hi && w == Decimal(v)
      ensures IsCanonical(w) && lo <= Val(w) <= hi
    {
      ValDecimal(v);
    }
  }

  lemma NegativeMeans(lo: nat, hi: nat, n: Gram, w: string)
    requires AcceptsNumbers(n, lo, hi)
    ensures "-" <= w && Accepts(n, w[1..]) <==> IsMinusDecimal(lo, hi, w)
  {
    if "-" <= w {
      CanonicalIsDecimal(lo, hi, w[1..]);
      if Accepts(n, w[1..]) {
        var v: nat :| lo <= v <= hi && w[1..] == Decimal(v);
        assert w == "-" + Decimal(v);
      }
    }
    if IsMinusDecimal(lo, hi, w) {
      var v: nat :| lo <= v <= hi && w == "-" + Decimal(v);
      assert w[1..] == Decimal(v);
    }
  }

  lemma BothNegative(min: int, max: int, w: string)
    requires min <= max < 0
    ensures InRange(min, max, w) <==> IsMinusDecimal(-max, -min, w)
  {
    if InRange(min, max, w) {
      var v :| min <= v <= max && w == Numeral(v);
      assert w == "-" + Decimal(-v);
    }
    if IsMinusDecimal(-max, -min, w) {
      var v: nat :| -max <= v <= -min && w == "-" + Decimal(v);
      var n: int := v;
      assert w == Numeral(-n);
    }
  }

  lemma StraddlingGives(min: int, max: int, w: string)
    requires min < 0 <= max && InRange(min, max, w)
    ensures IsMinusDecimal(0, -min, w) || IsDecimalOf(0, max, w)
  {
    if w == "-0" {
      var zero: nat := 0;
      assert 0 <= zero <= -min && "-" + Decimal(zero) == "-0";
    } else {
      var v :| min <= v <= max && w == Numeral(v);
      if v < 0 {
        assert w == "-" + Decimal(-v);
      } else {
        assert w == Decimal(v);
      }
    }
  }

  lemma MinusIsInRange(min: int, max: int, w: string)
    requires min < 0 <= max && IsMinusDecimal(0, -min, w)
    ensures InRange(min, max, w)
  {
    var v: nat :| 0 <= v <= -min && w == "-" + Decimal(v);
    if v > 0 {
      var n: int := v;
      assert w == Numeral(-n);
    } else {
      assert Decimal(0) == "0";
    }
  }

  lemma Straddling(min: int, max: int, w: string)
    requires min < 0 <= max
    ensures InRange(min, max, w) <==> IsMinusDecimal(0, -min, w) || IsDecimalOf(0, max, w)
  {
    if InRange(min, max, w) {
      StraddlingGives(min, max, w);
    }
    if IsMinusDecimal(0, -min, w) {
      MinusIsInRange(min, max, w);
    }
    if IsDecimalOf(0, max, w) {
      var v: nat :| 0 <= v <= max && w == Decimal(v);
      assert w == Numeral(v);
    }
  }
}

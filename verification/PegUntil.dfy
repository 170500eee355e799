/** Where the `until` parser stops, and that its grammar accepts everything it can return. */
module PegUntil {
  import opened Wrappers
  import opened Utf8
  import opened Peg

  /** The word is not empty and begins the text. */
  predicate Begins<T(==)>(w: seq<T>, text: seq<T>) { w != [] && w <= text }

  /** The word begins the text, or the text is not empty and ends inside the word. */
  predicate StopsFor<T(==)>(w: seq<T>, text: seq<T>) { Begins(w, text) || (text != [] && text < w) }

  ghost predicate Starts(ws: seq<Word>, cps: seq<nat>) { exists i :: 0 <= i < |ws| && Begins(ws[i], cps) }

  ghost predicate StopsAt<T>(ws: seq<seq<T>>, text: seq<T>) { exists i :: 0 <= i < |ws| && StopsFor(ws[i], text) }

  // ---- check_at ----

  /** On the code points that decode from a position on, `check_at` finds a word or the beginning of one. */
  lemma {:induction false} CheckMeans(ws: seq<Word>, s: seq<Byte>, pos: nat, u: Word)
    requires pos <= |s|
    requires forall i :: 0 <= i < |ws| ==> !Begins(ws[i], u)
    requires u == [] || IsPath(ws, u)
    ensures var rest, m := u + Scan(s, pos).0, CheckFrom(ws, s, pos, u);
            && (m == Complete <==> Starts(ws, rest))
            && (m == Partial <==> !Starts(ws, rest) && rest != [] && IsPath(ws, rest))
    decreases |s| - pos
  {
    var d, rest := Decode(s, pos), u + Scan(s, pos).0;
    if d.Char? {
      var u' := u + [d.cp];
      assert rest == u' + Scan(s, pos + d.bytes).0;
      assert u' <= rest;
      if !IsPath(ws, u') {
        PathPrefix(ws, u', rest);
        forall i | 0 <= i < |ws|
          ensures !Begins(ws[i], rest)
        {
          WordPasses(ws[i], u, d.cp, rest);
        }
      } else if u' in ws {
        var i :| 0 <= i < |ws| && ws[i] == u';
        assert Begins(ws[i], rest);
      } else {
        forall i | 0 <= i < |ws|
          ensures !Begins(ws[i], u')
        {
          assert ws[i] in ws;
          WordPasses(ws[i], u, d.cp, u');
          PrefixAntisymmetric(ws[i], u');
        }
        CheckMeans(ws, s, pos + d.bytes, u');
      }
    } else {
      assert rest == u;
    }
  }

  lemma PathPrefix(ws: seq<Word>, u: Word, v: Word)
    requires u <= v
    ensures IsPath(ws, v) ==> IsPath(ws, u)
  {
    if IsPath(ws, v) {
      var i :| 0 <= i < |ws| && v <= ws[i];
      assert u <= ws[i];
    }
  }

  /** Of two prefixes of a text the shorter one begins the longer one; here the word cannot be the shorter one. */
  lemma PrefixAntisymmetric(a: Word, b: Word)
    ensures a <= b && b <= a ==> a == b
  {
  }

  lemma WordPasses(w: Word, u: Word, c: nat, rest: Word)
    requires u + [c] <= rest
    ensures Begins(w, rest) && !Begins(w, u) ==> u + [c] <= w
  {
    if w <= rest && |w| <= |u| {
      assert w <= u;
    }
  }

  lemma CheckAtMeans(ws: seq<Word>, s: seq<Byte>, pos: nat)
    requires pos <= |s|
    ensures CheckFrom(ws, s, pos, []) != NoMatch <==> StopsAt(ws, Scan(s, pos).0)
  {
    var rest := Scan(s, pos).0;
    CheckMeans(ws, s, pos, []);
    assert [] + rest == rest;
    forall i | 0 <= i < |ws|
      ensures StopsFor(ws[i], rest) <==> Begins(ws[i], rest) || (rest != [] && rest <= ws[i])
    {
    }
  }

  // ---- until, on valid UTF-8 ----

  /** The least code point index from k on where a word starts or the rest is a proper prefix of one. */
  ghost function Stop(ws: seq<Word>, cs: seq<nat>, k: nat): (m: nat)
    requires k <= |cs|
    ensures k <= m <= |cs|
    ensures m < |cs| ==> StopsAt(ws, cs[m..])
    ensures forall i :: k <= i < m ==> !StopsAt(ws, cs[i..])
    decreases |cs| - k
  {
    if k == |cs| || StopsAt(ws, cs[k..]) then k else Stop(ws, cs, k + 1)
  }

  lemma ScanFrom(cs: seq<CodePoint>, k: nat)
    requires k <= |cs|
    ensures Cut(cs, k) <= |EncodeAll(cs)| && Scan(EncodeAll(cs), Cut(cs, k)).0 == cs[k..]
    ensures k < |cs| ==>
            Decode(EncodeAll(cs), Cut(cs, k)) == Char(cs[k], |Encode(cs[k])|)
                && Cut(cs, k + 1) == Cut(cs, k) + |Encode(cs[k])|
    ensures k == |cs| ==> Cut(cs, k) == |EncodeAll(cs)|
  {
    CutSplits(cs, k);
    ScanRest(EncodeAll(cs[..k]), cs[k..], EncodeAll(cs));
    if k < |cs| {
      CutStep(cs, k);
      DecodeEncode(EncodeAll(cs[..k]), cs[k], EncodeAll(cs[k + 1..]));
    } else {
      assert cs[..k] == cs;
    }
  }

  lemma ScanRest(pre: seq<Byte>, rest: seq<CodePoint>, s: seq<Byte>)
    requires s == pre + EncodeAll(rest)
    ensures Scan(s, |pre|).0 == rest
  {
    assert pre + EncodeAll(rest) + [] == s;
    ScanEncode(pre, rest, []);
  }

  /** One turn of the loop, at a code point. */
  lemma UntilTurn(t: Text, ws: seq<Word>, start: nat, pos: nat, cp: nat, n: nat)
    requires Reached(t, start, pos) && pos < |t.input| && Decode(t.input, pos) == Char(cp, n)
    ensures pos + n <= |t.input|
    ensures UntilFrom(t, ws, start, pos)
            == if CheckFrom(ws, t.input, pos, []) != NoMatch then Span(Success, start, pos)
               else UntilFrom(t, ws, start, pos + n)
  {
  }

  /** Over code points, it stops here or goes on at the next one. */
  lemma UntilStep(ws: seq<Word>, cs: seq<CodePoint>, lenient: bool, start: nat, k: nat)
    requires k < |cs| && start <= Cut(cs, k)
    ensures Cut(cs, k) < Cut(cs, k + 1) <= |EncodeAll(cs)|
    ensures var t := Text(EncodeAll(cs), lenient);
            UntilFrom(t, ws, start, Cut(cs, k))
            == if StopsAt(ws, cs[k..]) then Span(Success, start, Cut(cs, k))
               else UntilFrom(t, ws, start, Cut(cs, k + 1))
  {
    CharAtCut(cs, k);
    StopsHere(ws, cs, k);
    UntilTurn(Text(EncodeAll(cs), lenient), ws, start, Cut(cs, k), cs[k], |Encode(cs[k])|);
  }

  lemma CharAtCut(cs: seq<CodePoint>, k: nat)
    requires k < |cs|
    ensures Decode(EncodeAll(cs), Cut(cs, k)) == Char(cs[k], |Encode(cs[k])|)
    ensures Cut(cs, k) < Cut(cs, k + 1) == Cut(cs, k) + |Encode(cs[k])| <= |EncodeAll(cs)|
  {
    ScanFrom(cs, k);
    CutStep(cs, k);
  }

  lemma StopsHere(ws: seq<Word>, cs: seq<CodePoint>, k: nat)
    requires k < |cs|
    ensures CheckFrom(ws, EncodeAll(cs), Cut(cs, k), []) != NoMatch <==> StopsAt(ws, cs[k..])
  {
    ScanFrom(cs, k);
    CheckAtMeans(ws, EncodeAll(cs), Cut(cs, k));
  }

  /** `until` over code points: it stops at `Stop`, or asks for more at the end of a lenient input. */
  lemma {:induction false} UntilMeans(ws: seq<Word>, cs: seq<CodePoint>, lenient: bool, start: nat, k: nat)
    requires k <= |cs| && start <= Cut(cs, k) <= |EncodeAll(cs)|
    ensures var m := Stop(ws, cs, k);
            UntilFrom(Text(EncodeAll(cs), lenient), ws, start, Cut(cs, k)) == UpTo(cs, lenient, k, m).(start := start)
    decreases |cs| - k
  {
    if k < |cs| {
      UntilStep(ws, cs, lenient, start, k);
      if !StopsAt(ws, cs[k..]) {
        UntilMeans(ws, cs, lenient, start, k + 1);
      }
    } else {
      ScanFrom(cs, k);
    }
  }

  // ---- from code points to bytes ----

  /** UTF-8 is a prefix code. */
  lemma PrefixCode(a: seq<CodePoint>, b: seq<CodePoint>)
    ensures EncodeAll(a) <= EncodeAll(b) <==> a <= b
  {
    if a <= b {
      EncodeAllAppend(a, b[|a|..]);
      assert a + b[|a|..] == b;
    }
    if EncodeAll(a) <= EncodeAll(b) {
      var j := ScanTruncated(b, |EncodeAll(a)|);
      assert EncodeAll(b)[..|EncodeAll(a)|] == EncodeAll(a);
      RoundTrip(a);
      assert a == b[..j];
    }
  }

  /** Delimiters given as code points. */
  function Delimiters(ds: seq<seq<CodePoint>>): (r: seq<seq<Byte>>)
    ensures |r| == |ds|
  {
    seq(|ds|, i requires 0 <= i < |ds| => EncodeAll(ds[i]))
  }

  lemma WordsOfDelimiters(ds: seq<seq<CodePoint>>)
    ensures Words(Delimiters(ds)) == ds
  {
    forall i | 0 <= i < |ds|
      ensures Words(Delimiters(ds))[i] == ds[i]
    {
      RoundTrip(ds[i]);
    }
  }

  lemma StopsInBytes(ds: seq<seq<CodePoint>>, cps: seq<CodePoint>)
    ensures StopsAt(Delimiters(ds), EncodeAll(cps)) <==> StopsAt(ds, cps)
  {
    forall i | 0 <= i < |ds|
      ensures StopsFor(Delimiters(ds)[i], EncodeAll(cps)) <==> StopsFor(ds[i], cps)
    {
      PrefixCode(ds[i], cps);
      PrefixCode(cps, ds[i]);
    }
  }

  /**
    m is the first code point boundary from k on where a delimiter starts or the remaining bytes are a proper
    prefix of one, and otherwise the end of the input.
   */
  ghost predicate IsFirstStop(delimiters: seq<seq<Byte>>, cs: seq<CodePoint>, k: nat, m: nat) {
    && k <= m <= |cs|
    && (m < |cs| ==> StopsAt(delimiters, From(cs, m)))
    && forall i :: k <= i < m ==> !StopsAt(delimiters, From(cs, i))
  }

  /** The bytes of the text from its j-th code point on. */
  ghost function From(cs: seq<CodePoint>, j: nat): seq<Byte>
    requires j <= |cs|
  {
    CutSplits(cs, j);
    EncodeAll(cs)[Cut(cs, j)..]
  }

  /**
    On valid UTF-8 delimiters and input, from any code point boundary: `until` succeeds up to the first stop,
    except that a lenient run that finds none asks for more at the end of the input.
   */
  lemma UntilStopsFirst(ds: seq<seq<CodePoint>>, cs: seq<CodePoint>, lenient: bool, k: nat)
    requires k <= |cs|
    ensures exists m :: IsFirstStop(Delimiters(ds), cs, k, m) && UntilAt(ds, cs, lenient, k) == UpTo(cs, lenient, k, m)
  {
    StopIsFirst(ds, cs, k);
    UntilIsStop(ds, cs, lenient, k);
  }

  lemma UntilIsStop(ds: seq<seq<CodePoint>>, cs: seq<CodePoint>, lenient: bool, k: nat)
    requires k <= |cs|
    ensures UntilAt(ds, cs, lenient, k) == UpTo(cs, lenient, k, Stop(ds, cs, k))
  {
    WordsOfDelimiters(ds);
    ScanFrom(cs, k);
    UntilMeans(ds, cs, lenient, Cut(cs, k), k);
    UntilLeaf(Text(EncodeAll(cs), lenient), Delimiters(ds), Cut(cs, k));
  }

  lemma UntilLeaf(t: Text, delimiters: seq<seq<Byte>>, pos: nat)
    requires pos <= |t.input|
    ensures RunLeaf(t, Until(delimiters), pos) == UntilFrom(t, Words(delimiters), pos, pos)
  {
  }

  function UntilAt(ds: seq<seq<CodePoint>>, cs: seq<CodePoint>, lenient: bool, k: nat): Result
    requires k <= |cs|
  {
    RunLeaf(Text(EncodeAll(cs), lenient), Until(Delimiters(ds)), Cut(cs, k))
  }

  function UpTo(cs: seq<CodePoint>, lenient: bool, k: nat, m: nat): Result
    requires k <= |cs| && m <= |cs|
  {
    Span(if m == |cs| && lenient then NeedMore else Success, Cut(cs, k), Cut(cs, m))
  }

  lemma StopIsFirst(ds: seq<seq<CodePoint>>, cs: seq<CodePoint>, k: nat)
    requires k <= |cs|
    ensures IsFirstStop(Delimiters(ds), cs, k, Stop(ds, cs, k))
  {
    forall i | k <= i <= Stop(ds, cs, k)
      ensures StopsAt(Delimiters(ds), From(cs, i)) <==> StopsAt(ds, cs[i..])
    {
      StopsAtCut(ds, cs, i);
    }
  }

  lemma StopsAtCut(ds: seq<seq<CodePoint>>, cs: seq<CodePoint>, i: nat)
    requires i <= |cs|
    ensures StopsAt(Delimiters(ds), From(cs, i)) <==> StopsAt(ds, cs[i..])
  {
    CutSplits(cs, i);
    assert EncodeAll(cs)[Cut(cs, i)..] == EncodeAll(cs[i..]);
    StopsInBytes(ds, cs[i..]);
  }

  // ---- the exclusion grammar ----

  /** One alternative of the emitted repetition: the literal `prefix`, then any character but those in `next`. */
  datatype Piece = Piece(prefix: Word, next: set<nat>)

  /** `(alternatives)* (tails)?`, the shape of what `gbnf_excluding_pattern` prints. */
  datatype Pattern = Pattern(alternatives: seq<Piece>, tails: seq<Word>)

  /** An inner node of the trie that is not a word, with its outgoing characters. */
  ghost predicate IsPiece(ws: seq<Word>, p: Piece) {
    && IsPath(ws, p.prefix) && p.prefix !in ws && p.next != {}
    && forall c :: c in p.next <==> IsPath(ws, p.prefix + [c])
  }

  /** The pattern that the trie of the words ws gives, up to order. */
  ghost predicate IsPatternOf(ws: seq<Word>, g: Pattern) {
    && (forall p :: p in g.alternatives <==> IsPiece(ws, p))
    && (forall u :: u in g.tails <==> u != [] && exists p :: p in g.alternatives && p.prefix == u)
  }

  predicate InRepetition(alternatives: seq<Piece>, v: seq<nat>)
    decreases |v|
  {
    v == []
    || exists i ::
         0 <= i < |alternatives| && Takes(alternatives[i], v)
         && InRepetition(alternatives, v[|alternatives[i].prefix| + 1..])
  }

  /** The alternative takes a first piece of v. */
  predicate Takes(p: Piece, v: seq<nat>) {
    |p.prefix| < |v| && p.prefix <= v && v[|p.prefix|] !in p.next
  }

  predicate Accepts(g: Pattern, v: seq<nat>) {
    exists k :: 0 <= k <= |v| && InRepetition(g.alternatives, v[..k]) && (k == |v| || v[k..] in g.tails)
  }

  /** No word inside v: what every value of `until` satisfies. */
  ghost predicate FreeOf(ws: seq<Word>, v: seq<nat>) { forall i :: 0 <= i <= |v| ==> !Starts(ws, v[i..]) }

  /** The longest beginning of v that is a path. */
  lemma {:induction false} LongestPath(ws: seq<Word>, v: seq<nat>, k: nat) returns (n: nat)
    requires k <= |v| && IsPath(ws, v[..k])
    ensures k <= n <= |v| && IsPath(ws, v[..n]) && (n < |v| ==> !IsPath(ws, v[..n + 1]))
    decreases |v| - k
  {
    if k < |v| && IsPath(ws, v[..k + 1]) {
      n := LongestPath(ws, v, k + 1);
    } else {
      n := k;
    }
  }

  /** The characters that lead on from a path. */
  lemma NextChars(ws: seq<Word>, u: Word) returns (next: set<nat>)
    ensures forall c :: c in next <==> IsPath(ws, u + [c])
  {
    next := set i | 0 <= i < |ws| && u < ws[i] :: ws[i][|u|];
    forall c
      ensures c in next <==> IsPath(ws, u + [c])
    {
      if IsPath(ws, u + [c]) {
        var i :| 0 <= i < |ws| && u + [c] <= ws[i];
        assert ws[i][|u|] == (u + [c])[|u|];
      }
      if c in next {
        var i :| 0 <= i < |ws| && u < ws[i] && ws[i][|u|] == c;
        assert u + [c] <= ws[i];
      }
    }
  }

  /** A path that is not a word has a piece. */
  lemma PathHasPiece(ws: seq<Word>, g: Pattern, u: Word) returns (p: Piece)
    requires IsPatternOf(ws, g) && IsPath(ws, u) && u !in ws
    ensures p in g.alternatives && p.prefix == u && IsPiece(ws, p)
  {
    var next := NextChars(ws, u);
    p := Piece(u, next);
    var i :| 0 <= i < |ws| && u <= ws[i];
    assert ws[i] in ws && u != ws[i];
    assert u + [ws[i][|u|]] <= ws[i];
    assert ws[i][|u|] in next;
  }

  /** Every character is the first one of some word, or there are words and all have a first one. */
  ghost predicate Leads(ws: seq<Word>, v: seq<nat>) {
    (ws != [] && [] !in ws) || forall j :: 0 <= j < |v| ==> IsPath(ws, [v[j]])
  }

  /** The longest path at the beginning of v has a piece. */
  lemma FirstPath(ws: seq<Word>, g: Pattern, v: seq<nat>) returns (n: nat, p: Piece)
    requires v != [] && Leads(ws, v) && IsPatternOf(ws, g) && FreeOf(ws, v)
    ensures n <= |v| && (n < |v| ==> !IsPath(ws, v[..n + 1]))
    ensures p in g.alternatives && p.prefix == v[..n] && IsPiece(ws, p)
  {
    assert v[..0] == [] && v[..1] == [v[0]] && v[0..] == v;
    if ws != [] && [] !in ws {
      assert [] <= ws[0];
      n := LongestPath(ws, v, 0);
    } else {
      n := LongestPath(ws, v, 1);
    }
    assert v[..n] !in ws;
    p := PathHasPiece(ws, g, v[..n]);
  }

  lemma {:induction false} AcceptsFree(ws: seq<Word>, g: Pattern, v: seq<nat>)
    requires Leads(ws, v) && IsPatternOf(ws, g) && FreeOf(ws, v)
    ensures Accepts(g, v)
    decreases |v|
  {
    assert v[..0] == [] && InRepetition(g.alternatives, v[..0]);
    if v != [] {
      var n, p := FirstPath(ws, g, v);
      if n == |v| {
        assert v[0..] == v[..n] == p.prefix && v[0..] in g.tails;
      } else {
        assert v[..n + 1] == v[..n] + [v[n]];
        FreeTail(ws, v, n + 1);
        assert Leads(ws, v[n + 1..]);
        AcceptsFree(ws, g, v[n + 1..]);
        AcceptsMore(g, p, v);
      }
    }
  }

  /** One more piece in front of a repetition. */
  lemma RepeatsMore(alternatives: seq<Piece>, p: Piece, v: seq<nat>)
    requires p in alternatives && Takes(p, v) && InRepetition(alternatives, v[|p.prefix| + 1..])
    ensures InRepetition(alternatives, v)
  {
    var i :| 0 <= i < |alternatives| && alternatives[i] == p;
  }

  lemma TakesShorter(p: Piece, v: seq<nat>, k: nat)
    requires Takes(p, v) && |p.prefix| < k <= |v|
    ensures Takes(p, v[..k]) && v[..k][|p.prefix| + 1..] == v[|p.prefix| + 1..][..k - |p.prefix| - 1]
  {
  }

  lemma AcceptsMore(g: Pattern, p: Piece, v: seq<nat>)
    requires p in g.alternatives && Takes(p, v) && Accepts(g, v[|p.prefix| + 1..])
    ensures Accepts(g, v)
  {
    var n := |p.prefix| + 1;
    var k :| 0 <= k <= |v[n..]| && InRepetition(g.alternatives, v[n..][..k])
        && (k == |v[n..]| || v[n..][k..] in g.tails);
    TakesShorter(p, v, n + k);
    RepeatsMore(g.alternatives, p, v[..n + k]);
    assert v[n + k..] == v[n..][k..];
  }

  lemma FreeTail(ws: seq<Word>, v: seq<nat>, n: nat)
    requires FreeOf(ws, v) && n <= |v|
    ensures FreeOf(ws, v[n..])
  {
    forall i | 0 <= i <= |v| - n
      ensures !Starts(ws, v[n..][i..])
    {
      assert v[n..][i..] == v[n + i..];
    }
  }

  /** What `until` returns when it starts at k. */
  ghost function Value(ws: seq<Word>, cs: seq<nat>, k: nat): seq<nat>
    requires k <= |cs|
  {
    cs[k..Stop(ws, cs, k)]
  }

  lemma ValueIsFree(ws: seq<Word>, cs: seq<nat>, k: nat)
    requires k <= |cs|
    ensures FreeOf(ws, Value(ws, cs, k))
  {
    var m := Stop(ws, cs, k);
    var v := cs[k..m];
    forall i | 0 <= i <= |v|
      ensures !Starts(ws, v[i..])
    {
      if i < |v| {
        StartsLonger(ws, v[i..], cs[k + i..]);
      }
    }
  }

  lemma StartsLonger(ws: seq<Word>, a: seq<nat>, b: seq<nat>)
    requires a <= b
    ensures Starts(ws, a) ==> Starts(ws, b)
  {
    forall i | 0 <= i < |ws| && Begins(ws[i], a)
      ensures Begins(ws[i], b)
    {
    }
  }

  /** The `until` branch of `to_gbnf`: `.*` if there are no delimiters, as for `rest`, and else the pattern. */
  datatype UntilGrammar = AnyText | Excluding(pattern: Pattern)

  predicate Allows(g: UntilGrammar, v: seq<nat>) { g.AnyText? || Accepts(g.pattern, v) }

  ghost predicate IsGrammarFor(delimiters: seq<seq<Byte>>, g: UntilGrammar) {
    if delimiters == [] then g == AnyText else g.Excluding? && IsPatternOf(Words(delimiters), g.pattern)
  }

  /** The bytes between the ends of the result are the text of a value that the grammar accepts. */
  ghost predicate SpanAccepted(g: UntilGrammar, s: seq<Byte>, r: Result) {
    r.start <= r.end <= |s| && exists v: seq<CodePoint> :: EncodeAll(v) == s[r.start..r.end] && Allows(g, v)
  }

  /** Whatever `until` returns on valid UTF-8, from any code point boundary, is accepted. */
  ghost predicate CoversUntil(ds: seq<seq<CodePoint>>, g: UntilGrammar) {
    forall cs: seq<CodePoint>, lenient: bool, k: nat {:trigger UntilAt(ds, cs, lenient, k)} ::
      k <= |cs| && UntilAt(ds, cs, lenient, k).kind.Success? ==>
        SpanAccepted(g, EncodeAll(cs), UntilAt(ds, cs, lenient, k))
  }

  /** No delimiter is empty, or else every code point begins one. */
  ghost predicate CanCover(ds: seq<seq<CodePoint>>) {
    [] !in ds || forall c: CodePoint :: IsPath(ds, [c])
  }

  /**
    The grammar accepts every span that `until` can return exactly when no delimiter is empty; or, with an empty one,
    when all code points begin delimiters, so that every span is empty or goes on along them.
   */
  lemma GrammarCoversUntilIff(ds: seq<seq<CodePoint>>, g: UntilGrammar)
    requires IsGrammarFor(Delimiters(ds), g)
    ensures CoversUntil(ds, g) <==> CanCover(ds)
  {
    WordsOfDelimiters(ds);
    if CanCover(ds) {
      forall cs: seq<CodePoint>, lenient: bool, k: nat | k <= |cs|
        ensures SpanAccepted(g, EncodeAll(cs), UntilAt(ds, cs, lenient, k))
      {
        UntilIsStop(ds, cs, lenient, k);
        ValueAccepted(ds, g, cs, k);
        ValueBytes(cs, k, Stop(ds, cs, k));
      }
    } else {
      var c: CodePoint :| !IsPath(ds, [c]);
      UncoveredSpan(ds, g, c);
    }
  }

  lemma ValueAccepted(ds: seq<seq<CodePoint>>, g: UntilGrammar, cs: seq<CodePoint>, k: nat)
    requires CanCover(ds) && IsGrammarFor(Delimiters(ds), g) && Words(Delimiters(ds)) == ds && k <= |cs|
    ensures Allows(g, Value(ds, cs, k))
  {
    if g.Excluding? {
      ValueIsFree(ds, cs, k);
      var v: seq<CodePoint> := cs[k..Stop(ds, cs, k)];
      assert Leads(ds, v);
      AcceptsFree(ds, g.pattern, v);
    }
  }

  lemma ValueBytes(cs: seq<CodePoint>, k: nat, m: nat)
    requires k <= m <= |cs|
    ensures Cut(cs, k) <= Cut(cs, m) <= |EncodeAll(cs)| && EncodeAll(cs)[Cut(cs, k)..Cut(cs, m)] == EncodeAll(cs[k..m])
  {
    CutSplits(cs, m);
    CutSplits(cs[..m], k);
    assert cs[..m][..k] == cs[..k] && cs[..m][k..] == cs[k..m];
    SliceOf(EncodeAll(cs[..k]), EncodeAll(cs[k..m]), EncodeAll(cs[m..]), EncodeAll(cs));
  }

  lemma SliceOf(a: seq<Byte>, b: seq<Byte>, c: seq<Byte>, s: seq<Byte>)
    requires s == a + b + c
    ensures s[|a|..|a + b|] == b
  {
  }

  /** A code point that begins no delimiter is a span of its own. */
  lemma AloneIsValue(ds: seq<seq<CodePoint>>, c: CodePoint)
    requires !IsPath(ds, [c])
    ensures UntilAt(ds, [c], false, 0) == Span(Success, 0, |EncodeAll([c])|)
  {
    var cs := [c];
    assert cs[0..] == cs && cs[..0] == [] && cs[..1] == cs;
    forall i | 0 <= i < |ds|
      ensures !StopsFor(ds[i], cs)
    {
      assert !(cs <= ds[i]);
    }
    assert !StopsAt(ds, cs[0..]) && Stop(ds, cs, 1) == 1 && Stop(ds, cs, 0) == 1;
    UntilIsStop(ds, cs, false, 0);
  }

  lemma UncoveredSpan(ds: seq<seq<CodePoint>>, g: UntilGrammar, c: CodePoint)
    requires g.Excluding? && IsPatternOf(ds, g.pattern) && [] in ds && !IsPath(ds, [c])
    ensures !CoversUntil(ds, g)
  {
    var s := EncodeAll([c]);
    AloneIsValue(ds, c);
    NothingAccepted(ds, g.pattern, c);
    forall v: seq<CodePoint> | EncodeAll(v) == s[0..|s|]
      ensures !Allows(g, v)
    {
      assert s[0..|s|] == s;
      PrefixCode(v, [c]);
      PrefixCode([c], v);
      assert v == [c];
    }
    assert !SpanAccepted(g, s, UntilAt(ds, [c], false, 0));
  }

  /** With an empty delimiter alone, `until` returns "a" and the grammar accepts nothing but the empty text. */
  lemma EmptyDelimiterUncovered(g: UntilGrammar)
    requires IsGrammarFor(Delimiters([[]]), g)
    ensures UntilAt([[]], [0x61], false, 0) == Span(Success, 0, 1) && !Allows(g, [0x61])
    ensures !CoversUntil([[]], g)
  {
    var ds: seq<seq<CodePoint>>, c: CodePoint := [[]], 0x61;
    WordsOfDelimiters(ds);
    EncodeOne(c);
    assert ds[0] == [] && [] in ds && !IsPath(ds, [c]);
    AloneIsValue(ds, c);
    NothingAccepted(ds, g.pattern, c);
    UncoveredSpan(ds, g, c);
  }

  /** Without a root alternative, a value can only begin with the beginning of a word. */
  lemma NothingAccepted(ws: seq<Word>, g: Pattern, c: nat)
    requires IsPatternOf(ws, g) && [] in ws && !IsPath(ws, [c])
    ensures !Accepts(g, [c])
  {
    forall p | p in g.alternatives
      ensures p.prefix != [] && p.prefix[0] != c
    {
      assert IsPiece(ws, p);
      assert p.prefix != [];
      PathPrefix(ws, p.prefix[..1], p.prefix);
      assert p.prefix[..1] == [p.prefix[0]];
    }
    assert !InRepetition(g.alternatives, [c]) && [c] !in g.tails;
    forall k | 0 <= k <= 1
      ensures !(InRepetition(g.alternatives, [c][..k]) && (k == 1 || [c][k..] in g.tails))
    {
      assert [c][..1] == [c] && [c][0..] == [c];
    }
  }
}

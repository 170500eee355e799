/** The delimiter trie of common/peg_parser.cpp, built and searched in place. */
module PegTrie {
  import opened Hiding
  import opened Wrappers
  import opened Utf8
  import opened Peg
  import opened PegUntil

  datatype Node = Node(children: map<nat, nat>, isWord: bool)

  /** Every node but the root hangs under the node that spells one character less. */
  ghost predicate IsTree(nodes: seq<Node>, labels: seq<Word>) {
    && |labels| == |nodes| > 0 && labels[0] == []
    && (forall i, j :: 0 <= i < j < |labels| ==> labels[i] != labels[j])
    && (forall n, c :: 0 <= n < |nodes| && c in nodes[n].children ==> n < nodes[n].children[c] < |nodes|)
    && (forall n, c :: 0 <= n < |nodes| && c in nodes[n].children ==> labels[nodes[n].children[c]] == labels[n] + [c])
    && (forall n, c :: 0 <= n < |nodes| && labels[n] + [c] in labels ==> c in nodes[n].children)
    && (forall u: Word, c: nat :: u + [c] in labels ==> u in labels)
  }

  /** The nodes spell the beginnings of the words and of u. */
  ghost predicate Spells(labels: seq<Word>, ws: seq<Word>, u: Word) {
    forall x :: x in labels <==> IsPath(ws, x) || x <= u
  }

  ghost predicate Marks(nodes: seq<Node>, labels: seq<Word>, ws: seq<Word>)
    requires |labels| == |nodes|
  {
    forall n :: 0 <= n < |nodes| ==> (nodes[n].isWord <==> labels[n] in ws)
  }

  lemma PathOfMore(ws: seq<Word>, w: Word)
    ensures forall x :: IsPath(ws + [w], x) <==> IsPath(ws, x) || x <= w
  {
    forall x
      ensures IsPath(ws + [w], x) <==> IsPath(ws, x) || x <= w
    {
      if IsPath(ws, x) {
        var i :| 0 <= i < |ws| && x <= ws[i];
        assert (ws + [w])[i] == ws[i];
      }
      if x <= w {
        assert (ws + [w])[|ws|] == w;
      }
    }
  }

  /** A new leaf under an existing node. */
  lemma Grown(nodes: seq<Node>, labels: seq<Word>, n: nat, c: nat)
    requires IsTree(nodes, labels) && n < |nodes| && c !in nodes[n].children
    ensures var nodes' := nodes[n := nodes[n].(children := nodes[n].children[c := |nodes|])] + [Node(map[], false)];
            var labels' := labels + [labels[n] + [c]];
            labels[n] + [c] !in labels && IsTree(nodes', labels')
  {
    var u := labels[n] + [c];
    var nodes' := nodes[n := nodes[n].(children := nodes[n].children[c := |nodes|])] + [Node(map[], false)];
    var labels' := labels + [u];
    forall m, d | 0 <= m < |nodes'| && labels'[m] + [d] in labels'
      ensures d in nodes'[m].children
    {
      var k :| 0 <= k < |labels'| && labels'[k] == labels'[m] + [d];
      GrownChild(nodes, labels, n, c, m, d, k);
    }
    forall v: Word, d: nat | v + [d] in labels'
      ensures v in labels'
    {
      if v + [d] !in labels {
        assert (v + [d])[..|v|] == u[..|labels[n]|];
      }
    }
  }

  /** Nothing can hang under the new leaf, and only the new leaf is new under the others. */
  lemma GrownChild(nodes: seq<Node>, labels: seq<Word>, n: nat, c: nat, m: nat, d: nat, k: nat)
    requires IsTree(nodes, labels) && n < |nodes| && c !in nodes[n].children
    requires m <= |labels| && k <= |labels|
    requires var labels' := labels + [labels[n] + [c]]; labels'[k] == labels'[m] + [d]
    ensures m < |nodes| && (d in nodes[m].children || (m == n && d == c))
  {
    var u := labels[n] + [c];
    if m < |nodes| {
      if k < |nodes| {
        assert labels[m] + [d] == labels[k];
      } else {
        assert (labels[m] + [d])[..|labels[m]|] == u[..|labels[n]|];
        assert labels[m] == labels[n] && (labels[m] + [d])[|labels[m]|] == u[|labels[n]|];
      }
    } else if k < |nodes| {
      assert false;
    }
  }

  /** The trie while a word is being inserted of which u has been read; current is the node of u. */
  ghost predicate IsInserting(nodes: seq<Node>, labels: seq<Word>, ws: seq<Word>, u: Word, current: nat) {
    && IsTree(nodes, labels) && Marks(nodes, labels, ws) && Spells(labels, ws, u)
    && current < |nodes| && labels[current] == u
  }

  ghost predicate Inserting(nodes: seq<Node>, labels: seq<Word>, ws: seq<Word>, u: Word, current: nat) {
    current < |nodes| && forall k {:trigger Open(k)} :: Open(k) ==> IsInserting(nodes, labels, ws, u, current)
  }

  function WithChild(nodes: seq<Node>, n: nat, c: nat): seq<Node>
    requires n < |nodes|
  {
    nodes[n := nodes[n].(children := nodes[n].children[c := |nodes|])] + [Node(map[], false)]
  }

  lemma InsertNew(nodes: seq<Node>, labels: seq<Word>, ws: seq<Word>, u: Word, current: nat, c: nat)
    requires Inserting(nodes, labels, ws, u, current) && c !in nodes[current].children
    ensures Inserting(WithChild(nodes, current, c), labels + [u + [c]], ws, u + [c], |nodes|)
  {
    assert Open(0);
    Grown(nodes, labels, current, c);
    WordIsPath(ws, u + [c]);
    forall x
      ensures x in labels + [u + [c]] <==> IsPath(ws, x) || x <= u + [c]
    {
      PrefixOfMore(x, u, c);
    }
    NewMarks(nodes, labels, ws, current, c);
  }

  lemma NewMarks(nodes: seq<Node>, labels: seq<Word>, ws: seq<Word>, n: nat, c: nat)
    requires n < |nodes| == |labels| && Marks(nodes, labels, ws) && labels[n] + [c] !in ws
    ensures Marks(WithChild(nodes, n, c), labels + [labels[n] + [c]], ws)
  {
  }

  lemma InsertOld(nodes: seq<Node>, labels: seq<Word>, ws: seq<Word>, u: Word, current: nat, c: nat)
    requires Inserting(nodes, labels, ws, u, current) && c in nodes[current].children
    ensures Inserting(nodes, labels, ws, u + [c], nodes[current].children[c])
  {
    assert Open(0);
    assert labels[nodes[current].children[c]] in labels;
    forall x
      ensures x in labels <==> IsPath(ws, x) || x <= u + [c]
    {
      PrefixOfMore(x, u, c);
    }
  }

  lemma InsertEnd(nodes: seq<Node>, labels: seq<Word>, ws: seq<Word>, u: Word, current: nat)
    requires Inserting(nodes, labels, ws, u, current)
    ensures Built(nodes[current := nodes[current].(isWord := true)], labels, ws + [u])
  {
    assert Open(0);
    PathOfMore(ws, u);
  }

  /** u is what the bytes before pos spell. */
  ghost predicate Read(s: seq<Byte>, pos: nat, u: Word) {
    pos <= |s| && u <= Scan(s, 0).0 && Scan(s, pos).0 == Scan(s, 0).0[|u|..]
  }

  lemma ReadStep(s: seq<Byte>, pos: nat, u: Word, d: Decoded)
    requires Read(s, pos, u) && d == Decode(s, pos) && d.Char?
    ensures Read(s, pos + d.bytes, u + [d.cp])
  {
  }

  lemma ReadEnd(s: seq<Byte>, pos: nat, u: Word)
    requires Read(s, pos, u) && !Decode(s, pos).Char?
    ensures u == Scan(s, 0).0
  {
  }

  lemma InsertStart(nodes: seq<Node>, labels: seq<Word>, ws: seq<Word>)
    requires Built(nodes, labels, ws)
    ensures Inserting(nodes, labels, ws, [], 0)
  {
    assert Open(0);
  }

  lemma WordIsPath(ws: seq<Word>, u: Word)
    ensures u in ws ==> IsPath(ws, u)
  {
    if u in ws {
      var i :| 0 <= i < |ws| && ws[i] == u;
      assert u <= ws[i];
    }
  }

  lemma PrefixOfMore(x: Word, u: Word, c: nat)
    ensures x <= u + [c] <==> x <= u || x == u + [c]
  {
    if x <= u + [c] && |x| <= |u| {
      assert x <= u;
    }
  }

  /** The trie that holds the words ws. */
  ghost predicate Built(nodes: seq<Node>, labels: seq<Word>, ws: seq<Word>) {
    |labels| == |nodes| > 0 && labels[0] == [] && forall k {:trigger Open(k)} :: Open(k) ==> IsBuilt(nodes, labels, ws)
  }

  ghost predicate IsBuilt(nodes: seq<Node>, labels: seq<Word>, ws: seq<Word>) {
    && IsTree(nodes, labels) && Marks(nodes, labels, ws)
    && forall x :: x in labels <==> x == [] || IsPath(ws, x)
  }

  /** A step of the search: an edge is a longer path, and it leads to the node of that path. */
  lemma Edge(nodes: seq<Node>, labels: seq<Word>, ws: seq<Word>, n: nat, c: nat)
    requires Built(nodes, labels, ws) && n < |nodes|
    ensures c in nodes[n].children <==> IsPath(ws, labels[n] + [c])
    ensures c in nodes[n].children ==>
              var m := nodes[n].children[c];
              n < m < |nodes| && labels[m] == labels[n] + [c] && (nodes[m].isWord <==> labels[n] + [c] in ws)
  {
    assert Open(0);
    if c in nodes[n].children {
      assert labels[nodes[n].children[c]] in labels;
    }
  }

  class Trie {
    var nodes: seq<Node>
    ghost var labels: seq<Word>
    ghost var words: seq<Word>

    ghost predicate Valid()
      reads this
    {
      Built(nodes, labels, words)
    }

    constructor (delimiters: seq<seq<Byte>>)
      ensures Valid() && words == Words(delimiters)
    {
      nodes := [Node(map[], false)];
      labels := [[]];
      words := [];
      new;
      var i := 0;
      while i < |delimiters|
        invariant 0 <= i <= |delimiters|
        invariant Valid() && words == Words(delimiters)[..i]
      {
        Insert(delimiters[i]);
        assert Words(delimiters)[..i + 1] == Words(delimiters)[..i] + [Scan(delimiters[i], 0).0];
        i := i + 1;
      }
      assert Words(delimiters)[..i] == Words(delimiters);
    }

    method Insert(word: seq<Byte>)
      requires Valid()
      modifies this
      ensures Valid() && words == old(words) + [Scan(word, 0).0]
    {
      var current: nat, pos: nat := 0, 0;
      ghost var u: Word := [];
      InsertStart(nodes, labels, words);
      while pos < |word|
        invariant words == old(words) && Read(word, pos, u)
        invariant Inserting(nodes, labels, words, u, current)
        decreases |word| - pos
      {
        var d := Decode(word, pos);
        if !d.Char? {
          break;
        }
        current := Descend(current, d.cp, u);
        ReadStep(word, pos, u, d);
        u, pos := u + [d.cp], pos + d.bytes;
      }
      ReadEnd(word, pos, u);
      InsertEnd(nodes, labels, words, u, current);
      nodes := nodes[current := nodes[current].(isWord := true)];
      words := words + [u];
    }

    /** The step of `insert`: to the child for c, which is created if it does not exist. */
    method Descend(current: nat, c: nat, ghost u: Word) returns (child: nat)
      requires Inserting(nodes, labels, words, u, current)
      modifies `nodes, `labels
      ensures Inserting(nodes, labels, words, u + [c], child)
    {
      if c !in nodes[current].children {
        InsertNew(nodes, labels, words, u, current, c);
        child := |nodes|;
        nodes := WithChild(nodes, current, c);
        labels := labels + [u + [c]];
      } else {
        InsertOld(nodes, labels, words, u, current, c);
        child := nodes[current].children[c];
      }
    }

    method CheckAt(s: seq<Byte>, start: nat) returns (m: Match)
      requires Valid()
      ensures m == CheckFrom(words, s, start, [])
    {
      var current: nat, pos: nat := 0, start;
      ghost var u: Word := [];
      while pos < |s|
        invariant current < |nodes| && labels[current] == u && (current == 0 <==> u == [])
        invariant CheckFrom(words, s, start, []) == CheckFrom(words, s, pos, u)
        decreases |s| - pos
      {
        var d := Decode(s, pos);
        if !d.Char? {
          break;
        }
        Edge(nodes, labels, words, current, d.cp);
        if d.cp !in nodes[current].children {
          return NoMatch;
        }
        current := nodes[current].children[d.cp];
        pos := pos + d.bytes;
        u := u + [d.cp];
        if nodes[current].isWord {
          return Complete;
        }
      }
      if current != 0 {
        return Partial;
      }
      return NoMatch;
    }

    /** `collect_prefix_and_next` from a node; the order of the children does not matter here. */
    method Collect(index: nat, prefix: Word) returns (out: seq<Piece>)
      requires Valid() && index < |nodes| && labels[index] == prefix
      ensures forall p :: p in out <==> IsPiece(words, p) && prefix <= p.prefix
      decreases |nodes| - index
    {
      var next := nodes[index].children.Keys;
      out := if !nodes[index].isWord && next != {} then [Piece(prefix, next)] else [];
      NodePiece(nodes, labels, words, index, out);
      var todo := next;
      while todo != {}
        invariant todo <= next
        invariant forall p :: p in out <==> IsPiece(words, p) && Covered(prefix, next - todo, p.prefix)
      {
        var c :| c in todo;
        Edge(nodes, labels, words, index, c);
        var more := Collect(nodes[index].children[c], prefix + [c]);
        ghost var done := next - todo;
        todo := todo - {c};
        assert next - todo == done + {c};
        CoverOne(prefix, done, c);
        out := out + more;
      }
      forall p | IsPiece(words, p) && prefix <= p.prefix
        ensures Covered(prefix, next, p.prefix)
      {
        PathCovered(nodes, labels, words, index, p.prefix);
      }
      assert next - todo == next;
      CoveredPrefix(prefix, next);
    }
  }

  /** x is u or goes on from u with a character of cs. */
  ghost predicate Covered(u: Word, cs: set<nat>, x: Word) {
    u <= x && (|x| > |u| ==> x[|u|] in cs)
  }

  lemma CoverOne(u: Word, done: set<nat>, c: nat)
    ensures forall x :: Covered(u, done + {c}, x) <==> Covered(u, done, x) || u + [c] <= x
  {
    forall x
      ensures Covered(u, done + {c}, x) <==> Covered(u, done, x) || u + [c] <= x
    {
      if u <= x && |x| > |u| && x[|u|] == c {
        assert u + [c] <= x;
      }
      if u + [c] <= x {
        assert x[|u|] == (u + [c])[|u|] && u <= x;
      }
    }
  }

  lemma CoveredPrefix(u: Word, cs: set<nat>)
    ensures forall x :: Covered(u, cs, x) ==> u <= x
  {
  }

  lemma PathCovered(nodes: seq<Node>, labels: seq<Word>, ws: seq<Word>, n: nat, x: Word)
    requires Built(nodes, labels, ws) && n < |nodes| && IsPath(ws, x) && labels[n] <= x
    ensures Covered(labels[n], nodes[n].children.Keys, x)
  {
    if |x| > |labels[n]| {
      var c := x[|labels[n]|];
      assert labels[n] + [c] <= x;
      PathPrefix(ws, labels[n] + [c], x);
      Edge(nodes, labels, ws, n, c);
    }
  }

  /** What the node itself contributes. */
  lemma NodePiece(nodes: seq<Node>, labels: seq<Word>, ws: seq<Word>, n: nat, out: seq<Piece>)
    requires Built(nodes, labels, ws) && n < |nodes|
    requires var next := nodes[n].children.Keys;
             out == if !nodes[n].isWord && next != {} then [Piece(labels[n], next)] else []
    ensures forall p :: p in out <==> IsPiece(ws, p) && Covered(labels[n], {}, p.prefix)
  {
    forall c
      ensures c in nodes[n].children.Keys <==> IsPath(ws, labels[n] + [c])
    {
      Edge(nodes, labels, ws, n, c);
    }
    WordMark(nodes, labels, ws, n);
    OnePiece(ws, labels[n], nodes[n].children.Keys, out);
  }

  lemma WordMark(nodes: seq<Node>, labels: seq<Word>, ws: seq<Word>, n: nat)
    requires Built(nodes, labels, ws) && n < |nodes|
    ensures nodes[n].isWord <==> labels[n] in ws
  {
    assert Open(0);
  }

  lemma OnePiece(ws: seq<Word>, u: Word, next: set<nat>, out: seq<Piece>)
    requires forall c :: c in next <==> IsPath(ws, u + [c])
    requires out == if u !in ws && next != {} then [Piece(u, next)] else []
    ensures forall p :: p in out <==> IsPiece(ws, p) && Covered(u, {}, p.prefix)
  {
    if c :| c in next {
      PathPrefix(ws, u, u + [c]);
    }
    forall p
      ensures p in out <==> IsPiece(ws, p) && Covered(u, {}, p.prefix)
    {
      if IsPiece(ws, p) && Covered(u, {}, p.prefix) {
        assert p.prefix == u;
        assert forall c :: c in p.next <==> c in next;
        assert p.next == next;
      }
    }
  }

  ghost predicate HasPrefix(pieces: seq<Piece>, u: Word) { exists p :: p in pieces && p.prefix == u }

  /** The prefixes of the pieces, except the empty one. */
  ghost predicate AreTails(pieces: seq<Piece>, tails: seq<Word>) {
    forall u :: u in tails <==> u != [] && HasPrefix(pieces, u)
  }

  lemma OneMoreTail(pieces: seq<Piece>, tails: seq<Word>, p: Piece)
    requires AreTails(pieces, tails)
    ensures AreTails(pieces + [p], if p.prefix != [] then tails + [p.prefix] else tails)
  {
    forall u
      ensures HasPrefix(pieces + [p], u) <==> HasPrefix(pieces, u) || u == p.prefix
    {
      if q :| q in pieces && q.prefix == u {
        assert q in pieces + [p];
      }
      assert p in pieces + [p];
    }
  }

  /** `gbnf_excluding_pattern`, as the pattern it prints. */
  method ExcludingPattern(delimiters: seq<seq<Byte>>) returns (g: Pattern)
    ensures IsPatternOf(Words(delimiters), g)
  {
    var matcher := new Trie(delimiters);
    assert matcher.labels[0] == [];
    var pieces := matcher.Collect(0, []);
    var trailing: seq<Word> := [];
    var i := 0;
    while i < |pieces|
      invariant 0 <= i <= |pieces|
      invariant AreTails(pieces[..i], trailing)
    {
      OneMoreTail(pieces[..i], trailing, pieces[i]);
      assert pieces[..i + 1] == pieces[..i] + [pieces[i]];
      if pieces[i].prefix != [] {
        trailing := trailing + [pieces[i].prefix];
      }
      i := i + 1;
    }
    assert pieces[..i] == pieces;
    g := Pattern(pieces, trailing);
  }

  /** What `to_gbnf` prints for `until`. */
  method UntilToGbnf(delimiters: seq<seq<Byte>>) returns (g: UntilGrammar)
    ensures IsGrammarFor(delimiters, g)
  {
    if |delimiters| == 0 {
      return AnyText;
    }
    var pattern := ExcludingPattern(delimiters);
    g := Excluding(pattern);
  }
}

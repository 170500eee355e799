/**
  The meaning of the streaming PEG parsers of common/peg_parser.h and common/peg_parser.cpp.

  A grammar is an arena of parsers that name each other by index. `Run` gives the result of
  `common_peg_arena::parse` and the syntax-tree arena it leaves behind. The C++ call stack is modelled by
  `depth`, the number of nested calls available: left recursion runs out of it, and so does any grammar on a
  stack that is too small, so every theorem is about runs of any depth that return.
 */
module Peg {
  import opened Utf8
  import opened Wrappers

  type ParserId = nat
  type AstId = nat

  datatype Range = Range(first: nat, last: nat) {
    predicate Contains(cp: nat) { first <= cp <= last }
  }

  datatype Parser =
    | Epsilon
    | Start
    | End
    | Literal(literal: seq<Byte>)
    | Sequence(children: seq<ParserId>)
    | Choice(children: seq<ParserId>)
    | Repetition(child: ParserId, minCount: int, maxCount: int)
    | And(child: ParserId)
    | Not(child: ParserId)
    | AnyChar
    | Space
    | Chars(ranges: seq<Range>, negated: bool, minCount: int, maxCount: int)
    | String(delimiter: Byte)
    | Until(delimiters: seq<seq<Byte>>)
    | Schema(child: ParserId)
    | Rule(name: string, child: ParserId)
    | Ref(name: string)
    | Atomic(child: ParserId)
    | Tag(tag: string, child: ParserId)
    | Gbnf(child: ParserId)

  datatype Arena = Arena(parsers: seq<Parser>, rules: map<string, ParserId>, root: Option<ParserId>)

  datatype AstNode = AstNode(rule: string, tag: string, start: nat, end: nat, text: seq<Byte>, children: seq<AstId>,
      partial: bool)

  type Ast = seq<AstNode>

  datatype Kind = Fail | Success | NeedMore

  datatype Result = Result(kind: Kind, start: nat, end: nat, nodes: seq<AstId>)

  /** How a parse can end without a result: the call stack overflows, or the source throws. */
  datatype Reason = StackOverflow | NoSuchParser | NoSuchRule | NoRoot

  datatype Outcome = Abort(why: Reason) | Done(res: Result, ast: Ast)

  /** The input and the mode of a parse context. */
  datatype Text = Text(input: seq<Byte>, lenient: bool)

  datatype Env = Env(g: Arena, text: Text)

  function At(kind: Kind, pos: nat): Result { Result(kind, pos, pos, []) }

  function Span(kind: Kind, start: nat, end: nat): Result { Result(kind, start, end, []) }

  /** What a parser answers when the input stops short of it. */
  function Starved(t: Text, start: nat, pos: nat): Result {
    if t.lenient then Span(NeedMore, start, pos) else At(Fail, start)
  }

  /** A position a parser started at `start` can have reached. */
  predicate Reached(t: Text, start: nat, pos: nat) { start <= pos && (pos <= |t.input| || pos == start) }

  /** The place of every result: it starts where the parser was called and does not leave the input. */
  predicate Spans(t: Text, start: nat, r: Result) {
    !r.kind.Fail? ==> r.start == start && Reached(t, start, r.end)
  }

  /** A parser without children puts no nodes into the tree. */
  predicate LeafSpan(t: Text, start: nat, r: Result) { Spans(t, start, r) && r.nodes == [] }

  // ---- parsers without children ----

  function LiteralFrom(t: Text, lit: seq<Byte>, start: nat, pos: nat, i: nat): (r: Result)
    requires Reached(t, start, pos) && i <= |lit|
    ensures LeafSpan(t, start, r)
    decreases |lit| - i
  {
    if i == |lit| then Span(Success, start, pos)
    else if pos >= |t.input| then Starved(t, start, pos)
    else if t.input[pos] != lit[i] then At(Fail, start)
    else LiteralFrom(t, lit, start, pos + 1, i + 1)
  }

  function AnyAt(t: Text, pos: nat): (r: Result)
    ensures LeafSpan(t, pos, r)
  {
    match Decode(t.input, pos)
    case Incomplete => Starved(t, pos, pos)
    case Invalid => At(Fail, pos)
    case Char(_, n) => Span(Success, pos, pos + n)
  }

  /** `std::isspace` in the C locale. */
  predicate IsSpace(b: Byte) { b == 0x20 || 0x09 <= b <= 0x0D }

  function SpaceFrom(t: Text, start: nat, pos: nat): (r: Result)
    requires Reached(t, start, pos)
    ensures LeafSpan(t, start, r)
    decreases |t.input| - pos
  {
    if pos < |t.input| && IsSpace(t.input[pos]) then SpaceFrom(t, start, pos + 1) else Span(Success, start, pos)
  }

  predicate InClass(ranges: seq<Range>, negated: bool, cp: nat) {
    (exists i :: 0 <= i < |ranges| && ranges[i].Contains(cp)) != negated
  }

  predicate Bounded(count: nat, maxCount: int) { maxCount == -1 || count < maxCount }

  function CharsFrom(t: Text, p: Parser, start: nat, pos: nat, count: nat): (r: Result)
    requires p.Chars? && Reached(t, start, pos)
    ensures LeafSpan(t, start, r)
    decreases |t.input| - pos
  {
    if !Bounded(count, p.maxCount) then CharsDone(t, p, start, pos, count)
    else
      match Decode(t.input, pos)
      case Incomplete => if count >= p.minCount then Span(Success, start, pos) else Starved(t, start, pos)
      case Invalid => if count >= p.minCount then Span(Success, start, pos) else At(Fail, start)
      case Char(cp, n) =>
        if InClass(p.ranges, p.negated, cp) then CharsFrom(t, p, start, pos + n, count + 1)
        else CharsDone(t, p, start, pos, count)
  }

  function CharsDone(t: Text, p: Parser, start: nat, pos: nat, count: nat): (r: Result)
    requires p.Chars? && Reached(t, start, pos)
    ensures LeafSpan(t, start, r)
  {
    if count >= p.minCount then Span(Success, start, pos)
    else if pos >= |t.input| && t.lenient then Span(NeedMore, start, pos)
    else Span(Fail, start, pos)
  }

  predicate IsHexDigit(b: Byte) {
    '0' as int <= b <= '9' as int || 'a' as int <= b <= 'f' as int || 'A' as int <= b <= 'F' as int
  }

  const BACKSLASH: Byte := '\\' as int

  predicate IsSimpleEscape(b: Byte, delimiter: Byte) {
    b == delimiter || b == BACKSLASH || b in {'/' as int, 'b' as int, 'f' as int, 'n' as int, 'r' as int, 't' as int}
  }

  /** The escape sequence whose backslash is at `pos`; a success ends behind it. */
  function EscapeAt(t: Text, delimiter: Byte, start: nat, pos: nat): (r: Result)
    requires Reached(t, start, pos) && pos < |t.input|
    ensures LeafSpan(t, start, r)
    ensures r.kind.Success? ==> r.end > pos
  {
    if pos + 1 >= |t.input| then Starved(t, start, pos + 1)
    else if IsSimpleEscape(t.input[pos + 1], delimiter) then Span(Success, start, pos + 2)
    else if t.input[pos + 1] == 'u' as int then HexFrom(t, start, pos + 2, 4)
    else At(Fail, start)
  }

  function HexFrom(t: Text, start: nat, pos: nat, left: nat): (r: Result)
    requires Reached(t, start, pos)
    ensures LeafSpan(t, start, r)
    ensures r.kind.Success? ==> r.end == pos + left
    decreases left
  {
    if left == 0 then Span(Success, start, pos)
    else if pos >= |t.input| then Starved(t, start, pos)
    else if !IsHexDigit(t.input[pos]) then At(Fail, start)
    else HexFrom(t, start, pos + 1, left - 1)
  }

  function StringFrom(t: Text, delimiter: Byte, start: nat, pos: nat): (r: Result)
    requires Reached(t, start, pos)
    ensures LeafSpan(t, start, r)
    decreases |t.input| - pos
  {
    if pos >= |t.input| then Span(if t.lenient then NeedMore else Fail, start, pos)
    else if t.input[pos] == delimiter then Span(Success, start, pos)
    else if t.input[pos] == BACKSLASH then
      var r := EscapeAt(t, delimiter, start, pos);
      if r.kind.Success? then StringFrom(t, delimiter, start, r.end) else r
    else
      match Decode(t.input, pos)
      case Incomplete => Starved(t, start, pos)
      case Invalid => At(Fail, start)
      case Char(_, n) => StringFrom(t, delimiter, start, pos + n)
  }

  // ---- scanning until a delimiter ----

  type Word = seq<nat>

  /** The words of the delimiter trie: what `insert` can decode of each delimiter. */
  function Words(delimiters: seq<seq<Byte>>): (ws: seq<Word>)
    ensures |ws| == |delimiters|
  {
    seq(|delimiters|, i requires 0 <= i < |delimiters| => Scan(delimiters[i], 0).0)
  }

  /** u spells a path of the trie that holds the words ws. */
  predicate IsPath(ws: seq<Word>, u: Word) { exists i :: 0 <= i < |ws| && u <= ws[i] }

  datatype Match = NoMatch | Partial | Complete

  /** `trie::check_at`, once the code points u have led from the root to an inner node. */
  function CheckFrom(ws: seq<Word>, s: seq<Byte>, pos: nat, u: Word): Match
    decreases |s| - pos
  {
    match Decode(s, pos)
    case Char(cp, n) =>
      if !IsPath(ws, u + [cp]) then NoMatch
      else if u + [cp] in ws then Complete
      else CheckFrom(ws, s, pos + n, u + [cp])
    case _ => if u != [] then Partial else NoMatch
  }

  function UntilFrom(t: Text, ws: seq<Word>, start: nat, pos: nat): (r: Result)
    requires Reached(t, start, pos)
    ensures LeafSpan(t, start, r)
    decreases |t.input| - pos
  {
    if pos >= |t.input| then
      if pos == |t.input| && t.lenient then Span(NeedMore, start, pos) else Span(Success, start, pos)
    else
      match Decode(t.input, pos)
      case Incomplete => Starved(t, start, pos)
      case Invalid => At(Fail, start)
      case Char(_, n) =>
        if CheckFrom(ws, t.input, pos, []) != NoMatch then Span(Success, start, pos)
        else UntilFrom(t, ws, start, pos + n)
  }

  predicate IsLeaf(p: Parser) {
    p.Epsilon? || p.Start? || p.End? || p.Literal? || p.AnyChar? || p.Space? || p.Chars? || p.String? || p.Until?
  }

  /** Parsers that run one child, once, and turn its outcome into theirs. */
  predicate IsWrapper(p: Parser) {
    p.And? || p.Not? || p.Schema? || p.Rule? || p.Atomic? || p.Tag? || p.Gbnf?
  }

  function RunLeaf(t: Text, p: Parser, pos: nat): (r: Result)
    requires IsLeaf(p)
    ensures LeafSpan(t, pos, r)
  {
    match p
    case Epsilon => At(Success, pos)
    case Start => At(if pos == 0 then Success else Fail, pos)
    case End => At(if pos >= |t.input| then Success else Fail, pos)
    case Literal(lit) => LiteralFrom(t, lit, pos, pos, 0)
    case AnyChar => AnyAt(t, pos)
    case Space => SpaceFrom(t, pos, pos)
    case Chars(_, _, _, _) => CharsFrom(t, p, pos, pos, 0)
    case String(delimiter) => StringFrom(t, delimiter, pos, pos)
    case Until(ds) => UntilFrom(t, Words(ds), pos, pos)
  }

  // ---- parsers with children ----

  ghost predicate Sound(t: Text, start: nat, o: Outcome) {
    o.Done? ==> Spans(t, start, o.res)
  }

  function Run(e: Env, depth: nat, id: ParserId, pos: nat, ast: Ast): (o: Outcome)
    ensures Sound(e.text, pos, o)
    decreases depth, 0, 0
  {
    if depth == 0 then Abort(StackOverflow)
    else if id >= |e.g.parsers| then Abort(NoSuchParser)
    else
      var p := e.g.parsers[id];
      if IsLeaf(p) then Done(RunLeaf(e.text, p, pos), ast)
      else if IsWrapper(p) then Wrap(e.text, p, Run(e, depth - 1, p.child, pos, ast), pos)
      else
        match p
        case Sequence(cs) => RunSequence(e, depth - 1, cs, pos, pos, [], ast)
        case Choice(cs) => RunChoice(e, depth - 1, cs, pos, ast)
        case Repetition(_, _, _) => RunRepetition(e, depth - 1, p, 0, pos, pos, [], ast)
        case Ref(name) =>
          if name in e.g.rules then Run(e, depth - 1, e.g.rules[name], pos, ast) else Abort(NoSuchRule)
  }

  function RunSequence(e: Env, depth: nat, cs: seq<ParserId>, start: nat, pos: nat, nodes: seq<AstId>,
                       ast: Ast): (o: Outcome)
    requires Reached(e.text, start, pos)
    ensures Sound(e.text, start, o)
    decreases depth, 1, |cs|
  {
    if cs == [] then Done(Result(Success, start, pos, nodes), ast)
    else
      var o := Run(e, depth, cs[0], pos, ast);
      if o.Abort? then o
      else
        match o.res.kind
        case Fail => Done(Span(Fail, start, o.res.end), o.ast)
        case NeedMore => Done(Result(NeedMore, start, o.res.end, nodes + o.res.nodes), o.ast)
        case Success => RunSequence(e, depth, cs[1..], start, o.res.end, nodes + o.res.nodes, o.ast)
  }

  function RunChoice(e: Env, depth: nat, cs: seq<ParserId>, pos: nat, ast: Ast): (o: Outcome)
    ensures Sound(e.text, pos, o)
    decreases depth, 1, |cs|
  {
    if cs == [] then Done(At(Fail, pos), ast)
    else
      var o := Run(e, depth, cs[0], pos, ast);
      if o.Done? && o.res.kind.Fail? then RunChoice(e, depth, cs[1..], pos, o.ast) else o
  }

  function RunRepetition(e: Env, depth: nat, p: Parser, count: nat, start: nat, pos: nat, nodes: seq<AstId>,
                         ast: Ast): (o: Outcome)
    requires p.Repetition? && Reached(e.text, start, pos)
    ensures Sound(e.text, start, o)
    decreases depth, 1, |e.text.input| - pos
  {
    if !Bounded(count, p.maxCount)
        || pos >= |e.text.input| then Done(RepetitionDone(e.text, p, count, start, pos, nodes), ast)
    else
      var o := Run(e, depth, p.child, pos, ast);
      if o.Abort? then o
      else if o.res.kind.Success? && o.res.end != pos then
        RunRepetition(e, depth, p, count + 1, start, o.res.end, nodes + o.res.nodes, o.ast)
      else if o.res.kind.NeedMore? then
        Done(Result(NeedMore, start, o.res.end, nodes + o.res.nodes), o.ast)
      else
        Done(RepetitionDone(e.text, p, count, start, pos, nodes), o.ast)
  }

  function RepetitionDone(t: Text, p: Parser, count: nat, start: nat, pos: nat, nodes: seq<AstId>): (r: Result)
    requires p.Repetition? && Reached(t, start, pos)
    ensures Spans(t, start, r)
  {
    if count >= p.minCount then Result(Success, start, pos, nodes)
    else if pos >= |t.input| && t.lenient then Result(NeedMore, start, pos, nodes)
    else Span(Fail, start, pos)
  }

  function Wrap(t: Text, p: Parser, o: Outcome, pos: nat): (r: Outcome)
    requires IsWrapper(p) && Sound(t, pos, o)
    ensures Sound(t, pos, r)
  {
    match p
    case And(_) => Peek(o, pos, false)
    case Not(_) => Peek(o, pos, true)
    case Schema(_) => o
    case Gbnf(_) => o
    case Rule(name, _) => Label(t, o, pos, name, "")
    case Tag(tag, _) => Label(t, o, pos, "", tag)
    case Atomic(_) => Discard(o)
  }

  /** Lookahead: only the kind of the child's result counts, and `Not` swaps success and failure. */
  function Peek(o: Outcome, pos: nat, negate: bool): Outcome {
    if o.Abort? then o
    else
      match o.res.kind
      case NeedMore => Done(At(NeedMore, pos), o.ast)
      case Success => Done(At(if negate then Fail else Success, pos), o.ast)
      case Fail => Done(At(if negate then Success else Fail, pos), o.ast)
  }

  /** `rule` and `tag` put a new node over the nodes of the child. */
  function Label(t: Text, o: Outcome, pos: nat, rule: string, tag: string): Outcome
    requires Sound(t, pos, o)
  {
    if o.Abort? || o.res.kind.Fail? then o
    else
      var r := o.res;
      var text := if r.start < |t.input| then t.input[r.start..r.end] else [];
      Done(r.(nodes := [|o.ast|]), o.ast + [AstNode(rule, tag, r.start, r.end, text, r.nodes, r.kind.NeedMore?)])
  }

  /** `atomic` drops the nodes of an unfinished child. */
  function Discard(o: Outcome): Outcome {
    if o.Done? && o.res.kind.NeedMore? then Done(o.res.(nodes := []), o.ast) else o
  }

  /** `common_peg_arena::parse` from the root. */
  function Parse(e: Env, depth: nat, pos: nat, ast: Ast): Outcome {
    if e.g.root.None? then Abort(NoRoot) else Run(e, depth, e.g.root.value, pos, ast)
  }
}

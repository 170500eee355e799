/**
  The parse context and its executor, in the form of the source: loops over positions, counts and
  node lists, and a syntax-tree arena that grows in place. Every method is proved against the functions of
  module Peg.
 */
module PegContext {
  import opened Utf8
  import opened Peg
  import opened PegUntil
  import opened PegTrie

  /** What a call of the executor gives back; the tree is in the context. */
  datatype Parsed = Threw(why: Reason) | Got(res: Result)

  function Seen(r: Parsed, ast: Ast): Outcome {
    match r
    case Threw(why) => Abort(why)
    case Got(res) => Done(res, ast)
  }

  class Context {
    const g: Arena
    const text: Text
    var ast: Ast
    var parseDepth: int

    constructor (g: Arena, input: seq<Byte>, lenient: bool)
      ensures this.g == g && text == Text(input, lenient) && ast == [] && parseDepth == 0
    {
      this.g := g;
      text := Text(input, lenient);
      ast := [];
      parseDepth := 0;
    }

    function E(): Env { Env(g, text) }

    method AddNode(rule: string, tag: string, start: nat, end: nat, nodeText: seq<Byte>, children: seq<AstId>,
                   partial: bool)
      returns (id: AstId)
      modifies `ast
      ensures id == |old(ast)| && ast == old(ast) + [AstNode(rule, tag, start, end, nodeText, children, partial)]
    {
      id := |ast|;
      ast := ast + [AstNode(rule, tag, start, end, nodeText, children, partial)];
    }

    // ---- parsers without children ----

    method ParseLiteral(literal: seq<Byte>, start: nat) returns (r: Result)
      ensures r == LiteralFrom(text, literal, start, start, 0)
    {
      var pos, i := start, 0;
      while i < |literal|
        invariant i <= |literal| && 0 <= pos && Reached(text, start, pos)
        invariant LiteralFrom(text, literal, start, start, 0) == LiteralFrom(text, literal, start, pos, i)
      {
        if pos >= |text.input| {
          if !text.lenient {
            return At(Fail, start);
          }
          return Span(NeedMore, start, pos);
        }
        if text.input[pos] != literal[i] {
          return At(Fail, start);
        }
        pos, i := pos + 1, i + 1;
      }
      return Span(Success, start, pos);
    }

    method ParseAny(start: nat) returns (r: Result)
      ensures r == AnyAt(text, start)
    {
      var d := Decode(text.input, start);
      if d.Incomplete? {
        if !text.lenient {
          return At(Fail, start);
        }
        return At(NeedMore, start);
      }
      if d.Invalid? {
        return At(Fail, start);
      }
      return Span(Success, start, start + d.bytes);
    }

    method ParseSpace(start: nat) returns (r: Result)
      ensures r == SpaceFrom(text, start, start)
    {
      var pos := start;
      while pos < |text.input|
        invariant Reached(text, start, pos)
        invariant SpaceFrom(text, start, start) == SpaceFrom(text, start, pos)
      {
        if !IsSpace(text.input[pos]) {
          break;
        }
        pos := pos + 1;
      }
      return Span(Success, start, pos);
    }

    method Matches(ranges: seq<Range>, negated: bool, cp: nat) returns (matches: bool)
      ensures matches == InClass(ranges, negated, cp)
    {
      matches := false;
      var i := 0;
      while i < |ranges|
        invariant i <= |ranges|
        invariant !matches && forall k :: 0 <= k < i ==> !ranges[k].Contains(cp)
      {
        if ranges[i].Contains(cp) {
          matches := true;
          break;
        }
        i := i + 1;
      }
      if negated {
        matches := !matches;
      }
    }

    method ParseChars(p: Parser, start: nat) returns (r: Result)
      requires p.Chars?
      ensures r == CharsFrom(text, p, start, start, 0)
    {
      var pos, count := start, 0;
      while p.maxCount == -1 || count < p.maxCount
        invariant Reached(text, start, pos) && count >= 0
        invariant CharsFrom(text, p, start, start, 0) == CharsFrom(text, p, start, pos, count)
        decreases |text.input| - pos
      {
        var d := Decode(text.input, pos);
        if d.Incomplete? {
          if count >= p.minCount {
            return Span(Success, start, pos);
          }
          if !text.lenient {
            return At(Fail, start);
          }
          return Span(NeedMore, start, pos);
        }
        if d.Invalid? {
          if count >= p.minCount {
            return Span(Success, start, pos);
          }
          return At(Fail, start);
        }
        var matches := Matches(p.ranges, p.negated, d.cp);
        if !matches {
          break;
        }
        pos, count := pos + d.bytes, count + 1;
      }
      if count < p.minCount {
        if pos >= |text.input| && text.lenient {
          return Span(NeedMore, start, pos);
        }
        return Span(Fail, start, pos);
      }
      return Span(Success, start, pos);
    }

    /** `handle_unicode_escape`, behind the `u`. */
    method HandleUnicodeEscape(start: nat, from: nat) returns (r: Result)
      requires Reached(text, start, from)
      ensures r == HexFrom(text, start, from, 4)
    {
      var pos, i := from, 0;
      while i < 4
        invariant i <= 4 && 0 <= pos && Reached(text, start, pos)
        invariant HexFrom(text, start, from, 4) == HexFrom(text, start, pos, 4 - i)
      {
        if pos >= |text.input| {
          if !text.lenient {
            return At(Fail, start);
          }
          return Span(NeedMore, start, pos);
        }
        if !IsHexDigit(text.input[pos]) {
          return At(Fail, start);
        }
        pos, i := pos + 1, i + 1;
      }
      return Span(Success, start, pos);
    }

    /** `handle_escape_sequence`, at the backslash; a success ends where the source leaves `pos`. */
    method HandleEscapeSequence(start: nat, at: nat, delimiter: Byte) returns (r: Result)
      requires Reached(text, start, at) && at < |text.input|
      ensures r == EscapeAt(text, delimiter, start, at)
    {
      var pos := at + 1;
      if pos >= |text.input| {
        if !text.lenient {
          return At(Fail, start);
        }
        return Span(NeedMore, start, pos);
      }
      if IsSimpleEscape(text.input[pos], delimiter) {
        return Span(Success, start, pos + 1);
      } else if text.input[pos] == 'u' as int {
        r := HandleUnicodeEscape(start, pos + 1);
      } else {
        return At(Fail, start);
      }
    }

    method ParseString(delimiter: Byte, start: nat) returns (r: Result)
      ensures r == StringFrom(text, delimiter, start, start)
    {
      var pos := start;
      while pos < |text.input|
        invariant Reached(text, start, pos)
        invariant StringFrom(text, delimiter, start, start) == StringFrom(text, delimiter, start, pos)
        decreases |text.input| - pos
      {
        var c := text.input[pos];
        if c == delimiter {
          return Span(Success, start, pos);
        }
        if c == BACKSLASH {
          r := HandleEscapeSequence(start, pos, delimiter);
          if !r.kind.Success? {
            return;
          }
          pos := r.end;
        } else {
          var d := Decode(text.input, pos);
          if d.Incomplete? {
            if !text.lenient {
              return At(Fail, start);
            }
            return Span(NeedMore, start, pos);
          }
          if d.Invalid? {
            return At(Fail, start);
          }
          pos := pos + d.bytes;
        }
      }
      if !text.lenient {
        return Span(Fail, start, pos);
      }
      return Span(NeedMore, start, pos);
    }

    method ParseUntil(delimiters: seq<seq<Byte>>, start: nat) returns (r: Result)
      ensures r == UntilFrom(text, Words(delimiters), start, start)
    {
      var matcher := new Trie(delimiters);
      var pos := start;
      while pos < |text.input|
        invariant Reached(text, start, pos) && matcher.Valid() && matcher.words == Words(delimiters)
        invariant UntilFrom(text, Words(delimiters), start, start) == UntilFrom(text, Words(delimiters), start, pos)
        decreases |text.input| - pos
      {
        var d := Decode(text.input, pos);
        if d.Incomplete? {
          if !text.lenient {
            return At(Fail, start);
          }
          return Span(NeedMore, start, pos);
        }
        if d.Invalid? {
          return At(Fail, start);
        }
        var m := matcher.CheckAt(text.input, pos);
        if m == Complete || m == Partial {
          return Span(Success, start, pos);
        }
        pos := pos + d.bytes;
      }
      if pos == |text.input| && text.lenient {
        return Span(NeedMore, start, pos);
      }
      return Span(Success, start, pos);
    }

    method ParseLeaf(p: Parser, pos: nat) returns (r: Result)
      requires IsLeaf(p)
      ensures r == RunLeaf(text, p, pos)
    {
      match p
      case Epsilon => r := At(Success, pos);
      case Start => r := At(if pos == 0 then Success else Fail, pos);
      case End => r := At(if pos >= |text.input| then Success else Fail, pos);
      case Literal(literal) => r := ParseLiteral(literal, pos);
      case AnyChar => r := ParseAny(pos);
      case Space => r := ParseSpace(pos);
      case Chars(_, _, _, _) => r := ParseChars(p, pos);
      case String(delimiter) => r := ParseString(delimiter, pos);
      case Until(delimiters) => r := ParseUntil(delimiters, pos);
    }

    // ---- parsers with children ----

    /** `rule` and `tag`, after the child has run. */
    method LabelNode(res: Result, pos: nat, rule: string, tag: string) returns (r: Result)
      requires Spans(text, pos, res)
      modifies `ast
      ensures Done(r, ast) == Label(text, Done(res, old(ast)), pos, rule, tag)
    {
      if res.kind.Fail? {
        return res;
      }
      var nodeText: seq<Byte> := [];
      if res.start < |text.input| {
        nodeText := text.input[res.start..res.end];
      }
      var id := AddNode(rule, tag, res.start, res.end, nodeText, res.nodes, res.kind.NeedMore?);
      return Result(res.kind, res.start, res.end, [id]);
    }

    method ParseWrapper(p: Parser, pos: nat, stack: nat) returns (r: Parsed)
      requires IsWrapper(p)
      modifies this
      ensures Seen(r, ast) == Wrap(text, p, Run(E(), stack, p.child, pos, old(ast)), pos)
      ensures r.Got? ==> parseDepth == old(parseDepth)
      decreases stack, 1
    {
      r := ParseAt(p.child, pos, stack);
      if r.Threw? {
        return;
      }
      var res := r.res;
      match p
      case And(_) =>
        r := Got(At(res.kind, pos));
      case Not(_) =>
        if res.kind.Success? {
          r := Got(At(Fail, pos));
        } else if res.kind.NeedMore? {
          r := Got(At(NeedMore, pos));
        } else {
          r := Got(At(Success, pos));
        }
      case Schema(_) =>
      case Gbnf(_) =>
      case Rule(name, _) =>
        res := LabelNode(res, pos, name, "");
        r := Got(res);
      case Tag(tag, _) =>
        res := LabelNode(res, pos, "", tag);
        r := Got(res);
      case Atomic(_) =>
        if res.kind.NeedMore? {
          r := Got(res.(nodes := []));
        }
    }

    method ParseSequence(children: seq<ParserId>, start: nat, stack: nat) returns (r: Parsed)
      modifies this
      ensures Seen(r, ast) == RunSequence(E(), stack, children, start, start, [], old(ast))
      ensures r.Got? ==> parseDepth == old(parseDepth)
      decreases stack, 1
    {
      parseDepth := parseDepth + 1;
      var pos := start;
      var nodes: seq<AstId> := [];
      var i := 0;
      while i < |children|
        invariant i <= |children| && Reached(text, start, pos) && parseDepth == old(parseDepth) + 1
        invariant RunSequence(E(), stack, children, start, start, [], old(ast))
                  == RunSequence(E(), stack, children[i..], start, pos, nodes, ast)
      {
        r := ParseAt(children[i], pos, stack);
        if r.Threw? {
          return;
        }
        var res := r.res;
        if res.kind.Fail? {
          parseDepth := parseDepth - 1;
          return Got(Span(Fail, start, res.end));
        }
        if res.nodes != [] {
          nodes := nodes + res.nodes;
        } else {
          assert nodes + res.nodes == nodes;
        }
        if res.kind.NeedMore? {
          parseDepth := parseDepth - 1;
          return Got(Result(NeedMore, start, res.end, nodes));
        }
        assert children[i..][1..] == children[i + 1..];
        pos, i := res.end, i + 1;
      }
      parseDepth := parseDepth - 1;
      return Got(Result(Success, start, pos, nodes));
    }

    method ParseChoice(children: seq<ParserId>, start: nat, stack: nat) returns (r: Parsed)
      modifies this
      ensures Seen(r, ast) == RunChoice(E(), stack, children, start, old(ast))
      ensures r.Got? ==> parseDepth == old(parseDepth)
      decreases stack, 1
    {
      parseDepth := parseDepth + 1;
      var i := 0;
      while i < |children|
        invariant i <= |children| && parseDepth == old(parseDepth) + 1
        invariant RunChoice(E(), stack, children, start, old(ast)) == RunChoice(E(), stack, children[i..], start, ast)
      {
        r := ParseAt(children[i], start, stack);
        if r.Threw? {
          return;
        }
        if !r.res.kind.Fail? {
          parseDepth := parseDepth - 1;
          return;
        }
        assert children[i..][1..] == children[i + 1..];
        i := i + 1;
      }
      parseDepth := parseDepth - 1;
      return Got(At(Fail, start));
    }

    method ParseRepetition(p: Parser, start: nat, stack: nat) returns (r: Parsed)
      requires p.Repetition?
      modifies this
      ensures Seen(r, ast) == RunRepetition(E(), stack, p, 0, start, start, [], old(ast))
      ensures r.Got? ==> parseDepth == old(parseDepth)
      decreases stack, 1
    {
      parseDepth := parseDepth + 1;
      var pos, count := start, 0;
      var nodes: seq<AstId> := [];
      ghost var whole := RunRepetition(E(), stack, p, 0, start, start, [], ast);
      while p.maxCount == -1 || count < p.maxCount
        invariant Reached(text, start, pos) && count >= 0 && parseDepth == old(parseDepth) + 1
        invariant whole == RunRepetition(E(), stack, p, count, start, pos, nodes, ast)
        decreases |text.input| - pos
      {
        if pos >= |text.input| {
          break;
        }
        r := ParseAt(p.child, pos, stack);
        if r.Threw? {
          return;
        }
        var res := r.res;
        if res.kind.Success? {
          if res.end == pos {
            break;
          }
          if res.nodes != [] {
            nodes := nodes + res.nodes;
          } else {
            assert nodes + res.nodes == nodes;
          }
          pos, count := res.end, count + 1;
          continue;
        }
        if res.kind.NeedMore? {
          if res.nodes != [] {
            nodes := nodes + res.nodes;
          } else {
            assert nodes + res.nodes == nodes;
          }
          parseDepth := parseDepth - 1;
          return Got(Result(NeedMore, start, res.end, nodes));
        }
        break;
      }
      assert whole == Done(RepetitionDone(text, p, count, start, pos, nodes), ast);
      parseDepth := parseDepth - 1;
      if p.minCount > 0 && count < p.minCount {
        if pos >= |text.input| && text.lenient {
          return Got(Result(NeedMore, start, pos, nodes));
        }
        return Got(Span(Fail, start, pos));
      }
      return Got(Result(Success, start, pos, nodes));
    }

    /** `common_peg_arena::parse` of one parser. */
    method ParseAt(id: ParserId, pos: nat, stack: nat) returns (r: Parsed)
      modifies this
      ensures Seen(r, ast) == Run(E(), stack, id, pos, old(ast))
      ensures r.Got? ==> parseDepth == old(parseDepth)
      decreases stack, 0
    {
      if stack == 0 {
        return Threw(StackOverflow);
      }
      if id >= |g.parsers| {
        return Threw(NoSuchParser);
      }
      var p := g.parsers[id];
      if IsLeaf(p) {
        var res := ParseLeaf(p, pos);
        return Got(res);
      } else if IsWrapper(p) {
        r := ParseWrapper(p, pos, stack - 1);
      } else {
        match p
        case Sequence(children) => r := ParseSequence(children, pos, stack - 1);
        case Choice(children) => r := ParseChoice(children, pos, stack - 1);
        case Repetition(_, _, _) => r := ParseRepetition(p, pos, stack - 1);
        case Ref(name) =>
          if name !in g.rules {
            return Threw(NoSuchRule);
          }
          r := ParseAt(g.rules[name], pos, stack - 1);
      }
    }

    /** `common_peg_arena::parse` from the root. */
    method ParseRoot(start: nat, stack: nat) returns (r: Parsed)
      modifies this
      ensures Seen(r, ast) == Parse(E(), stack, start, old(ast))
      ensures r.Got? ==> parseDepth == old(parseDepth)
    {
      if g.root.None? {
        return Threw(NoRoot);
      }
      r := ParseAt(g.root.value, start, stack);
    }
  }
}

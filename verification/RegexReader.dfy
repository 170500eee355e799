/** `regex_to_reversed_partial_regex` as it runs: one iterator over the pattern, shared by all calls of `process`. */
module RegexReader {
  import opened Wrappers
  import opened RegexPartial
  import opened RegexText

  /** What a call has made of the pattern from a position on. */
  ghost predicate Returns(pattern: string, start: nat, it: nat, r: Result<string>) {
    && start <= |pattern| && it <= |pattern|
    && match Process(pattern[start..], [[]])
       case Ok(p) => r == Ok(p.text) && pattern[it..] == p.rest
       case Err(e) => r == Err(e)
  }

  /** The rest of the loop, from these alternatives on, gives the result of the call. */
  ghost predicate Continues(pattern: string, start: nat, it: nat, alts: Alternatives) {
    start <= |pattern| && it <= |pattern| && alts != []
        && Process(pattern[it..], alts) == Process(pattern[start..], [[]])
  }

  lemma StepContinues(pattern: string, start: nat, it: nat, alts: Alternatives, it': nat, alts': Alternatives)
    requires Continues(pattern, start, it, alts) && it < |pattern| && pattern[it] != '(' && pattern[it] != ')'
    requires it' <= |pattern| && Step(pattern[it..], alts) == Ok(Stepped(pattern[it'..], alts'))
    ensures Continues(pattern, start, it', alts')
  {
    ProcessStep(pattern[it..], alts, Stepped(pattern[it'..], alts'));
  }

  lemma StepFails(pattern: string, start: nat, it: nat, alts: Alternatives, e: Error)
    requires Continues(pattern, start, it, alts) && it < |pattern| && pattern[it] != '(' && pattern[it] != ')'
    requires Step(pattern[it..], alts) == Err(e)
    ensures Process(pattern[start..], [[]]) == Err(e)
  {
  }

  /** Where the inside of the group at it begins. */
  function InnerStart(pattern: string, it: nat): (inner: nat)
    requires it < |pattern|
    ensures it < inner <= |pattern|
  {
    it + if StartsPlain(pattern[it + 1..]) then 3 else 1
  }

  lemma GroupUnfolds(pattern: string, it: nat, alts: Alternatives)
    requires it < |pattern| && pattern[it] == '(' && alts != []
    ensures var sub := Process(pattern[InnerStart(pattern, it)..], [[]]);
            Process(pattern[it..], alts) == if sub.Err? then sub
                                            else if sub.value.rest == [] then Err(UnmatchedGroup)
                                            else Process(sub.value.rest[1..], Push(alts, "(?:" + sub.value.text + ")"))
  {
    var s := pattern[it..];
    assert s[1..] == pattern[it + 1..];
    assert StartsPlain(s[1..]) ==> s[3..] == pattern[InnerStart(pattern, it)..];
  }

  lemma GroupTurn(pattern: string, start: nat, it: nat, alts: Alternatives, r: Result<string>, it': nat)
    requires Continues(pattern, start, it, alts) && it < |pattern| && pattern[it] == '('
    requires Returns(pattern, InnerStart(pattern, it), it', r)
    ensures r.Err? ==> Process(pattern[start..], [[]]) == Err(r.error)
    ensures r.Ok? && it' == |pattern| ==> Process(pattern[start..], [[]]) == Err(UnmatchedGroup)
    ensures r.Ok? && it' < |pattern| ==> Continues(pattern, start, it' + 1, Push(alts, "(?:" + r.value + ")"))
  {
    GroupUnfolds(pattern, it, alts);
    if it' < |pattern| {
      assert pattern[it'..][1..] == pattern[it' + 1..];
    }
  }

  class Reader {
    const pattern: string
    var it: nat

    constructor (pattern: string)
      ensures this.pattern == pattern && it == 0
    {
      this.pattern := pattern;
      it := 0;
    }

    /** The loop over a class: an escape counts as one character. */
    method ReadClass() returns (r: Result<string>)
      requires it < |pattern| && pattern[it] == '['
      modifies `it
      ensures old(it) <= it <= |pattern|
      ensures var s := pattern[old(it)..];
              match ClassEnd(s, 1)
              case Some(e) => r == Ok(s[..e + 1]) && it == old(it) + e + 1
              case None => r == Err(UnmatchedClass)
    {
      var start := it;
      ghost var s := pattern[start..];
      it := it + 1;
      while it < |pattern| && pattern[it] != ']'
        invariant start + 1 <= it <= |pattern|
        invariant ClassEnd(s, 1) == ClassEnd(s, it - start)
        decreases |pattern| - it
      {
        assert s[it - start] == pattern[it];
        if pattern[it] == '\\' {
          if it + 1 == |pattern| {
            return Err(UnmatchedClass);
          }
          it := it + 1;
        }
        it := it + 1;
      }
      if it == |pattern| {
        return Err(UnmatchedClass);
      }
      assert s[it - start] == pattern[it];
      it := it + 1;
      assert pattern[start..it] == s[..it - start];
      r := Ok(pattern[start..it]);
    }

    method ReadQuantifier(alternatives: Alternatives) returns (r: Result<Alternatives>)
      requires it < |pattern| && pattern[it] in "*?+" && alternatives != []
      modifies `it
      ensures old(it) <= it <= |pattern|
      ensures match QuantifierStep(pattern[old(it)..], alternatives)
              case Ok(p) => r == Ok(p.alts) && pattern[it..] == p.rest && it > old(it)
              case Err(e) => r == Err(e)
    {
      ghost var s := pattern[it..];
      var sequence := Back(alternatives);
      if sequence == [] {
        return Err(NothingToQuantify);
      }
      sequence := sequence[|sequence| - 1 := sequence[|sequence| - 1] + [pattern[it]]];
      var isStar := pattern[it] == '*';
      it := it + 1;
      assert s[1..] == pattern[it..];
      if isStar {
        if it < |pattern| && pattern[it] == '?' {
          it := it + 1;
          assert s[2..] == pattern[it..];
        }
      }
      r := Ok(WithBack(alternatives, sequence));
    }

    /** The loops that write the copies of a counted part. */
    method RepeatPart(sequence: seq<string>, min: int, max: Option<int>) returns (parts: seq<string>)
      requires sequence != [] && (max.Some? ==> min <= max.value)
      ensures parts == sequence[..|sequence| - 1] + Repeated(sequence[|sequence| - 1], min, max)
    {
      var part := sequence[|sequence| - 1];
      parts := sequence[..|sequence| - 1];
      var i := 0;
      while i < min
        invariant 0 <= i && (i <= min || i == 0)
        invariant parts == sequence[..|sequence| - 1] + Copies(part, i)
      {
        parts := parts + [part];
        i := i + 1;
        assert Copies(part, i) == Copies(part, i - 1) + [part];
      }
      ghost var before := parts;
      if max.Some? {
        i := min;
        while i < max.value
          invariant min <= i <= max.value
          invariant parts == before + Copies(part + "?", i - min)
        {
          parts := parts + [part + "?"];
          i := i + 1;
          assert Copies(part + "?", i - min) == Copies(part + "?", i - 1 - min) + [part + "?"];
        }
      } else {
        parts := parts + [part + "*"];
      }
    }

    method ReadBraces(alternatives: Alternatives) returns (r: Result<Alternatives>)
      requires it < |pattern| && pattern[it] == '{' && alternatives != []
      modifies `it
      ensures old(it) <= it <= |pattern|
      ensures match BraceStep(pattern[old(it)..], alternatives)
              case Ok(p) => r == Ok(p.alts) && pattern[it..] == p.rest && it > old(it)
              case Err(e) => r == Err(e)
    {
      ghost var s, begin := pattern[it..], it;
      var sequence := Back(alternatives);
      if sequence == [] {
        return Err(NothingToRepeat);
      }
      it := it + 1;
      var start := it;
      while it < |pattern| && pattern[it] != '}'
        invariant start <= it <= |pattern|
        invariant Find(s, '}', 1) == Find(s, '}', it - begin)
      {
        assert s[it - begin] == pattern[it];
        it := it + 1;
      }
      if it == |pattern| {
        return Err(UnmatchedBrace);
      }
      assert s[it - begin] == pattern[it] && pattern[start..it] == s[1..it - begin];
      var range := Range(pattern[start..it]);
      it := it + 1;
      assert pattern[it..] == s[it - begin..];
      if range.Err? {
        return Err(range.error);
      }
      sequence := RepeatPart(sequence, range.value.0, range.value.1);
      r := Ok(WithBack(alternatives, sequence));
    }

    method ReadSingle(alternatives: Alternatives) returns (r: Result<Alternatives>)
      requires it < |pattern| && alternatives != []
      modifies `it
      ensures old(it) <= it <= |pattern|
      ensures match SingleStep(pattern[old(it)..], alternatives)
              case Ok(p) => r == Ok(p.alts) && pattern[it..] == p.rest && it > old(it)
              case Err(e) => r == Err(e)
    {
      ghost var s := pattern[it..];
      if pattern[it] == '[' {
        var part := ReadClass();
        if part.Err? {
          return Err(part.error);
        }
        assert pattern[it..] == s[|part.value|..];
        r := Ok(Push(alternatives, part.value));
      } else if pattern[it] == '\\' {
        it := it + 1;
        if it == |pattern| {
          return Ok(alternatives);
        }
        it := it + 1;
        assert s[..2] == pattern[it - 2..it] && pattern[it..] == s[2..];
        r := Ok(Push(alternatives, pattern[it - 2..it]));
      } else {
        it := it + 1;
        assert s[..1] == pattern[it - 1..it] && pattern[it..] == s[1..];
        r := Ok(Push(alternatives, pattern[it - 1..it]));
      }
    }

    /** One turn of the loop that is not at a group. */
    method ReadStep(alternatives: Alternatives) returns (r: Result<Alternatives>)
      requires it < |pattern| && pattern[it] != '(' && pattern[it] != ')' && alternatives != []
      modifies `it
      ensures old(it) <= it <= |pattern|
      ensures match Step(pattern[old(it)..], alternatives)
              case Ok(p) => r == Ok(p.alts) && pattern[it..] == p.rest && it > old(it)
              case Err(e) => r == Err(e)
    {
      ghost var s := pattern[it..];
      if pattern[it] == '*' || pattern[it] == '?' || pattern[it] == '+' {
        r := ReadQuantifier(alternatives);
      } else if pattern[it] == '{' {
        r := ReadBraces(alternatives);
      } else if pattern[it] == '|' {
        it := it + 1;
        assert pattern[it..] == s[1..];
        r := Ok(alternatives + [[]]);
      } else {
        r := ReadSingle(alternatives);
      }
    }

    /** What one turn leaves to the rest of the loop of the call that began at start. */
    ghost predicate Turned(start: nat, r: Result<Alternatives>)
      requires start <= |pattern|
      reads `it
    {
      match r
      case Ok(alternatives) => Continues(pattern, start, it, alternatives)
      case Err(e) => RegexText.Process(pattern[start..], [[]]) == Err(e)
    }

    method ReadGroup(ghost start: nat, alternatives: Alternatives) returns (r: Result<Alternatives>)
      requires Continues(pattern, start, it, alternatives) && it < |pattern| && pattern[it] == '('
      modifies `it
      ensures old(it) < it <= |pattern| && start <= |pattern| && Turned(start, r)
      decreases |pattern| - it, 0
    {
      ghost var here := it;
      it := InnerStart(pattern, it);
      var sub := Process();
      GroupTurn(pattern, start, here, alternatives, sub, it);
      if sub.Err? {
        return Err(sub.error);
      }
      if it == |pattern| {
        return Err(UnmatchedGroup);
      }
      it := it + 1;
      r := Ok(Push(alternatives, "(?:" + sub.value + ")"));
    }

    method ReadOther(ghost start: nat, alternatives: Alternatives) returns (r: Result<Alternatives>)
      requires Continues(pattern, start, it, alternatives) && it < |pattern| && pattern[it] != '(' && pattern[it] != ')'
      modifies `it
      ensures old(it) <= it <= |pattern| && start <= |pattern| && Turned(start, r)
      ensures r.Ok? ==> old(it) < it
    {
      ghost var here := it;
      r := ReadStep(alternatives);
      if r.Err? {
        StepFails(pattern, start, here, alternatives, r.error);
      } else {
        StepContinues(pattern, start, here, alternatives, it, r.value);
      }
    }

    /** `process`, the shared iterator left behind what has been read. */
    method Process() returns (r: Result<string>)
      requires it <= |pattern|
      modifies `it
      ensures Returns(pattern, old(it), it, r)
      ensures old(it) <= it
      decreases |pattern| - it, 1
    {
      ghost var start := it;
      var alternatives: Alternatives := [[]];
      while it < |pattern| && pattern[it] != ')'
        invariant start <= it <= |pattern| && Continues(pattern, start, it, alternatives)
        decreases |pattern| - it
      {
        var next: Result<Alternatives>;
        if pattern[it] == '(' {
          next := ReadGroup(start, alternatives);
        } else {
          next := ReadOther(start, alternatives);
        }
        if next.Err? {
          return Err(next.error);
        }
        alternatives := next.value;
      }
      assert pattern[it..] == [] || pattern[it..][0] == ')';
      r := Render(alternatives);
    }

    /** The loops at the end: the optional groups of each alternative, and bars between them. */
    method Render(alternatives: Alternatives) returns (r: Result<string>)
      requires alternatives != []
      ensures match Finish(alternatives, [])
              case Ok(p) => r == Ok(p.text)
              case Err(e) => r == Err(e)
    {
      var res: string := "";
      var i := 0;
      while i < |alternatives|
        invariant 0 <= i <= |alternatives| && [] !in alternatives[..i]
        invariant i > 0 ==> res == JoinText(alternatives[..i])
      {
        if alternatives[i] == [] {
          return Err(EmptyAlternative);
        }
        var chain := RenderChain(alternatives[i]);
        assert alternatives[..i + 1][..i] == alternatives[..i];
        res := if i > 0 then res + "|" + chain else chain;
        i := i + 1;
      }
      assert alternatives[..i] == alternatives;
      r := Ok(res);
    }

    method RenderChain(parts: seq<string>) returns (res: string)
      requires parts != []
      ensures res == ChainText(parts)
    {
      var n := |parts|;
      res := "";
      var i := 0;
      while i < n - 1
        invariant 0 <= i <= n - 1
        invariant res == Opening(i)
      {
        res := res + "(?:";
        i := i + 1;
      }
      AllWritten(parts);
      i := n;
      while i > 0
        invariant 0 <= i <= n
        invariant res + Closing(parts, i) == ChainText(parts)
      {
        i := i - 1;
        ghost var before := res;
        res := res + parts[i];
        if i != 0 {
          res := res + ")?";
        }
        ClosingStep(before, parts, i);
      }
      assert res + Closing(parts, 0) == res;
    }
  }

  function Opening(n: nat): string { if n == 0 then "" else Opening(n - 1) + "(?:" }

  /** What is still to be written when the parts from i on have been. */
  function Closing(parts: seq<string>, i: nat): string
    requires i <= |parts|
  {
    if i == 0 then "" else parts[i - 1] + (if i == 1 then "" else ")?") + Closing(parts, i - 1)
  }

  lemma ClosingStep(before: string, parts: seq<string>, i: nat)
    requires i < |parts|
    ensures before + Closing(parts, i + 1) == before + parts[i] + (if i == 0 then "" else ")?") + Closing(parts, i)
  {
  }

  lemma {:induction false} OpeningFirst(n: nat)
    requires n > 0
    ensures Opening(n) == "(?:" + Opening(n - 1)
  {
    if n > 1 {
      OpeningFirst(n - 1);
    }
  }

  lemma {:induction false} ClosingLast(parts: seq<string>, i: nat)
    requires 2 <= i <= |parts|
    ensures Closing(parts, i) == Closing(parts[1..], i - 1) + (")?" + parts[0])
    decreases i
  {
    if i > 2 {
      ClosingLast(parts, i - 1);
    } else {
      assert Closing(parts, 1) == parts[0] && Closing(parts[1..], 1) == parts[1];
    }
  }

  lemma Regroup(a: string, b: string, c: string, d: string, e: string)
    ensures a + b + (c + (d + e)) == a + (b + c) + d + e
  {
  }

  lemma OneWritten(parts: seq<string>)
    requires |parts| == 1
    ensures Opening(0) + Closing(parts, 1) == ChainText(parts)
  {
    assert Closing(parts, 1) == parts[0] + "" + "" == parts[0];
    assert "" + parts[0] == parts[0];
  }

  /** The first part is written last, behind a separator, and needs one more opening before all the others. */
  lemma FirstWritten(parts: seq<string>, n: nat)
    requires n == |parts| >= 2
    ensures Opening(n - 1) + Closing(parts, n)
            == "(?:" + (Opening(n - 2) + Closing(parts[1..], n - 1)) + ")?" + parts[0]
  {
    OpeningFirst(n - 1);
    ClosingLast(parts, n);
    Regroup("(?:", Opening(n - 2), Closing(parts[1..], n - 1), ")?", parts[0]);
  }

  lemma ChainFirst(parts: seq<string>)
    requires |parts| >= 2
    ensures ChainText(parts) == "(?:" + ChainText(parts[1..]) + ")?" + parts[0]
  {
  }

  /** All the openings first and then the parts from the last one on: the nested text of the chain. */
  lemma {:induction false} AllWritten(parts: seq<string>)
    requires parts != []
    ensures Opening(|parts| - 1) + Closing(parts, |parts|) == ChainText(parts)
    decreases |parts|
  {
    if |parts| == 1 {
      OneWritten(parts);
    } else {
      AllWritten(parts[1..]);
      FirstWritten(parts, |parts|);
      ChainFirst(parts);
    }
  }

  /** `regex_to_reversed_partial_regex`. */
  method RegexToReversedPartialRegex(pattern: string) returns (r: Result<string>)
    ensures r == ToReversedPartial(pattern)
  {
    var reader := new Reader(pattern);
    assert pattern[0..] == pattern;
    var res := reader.Process();
    if res.Err? {
      return Err(res.error);
    }
    if reader.it != |pattern| {
      return Err(UnmatchedGroup);
    }
    r := Ok("^(" + res.value + ")");
  }
}

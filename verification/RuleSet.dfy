/** The named rules of the schema converter (common/json_schema_to_grammar.cpp) and `_add_rule`. */
module RuleSet {
  import opened Decimals

  predicate IsNameChar(c: char) { 'a' <= c <= 'z' || 'A' <= c <= 'Z' || '0' <= c <= '9' || c == '-' }

  /** Each longest run of other characters becomes one dash. */
  function EscapeName(name: string): (s: string)
    ensures forall i :: 0 <= i < |s| ==> IsNameChar(s[i])
    decreases |name|
  {
    if name == [] then []
    else if IsNameChar(name[0]) then [name[0]] + EscapeName(name[1..])
    else if |name| > 1 && !IsNameChar(name[1]) then EscapeName(name[1..])
    else "-" + EscapeName(name[1..])
  }

  /** A name of allowed characters is left alone. */
  lemma {:induction false} EscapeAllowed(name: string)
    requires forall i :: 0 <= i < |name| ==> IsNameChar(name[i])
    ensures EscapeName(name) == name
  {
    if name != [] {
      EscapeAllowed(name[1..]);
    }
  }

  /** A run of other characters between allowed ones, or at an end, is replaced by one dash. */
  lemma {:induction false} EscapeRun(before: string, run: string, after: string)
    requires run != [] && forall i :: 0 <= i < |run| ==> !IsNameChar(run[i])
    requires before == [] || IsNameChar(before[|before| - 1])
    requires after == [] || IsNameChar(after[0])
    ensures EscapeName(before + run + after) == EscapeName(before) + "-" + EscapeName(after)
    decreases |before| + |run|
  {
    var name := before + run + after;
    if before != [] {
      assert name[1..] == before[1..] + run + after;
      assert |before| > 1 ==> name[1] == before[1];
      EscapeRun(before[1..], run, after);
      EscapeFirst(before);
    } else if |run| > 1 {
      assert name[1..] == [] + run[1..] + after && name[1] == run[1];
      EscapeRun([], run[1..], after);
    } else {
      assert name[1..] == after;
    }
  }

  lemma EscapeFirst(before: string)
    requires before != [] && IsNameChar(before[|before| - 1])
    ensures EscapeName(before)
            == (if IsNameChar(before[0]) then [before[0]] else if !IsNameChar(before[1]) then [] else "-")
               + EscapeName(before[1..])
  {
  }

  /** Every rule of old is a rule of new, with the same text. */
  ghost predicate Extends<T>(old': map<string, T>, new': map<string, T>) {
    forall k :: k in old' ==> k in new' && new'[k] == old'[k]
  }

  function Numbered(name: string, i: nat): string { name + Decimal(i) }

  lemma NumberedInjective(name: string, i: nat, j: nat)
    requires Numbered(name, i) == Numbered(name, j)
    ensures i == j
  {
    assert Numbered(name, i)[|name|..] == Decimal(i) && Numbered(name, j)[|name|..] == Decimal(j);
    ValDecimal(i);
    ValDecimal(j);
  }

  /** The numbered names from i on: what the search for a free name can still run into. */
  ghost function Ahead(keys: set<string>, name: string, i: nat): set<string> {
    set k | k in keys && exists j: nat :: j >= i && k == Numbered(name, j)
  }

  lemma AheadShrinks(keys: set<string>, name: string, i: nat)
    requires Numbered(name, i) in keys
    ensures Ahead(keys, name, i + 1) < Ahead(keys, name, i)
  {
    var k := Numbered(name, i);
    assert k in Ahead(keys, name, i);
    if k in Ahead(keys, name, i + 1) {
      var j: nat :| j >= i + 1 && k == Numbered(name, j);
      NumberedInjective(name, i, j);
      assert false;
    }
    forall x | x in Ahead(keys, name, i + 1)
      ensures x in Ahead(keys, name, i)
    {
      var j: nat :| j >= i + 1 && x == Numbered(name, j);
      assert j >= i;
    }
  }

  class Rules<T(==)> {
    var rules: map<string, T>

    constructor ()
      ensures rules == map[]
    {
      rules := map[];
    }

    /**
      `_add_rule`: it terminates, binds the returned name to the rule, and changes the text of no name that was
      bound before.
     */
    method AddRule(name: string, rule: T) returns (key: string)
      modifies this
      ensures rules == old(rules)[key := rule] && Extends(old(rules), rules)
      ensures key == EscapeName(name) || exists i: nat :: key == Numbered(EscapeName(name), i)
    {
      var escName := EscapeName(name);
      if escName !in rules || rules[escName] == rule {
        rules := rules[escName := rule];
        return escName;
      }
      var i: nat := 0;
      while Numbered(escName, i) in rules && rules[Numbered(escName, i)] != rule
        invariant rules == old(rules)
        decreases Ahead(rules.Keys, escName, i)
      {
        AheadShrinks(rules.Keys, escName, i);
        i := i + 1;
      }
      key := Numbered(escName, i);
      rules := rules[key := rule];
    }
  }
}

/** common/base64.hpp: encoding with either alphabet, decoding with detection of the alphabet, and decoding in place. */
module Base64 {
  import opened Wrappers
  import opened Utf8

  datatype Alphabet = Auto | Standard | UrlSafe

  const PAD: Byte := 0x3D

  /** The character for six bits. */
  function CharOf(a: Alphabet, v: nat): (c: Byte)
    requires v < 64
  {
    if v < 26 then 0x41 + v
    else if v < 52 then 0x61 + (v - 26)
    else if v < 62 then 0x30 + (v - 52)
    else if a == UrlSafe then (if v == 62 then 0x2D else 0x5F)
    else if v == 62 then 0x2B else 0x2F
  }

  const UPPER: string := "ABCDEFGHIJKLMNOPQRSTUVWXYZ"
  const LOWER: string := "abcdefghijklmnopqrstuvwxyz"
  const DIGITS: string := "0123456789"

  lemma UpperIs(v: nat)
    ensures |UPPER| == 26 && (v < 26 ==> UPPER[v] as int == 0x41 + v)
  {
  }

  lemma LowerIs(v: nat)
    ensures |LOWER| == 26 && (v < 26 ==> LOWER[v] as int == 0x61 + v)
  {
  }

  lemma DigitsIs(v: nat)
    ensures |DIGITS| == 10 && (v < 10 ==> DIGITS[v] as int == 0x30 + v)
  {
  }

  /** The characters are those of the tables of `encode`. */
  lemma CharOfTable(a: Alphabet, v: nat)
    requires v < 64
    ensures var table := UPPER + LOWER + DIGITS + if a == UrlSafe then "-_" else "+/";
            |table| == 64 && CharOf(a, v) == table[v] as int
  {
    UpperIs(v);
    LowerIs(if v >= 26 then v - 26 else 0);
    DigitsIs(if v >= 52 then v - 52 else 0);
  }

  /** `_base64_value`: the six bits of a character, and the alphabet that it settles. */
  function ValueOf(a: Alphabet, c: Byte): (r: Option<(nat, Alphabet)>)
    ensures r.Some? ==> r.value.0 < 64
  {
    if 0x41 <= c <= 0x5A then Some((c - 0x41, a))
    else if 0x61 <= c <= 0x7A then Some((c - 0x61 + 26, a))
    else if 0x30 <= c <= 0x39 then Some((c - 0x30 + 52, a))
    else if a != UrlSafe && (c == 0x2B || c == 0x2F) then Some((if c == 0x2B then 62 else 63, Standard))
    else if a != Standard && (c == 0x2D || c == 0x5F) then Some((if c == 0x2D then 62 else 63, UrlSafe))
    else None
  }

  // ---- encoding ----

  function First(i0: Byte): nat { i0 / 4 }

  function Second(i0: Byte, i1: Byte): nat { i0 % 4 * 16 + i1 / 16 }

  function Third(i1: Byte, i2: Byte): nat { i1 % 16 * 4 + i2 / 64 }

  function Fourth(i2: Byte): nat { i2 % 64 }

  /** The four characters of three bytes. */
  function Quad(a: Alphabet, i0: Byte, i1: Byte, i2: Byte): seq<Byte> {
    [CharOf(a, First(i0)), CharOf(a, Second(i0, i1)), CharOf(a, Third(i1, i2)), CharOf(a, Fourth(i2))]
  }

  function Encoded(s: seq<Byte>, a: Alphabet): seq<Byte>
    decreases |s|
  {
    if s == [] then []
    else if |s| == 1 then [CharOf(a, First(s[0])), CharOf(a, Second(s[0], 0)), PAD, PAD]
    else if |s| == 2 then [CharOf(a, First(s[0])), CharOf(a, Second(s[0], s[1])), CharOf(a, Third(s[1], 0)), PAD]
    else Quad(a, s[0], s[1], s[2]) + Encoded(s[3..], a)
  }

  function RequiredEncodeSize(n: nat): nat { (n / 3 + if n % 3 != 0 then 1 else 0) * 4 }

  function MaxDecodeSize(n: nat): nat { (n / 4 + if n % 4 != 0 then 1 else 0) * 3 }

  lemma SizeStep(n: nat)
    ensures RequiredEncodeSize(n + 3) == RequiredEncodeSize(n) + 4
  {
  }

  lemma {:induction false} EncodedSize(s: seq<Byte>, a: Alphabet)
    ensures |Encoded(s, a)| == RequiredEncodeSize(|s|)
    decreases |s|
  {
    if |s| >= 3 {
      EncodedSize(s[3..], a);
      SizeStep(|s| - 3);
    }
  }

  /** The characters of the bytes at the head of the input: three of them, or what there is. */
  method EncodeGroup(s: seq<Byte>, i: nat, a: Alphabet) returns (out: seq<Byte>, next: nat)
    requires i < |s|
    ensures next == if i + 3 <= |s| then i + 3 else |s|
    ensures out + Encoded(s[next..], a) == Encoded(s[i..], a)
  {
    var i0 := s[i];
    out := [CharOf(a, i0 / 4)];
    next := i + 1;
    if next == |s| {
      out := out + [CharOf(a, i0 % 4 * 16), PAD, PAD];
      return;
    }
    var i1 := s[next];
    next := next + 1;
    out := out + [CharOf(a, i0 % 4 * 16 + i1 / 16)];
    if next == |s| {
      out := out + [CharOf(a, i1 % 16 * 4), PAD];
      return;
    }
    var i2 := s[next];
    next := next + 1;
    out := out + [CharOf(a, i1 % 16 * 4 + i2 / 64), CharOf(a, i2 % 64)];
    assert out == Quad(a, i0, i1, i2) && s[i..][3..] == s[next..];
  }

  lemma Joined(a: seq<Byte>, b: seq<Byte>, c: seq<Byte>)
    ensures a + (b + c) == a + b + c
  {
  }

  /** `encode`, one group of three bytes in each turn, into exactly the required size. */
  method Encode(s: seq<Byte>, a: Alphabet) returns (out: seq<Byte>)
    ensures out == Encoded(s, a) && |out| == RequiredEncodeSize(|s|)
  {
    out := [];
    EncodedSize(s, a);
    var i := 0;
    assert s[0..] == s;
    while i < |s|
      invariant 0 <= i <= |s| && Encoded(s, a) == out + Encoded(s[i..], a)
    {
      var group, next := EncodeGroup(s, i, a);
      Joined(out, group, Encoded(s[next..], a));
      out := out + group;
      i := next;
    }
    assert out + [] == out;
  }

  // ---- decoding ----

  /** The state of the loop: the alphabet so far, the last six bits, and how many of them are still unused. */
  datatype State = State(alphabet: Alphabet, last: nat, bits: nat)

  predicate IsState(st: State) { st.last < 64 && (st.bits == 0 || st.bits == 2 || st.bits == 4 || st.bits == 6) }

  /** The byte that is complete with the next six bits: a shift of both, cut to eight bits. */
  function ByteOf(st: State, part: nat): Byte
    requires IsState(st) && part < 64 && st.bits > 0
  {
    if st.bits == 6 then (st.last * 4 % 256 + part / 16) % 256
    else if st.bits == 4 then (st.last * 16 % 256 + part / 4) % 256
    else (st.last * 64 % 256 + part) % 256
  }

  function Next(st: State, part: nat, a: Alphabet): (r: State)
    requires IsState(st) && part < 64
    ensures IsState(r)
  {
    State(a, part, if st.bits >= 2 then st.bits - 2 else 6)
  }

  function Written(st: State, part: nat): (out: seq<Byte>)
    requires IsState(st) && part < 64
  {
    if st.bits >= 2 then [ByteOf(st, part)] else []
  }

  /** The bytes up to the first padding character or the end, and what follows it. */
  function DecodedFrom(s: seq<Byte>, st: State): Option<(seq<Byte>, seq<Byte>)>
    requires IsState(st)
    decreases |s|
  {
    if s == [] then Some(([], []))
    else if s[0] == PAD then Some(([], s[1..]))
    else
      var v := ValueOf(st.alphabet, s[0]);
      if v.None? then None
      else
        var r := DecodedFrom(s[1..], Next(st, v.value.0, v.value.1));
        if r.None? then None else Some((Written(st, v.value.0) + r.value.0, r.value.1))
  }

  predicate AllPads(s: seq<Byte>) { s == [] || (s[0] == PAD && AllPads(s[1..])) }

  const START := State(Auto, 0, 0)

  /** `decode`: none stands for a thrown error. */
  function Decoded(s: seq<Byte>, a: Alphabet, loose: bool): Option<seq<Byte>> {
    var r := DecodedFrom(s, START.(alphabet := a));
    if r.None? || (!loose && !AllPads(r.value.1)) then None else Some(r.value.0)
  }

  // ---- round trip ----

  /** A decoder for a may read what was encoded with b. */
  predicate Reads(a: Alphabet, b: Alphabet) { a == Auto || (a == UrlSafe) == (b == UrlSafe) }

  lemma ValueOfChar(a: Alphabet, b: Alphabet, v: nat)
    requires Reads(a, b) && v < 64
    ensures CharOf(b, v) != PAD
    ensures var r := ValueOf(a, CharOf(b, v)); r.Some? && r.value.0 == v && Reads(r.value.1, b)
  {
  }

  /** The bytes that the decoder joins from the pieces of three bytes are these bytes. */
  predicate Joins(v0: nat, v1: nat, v2: nat, v3: nat, i0: Byte, i1: Byte, i2: Byte) {
    && v0 < 64 && v1 < 64 && v2 < 64 && v3 < 64
    && ByteOf(State(Auto, v0, 6), v1) == i0 && ByteOf(State(Auto, v1, 4), v2) == i1
       && ByteOf(State(Auto, v2, 2), v3) == i2
  }

  lemma RejoinFirst(i0: Byte, i1: Byte)
    ensures First(i0) < 64 && Second(i0, i1) < 64 && ByteOf(State(Auto, First(i0), 6), Second(i0, i1)) == i0
  {
    assert Second(i0, i1) / 16 == i0 % 4;
    assert First(i0) * 4 + i0 % 4 == i0;
  }

  lemma RejoinSecond(i0: Byte, i1: Byte, i2: Byte)
    ensures Second(i0, i1) < 64 && Third(i1, i2) < 64 && ByteOf(State(Auto, Second(i0, i1), 4), Third(i1, i2)) == i1
  {
    assert Second(i0, i1) * 16 == i0 % 4 * 256 + i1 / 16 * 16;
    assert Second(i0, i1) * 16 % 256 == i1 / 16 * 16;
    assert Third(i1, i2) / 4 == i1 % 16;
  }

  lemma RejoinThird(i1: Byte, i2: Byte)
    ensures Third(i1, i2) < 64 && Fourth(i2) < 64 && ByteOf(State(Auto, Third(i1, i2), 2), Fourth(i2)) == i2
  {
    assert Third(i1, i2) * 64 == i1 % 16 * 256 + i2 / 64 * 64;
    assert Third(i1, i2) * 64 % 256 == i2 / 64 * 64;
  }

  lemma Rejoin(i0: Byte, i1: Byte, i2: Byte)
    ensures Joins(First(i0), Second(i0, i1), Third(i1, i2), Fourth(i2), i0, i1, i2)
  {
    RejoinFirst(i0, i1);
    RejoinSecond(i0, i1, i2);
    RejoinThird(i1, i2);
  }

  /** What a decoder gives for some characters before the rest. */
  predicate Gives(s: seq<Byte>, st: State, out: seq<Byte>, rest: seq<Byte>, next: State)
    requires IsState(st) && IsState(next)
  {
    var r := DecodedFrom(rest, next);
    DecodedFrom(s, st) == if r.None? then None else Some((out + r.value.0, r.value.1))
  }

  lemma GivesThen(s: seq<Byte>, st: State, out: seq<Byte>, t: seq<Byte>, st': State, out': seq<Byte>, rest: seq<Byte>,
                  next: State)
    requires IsState(st) && IsState(st') && IsState(next) && Gives(s, st, out, t, st')
             && Gives(t, st', out', rest, next)
    ensures Gives(s, st, out + out', rest, next)
  {
    var r := DecodedFrom(rest, next);
    if r.Some? {
      assert out + (out' + r.value.0) == out + out' + r.value.0;
    }
  }

  /** One character of the encoder. */
  lemma DecodeOne(b: Alphabet, v: nat, rest: seq<Byte>, st: State) returns (next: State)
    requires IsState(st) && Reads(st.alphabet, b) && v < 64
    ensures Reads(next.alphabet, b) && next == Next(st, v, next.alphabet)
    ensures Gives([CharOf(b, v)] + rest, st, Written(st, v), rest, next)
  {
    ValueOfChar(st.alphabet, b, v);
    assert ([CharOf(b, v)] + rest)[1..] == rest;
    next := Next(st, v, ValueOf(st.alphabet, CharOf(b, v)).value.1);
  }

  /** One character that completes a byte. */
  lemma DecodeByte(b: Alphabet, v: nat, i: Byte, rest: seq<Byte>, st: State) returns (next: State)
    requires IsState(st) && st.bits >= 2 && Reads(st.alphabet, b) && v < 64
             && ByteOf(State(Auto, st.last, st.bits), v) == i
    ensures Reads(next.alphabet, b) && next == State(next.alphabet, v, st.bits - 2) && IsState(next)
    ensures Gives([CharOf(b, v)] + rest, st, [i], rest, next)
  {
    next := DecodeOne(b, v, rest, st);
  }

  lemma DecodeTwo(b: Alphabet, v0: nat, v1: nat, v2: nat, v3: nat, i0: Byte, i1: Byte, i2: Byte, rest: seq<Byte>,
                  st: State)
    returns (next: State)
    requires IsState(st) && st.bits == 0 && Reads(st.alphabet, b) && Joins(v0, v1, v2, v3, i0, i1, i2)
    ensures next == State(next.alphabet, v1, 4) && IsState(next) && Reads(next.alphabet, b)
    ensures Gives([CharOf(b, v0)] + ([CharOf(b, v1)] + rest), st, [i0], rest, next)
  {
    var t := [CharOf(b, v1)] + rest;
    var st1 := DecodeOne(b, v0, t, st);
    next := DecodeByte(b, v1, i0, rest, st1);
    GivesThen([CharOf(b, v0)] + t, st, [], t, st1, [i0], rest, next);
    assert [] + [i0] == [i0];
  }

  lemma DecodeThree(b: Alphabet, v0: nat, v1: nat, v2: nat, v3: nat, i0: Byte, i1: Byte, i2: Byte, rest: seq<Byte>,
                    st: State)
    returns (next: State)
    requires IsState(st) && st.bits == 0 && Reads(st.alphabet, b) && Joins(v0, v1, v2, v3, i0, i1, i2)
    ensures next == State(next.alphabet, v2, 2) && IsState(next) && Reads(next.alphabet, b)
    ensures Gives([CharOf(b, v0)] + ([CharOf(b, v1)] + ([CharOf(b, v2)] + rest)), st, [i0, i1], rest, next)
  {
    var t := [CharOf(b, v2)] + rest;
    var st2 := DecodeTwo(b, v0, v1, v2, v3, i0, i1, i2, t, st);
    next := DecodeByte(b, v2, i1, rest, st2);
    GivesThen([CharOf(b, v0)] + ([CharOf(b, v1)] + t), st, [i0], t, st2, [i1], rest, next);
    assert [i0] + [i1] == [i0, i1];
  }

  lemma DecodeFour(b: Alphabet, v0: nat, v1: nat, v2: nat, v3: nat, i0: Byte, i1: Byte, i2: Byte, rest: seq<Byte>,
                   st: State)
    returns (next: State)
    requires IsState(st) && st.bits == 0 && Reads(st.alphabet, b) && Joins(v0, v1, v2, v3, i0, i1, i2)
    ensures next == State(next.alphabet, v3, 0) && IsState(next) && Reads(next.alphabet, b)
    ensures Gives([CharOf(b, v0)] + ([CharOf(b, v1)] + ([CharOf(b, v2)] + ([CharOf(b, v3)] + rest))), st, [i0, i1, i2],
            rest, next)
  {
    var t := [CharOf(b, v3)] + rest;
    var st3 := DecodeThree(b, v0, v1, v2, v3, i0, i1, i2, t, st);
    next := DecodeByte(b, v3, i2, rest, st3);
    GivesThen([CharOf(b, v0)] + ([CharOf(b, v1)] + ([CharOf(b, v2)] + t)), st, [i0, i1], t, st3, [i2], rest, next);
    assert [i0, i1] + [i2] == [i0, i1, i2];
  }

  lemma DecodesOne(i0: Byte, b: Alphabet, st: State)
    requires IsState(st) && st.bits == 0 && Reads(st.alphabet, b)
    ensures DecodedFrom(Encoded([i0], b), st) == Some(([i0], [PAD]))
  {
    Rejoin(i0, 0, 0);
    var v0, v1 := First(i0), Second(i0, 0);
    var next := DecodeTwo(b, v0, v1, Third(0, 0), Fourth(0), i0, 0, 0, [PAD, PAD], st);
    PadsEnd([CharOf(b, v0)] + ([CharOf(b, v1)] + [PAD, PAD]), st, [i0], [PAD], next);
    assert Encoded([i0], b) == [CharOf(b, v0)] + ([CharOf(b, v1)] + [PAD, PAD]);
  }

  lemma DecodesTwo(i0: Byte, i1: Byte, b: Alphabet, st: State)
    requires IsState(st) && st.bits == 0 && Reads(st.alphabet, b)
    ensures DecodedFrom(Encoded([i0, i1], b), st) == Some(([i0, i1], []))
  {
    Rejoin(i0, i1, 0);
    var next := DecodeThree(b, First(i0), Second(i0, i1), Third(i1, 0), Fourth(0), i0, i1, 0, [PAD], st);
    EncodedTwo(i0, i1, b);
    var none: seq<Byte> := [];
    assert [PAD] + none == [PAD];
    PadsEnd(Encoded([i0, i1], b), st, [i0, i1], none, next);
  }

  lemma EncodedTwo(i0: Byte, i1: Byte, b: Alphabet)
    ensures Encoded([i0, i1], b)
            == [CharOf(b, First(i0))] + ([CharOf(b, Second(i0, i1))] + ([CharOf(b, Third(i1, 0))] + [PAD]))
  {
  }

  lemma PadsEnd(s: seq<Byte>, st: State, out: seq<Byte>, pads: seq<Byte>, next: State)
    requires IsState(st) && IsState(next) && Gives(s, st, out, [PAD] + pads, next)
    ensures DecodedFrom(s, st) == Some((out, pads))
  {
    assert ([PAD] + pads)[1..] == pads && out + [] == out;
  }

  lemma DecodeQuad(b: Alphabet, i0: Byte, i1: Byte, i2: Byte, rest: seq<Byte>, st: State) returns (next: State)
    requires IsState(st) && st.bits == 0 && Reads(st.alphabet, b)
    ensures IsState(next) && next.bits == 0 && Reads(next.alphabet, b)
    ensures Gives(Quad(b, i0, i1, i2) + rest, st, [i0, i1, i2], rest, next)
  {
    Rejoin(i0, i1, i2);
    var v0, v1, v2, v3 := First(i0), Second(i0, i1), Third(i1, i2), Fourth(i2);
    next := DecodeFour(b, v0, v1, v2, v3, i0, i1, i2, rest, st);
    QuadChars(b, i0, i1, i2, rest);
  }

  lemma QuadChars(b: Alphabet, i0: Byte, i1: Byte, i2: Byte, rest: seq<Byte>)
    ensures Quad(b, i0, i1, i2) + rest
         == [CharOf(b, First(i0))]
            + ([CharOf(b, Second(i0, i1))] + ([CharOf(b, Third(i1, i2))] + ([CharOf(b, Fourth(i2))] + rest)))
  {
    FourThenRest(CharOf(b, First(i0)), CharOf(b, Second(i0, i1)), CharOf(b, Third(i1, i2)), CharOf(b, Fourth(i2)),
        rest);
  }

  lemma FourThenRest(a: Byte, b: Byte, c: Byte, d: Byte, rest: seq<Byte>)
    ensures [a, b, c, d] + rest == [a] + ([b] + ([c] + ([d] + rest)))
  {
  }

  /** Whatever was encoded decodes to itself, and only padding is left. */
  lemma {:induction false} DecodesEncoded(s: seq<Byte>, b: Alphabet, st: State)
    requires IsState(st) && st.bits == 0 && Reads(st.alphabet, b)
    ensures var r := DecodedFrom(Encoded(s, b), st); r.Some? && r.value.0 == s && AllPads(r.value.1)
    decreases |s|
  {
    if |s| == 1 {
      DecodesOne(s[0], b, st);
      assert s == [s[0]];
    } else if |s| == 2 {
      DecodesTwo(s[0], s[1], b, st);
      assert s == [s[0], s[1]];
    } else if |s| > 2 {
      var st4 := DecodeQuad(b, s[0], s[1], s[2], Encoded(s[3..], b), st);
      DecodesEncoded(s[3..], b, st4);
      assert s == [s[0], s[1], s[2]] + s[3..];
    }
  }

  /** Decoding inverts encoding, with the same alphabet or detecting it, loose or not. */
  lemma RoundTrip(s: seq<Byte>, b: Alphabet, a: Alphabet, loose: bool)
    requires Reads(a, b)
    ensures Decoded(Encoded(s, b), a, loose) == Some(s)
  {
    DecodesEncoded(s, b, START.(alphabet := a));
  }

  // ---- what is decoded at all ----

  /** Where the padding begins. */
  function FirstPad(s: seq<Byte>): (k: nat)
    ensures k <= |s| && (k < |s| ==> s[k] == PAD) && forall i :: 0 <= i < k ==> s[i] != PAD
  {
    if s == [] || s[0] == PAD then 0 else 1 + FirstPad(s[1..])
  }

  predicate AllIn(b: Alphabet, s: seq<Byte>) { forall i :: 0 <= i < |s| ==> ValueOf(b, s[i]).Some? }

  /** All characters belong to one alphabet that the decoder may read. */
  predicate OneAlphabet(a: Alphabet, s: seq<Byte>) {
    (Reads(a, Standard) && AllIn(Standard, s)) || (Reads(a, UrlSafe) && AllIn(UrlSafe, s))
  }

  lemma OneAlphabetStep(a: Alphabet, c: Byte, s: seq<Byte>)
    ensures OneAlphabet(a, [c] + s) <==> ValueOf(a, c).Some? && OneAlphabet(ValueOf(a, c).value.1, s)
  {
    AllInStep(Standard, c, s);
    AllInStep(UrlSafe, c, s);
  }

  lemma AllInStep(b: Alphabet, c: Byte, s: seq<Byte>)
    ensures AllIn(b, [c] + s) <==> ValueOf(b, c).Some? && AllIn(b, s)
  {
    if AllIn(b, [c] + s) {
      assert ([c] + s)[0] == c;
      forall i | 0 <= i < |s|
        ensures ValueOf(b, s[i]).Some?
      {
        assert ([c] + s)[i + 1] == s[i];
      }
    }
  }

  lemma {:induction false} DecodedFromIff(s: seq<Byte>, st: State)
    requires IsState(st)
    ensures var k, r := FirstPad(s), DecodedFrom(s, st);
            && (r.Some? <==> OneAlphabet(st.alphabet, s[..k]))
            && (r.Some? ==> |r.value.0| == (st.bits + 6 * k) / 8 && r.value.1 == if k < |s| then s[k + 1..] else [])
    decreases |s|
  {
    var k := FirstPad(s);
    if s != [] && s[0] != PAD {
      assert s[..k] == [s[0]] + s[1..][..k - 1];
      OneAlphabetStep(st.alphabet, s[0], s[1..][..k - 1]);
      var v := ValueOf(st.alphabet, s[0]);
      if v.Some? {
        DecodedFromIff(s[1..], Next(st, v.value.0, v.value.1));
        BitsStep(st, v.value.0, v.value.1, k - 1);
      }
    }
  }

  lemma BitsStep(st: State, part: nat, a: Alphabet, k: nat)
    requires IsState(st) && part < 64
    ensures |Written(st, part)| + (Next(st, part, a).bits + 6 * k) / 8 == (st.bits + 6 * (k + 1)) / 8
  {
  }

  /**
    A text is decoded exactly if everything before the first padding character belongs to one alphabet that the
    decoder may read and, unless it is loose, everything after it is padding; the number of bytes is three quarters
    of the characters, rounded down.
  */
  lemma DecodedIff(s: seq<Byte>, a: Alphabet, loose: bool)
    ensures var k, r := FirstPad(s), Decoded(s, a, loose);
            && (r.Some? <==> OneAlphabet(a, s[..k]) && (loose || AllPads(s[k..])))
            && (r.Some? ==> |r.value| == 3 * k / 4 <= MaxDecodeSize(|s|))
  {
    var k := FirstPad(s);
    DecodedFromIff(s, START.(alphabet := a));
    PadsAfter(s, k);
    SizeBound(k, |s|);
  }

  lemma PadsAfter(s: seq<Byte>, k: nat)
    requires k <= |s| && (k < |s| ==> s[k] == PAD)
    ensures AllPads(s[k..]) <==> AllPads(if k < |s| then s[k + 1..] else [])
  {
    if k < |s| {
      assert s[k..][1..] == s[k + 1..];
    }
  }

  lemma SizeBound(k: nat, n: nat)
    requires k <= n
    ensures 6 * k / 8 == 3 * k / 4 <= MaxDecodeSize(n)
  {
  }

  // ---- in place ----

  lemma GivesStep(s: seq<Byte>, st0: State, out: seq<Byte>, rest: seq<Byte>, st: State)
    requires IsState(st0) && IsState(st) && Gives(s, st0, out, rest, st) && rest != [] && rest[0] != PAD
    ensures var v := ValueOf(st.alphabet, rest[0]);
            if v.None? then DecodedFrom(s, st0).None?
            else Gives(s, st0, out + Written(st, v.value.0), rest[1..], Next(st, v.value.0, v.value.1))
  {
    var v := ValueOf(st.alphabet, rest[0]);
    if v.Some? {
      var next := Next(st, v.value.0, v.value.1);
      assert Gives(rest, st, Written(st, v.value.0), rest[1..], next);
      GivesThen(s, st0, out, rest, st, Written(st, v.value.0), rest[1..], next);
    }
  }

  /** The first loop of `decode` over one buffer: what is written never reaches what is still to be read. */
  /** The write of the loop: a byte, if there are enough bits for one. */
  method StoreByte(buf: array<Byte>, n0: nat, i: nat, st: State, part: nat) returns (n: nat)
    requires IsState(st) && part < 64 && n0 < i <= buf.Length
    modifies buf
    ensures n == n0 + |Written(st, part)| <= i && buf[..n] == old(buf[..n0]) + Written(st, part)
    ensures buf[i..] == old(buf[i..])
  {
    n := n0;
    if st.bits + 6 >= 8 {
      buf[n] := ByteOf(st, part);
      n := n + 1;
    }
  }

  method DecodeLoop(buf: array<Byte>, a: Alphabet) returns (r: Option<(nat, nat)>)
    modifies buf
    ensures match DecodedFrom(old(buf[..]), START.(alphabet := a))
            case None => r.None?
            case Some((out, rest)) =>
              && r.Some? && r.value.0 == |out| <= r.value.1 <= buf.Length
              && buf[..|out|] == out && buf[r.value.1..] == old(buf[..])[r.value.1..] == rest
  {
    ghost var s, st0 := buf[..], START.(alphabet := a);
    var i, n, st := 0, 0, START.(alphabet := a);
    NothingGiven(s, st0);
    while i < buf.Length
      invariant 0 <= n <= i <= buf.Length && IsState(st) && 8 * n + st.bits == 6 * i
      invariant buf[i..] == s[i..] && Gives(s, st0, buf[..n], s[i..], st)
    {
      var c := buf[i];
      assert c == s[i..][0] && s[i..][1..] == s[i + 1..];
      i := i + 1;
      if c == PAD {
        PadFound(s, st0, buf[..n], s[i - 1..], st);
        return Some((n, i));
      }
      GivesStep(s, st0, buf[..n], s[i - 1..], st);
      var v := ValueOf(st.alphabet, c);
      if v.None? {
        return None;
      }
      n := StoreByte(buf, n, i, st, v.value.0);
      st := Next(st, v.value.0, v.value.1);
    }
    EndFound(s, st0, buf[..n], s[i..], st);
    return Some((n, i));
  }

  lemma NothingGiven(s: seq<Byte>, st: State)
    requires IsState(st)
    ensures s[0..] == s && Gives(s, st, [], s[0..], st)
  {
    assert s[0..] == s;
    var r := DecodedFrom(s, st);
    if r.Some? {
      assert [] + r.value.0 == r.value.0;
    }
  }

  lemma PadFound(s: seq<Byte>, st0: State, out: seq<Byte>, rest: seq<Byte>, st: State)
    requires IsState(st0) && IsState(st) && Gives(s, st0, out, rest, st) && rest != [] && rest[0] == PAD
    ensures DecodedFrom(s, st0) == Some((out, rest[1..]))
  {
    assert out + [] == out;
  }

  lemma EndFound(s: seq<Byte>, st0: State, out: seq<Byte>, rest: seq<Byte>, st: State)
    requires IsState(st0) && IsState(st) && Gives(s, st0, out, rest, st) && rest == []
    ensures DecodedFrom(s, st0) == Some((out, []))
  {
    assert out + [] == out;
  }

  /** The second loop of `decode`. */
  method CheckPadding(buf: array<Byte>, start: nat) returns (ok: bool)
    requires start <= buf.Length
    ensures ok == AllPads(buf[start..])
  {
    var i := start;
    while i < buf.Length
      invariant start <= i <= buf.Length && (AllPads(buf[start..]) <==> AllPads(buf[i..]))
    {
      PadsFrom(buf[..], i);
      assert buf[..][i..] == buf[i..] && buf[..][i + 1..] == buf[i + 1..];
      if buf[i] != PAD {
        return false;
      }
      i := i + 1;
    }
    return true;
  }

  /** `decode_inplace`: the buffer begins with the decoded bytes, and their number is returned. */
  method DecodeInPlace(buf: array<Byte>, a: Alphabet, loose: bool) returns (r: Option<nat>)
    modifies buf
    ensures match Decoded(old(buf[..]), a, loose)
            case None => r.None?
            case Some(out) => r == Some(|out|) && |out| <= buf.Length && buf[..|out|] == out
  {
    var done := DecodeLoop(buf, a);
    if done.None? {
      return None;
    }
    if !loose {
      var ok := CheckPadding(buf, done.value.1);
      if !ok {
        return None;
      }
    }
    return Some(done.value.0);
  }

  lemma PadsFrom(s: seq<Byte>, i: nat)
    requires i < |s|
    ensures AllPads(s[i..]) <==> s[i] == PAD && AllPads(s[i + 1..])
  {
    assert s[i..][1..] == s[i + 1..];
  }
}

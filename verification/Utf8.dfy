/**
  The UTF-8 helpers of common/unicode.cpp.

  A byte is an integer below 256 and the masks of the source are written as comparisons, quotients
  and remainders: `c & 0x80 == 0` is `c < 0x80`, `c & 0xc0 == 0x80` is `0x80 <= c < 0xC0`,
  `c & 0x1f` is `c % 0x20`, and so on.
 */
module Utf8 {
  import opened Wrappers

  type Byte = b: int | 0 <= b < 256

  /** What the encoder accepts; it throws beyond 0x10FFFF (and does not single out surrogates). */
  type CodePoint = c: int | 0 <= c <= 0x10FFFF

  datatype Decoded = Char(cp: nat, bytes: nat) | Incomplete | Invalid

  predicate IsCont(b: Byte) { 0x80 <= b < 0xC0 }

  /** The number of bytes that a first byte announces, as `common_utf8_is_complete` computes it. */
  function Announced(b: Byte): nat {
    if b >= 0xF0 then 4 else if b >= 0xE0 then 3 else if b >= 0xC0 then 2 else 1
  }

  /** The payload of a first byte: `b & 0x1f` for m = 0x20. */
  function Lead(b: Byte, m: int): nat
    requires m > 0
  {
    b as int % m
  }

  /** One more continuation byte: `(v << 6) | (b & 0x3f)`. */
  function Join(v: nat, b: Byte): nat { v * 0x40 + b as int % 0x40 }

  function Decode(s: seq<Byte>, off: nat): (r: Decoded)
    ensures r.Char? ==> 1 <= r.bytes <= 4 && off + r.bytes <= |s|
  {
    if off >= |s| then Incomplete
    else
      var b := s[off];
      if b < 0x80 then Char(b, 1)
      else if b < 0xC0 then Invalid
      else if b < 0xE0 then
        if off + 1 >= |s| then Incomplete
        else if !IsCont(s[off + 1]) then Invalid
        else Char(Join(Lead(b, 0x20), s[off + 1]), 2)
      else if b < 0xF0 then
        if off + 2 >= |s| then Incomplete
        else if !IsCont(s[off + 1]) || !IsCont(s[off + 2]) then Invalid
        else Char(Join(Join(Lead(b, 0x10), s[off + 1]), s[off + 2]), 3)
      else if b < 0xF8 then
        if off + 3 >= |s| then Incomplete
        else if !IsCont(s[off + 1]) || !IsCont(s[off + 2]) || !IsCont(s[off + 3]) then Invalid
        else Char(Join(Join(Join(Lead(b, 8), s[off + 1]), s[off + 2]), s[off + 3]), 4)
      else Invalid
  }

  function Encode(c: CodePoint): (s: seq<Byte>)
    ensures 1 <= |s| <= 4 && !IsCont(s[0]) && |s| == Announced(s[0])
    ensures forall i :: 0 < i < |s| ==> IsCont(s[i])
  {
    if c <= 0x7F then [c]
    else if c <= 0x7FF then [0xC0 + c / 0x40 % 0x20, 0x80 + c % 0x40]
    else if c <= 0xFFFF then [0xE0 + c / 0x1000 % 0x10, 0x80 + c / 0x40 % 0x40, 0x80 + c % 0x40]
    else [0xF0 + c / 0x40000 % 8, 0x80 + c / 0x1000 % 0x40, 0x80 + c / 0x40 % 0x40, 0x80 + c % 0x40]
  }

  function EncodeAll(cs: seq<CodePoint>): (s: seq<Byte>)
  {
    if cs == [] then [] else Encode(cs[0]) + EncodeAll(cs[1..])
  }

  /** The error path of `common_unicode_cpts_to_utf8`: one bad code point throws the whole result away. */
  function EncodeChecked(cps: seq<nat>): Option<seq<Byte>> {
    if forall i :: 0 <= i < |cps| ==> cps[i] <= 0x10FFFF
    then Some(EncodeAll(cps))
    else None
  }

  /**
    The decoding loop that the trie, the scanner and the character classes run: code points up to
    the first position that does not decode, and why it does not.
   */
  function Scan(s: seq<Byte>, off: nat): (r: (seq<nat>, Decoded, nat))
    requires off <= |s|
    ensures !r.1.Char? && off <= r.2 <= |s| && r.1 == Decode(s, r.2)
    decreases |s| - off
  {
    var d := Decode(s, off);
    if d.Char? then
      var (cps, why, at) := Scan(s, off + d.bytes);
      ([d.cp] + cps, why, at)
    else ([], d, off)
  }

  /** `common_utf8_is_complete` from its i-th step back on. */
  function CompleteFrom(s: seq<Byte>, i: nat): bool
    requires 1 <= i
    decreases 5 - i
  {
    if i > 4 || i > |s| then false
    else
      var c := s[|s| - i];
      if !IsCont(c) then i >= Announced(c) else CompleteFrom(s, i + 1)
  }

  predicate IsComplete(s: seq<Byte>) { s == [] || CompleteFrom(s, 1) }

  method ComputeIsComplete(s: seq<Byte>) returns (r: bool)
    ensures r == IsComplete(s)
  {
    if s == [] {
      return true;
    }
    var i := 1;
    while i <= 4 && i <= |s|
      invariant 1 <= i
      invariant CompleteFrom(s, 1) == CompleteFrom(s, i)
      decreases 5 - i
    {
      var c := s[|s| - i];
      if !IsCont(c) {
        return i >= Announced(c);
      }
      i := i + 1;
    }
    return false;
  }

  lemma EncodeMore(cs: seq<CodePoint>)
    requires cs != []
    ensures var n := |cs| - 1; EncodeAll(cs) == EncodeAll(cs[..n]) + Encode(cs[n])
  {
    var n := |cs| - 1;
    LastApart(cs);
    EncodeAllAppend(cs[..n], [cs[n]]);
    EncodeOne(cs[n]);
  }

  lemma LastApart(cs: seq<CodePoint>)
    requires cs != []
    ensures cs[..|cs| - 1] + [cs[|cs| - 1]] == cs
  {
  }

  method CodePointsToUtf8(cps: seq<nat>) returns (r: Option<seq<Byte>>)
    ensures r == EncodeChecked(cps)
  {
    var out: seq<Byte> := [];
    var i := 0;
    while i < |cps|
      invariant 0 <= i <= |cps|
      invariant forall k :: 0 <= k < i ==> cps[k] <= 0x10FFFF
      invariant out == EncodeAll(cps[..i])
    {
      if cps[i] > 0x10FFFF {
        return None;
      }
      EncodeMore(cps[..i + 1]);
      assert cps[..i + 1][..i] == cps[..i];
      out := out + Encode(cps[i]);
      i := i + 1;
    }
    assert cps[..i] == cps;
    return Some(out);
  }

  lemma {:induction false} EncodeAllAppend(a: seq<CodePoint>, b: seq<CodePoint>)
    ensures EncodeAll(a + b) == EncodeAll(a) + EncodeAll(b)
  {
    if a == [] {
      assert a + b == b;
    } else {
      assert (a + b)[1..] == a[1..] + b;
      EncodeAllAppend(a[1..], b);
    }
  }

  /** Decoding at a position where an encoding was written gives the code point back, whatever surrounds it. */
  lemma DecodeEncode(pre: seq<Byte>, c: CodePoint, post: seq<Byte>)
    ensures Decode(pre + Encode(c) + post, |pre|) == Char(c, |Encode(c)|)
  {
    var s, e, n := pre + Encode(c) + post, Encode(c), |pre|;
    assert s[n] == e[0];
    if c <= 0x7F {
    } else if c <= 0x7FF {
      assert s[n + 1] == e[1];
      Digits2(c);
    } else if c <= 0xFFFF {
      assert s[n + 1] == e[1] && s[n + 2] == e[2];
      Digits3(c);
    } else {
      assert s[n + 1] == e[1] && s[n + 2] == e[2] && s[n + 3] == e[3];
      Digits4(c);
    }
  }

  // The base-64 digits that the encoder takes apart and the decoder joins.

  lemma Digits2(c: nat)
    requires c < 0x800
    ensures Join(Lead(0xC0 + c / 0x40 % 0x20, 0x20), 0x80 + c % 0x40) == c
  {
  }

  lemma Digits3(c: nat)
    requires c < 0x10000
    ensures Join(Join(Lead(0xE0 + c / 0x1000 % 0x10, 0x10), 0x80 + c / 0x40 % 0x40), 0x80 + c % 0x40) == c
  {
    assert c / 0x40 / 0x40 == c / 0x1000;
    assert Join(Lead(0xE0 + c / 0x1000 % 0x10, 0x10), 0x80 + c / 0x40 % 0x40) == c / 0x40;
  }

  lemma Digits4(c: nat)
    requires c < 0x200000
    ensures Join(Join(Join(Lead(0xF0 + c / 0x40000 % 8, 8), 0x80 + c / 0x1000 % 0x40), 0x80 + c / 0x40 % 0x40),
            0x80 + c % 0x40) == c
  {
    assert c / 0x40 / 0x40 == c / 0x1000 && c / 0x1000 / 0x40 == c / 0x40000;
    assert Join(Lead(0xF0 + c / 0x40000 % 8, 8), 0x80 + c / 0x1000 % 0x40) == c / 0x1000;
    assert Join(c / 0x1000, 0x80 + c / 0x40 % 0x40) == c / 0x40;
  }

  lemma Regroup(a: seq<Byte>, b: seq<Byte>, c: seq<Byte>, d: seq<Byte>)
    ensures a + (b + c) + d == a + b + (c + d) == (a + b) + c + d
  {
  }

  /**
    Round trip through a text with a tail: the loop returns the code points and then sees the tail.
   */
  lemma {:induction false} ScanEncode(pre: seq<Byte>, cs: seq<CodePoint>, tail: seq<Byte>)
    requires !Decode(pre + EncodeAll(cs) + tail, |pre| + |EncodeAll(cs)|).Char?
    ensures var s, n := pre + EncodeAll(cs) + tail, |pre| + |EncodeAll(cs)|;
            Scan(s, |pre|) == (cs, Decode(s, n), n)
    decreases |cs|
  {
    var s := pre + EncodeAll(cs) + tail;
    if cs == [] {
    } else {
      var e := Encode(cs[0]);
      Regroup(pre, e, EncodeAll(cs[1..]), tail);
      DecodeEncode(pre, cs[0], EncodeAll(cs[1..]) + tail);
      ScanEncode(pre + e, cs[1..], tail);
      ScanMore(s, |pre|, cs, |e|, Scan(s, |pre| + |e|));
    }
  }

  lemma ScanMore(s: seq<Byte>, off: nat, cs: seq<CodePoint>, n: nat, rest: (seq<nat>, Decoded, nat))
    requires cs != [] && Decode(s, off) == Char(cs[0], n) && off + n <= |s|
    requires Scan(s, off + n) == rest && rest.0 == cs[1..]
    ensures Scan(s, off) == (cs, rest.1, rest.2)
  {
    assert [cs[0]] + cs[1..] == cs;
  }

  /** The bytes of the first j code points: where a text can be cut without splitting one. */
  function Cut(cs: seq<CodePoint>, j: nat): nat
    requires j <= |cs|
  {
    |EncodeAll(cs[..j])|
  }

  lemma CutSplits(cs: seq<CodePoint>, j: nat)
    requires j <= |cs|
    ensures EncodeAll(cs) == EncodeAll(cs[..j]) + EncodeAll(cs[j..])
  {
    SplitAt(cs, j);
    EncodeAllAppend(cs[..j], cs[j..]);
  }

  lemma SplitAt(cs: seq<CodePoint>, j: nat)
    requires j <= |cs|
    ensures cs == cs[..j] + cs[j..] && (j < |cs| ==> cs[..j + 1] == cs[..j] + [cs[j]])
  {
  }

  lemma EncodeOne(c: CodePoint)
    ensures EncodeAll([c]) == Encode(c)
  {
    assert [c][1..] == [] && Encode(c) + [] == Encode(c);
  }

  lemma CutStep(cs: seq<CodePoint>, j: nat)
    requires j < |cs|
    ensures EncodeAll(cs) == EncodeAll(cs[..j]) + Encode(cs[j]) + EncodeAll(cs[j + 1..])
    ensures Cut(cs, j + 1) == Cut(cs, j) + |Encode(cs[j])| <= |EncodeAll(cs)|
  {
    CutSplits(cs, j + 1);
    SplitAt(cs, j);
    EncodeAllAppend(cs[..j], [cs[j]]);
    EncodeOne(cs[j]);
  }

  /** Every length up to that of the text lies in exactly one code point. */
  lemma {:induction false} FindCut(cs: seq<CodePoint>, k: nat, n: nat) returns (j: nat)
    requires n <= |cs| && k < Cut(cs, n)
    ensures j < n && Cut(cs, j) <= k < Cut(cs, j + 1)
    decreases n
  {
    if n == 0 {
      assert false;
    } else {
      CutStep(cs, n - 1);
      if Cut(cs, n - 1) <= k { j := n - 1; } else { j := FindCut(cs, k, n - 1); }
    }
  }

  /** A truncated encoding is incomplete at the code point it splits, never invalid. */
  lemma DecodeTruncated(pre: seq<Byte>, c: CodePoint, m: nat)
    requires m < |Encode(c)|
    ensures Decode(pre + Encode(c)[..m], |pre|) == Incomplete
  {
    var s := pre + Encode(c)[..m];
    if m > 0 {
      assert s[|pre|] == Encode(c)[0];
    }
  }

  /**
    Cut an encoded text at any byte: the loop returns exactly the code points that lie wholly
    before the cut, and then reports INCOMPLETE.
   */
  lemma ScanTruncated(cs: seq<CodePoint>, k: nat) returns (j: nat)
    requires k <= |EncodeAll(cs)|
    ensures j <= |cs| && Cut(cs, j) <= k && (j < |cs| ==> k < Cut(cs, j + 1))
    ensures Scan(EncodeAll(cs)[..k], 0) == (cs[..j], Incomplete, Cut(cs, j))
  {
    assert cs[..|cs|] == cs;
    if k == |EncodeAll(cs)| {
      j := |cs|;
      ScanPrefix(cs, j, [], EncodeAll(cs)[..k]);
    } else {
      j := FindCut(cs, k, |cs|);
      CutStep(cs, j);
      var m := k - Cut(cs, j);
      DecodeTruncated(EncodeAll(cs[..j]), cs[j], m);
      ScanPrefix(cs, j, Encode(cs[j])[..m], EncodeAll(cs)[..k]);
    }
  }

  lemma ScanPrefix(cs: seq<CodePoint>, j: nat, tail: seq<Byte>, s: seq<Byte>)
    requires j <= |cs| && s == EncodeAll(cs[..j]) + tail
    requires Decode(s, Cut(cs, j)) == Incomplete
    ensures Scan(s, 0) == (cs[..j], Incomplete, Cut(cs, j))
  {
    assert [] + EncodeAll(cs[..j]) + tail == s;
    ScanEncode([], cs[..j], tail);
  }

  /** The decode loop inverts the encode loop. */
  lemma RoundTrip(cs: seq<CodePoint>)
    ensures Scan(EncodeAll(cs), 0) == (cs, Incomplete, |EncodeAll(cs)|)
  {
    var j := ScanTruncated(cs, |EncodeAll(cs)|);
    assert EncodeAll(cs)[..|EncodeAll(cs)|] == EncodeAll(cs);
    if j < |cs| {
      CutStep(cs, j);
      assert false;
    }
    assert cs[..j] == cs;
  }

  /** Stepping back over continuation bytes. */
  lemma CompleteAfter(pre: seq<Byte>, e: seq<Byte>, i: nat)
    requires 1 <= |e| <= 4 && 1 <= i <= |e| && !IsCont(e[0])
    requires forall k :: 0 < k < |e| ==> IsCont(e[k])
    ensures CompleteFrom(pre + e, i) == (|e| >= Announced(e[0]))
    decreases |e| - i
  {
    var s := pre + e;
    assert s[|s| - i] == e[|e| - i];
    if i < |e| {
      CompleteAfter(pre, e, i + 1);
    }
  }

  /** `common_utf8_is_complete` holds of a truncated text exactly when the cut splits no code point. */
  lemma CompleteExactlyAtCuts(cs: seq<CodePoint>, k: nat)
    requires k <= |EncodeAll(cs)|
    ensures IsComplete(EncodeAll(cs)[..k]) <==> exists j :: 0 <= j <= |cs| && Cut(cs, j) == k
  {
    var s := EncodeAll(cs);
    if k == 0 {
      assert Cut(cs, 0) == 0;
    } else {
      assert cs[..|cs|] == cs;
      var j := FindCut(cs, k - 1, |cs|);
      CutStep(cs, j);
      var a := Cut(cs, j);
      var e := Encode(cs[j])[..k - a];
      assert s[..k] == EncodeAll(cs[..j]) + e;
      CompleteAfter(EncodeAll(cs[..j]), e, 1);
      forall i | 0 <= i <= |cs| && Cut(cs, i) == k
        ensures k == Cut(cs, j + 1)
      {
        if i <= j { CutMonotone(cs, i, j); } else { CutMonotone(cs, j + 1, i); }
      }
    }
  }

  lemma {:induction false} CutMonotone(cs: seq<CodePoint>, i: nat, j: nat)
    requires i <= j <= |cs|
    ensures Cut(cs, i) <= Cut(cs, j)
    decreases j - i
  {
    if i < j {
      CutStep(cs, i);
      CutMonotone(cs, i + 1, j);
    }
  }

  /**
    Whether the bytes at a position begin the shortest form of a code point, read off the first byte and the one
    behind it: from C2 with two bytes, from E0 A0 with three, from F0 90 to F4 8F with four (section 4 of RFC 3629,
    with surrogates).
   */
  predicate BeginsShortest(s: seq<Byte>, off: nat)
    requires off < |s|
  {
    var b, next := s[off], if off + 1 < |s| then s[off + 1] else 0;
    if b < 0x80 then true
    else if b < 0xE0 then b >= 0xC2
    else if b < 0xF0 then b != 0xE0 || next >= 0xA0
    else (b != 0xF0 || next >= 0x90) && (b < 0xF4 || (b == 0xF4 && next < 0x90))
  }

  /**
    The decoder is not the inverse of the encoder on every input: it lets overlong forms and values
    above 0x10FFFF through. What it accepts is a code point that re-encodes to the bytes it read exactly when these
    bytes begin a shortest form.
   */
  lemma ReencodeIffShortest(s: seq<Byte>, off: nat)
    requires Decode(s, off).Char?
    ensures var d := Decode(s, off);
            (d.cp <= 0x10FFFF && Encode(d.cp) == s[off..off + d.bytes]) <==> BeginsShortest(s, off)
  {
    var d := Decode(s, off);
    if d.bytes == 2 {
      Reencode2(s, off);
      Bounds2(s[off], s[off + 1]);
    } else if d.bytes == 3 {
      Reencode3(s, off);
      Bounds3(s[off], s[off + 1], s[off + 2]);
    } else if d.bytes == 4 {
      Reencode4(s, off);
      Bounds4(s[off], s[off + 1], s[off + 2], s[off + 3]);
    }
  }

  /** Zero in two bytes, and the number behind the last code point, are decoded but not encoded so. */
  lemma DecodesTooMuch()
    ensures Decode([0xC0, 0x80], 0) == Char(0, 2) && Encode(0) != [0xC0, 0x80]
    ensures Decode([0xF4, 0x90, 0x80, 0x80], 0) == Char(0x110000, 4)
  {
    assert Lead(0xF4, 8) == 4 && Join(4, 0x90) == 0x110 && Join(0x110, 0x80) == 0x4400
        && Join(0x4400, 0x80) == 0x110000;
  }

  // A text and the piece that was appended to it last.

  /** The j-th byte from the end is a continuation byte. */
  predicate ContAt(s: seq<Byte>, j: nat) { 0 < j <= |s| && IsCont(s[|s| - j]) }

  /** One of the last four bytes, from the i-th one back, is not a continuation byte. */
  predicate LeadWithin(s: seq<Byte>, i: nat) { exists j :: i <= j <= 4 && 0 < j <= |s| && !ContAt(s, j) }

  /** The j-th byte from the end is the last one that is not a continuation byte. */
  predicate IsLead(a: seq<Byte>, j: nat) {
    0 < j <= |a| && !ContAt(a, j) && forall k :: 0 < k < j ==> ContAt(a, k)
  }

  /** n more continuation bytes give the last character of a all the bytes that it announces. */
  predicate Closes(a: seq<Byte>, n: nat) {
    exists j :: 0 < j <= 4 - n && IsLead(a, j) && j + n >= Announced(a[|a| - j])
  }

  /** What the test says of the piece is what it says of the text. */
  predicate PieceDecides(a: seq<Byte>, p: seq<Byte>) {
    if p == [] then IsComplete(a) else LeadWithin(p, 1) || !Closes(a, |p|)
  }

  lemma {:induction false} SameTail(a: seq<Byte>, p: seq<Byte>, i: nat)
    requires 1 <= i && LeadWithin(p, i)
    ensures CompleteFrom(a + p, i) == CompleteFrom(p, i)
    decreases 5 - i
  {
    var j :| i <= j <= 4 && 0 < j <= |p| && !ContAt(p, j);
    assert (a + p)[|a + p| - i] == p[|p| - i];
    if IsCont(p[|p| - i]) {
      assert i + 1 <= j;
      SameTail(a, p, i + 1);
    }
  }

  lemma {:induction false} NoLead(p: seq<Byte>, i: nat)
    requires 1 <= i && !LeadWithin(p, i)
    ensures !CompleteFrom(p, i)
    decreases if i > 4 then 0 else 5 - i
  {
    if i <= 4 && i <= |p| {
      assert ContAt(p, i);
      NoLead(p, i + 1);
    }
  }

  /** Of a text that ends with n continuation bytes, the scan goes on before them. */
  lemma {:induction false} ScanBefore(a: seq<Byte>, p: seq<Byte>, i: nat)
    requires 1 <= i <= |p| + 1 && !LeadWithin(p, i)
    ensures |p| >= 4 ==> !CompleteFrom(a + p, i)
    ensures |p| < 4 ==> CompleteFrom(a + p, i) == CompleteFrom(a + p, |p| + 1)
    decreases if i > 4 then 0 else 5 - i
  {
    if i <= 4 && i <= |p| {
      assert ContAt(p, i) && (a + p)[|a + p| - i] == p[|p| - i];
      ScanBefore(a, p, i + 1);
    }
  }

  /** The scan before the last n bytes, when the i - 1 bytes before them are continuation bytes. */
  lemma {:induction false} ScanCloses(a: seq<Byte>, p: seq<Byte>, i: nat)
    requires 0 < i && |p| < 4 && forall k :: 0 < k < i && k <= |a| ==> ContAt(a, k)
    ensures CompleteFrom(a + p, |p| + i)
            <==> exists j :: i <= j <= 4 - |p| && IsLead(a, j) && j + |p| >= Announced(a[|a| - j])
    decreases if i > 4 then 0 else 5 - i
  {
    if |p| + i <= 4 && i <= |a| {
      assert (a + p)[|a + p| - (|p| + i)] == a[|a| - i];
      if ContAt(a, i) {
        ScanCloses(a, p, i + 1);
      } else {
        assert IsLead(a, i);
      }
    }
  }

  /**
    The test on a piece agrees with the test on the whole text exactly if the piece has a byte that begins a character
    among its last four, or is made of continuation bytes that complete nothing, or is empty behind a complete text.
   */
  lemma PieceDecidesIff(a: seq<Byte>, p: seq<Byte>)
    ensures (IsComplete(p) <==> IsComplete(a + p)) <==> PieceDecides(a, p)
  {
    if p == [] {
      assert a + p == a;
    } else if LeadWithin(p, 1) {
      SameTail(a, p, 1);
    } else {
      NoLead(p, 1);
      ScanBefore(a, p, 1);
      if |p| < 4 {
        ScanCloses(a, p, 1);
      }
    }
  }

  /** A piece that is complete and not empty completes the text. */
  lemma CompletePieceCompletes(a: seq<Byte>, p: seq<Byte>)
    requires IsComplete(p) && p != []
    ensures IsComplete(a + p)
  {
    if LeadWithin(p, 1) {
      SameTail(a, p, 1);
    } else {
      NoLead(p, 1);
    }
  }

  /**
    The last byte of a euro sign, alone in its piece, completes the text and is not complete itself; an empty piece is
    complete and completes nothing.
   */
  lemma PiecesMislead()
    ensures IsComplete([0xE2, 0x82] + [0xAC]) && !IsComplete([0xAC])
    ensures IsComplete([]) && !IsComplete([0xE2, 0x82] + [])
  {
    var text := [0xE2, 0x82] + [0xAC];
    assert text == [0xE2, 0x82, 0xAC];
    assert CompleteFrom(text, 3) && CompleteFrom(text, 2);
    assert !CompleteFrom([0xAC], 2);
    assert [0xE2, 0x82] + [] == [0xE2, 0x82] && !CompleteFrom([0xE2, 0x82], 2);
  }

  // Where the first two bytes put the value.

  lemma Bounds2(b0: Byte, b1: Byte)
    requires 0xC0 <= b0 < 0xE0 && IsCont(b1)
    ensures Join(Lead(b0, 0x20), b1) >= 0x80 <==> b0 >= 0xC2
  {
  }

  lemma Bounds3(b0: Byte, b1: Byte, b2: Byte)
    requires 0xE0 <= b0 < 0xF0 && IsCont(b1) && IsCont(b2)
    ensures Join(Join(Lead(b0, 0x10), b1), b2) >= 0x800 <==> b0 != 0xE0 || b1 >= 0xA0
  {
    assert Join(Lead(b0, 0x10), b1) == (b0 - 0xE0) * 0x40 + (b1 - 0x80);
  }

  lemma Bounds4(b0: Byte, b1: Byte, b2: Byte, b3: Byte)
    requires 0xF0 <= b0 < 0xF8 && IsCont(b1) && IsCont(b2) && IsCont(b3)
    ensures var c := Join(Join(Join(Lead(b0, 8), b1), b2), b3);
            (c >= 0x10000 <==> b0 != 0xF0 || b1 >= 0x90) && (c <= 0x10FFFF <==> b0 < 0xF4 || (b0 == 0xF4 && b1 < 0x90))
  {
    var v := Join(Lead(b0, 8), b1);
    assert v == (b0 - 0xF0) * 0x40 + (b1 - 0x80);
  }

  lemma Encoded2(c: nat, b0: Byte, b1: Byte)
    requires c < 0x800 && b0 == 0xC0 + c / 0x40 % 0x20 && b1 == 0x80 + c % 0x40
    ensures Encode(c) == [b0, b1] <==> c >= 0x80
  {
  }

  lemma Encoded3(c: nat, b0: Byte, b1: Byte, b2: Byte)
    requires c < 0x10000 && b0 == 0xE0 + c / 0x1000 % 0x10 && b1 == 0x80 + c / 0x40 % 0x40 && b2 == 0x80 + c % 0x40
    ensures Encode(c) == [b0, b1, b2] <==> c >= 0x800
  {
    if c < 0x800 {
      assert |Encode(c)| < 3;
    }
  }

  lemma Encoded4(c: nat, b0: Byte, b1: Byte, b2: Byte, b3: Byte)
    requires c <= 0x10FFFF && b0 == 0xF0 + c / 0x40000 % 8 && b1 == 0x80 + c / 0x1000 % 0x40
    requires b2 == 0x80 + c / 0x40 % 0x40 && b3 == 0x80 + c % 0x40
    ensures Encode(c) == [b0, b1, b2, b3] <==> c >= 0x10000
  {
    if c < 0x10000 {
      assert |Encode(c)| < 4;
    }
  }

  lemma Reencode2(s: seq<Byte>, off: nat)
    requires Decode(s, off).Char? && Decode(s, off).bytes == 2
    ensures var d := Decode(s, off); d.cp < 0x800 && (Encode(d.cp) == s[off..off + 2] <==> d.cp >= 0x80)
  {
    assert s[off..off + 2] == [s[off], s[off + 1]];
    Payload2(s[off], s[off + 1]);
    Encoded2(Decode(s, off).cp, s[off], s[off + 1]);
  }

  lemma Reencode3(s: seq<Byte>, off: nat)
    requires Decode(s, off).Char? && Decode(s, off).bytes == 3
    ensures var d := Decode(s, off); d.cp < 0x10000 && (Encode(d.cp) == s[off..off + 3] <==> d.cp >= 0x800)
  {
    assert s[off..off + 3] == [s[off], s[off + 1], s[off + 2]];
    Payload3(s[off], s[off + 1], s[off + 2]);
    Encoded3(Decode(s, off).cp, s[off], s[off + 1], s[off + 2]);
  }

  lemma Reencode4(s: seq<Byte>, off: nat)
    requires Decode(s, off).Char? && Decode(s, off).bytes == 4
    ensures var d := Decode(s, off); d.cp <= 0x10FFFF ==> (Encode(d.cp) == s[off..off + 4] <==> d.cp >= 0x10000)
  {
    var d := Decode(s, off);
    if d.cp <= 0x10FFFF {
      assert s[off..off + 4] == [s[off], s[off + 1], s[off + 2], s[off + 3]];
      Payload4(s[off], s[off + 1], s[off + 2], s[off + 3]);
      Encoded4(d.cp, s[off], s[off + 1], s[off + 2], s[off + 3]);
    }
  }

  lemma Payload2(b0: Byte, b1: Byte)
    requires 0xC0 <= b0 < 0xE0 && IsCont(b1)
    ensures var c := Join(Lead(b0, 0x20), b1);
            c < 0x800 && b0 == 0xC0 + c / 0x40 % 0x20 && b1 == 0x80 + c % 0x40
  {
  }

  lemma Payload3(b0: Byte, b1: Byte, b2: Byte)
    requires 0xE0 <= b0 < 0xF0 && IsCont(b1) && IsCont(b2)
    ensures var c := Join(Join(Lead(b0, 0x10), b1), b2);
            c < 0x10000 && b0 == 0xE0 + c / 0x1000 % 0x10 && b1 == 0x80 + c / 0x40 % 0x40 && b2 == 0x80 + c % 0x40
  {
    var v := Join(Lead(b0, 0x10), b1);
    assert v / 0x40 == Lead(b0, 0x10) && v % 0x40 == b1 - 0x80;
    JoinSplit(v, b2);
  }

  lemma Payload4(b0: Byte, b1: Byte, b2: Byte, b3: Byte)
    requires 0xF0 <= b0 < 0xF8 && IsCont(b1) && IsCont(b2) && IsCont(b3)
    ensures var c := Join(Join(Join(Lead(b0, 8), b1), b2), b3);
            c < 0x200000 && b0 == 0xF0 + c / 0x40000 % 8 && b1 == 0x80 + c / 0x1000 % 0x40
            && b2 == 0x80 + c / 0x40 % 0x40 && b3 == 0x80 + c % 0x40
  {
    var v := Join(Lead(b0, 8), b1);
    assert v / 0x40 == Lead(b0, 8) && v % 0x40 == b1 - 0x80;
    JoinSplit(v, b2);
    JoinSplit(Join(v, b2), b3);
  }

  lemma JoinSplit(v: nat, b: Byte)
    requires IsCont(b)
    ensures Join(v, b) / 0x40 == v && 0x80 + Join(v, b) % 0x40 == b
    ensures Join(v, b) / 0x1000 == v / 0x40 && Join(v, b) / 0x40000 == v / 0x1000
  {
  }
}

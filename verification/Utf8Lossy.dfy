/**
 Lossy UTF-8 decoding (internal/features/lockfile.go:295-341): each maximal
 invalid subpart becomes one U+FFFD.

 The decoder takes a sequence at a time. It is proved equal to the decoder of
 section 8.1.1 of the WHATWG Encoding Standard, which takes a byte at a time
 and puts a byte that breaks a sequence back.
 */
module Utf8Lossy {

  type Byte = b: int | 0 <= b < 0x100
  type Bytes = seq<Byte>

  const REPLACEMENT := 0xFFFD

  /** A Unicode scalar value: a code point that is no surrogate. */
  predicate IsScalar(c: nat) { c < 0xD800 || 0xE000 <= c < 0x11_0000 }

  // Section 4 of RFC 3629: the byte sequences of the scalar values.

  predicate Tail(b: Byte) { 0x80 <= b <= 0xBF }

  predicate Utf8Sequence(p: Bytes) {
    (|p| == 1 && p[0] <= 0x7F) ||
    (|p| == 2 && 0xC2 <= p[0] <= 0xDF && Tail(p[1])) ||
    (|p| == 3 && Tail(p[2]) &&
     ((p[0] == 0xE0 && 0xA0 <= p[1] <= 0xBF) || (0xE1 <= p[0] <= 0xEC && Tail(p[1])) ||
      (p[0] == 0xED && 0x80 <= p[1] <= 0x9F) || (0xEE <= p[0] <= 0xEF && Tail(p[1])))) ||
    (|p| == 4 && Tail(p[2]) && Tail(p[3]) &&
     ((p[0] == 0xF0 && 0x90 <= p[1] <= 0xBF) || (0xF1 <= p[0] <= 0xF3 && Tail(p[1])) ||
      (p[0] == 0xF4 && 0x80 <= p[1] <= 0x8F)))
  }

  ghost predicate WellFormed(b: Bytes)
    decreases |b|
  {
    b == [] || exists n :: 0 < n <= |b| && Utf8Sequence(b[..n]) && WellFormed(b[n..])
  }

  /** Section 3 of RFC 3629. */
  function Encode(c: nat): Bytes
    requires IsScalar(c)
  {
    if c < 0x80 then [c]
    else if c < 0x800 then [0xC0 + c / 64, 0x80 + c % 64]
    else if c < 0x1_0000 then [0xE0 + c / 64 / 64, 0x80 + c / 64 % 64, 0x80 + c % 64]
    else [0xF0 + c / 64 / 64 / 64, 0x80 + c / 64 / 64 % 64, 0x80 + c / 64 % 64, 0x80 + c % 64]
  }

  predicate AllScalars(cs: seq<nat>) { forall i :: 0 <= i < |cs| ==> IsScalar(cs[i]) }

  function EncodeAll(cs: seq<nat>): Bytes
    requires AllScalars(cs)
  {
    if cs == [] then [] else Encode(cs[0]) + EncodeAll(cs[1..])
  }

  /** Adds the six bits of a tail byte. */
  function Group(high: int, b: Byte): int { high * 64 + (b as int - 0x80) }

  lemma GroupDivides(high: int, b: Byte)
    requires Tail(b)
    ensures Group(high, b) / 64 == high && Group(high, b) % 64 == b - 0x80
  {
  }

  /** The code point of a well-formed sequence, and U+FFFD for any other: `utf8.DecodeRune`. */
  function DecodeRune(p: Bytes): (c: nat)
    ensures IsScalar(c)
  {
    if !Utf8Sequence(p) then REPLACEMENT
    else if |p| == 1 then p[0]
    else if |p| == 2 then Group(p[0] as int - 0xC0, p[1])
    else if |p| == 3 then Group(Group(p[0] as int - 0xE0, p[1]), p[2])
    else Group(Group(Group(p[0] as int - 0xF0, p[1]), p[2]), p[3])
  }

  // The WHATWG decoder.

  /** Its state: the code point so far, the bytes seen and needed, and the range of the next byte. */
  datatype Decoder = Decoder(point: nat, seen: nat, needed: nat, lower: Byte, upper: Byte)

  const START := Decoder(0, 0, 0, 0x80, 0xBF)

  /** The state after a byte that begins a sequence of more than one. */
  function Begin(b: Byte): Decoder
    requires 0xC2 <= b <= 0xF4
  {
    if b <= 0xDF then Decoder(b % 0x20, 0, 1, 0x80, 0xBF)
    else if b <= 0xEF then
      Decoder(b % 0x10, 0, 2, if b == 0xE0 then 0xA0 else 0x80, if b == 0xED then 0x9F else 0xBF)
    else Decoder(b % 8, 0, 3, if b == 0xF0 then 0x90 else 0x80, if b == 0xF4 then 0x8F else 0xBF)
  }

  function Whatwg(d: Decoder, b: Bytes): seq<nat>
    decreases |b|, d.needed
  {
    if b == [] then (if d.needed != 0 then [REPLACEMENT] else [])
    else if d.needed == 0 then
      if b[0] <= 0x7F then [b[0]] + Whatwg(START, b[1..])
      else if 0xC2 <= b[0] <= 0xF4 then Whatwg(Begin(b[0]), b[1..])
      else [REPLACEMENT] + Whatwg(START, b[1..])
    else if !(d.lower <= b[0] <= d.upper) then [REPLACEMENT] + Whatwg(START, b)
    else
      var point := d.point * 64 + b[0] % 64;
      if d.seen + 1 != d.needed then Whatwg(Decoder(point, d.seen + 1, d.needed, 0x80, 0xBF), b[1..])
      else [point] + Whatwg(START, b[1..])
  }

  // The decoder of the source.

  function Need(lead: Byte): nat {
    if 0xC2 <= lead <= 0xDF then 1 else if 0xE0 <= lead <= 0xEF then 2 else if 0xF0 <= lead <= 0xF4 then 3 else 0
  }

  /** Whether `b[n]` continues the sequence that `b[0]` leads. */
  predicate Continues(b: Bytes, n: nat)
    requires 0 < n < |b|
  {
    if n > 1 then Tail(b[n])
    else (if b[0] == 0xE0 then 0xA0 else if b[0] == 0xF0 then 0x90 else 0x80) <= b[1] <=
         (if b[0] == 0xED then 0x9F else if b[0] == 0xF4 then 0x8F else 0xBF)
  }

  /** The bytes after the lead that continue its sequence, up to the number it needs. */
  function Run(b: Bytes, n: nat): (end: nat)
    requires 0 < n <= |b| && n <= Need(b[0]) + 1
    ensures n <= end <= |b| && end <= Need(b[0]) + 1
    ensures forall i :: n <= i < end ==> Continues(b, i)
    ensures end < |b| && end <= Need(b[0]) ==> !Continues(b, end)
    decreases |b| - n
  {
    if n <= Need(b[0]) && n < |b| && Continues(b, n) then Run(b, n + 1) else n
  }

  method SequenceLen(b: Bytes) returns (n: nat)
    requires b != []
    ensures n == Run(b, 1) && 0 < n <= |b|
  {
    var lead := b[0];
    var need := 0;
    var lo, hi := 0x80, 0xBF;
    if 0xC2 <= lead <= 0xDF {
      need := 1;
    } else if 0xE0 <= lead <= 0xEF {
      need := 2;
      if lead == 0xE0 { lo := 0xA0; } else if lead == 0xED { hi := 0x9F; }
    } else if 0xF0 <= lead <= 0xF4 {
      need := 3;
      if lead == 0xF0 { lo := 0x90; } else if lead == 0xF4 { hi := 0x8F; }
    }
    n := 1;
    while n <= need && n < |b| && lo <= b[n] <= hi
      invariant 1 <= n <= |b| && n <= need + 1 && need == Need(lead)
      invariant Run(b, n) == Run(b, 1)
      invariant n < |b| && n <= need ==> (lo <= b[n] <= hi <==> Continues(b, n))
      invariant n > 1 ==> lo == 0x80 && hi == 0xBF
    {
      n := n + 1;
      lo, hi := 0x80, 0xBF;
    }
  }

  /** A sequence at a time. */
  function Lossy(b: Bytes): (cs: seq<nat>)
    decreases |b|
    ensures AllScalars(cs)
  {
    if b == [] then [] else [DecodeRune(b[..Run(b, 1)])] + Lossy(b[Run(b, 1)..])
  }

  method DecodeUtf8Lossy(b: Bytes) returns (out: seq<nat>)
    ensures out == Whatwg(START, b)
  {
    out := [];
    var rest := b;
    while rest != []
      invariant Lossy(b) == out + Lossy(rest)
      decreases |rest|
    {
      var n := SequenceLen(rest);
      out := out + [DecodeRune(rest[..n])];
      rest := rest[n..];
    }
    LossyIsWhatwg(b);
  }

  // The two decoders agree.

  /** The code point bits of the first `n` bytes of a sequence. */
  function PointAt(b: Bytes, n: nat): nat
    requires 0 < n <= |b| && 0xC2 <= b[0] <= 0xF4
  {
    if n == 1 then Begin(b[0]).point else PointAt(b, n - 1) * 64 + b[n - 1] % 64
  }

  function DecoderAt(b: Bytes, n: nat): Decoder
    requires 0 < n <= |b| && 0xC2 <= b[0] <= 0xF4
  {
    if n == 1 then Begin(b[0]) else Decoder(PointAt(b, n), n - 1, Need(b[0]), 0x80, 0xBF)
  }

  /** A complete sequence is well-formed and its bits are its code point. */
  lemma CompleteSequence(b: Bytes, n: nat)
    requires 0 < n <= |b| && 0xC2 <= b[0] <= 0xF4 && n == Need(b[0]) + 1
    requires forall i :: 0 < i < n ==> Continues(b, i)
    ensures Utf8Sequence(b[..n]) && DecodeRune(b[..n]) == PointAt(b, n)
  {
    CompleteIsWellFormed(b, n);
    hide Utf8Sequence, Continues;
    assert b[..n][0] == b[0] && b[..n][1] == b[1];
    PointGroups(b, 2);
    if n > 2 {
      assert b[..n][2] == b[2];
      PointGroups(b, 3);
    }
    if n > 3 {
      assert b[..n][3] == b[3];
      PointGroups(b, 4);
    }
  }

  lemma CompleteIsWellFormed(b: Bytes, n: nat)
    requires 0 < n <= |b| && 0xC2 <= b[0] <= 0xF4 && n == Need(b[0]) + 1
    requires forall i :: 0 < i < n ==> Continues(b, i)
    ensures Utf8Sequence(b[..n])
  {
    assert Continues(b, 1);
    if n > 2 { assert Continues(b, 2); }
    if n > 3 { assert Continues(b, 3); }
  }

  lemma PointGroups(b: Bytes, n: nat)
    requires 1 < n <= |b| && 0xC2 <= b[0] <= 0xF4 && Tail(b[n - 1])
    ensures PointAt(b, n) == Group(PointAt(b, n - 1), b[n - 1])
    ensures PointAt(b, 1) == b[0] as int - (if b[0] <= 0xDF then 0xC0 else if b[0] <= 0xEF then 0xE0 else 0xF0)
  {
  }

  /** What the WHATWG decoder does once it has taken `n` bytes of a sequence. */
  lemma {:induction false} WhatwgInside(b: Bytes, n: nat)
    requires 0 < n <= |b| && 0xC2 <= b[0] <= 0xF4 && n <= Need(b[0])
    requires forall i :: 0 < i < n ==> Continues(b, i)
    ensures Whatwg(DecoderAt(b, n), b[n..]) == [DecodeRune(b[..Run(b, n)])] + Whatwg(START, b[Run(b, n)..])
    decreases |b| - n
  {
    if n < |b| && Continues(b, n) {
      if n == Need(b[0]) {
        assert b[n..][1..] == b[n + 1..];
        CompleteSequence(b, n + 1);
      } else {
        WhatwgTakes(b, n);
        hide Whatwg, DecodeRune, DecoderAt;
        WhatwgInside(b, n + 1);
      }
    } else {
      hide Continues;
      assert !Utf8Sequence(b[..n]);
    }
  }

  lemma WhatwgTakes(b: Bytes, n: nat)
    requires 0 < n < |b| && 0xC2 <= b[0] <= 0xF4 && n < Need(b[0]) && Continues(b, n)
    ensures Whatwg(DecoderAt(b, n), b[n..]) == Whatwg(DecoderAt(b, n + 1), b[n + 1..])
  {
    assert b[n..][1..] == b[n + 1..];
  }

  lemma {:induction false} LossyIsWhatwg(b: Bytes)
    ensures Lossy(b) == Whatwg(START, b)
    decreases |b|
  {
    if b != [] {
      LossyIsWhatwg(b[Run(b, 1)..]);
      if 0xC2 <= b[0] <= 0xF4 {
        WhatwgInside(b, 1);
      }
    }
  }

  // Decoding undoes encoding.

  lemma EncodeIsUtf8(c: nat)
    requires IsScalar(c)
    ensures Utf8Sequence(Encode(c)) && DecodeRune(Encode(c)) == c
  {
    assert c == Group(c / 64, 0x80 + c % 64);
    if c >= 0x800 { assert c / 64 == Group(c / 64 / 64, 0x80 + c / 64 % 64); }
    if c >= 0x1_0000 { assert c / 64 / 64 == Group(c / 64 / 64 / 64, 0x80 + c / 64 / 64 % 64); }
  }

  lemma DecodeIsScalar(p: Bytes)
    requires Utf8Sequence(p)
    ensures Encode(DecodeRune(p)) == p
  {
    hide Group;
    if |p| == 2 {
      GroupDivides(p[0] as int - 0xC0, p[1]);
    } else if |p| == 3 {
      GroupDivides(p[0] as int - 0xE0, p[1]);
      GroupDivides(Group(p[0] as int - 0xE0, p[1]), p[2]);
    } else if |p| == 4 {
      GroupDivides(p[0] as int - 0xF0, p[1]);
      GroupDivides(Group(p[0] as int - 0xF0, p[1]), p[2]);
      GroupDivides(Group(Group(p[0] as int - 0xF0, p[1]), p[2]), p[3]);
    }
  }

  /** The decoder takes exactly a well-formed sequence from the front. */
  lemma RunOfSequence(p: Bytes, rest: Bytes)
    requires Utf8Sequence(p)
    ensures Run(p + rest, 1) == |p|
  {
    var b := p + rest;
    assert |p| == Need(b[0]) + 1;
    if |p| > 1 { assert Continues(b, 1) && Run(b, 1) == Run(b, 2); }
    if |p| > 2 { assert Continues(b, 2) && Run(b, 2) == Run(b, 3); }
    if |p| > 3 { assert Continues(b, 3) && Run(b, 3) == Run(b, 4); }
  }

  /** Decoding the encoding of scalar values gives them back. */
  lemma {:induction false} DecodeEncode(cs: seq<nat>)
    requires AllScalars(cs)
    ensures Whatwg(START, EncodeAll(cs)) == cs
  {
    LossyEncode(cs);
    LossyIsWhatwg(EncodeAll(cs));
  }

  lemma {:induction false} LossyEncode(cs: seq<nat>)
    requires AllScalars(cs)
    ensures Lossy(EncodeAll(cs)) == cs
  {
    if cs != [] {
      var p, rest := Encode(cs[0]), EncodeAll(cs[1..]);
      EncodeIsUtf8(cs[0]);
      RunOfSequence(p, rest);
      assert (p + rest)[..|p|] == p && (p + rest)[|p|..] == rest;
      LossyEncode(cs[1..]);
    }
  }

  /** The identity on well-formed input: its decoding encodes to it. */
  lemma {:induction false} EncodeDecode(b: Bytes)
    requires WellFormed(b)
    ensures EncodeAll(Lossy(b)) == b
    decreases |b|
  {
    if b != [] {
      hide *;
      var n := FirstSequence(b);
      EncodeDecode(b[n..]);
      EncodeFirst(DecodeRune(b[..n]), Lossy(b[n..]));
      assert b == b[..n] + b[n..];
    }
  }

  lemma EncodeFirst(c: nat, cs: seq<nat>)
    requires IsScalar(c) && AllScalars(cs)
    ensures AllScalars([c] + cs) && EncodeAll([c] + cs) == Encode(c) + EncodeAll(cs)
  {
    assert ([c] + cs)[1..] == cs;
  }

  lemma FirstSequence(b: Bytes) returns (n: nat)
    requires WellFormed(b) && b != []
    ensures 0 < n <= |b| && WellFormed(b[n..]) && Encode(DecodeRune(b[..n])) == b[..n]
    ensures Lossy(b) == [DecodeRune(b[..n])] + Lossy(b[n..])
  {
    hide Utf8Sequence, DecodeRune, Encode, Run;
    n :| 0 < n <= |b| && Utf8Sequence(b[..n]) && WellFormed(b[n..]);
    assert b == b[..n] + b[n..];
    RunOfSequence(b[..n], b[n..]);
    DecodeIsScalar(b[..n]);
  }

  lemma {:induction false} EncodeAllWellFormed(cs: seq<nat>)
    requires AllScalars(cs)
    ensures WellFormed(EncodeAll(cs))
  {
    if cs != [] {
      var p, rest := Encode(cs[0]), EncodeAll(cs[1..]);
      EncodeIsUtf8(cs[0]);
      EncodeAllWellFormed(cs[1..]);
      assert (p + rest)[..|p|] == p && (p + rest)[|p|..] == rest;
    }
  }

  /** What is read back from a lossily decoded text is that text; and only well-formed input survives as it is. */
  lemma LossyIsIdempotent(b: Bytes)
    ensures WellFormed(EncodeAll(Lossy(b))) && Lossy(EncodeAll(Lossy(b))) == Lossy(b)
    ensures EncodeAll(Lossy(b)) == b <==> WellFormed(b)
  {
    EncodeAllWellFormed(Lossy(b));
    LossyEncode(Lossy(b));
    if WellFormed(b) { EncodeDecode(b); }
  }

  /** The examples of section 7 of RFC 3629, and the replacement character. */
  lemma Examples()
    ensures Encode(0x41) == [0x41] && Encode(0x2262) == [0xE2, 0x89, 0xA2] && Encode(0x391) == [0xCE, 0x91]
    ensures Encode(0x233B4) == [0xF0, 0xA3, 0x8E, 0xB4] && Encode(0xFEFF) == [0xEF, 0xBB, 0xBF]
    ensures Lossy([0xFF]) == [0xFFFD]
  {
    assert Lossy([]) == [];
  }
}

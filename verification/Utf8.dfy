/**
 UTF-8 as `Buffer.toString('utf-8')` reads it: well-formed sequences give their character, and each
 maximal part of an ill-formed one gives U+FFFD (the Unicode Standard, section 3.9).  A `char` stands
 for a Unicode scalar value here.
 */
module Utf8 {

  type Byte = b: int | 0 <= b < 0x100

  const REPLACEMENT: char := '\U{FFFD}'

  predicate IsContinuation(b: Byte) {
    0x80 <= b <= 0xbf
  }

  // ---------- Encoding ----------

  function Low(n: nat): Byte {
    0x80 + n % 64
  }

  function Encode(c: char): seq<Byte> {
    var u := c as int;
    if u < 0x80 then [u]
    else if u < 0x800 then [0xc0 + u / 64, Low(u)]
    else if u < 0x1_0000 then [0xe0 + u / 64 / 64, Low(u / 64), Low(u)]
    else [0xf0 + u / 64 / 64 / 64, Low(u / 64 / 64), Low(u / 64), Low(u)]
  }

  function EncodeAll(t: string): seq<Byte> {
    if t == "" then [] else Encode(t[0]) + EncodeAll(t[1..])
  }

  // ---------- Decoding ----------

  /** How many bytes follow a first byte; -1 for a byte that begins nothing. */
  function Needs(b: Byte): int {
    if b < 0x80 then 0
    else if 0xc2 <= b <= 0xdf then 1
    else if 0xe0 <= b <= 0xef then 2
    else if 0xf0 <= b <= 0xf4 then 3
    else -1
  }

  /** The second bytes a first byte allows: no overlong forms, no surrogates, nothing above U+10FFFF. */
  predicate Second(first: Byte, b: Byte) {
    && IsContinuation(b)
    && (first == 0xe0 ==> b >= 0xa0) && (first == 0xed ==> b <= 0x9f)
    && (first == 0xf0 ==> b >= 0x90) && (first == 0xf4 ==> b <= 0x8f)
  }

  /** The length of the longest part at the front of `b` that a well-formed sequence can begin with. */
  function Good(b: seq<Byte>): (n: nat)
    requires b != []
    ensures n <= |b| && n <= Needs(b[0]) + 1
  {
    var needs := Needs(b[0]);
    if needs < 0 then 0
    else if needs == 0 || |b| == 1 || !Second(b[0], b[1]) then 1
    else if needs == 1 || |b| == 2 || !IsContinuation(b[2]) then 2
    else if needs == 2 || |b| == 3 || !IsContinuation(b[3]) then 3
    else 4
  }

  /** The bits of a byte behind its mark. */
  function Bits(b: Byte, mark: int): int {
    b - mark
  }

  predicate Complete(b: seq<Byte>) {
    b != [] && Needs(b[0]) >= 0 && Good(b) == Needs(b[0]) + 1
  }

  function Scalar(b: seq<Byte>): char
    requires Complete(b)
  {
    var n := Needs(b[0]);
    if n == 0 then b[0] as char
    else if n == 1 then (Bits(b[0], 0xc0) * 64 + Bits(b[1], 0x80)) as char
    else if n == 2 then ((Bits(b[0], 0xe0) * 64 + Bits(b[1], 0x80)) * 64 + Bits(b[2], 0x80)) as char
    else (((Bits(b[0], 0xf0) * 64 + Bits(b[1], 0x80)) * 64 + Bits(b[2], 0x80)) * 64 + Bits(b[3], 0x80)) as char
  }

  function Decode(b: seq<Byte>): string
    decreases |b|
  {
    if b == [] then ""
    else if Complete(b) then [Scalar(b)] + Decode(b[Good(b)..])
    else [REPLACEMENT] + Decode(b[if Good(b) == 0 then 1 else Good(b)..])
  }

  // ---------- Decoding undoes encoding ----------

  lemma EncodeShape(c: char)
    ensures
      var e := Encode(c);
      && 1 <= |e| <= 4 && Needs(e[0]) == |e| - 1 && !IsContinuation(e[0])
      && (|e| > 1 ==> Second(e[0], e[1]))
      && forall i :: 1 <= i < |e| ==> IsContinuation(e[i])
  {
  }

  lemma DecodeOne(c: char, rest: seq<Byte>)
    ensures Decode(Encode(c) + rest) == [c] + Decode(rest)
  {
    var e := Encode(c);
    EncodeShape(c);
    var b := e + rest;
    assert b[..|e|] == e && b[|e|..] == rest && forall i :: 0 <= i < |e| ==> b[i] == e[i];
    assert Good(b) == |e| && Complete(b);
    assert Scalar(b) == c;
  }

  lemma {:induction false} DecodeAll(t: string, rest: seq<Byte>)
    ensures Decode(EncodeAll(t) + rest) == t + Decode(rest)
  {
    hide Decode, Encode;
    if t == "" {
      assert [] + rest == rest && "" + Decode(rest) == Decode(rest);
    } else {
      assert EncodeAll(t) + rest == Encode(t[0]) + (EncodeAll(t[1..]) + rest);
      DecodeOne(t[0], EncodeAll(t[1..]) + rest);
      DecodeAll(t[1..], rest);
      assert t == [t[0]] + t[1..];
    }
  }

  /** What is cut off at the end gives one replacement character. */
  lemma DecodeCut(c: char, n: nat)
    requires 0 < n < |Encode(c)|
    ensures Decode(Encode(c)[..n]) == ['\U{FFFD}']
  {
    var e := Encode(c);
    EncodeShape(c);
    var p := e[..n];
    assert Good(p) == n && !Complete(p) && p[n..] == [];
  }

  /** And each byte left over at the start gives one, as does each byte that no character begins with. */
  lemma DecodeContinuation(b: Byte, rest: seq<Byte>)
    requires IsContinuation(b) || 0xc0 <= b <= 0xc1 || 0xf5 <= b
    ensures Decode([b] + rest) == ['\U{FFFD}'] + Decode(rest)
  {
    assert ([b] + rest)[1..] == rest;
  }

  /** Nothing else is accepted: what is read as a character is the encoding of that character. */
  lemma CompleteIsEncoding(b: seq<Byte>)
    requires Complete(b)
    ensures Good(b) <= |b| && Encode(Scalar(b)) == b[..Good(b)]
  {
    var n := Needs(b[0]);
    if n == 1 {
      Digits(Bits(b[0], 0xc0), Bits(b[1], 0x80));
    } else if n == 2 {
      Digits(Bits(b[0], 0xe0), Bits(b[1], 0x80));
      Digits(Bits(b[0], 0xe0) * 64 + Bits(b[1], 0x80), Bits(b[2], 0x80));
    } else if n == 3 {
      Digits(Bits(b[0], 0xf0), Bits(b[1], 0x80));
      Digits(Bits(b[0], 0xf0) * 64 + Bits(b[1], 0x80), Bits(b[2], 0x80));
      Digits((Bits(b[0], 0xf0) * 64 + Bits(b[1], 0x80)) * 64 + Bits(b[2], 0x80), Bits(b[3], 0x80));
    }
  }

  lemma Digits(high: nat, low: nat)
    requires low < 64
    ensures (high * 64 + low) / 64 == high && (high * 64 + low) % 64 == low
  {
  }
}

/**
 Shift registers over any word type: iterating a step, and feeding bits.  Kept free of
 bit-vectors so that the inductions below are about the register, not about its 32 bits.
 */
module Registers {

  function Iterate<T>(f: T -> T, x: T, n: nat): T
    decreases n
  {
    if n == 0 then x else Iterate(f, f(x), n - 1)
  }

  function FeedBits<T>(feed: (T, bool) -> T, c: T, bits: seq<bool>): T
    decreases |bits|
  {
    if bits == [] then c else FeedBits(feed, feed(c, bits[0]), bits[1..])
  }

  /** The low `n` bits of `b`, least significant first. */
  function LowBits<T>(odd: T -> bool, half: T -> T, b: T, n: nat): seq<bool>
    decreases n
  {
    if n == 0 then [] else [odd(b)] + LowBits(odd, half, half(b), n - 1)
  }

  lemma {:induction false} IterateIsLinear<T(!new)>(f: T -> T, xor: (T, T) -> T, x: T, y: T, n: nat)
    requires forall a, b :: f(xor(a, b)) == xor(f(a), f(b))
    ensures Iterate(f, xor(x, y), n) == xor(Iterate(f, x, n), Iterate(f, y, n))
    decreases n
  {
    if n > 0 {
      IterateIsLinear(f, xor, f(x), f(y), n - 1);
    }
  }

  /** Shifting a register that already holds `n` message bits feeds those bits. */
  lemma {:induction false} ShiftingFeeds<T(!new)>(
      shift: T -> T, xor: (T, T) -> T, feed: (T, bool) -> T, odd: T -> bool, half: T -> T, c: T, b: T, n: nat)
    requires forall x, y :: shift(xor(x, y)) == xor(feed(x, odd(y)), half(y))
    ensures Iterate(shift, xor(c, b), n) == xor(FeedBits(feed, c, LowBits(odd, half, b, n)), Iterate(half, b, n))
    decreases n
  {
    if n > 0 {
      var bits := LowBits(odd, half, b, n);
      assert bits[0] == odd(b) && bits[1..] == LowBits(odd, half, half(b), n - 1);
      ShiftingFeeds(shift, xor, feed, odd, half, feed(c, odd(b)), half(b), n - 1);
    }
  }

  lemma EightTimes<T>(odd: T -> bool, half: T -> T, a: T, b: T, c: T, d: T, e: T, f: T, g: T, h: T, i: T)
    requires half(a) == b && half(b) == c && half(c) == d && half(d) == e
    requires half(e) == f && half(f) == g && half(g) == h && half(h) == i
    ensures Iterate(half, a, 8) == i
    ensures LowBits(odd, half, a, 8) == [odd(a), odd(b), odd(c), odd(d), odd(e), odd(f), odd(g), odd(h)]
  {
    assert Iterate(half, e, 4) == i;
    assert LowBits(odd, half, e, 4) == [odd(e), odd(f), odd(g), odd(h)];
    assert LowBits(odd, half, a, 8) == [odd(a), odd(b), odd(c), odd(d)] + LowBits(odd, half, e, 4);
  }

  lemma {:induction false} FeedConcat<T>(feed: (T, bool) -> T, c: T, a: seq<bool>, b: seq<bool>)
    ensures FeedBits(feed, c, a + b) == FeedBits(feed, FeedBits(feed, c, a), b)
    decreases |a|
  {
    if a == [] {
      assert a + b == b;
    } else {
      assert (a + b)[1..] == a[1..] + b;
      FeedConcat(feed, feed(c, a[0]), a[1..], b);
    }
  }

  /** Where two steps agree along the whole way, so do their iterates. */
  lemma {:induction false} SameOnZeros<T(!new)>(f: T -> T, half: T -> T, odd: T -> bool, b: T, n: nat)
    requires forall x :: !odd(x) ==> f(x) == half(x)
    requires true !in LowBits(odd, half, b, n)
    ensures Iterate(f, b, n) == Iterate(half, b, n)
    decreases n
  {
    if n > 0 {
      var bits := LowBits(odd, half, b, n);
      assert bits[0] == odd(b) && bits[1..] == LowBits(odd, half, half(b), n - 1);
      assert forall x :: x in bits[1..] ==> x in bits;
      SameOnZeros(f, half, odd, half(b), n - 1);
    }
  }
}

/**
 The CRC-32 of setup/lib/teams-manifest.ts, table-driven, against the bit-at-a-time register
 of RFC 2083 sections 3.4 and 15.
 */
module Crc {
  import opened Registers

  type Byte = bv8

  const POLYNOMIAL: bv32 := 0xedb88320
  const ALL_ONES: bv32 := 0xffff_ffff

  function Xor(x: bv32, y: bv32): bv32 {
    x ^ y
  }

  predicate Odd(c: bv32) {
    c & 1 == 1
  }

  function Half(c: bv32): bv32 {
    c >> 1
  }

  // ---------- The reference: a shift register fed one bit at a time ----------

  function FeedBit(c: bv32, bit: bool): bv32 {
    if Odd(c) != bit then Xor(POLYNOMIAL, Half(c)) else Half(c)
  }

  function BitsOf(buf: seq<Byte>): seq<bool> {
    if buf == [] then [] else LowBits(Odd, Half, buf[0] as bv32, 8) + BitsOf(buf[1..])
  }

  /** Register preset to ones, every byte least significant bit first, register complemented at the end. */
  function Reference(buf: seq<Byte>): bv32 {
    FeedBits(FeedBit, ALL_ONES, BitsOf(buf)) ^ ALL_ONES
  }

  // ---------- The table ----------

  /** One turn of the inner loop that fills the table. */
  function Shift(c: bv32): bv32 {
    if Odd(c) then Xor(POLYNOMIAL, Half(c)) else Half(c)
  }

  lemma OddXor(x: bv32, y: bv32)
    ensures Odd(Xor(x, y)) <==> Odd(x) != Odd(y)
  {
  }

  lemma HalfXor(x: bv32, y: bv32)
    ensures Half(Xor(x, y)) == Xor(Half(x), Half(y))
  {
  }

  lemma XorTwice(p: bv32, a: bv32, b: bv32)
    ensures Xor(Xor(p, a), Xor(p, b)) == Xor(a, b)
  {
  }

  lemma XorFirst(p: bv32, a: bv32, b: bv32)
    ensures Xor(Xor(p, a), b) == Xor(p, Xor(a, b))
  {
  }

  lemma XorSecond(p: bv32, a: bv32, b: bv32)
    ensures Xor(a, Xor(p, b)) == Xor(p, Xor(a, b))
  {
  }

  lemma ShiftIsLinear(x: bv32, y: bv32)
    ensures Shift(Xor(x, y)) == Xor(Shift(x), Shift(y))
  {
    hide Xor, Half, Odd;
    OddXor(x, y);
    HalfXor(x, y);
    XorTwice(POLYNOMIAL, Half(x), Half(y));
    XorFirst(POLYNOMIAL, Half(x), Half(y));
    XorSecond(POLYNOMIAL, Half(x), Half(y));
  }

  lemma FeedBitShifts(c: bv32, b: bv32)
    ensures Shift(Xor(c, b)) == Xor(FeedBit(c, Odd(b)), Half(b))
  {
    hide Xor, Half, Odd;
    OddXor(c, b);
    HalfXor(c, b);
    XorFirst(POLYNOMIAL, Half(c), Half(b));
  }

  lemma HalfHalf(b: bv32)
    ensures Half(b >> 1) == b >> 2 && Half(b >> 2) == b >> 3 && Half(b >> 3) == b >> 4
    ensures Half(b >> 4) == b >> 5 && Half(b >> 5) == b >> 6 && Half(b >> 6) == b >> 7 && Half(b >> 7) == b >> 8
  {
  }

  lemma HalvedByte(b: bv32)
    ensures Iterate(Half, b, 8) == b >> 8
    ensures LowBits(Odd, Half, b, 8) ==
            [Odd(b), Odd(b >> 1), Odd(b >> 2), Odd(b >> 3), Odd(b >> 4), Odd(b >> 5), Odd(b >> 6), Odd(b >> 7)]
  {
    HalfHalf(b);
    EightTimes(Odd, Half, b, b >> 1, b >> 2, b >> 3, b >> 4, b >> 5, b >> 6, b >> 7, b >> 8);
  }

  lemma LowByteEven(b: bv32)
    requires b & 0xff == 0
    ensures !Odd(b) && !Odd(b >> 1) && !Odd(b >> 2) && !Odd(b >> 3)
    ensures !Odd(b >> 4) && !Odd(b >> 5) && !Odd(b >> 6) && !Odd(b >> 7)
  {
  }

  lemma SplitLowByte(c: bv32)
    ensures c == Xor(c & 0xff, c & 0xffff_ff00)
    ensures (c & 0xffff_ff00) & 0xff == 0 && (c & 0xffff_ff00) >> 8 == c >> 8
  {
  }

  /** What makes a table possible: eight turns depend on the low byte only, up to a plain shift of the rest. */
  lemma EightShifts(c: bv32)
    ensures Iterate(Shift, c, 8) == Xor(Iterate(Shift, c & 0xff, 8), c >> 8)
  {
    var high := c & 0xffff_ff00;
    SplitLowByte(c);
    LinearTurns(c & 0xff, high);
    ZeroTurns(high);
  }

  lemma LinearTurns(x: bv32, y: bv32)
    ensures Iterate(Shift, Xor(x, y), 8) == Xor(Iterate(Shift, x, 8), Iterate(Shift, y, 8))
  {
    forall a, b ensures Shift(Xor(a, b)) == Xor(Shift(a), Shift(b)) {
      ShiftIsLinear(a, b);
    }
    IterateIsLinear(Shift, Xor, x, y, 8);
  }

  lemma ZeroTurns(high: bv32)
    requires high & 0xff == 0
    ensures Iterate(Shift, high, 8) == high >> 8
  {
    LowByteEven(high);
    HalvedByte(high);
    SameOnZeros(Shift, Half, Odd, high, 8);
  }

  function FeedByte(c: bv32, b: Byte): bv32 {
    FeedBits(FeedBit, c, LowBits(Odd, Half, b as bv32, 8))
  }

  lemma ByteInWord(c: bv32, b: Byte)
    ensures Xor(c, b as bv32) >> 8 == c >> 8
    ensures Xor(c, b as bv32) & 0xff <= 0xff
  {
  }

  lemma ByteHalvesAway(c: bv32, b: Byte)
    ensures Xor(c, Iterate(Half, b as bv32, 8)) == c
  {
    HalvedByte(b as bv32);
    assert (b as bv32) >> 8 == 0;
  }

  lemma ByteFeeds(c: bv32, b: bv32)
    ensures Iterate(Shift, Xor(c, b), 8) == Xor(FeedBits(FeedBit, c, LowBits(Odd, Half, b, 8)), Iterate(Half, b, 8))
  {
    hide *;
    forall x, y ensures Shift(Xor(x, y)) == Xor(FeedBit(x, Odd(y)), Half(y)) {
      FeedBitShifts(x, y);
    }
    ShiftingFeeds(Shift, Xor, FeedBit, Odd, Half, c, b, 8);
  }

  lemma FedByteIsShifted(c: bv32, b: Byte)
    ensures FeedByte(c, b) == Iterate(Shift, Xor(c, b as bv32), 8)
  {
    hide Shift, Odd, Half, FeedBit, Iterate, FeedBits, LowBits;
    ByteFeeds(c, b as bv32);
    ByteHalvesAway(FeedByte(c, b), b);
  }

  function TableIndex(c: bv32, b: Byte): bv8 {
    ByteInWord(c, b);
    ((c ^ b as bv32) & 0xff) as bv8
  }

  function TableEntry(i: bv8): bv32 {
    Iterate(Shift, i as bv32, 8)
  }

  lemma IndexIsLowByte(c: bv32, b: Byte)
    ensures TableIndex(c, b) as bv32 == Xor(c, b as bv32) & 0xff
  {
  }

  /** One turn of the crc loop is one byte fed to the reference register. */
  lemma ByteStep(c: bv32, b: Byte)
    ensures FeedByte(c, b) == Xor(TableEntry(TableIndex(c, b)), c >> 8)
  {
    hide Shift, Odd, Half, FeedBit, Iterate, FeedBits, LowBits, Xor, TableIndex, FeedByte;
    FedByteIsShifted(c, b);
    EightShifts(Xor(c, b as bv32));
    ByteInWord(c, b);
    IndexIsLowByte(c, b);
  }

  // ---------- The code ----------

  ghost predicate IsTable(table: array<bv32>)
    reads table
  {
    table.Length == 256 && forall i: bv8 :: table[i as int] == TableEntry(i)
  }

  method MakeTable() returns (table: array<bv32>)
    ensures fresh(table) && IsTable(table)
  {
    hide Shift, TableEntry;
    table := new bv32[256];
    for n := 0 to 256
      invariant forall i: bv8 :: (i as int) < n ==> table[i as int] == TableEntry(i)
    {
      var c := FillEntry(n as bv8);
      table[n] := c;
    }
  }

  method FillEntry(n: bv8) returns (c: bv32)
    ensures c == TableEntry(n)
  {
    hide Odd;
    c := n as bv32;
    for k := 0 to 8
      invariant Iterate(Shift, c, 8 - k) == TableEntry(n)
    {
      c := if Odd(c) then POLYNOMIAL ^ (c >> 1) else c >> 1;
    }
  }

  lemma {:induction false} BitsSnoc(buf: seq<Byte>, b: Byte)
    ensures BitsOf(buf + [b]) == BitsOf(buf) + LowBits(Odd, Half, b as bv32, 8)
  {
    hide Odd, Half, LowBits;
    if buf == [] {
      assert buf + [b] == [b] && BitsOf([b]) == LowBits(Odd, Half, b as bv32, 8) + BitsOf([]);
    } else {
      assert (buf + [b])[1..] == buf[1..] + [b];
      BitsSnoc(buf[1..], b);
    }
  }

  /** Main result: the table-driven loop computes the bit-at-a-time CRC of every byte sequence. */
  method Crc32(table: array<bv32>, buf: seq<Byte>) returns (crc: bv32)
    requires IsTable(table)
    ensures crc == Reference(buf)
  {
    hide Shift, Odd, Half, FeedBit, Iterate, FeedBits, LowBits, TableEntry, TableIndex;
    var c := ALL_ONES;
    assert FeedBits(FeedBit, ALL_ONES, BitsOf([])) == ALL_ONES by { NothingFed(ALL_ONES); }
    for i := 0 to |buf|
      invariant c == FeedBits(FeedBit, ALL_ONES, BitsOf(buf[..i]))
    {
      ghost var fed := c;
      ByteStep(c, buf[i]);
      c := table[TableIndex(c, buf[i]) as int] ^ (c >> 8);
      assert c == FeedByte(fed, buf[i]);
      BitsSnoc(buf[..i], buf[i]);
      FeedConcat(FeedBit, ALL_ONES, BitsOf(buf[..i]), LowBits(Odd, Half, buf[i] as bv32, 8));
      assert buf[..i + 1] == buf[..i] + [buf[i]];
    }
    assert buf[..|buf|] == buf;
    crc := c ^ ALL_ONES;
  }

  lemma NothingFed(c: bv32)
    ensures FeedBits(FeedBit, c, BitsOf([])) == c
  {
  }

  // ---------- A known checksum, which fixes the polynomial, the preset, the bit order and the complement ----------

  lemma FeedI()
    ensures FeedByte(0xffff_ffff, 0x49) == 0x22fd_e946
  {
    hide FeedByte, Iterate;
    FedByteIsShifted(0xffff_ffff, 0x49);
    assert Xor(0xffff_ffff, 0x49) == 0xffff_ffb6;
    assert Shift(0xffff_ffb6) == 0x7fff_ffdb;
    assert Shift(0x7fff_ffdb) == 0xd247_7ccd;
    assert Shift(0xd247_7ccd) == 0x849b_3d46;
    assert Shift(0x849b_3d46) == 0x424d_9ea3;
    assert Shift(0x424d_9ea3) == 0xcc9e_4c71;
    assert Shift(0xcc9e_4c71) == 0x8bf7_a518;
    assert Shift(0x8bf7_a518) == 0x45fb_d28c;
    assert Shift(0x45fb_d28c) == 0x22fd_e946;
    EightTimes(Odd, Shift, 0xffff_ffb6, 0x7fff_ffdb, 0xd247_7ccd, 0x849b_3d46, 0x424d_9ea3, 0xcc9e_4c71, 0x8bf7_a518, 0x45fb_d28c, 0x22fd_e946);
  }

  lemma FeedE()
    ensures FeedByte(0x22fd_e946, 0x45) == 0x992b_ac53
  {
    hide FeedByte, Iterate;
    FedByteIsShifted(0x22fd_e946, 0x45);
    assert Xor(0x22fd_e946, 0x45) == 0x22fd_e903;
    assert Shift(0x22fd_e903) == 0xfcc6_77a1;
    assert Shift(0xfcc6_77a1) == 0x93db_b8f0;
    assert Shift(0x93db_b8f0) == 0x49ed_dc78;
    assert Shift(0x49ed_dc78) == 0x24f6_ee3c;
    assert Shift(0x24f6_ee3c) == 0x127b_771e;
    assert Shift(0x127b_771e) == 0x093d_bb8f;
    assert Shift(0x093d_bb8f) == 0xe926_5ee7;
    assert Shift(0xe926_5ee7) == 0x992b_ac53;
    EightTimes(Odd, Shift, 0x22fd_e903, 0xfcc6_77a1, 0x93db_b8f0, 0x49ed_dc78, 0x24f6_ee3c, 0x127b_771e, 0x093d_bb8f, 0xe926_5ee7, 0x992b_ac53);
  }

  lemma FeedN()
    ensures FeedByte(0x992b_ac53, 0x4e) == 0x639f_4775
  {
    hide FeedByte, Iterate;
    FedByteIsShifted(0x992b_ac53, 0x4e);
    assert Xor(0x992b_ac53, 0x4e) == 0x992b_ac1d;
    assert Shift(0x992b_ac1d) == 0xa12d_552e;
    assert Shift(0xa12d_552e) == 0x5096_aa97;
    assert Shift(0x5096_aa97) == 0xc5f3_d66b;
    assert Shift(0xc5f3_d66b) == 0x8f41_6815;
    assert Shift(0x8f41_6815) == 0xaa18_372a;
    assert Shift(0xaa18_372a) == 0x550c_1b95;
    assert Shift(0x550c_1b95) == 0xc73e_8eea;
    assert Shift(0xc73e_8eea) == 0x639f_4775;
    EightTimes(Odd, Shift, 0x992b_ac1d, 0xa12d_552e, 0x5096_aa97, 0xc5f3_d66b, 0x8f41_6815, 0xaa18_372a, 0x550c_1b95, 0xc73e_8eea, 0x639f_4775);
  }

  lemma FeedD()
    ensures FeedByte(0x639f_4775, 0x44) == 0x51bd_9f7d
  {
    hide FeedByte, Iterate;
    FedByteIsShifted(0x639f_4775, 0x44);
    assert Xor(0x639f_4775, 0x44) == 0x639f_4731;
    assert Shift(0x639f_4731) == 0xdc77_20b8;
    assert Shift(0xdc77_20b8) == 0x6e3b_905c;
    assert Shift(0x6e3b_905c) == 0x371d_c82e;
    assert Shift(0x371d_c82e) == 0x1b8e_e417;
    assert Shift(0x1b8e_e417) == 0xe07f_f12b;
    assert Shift(0xe07f_f12b) == 0x9d87_7bb5;
    assert Shift(0x9d87_7bb5) == 0xa37b_3efa;
    assert Shift(0xa37b_3efa) == 0x51bd_9f7d;
    EightTimes(Odd, Shift, 0x639f_4731, 0xdc77_20b8, 0x6e3b_905c, 0x371d_c82e, 0x1b8e_e417, 0xe07f_f12b, 0x9d87_7bb5, 0xa37b_3efa, 0x51bd_9f7d);
  }

  lemma FeedFirst(c: bv32, b: Byte, rest: seq<Byte>)
    ensures FeedBits(FeedBit, c, BitsOf([b] + rest)) == FeedBits(FeedBit, FeedByte(c, b), BitsOf(rest))
  {
    hide FeedBit, Odd, Half, LowBits, FeedBits;
    assert ([b] + rest)[1..] == rest;
    FeedConcat(FeedBit, c, LowBits(Odd, Half, b as bv32, 8), BitsOf(rest));
  }

  /** The last four bytes of every PNG file: the checksum of the letters IEND. */
  lemma IendChecksum()
    ensures Reference([0x49, 0x45, 0x4e, 0x44]) == 0xae42_6082
  {
    hide FeedBit, FeedByte, FeedBits, BitsOf;
    FeedI();
    FeedE();
    FeedN();
    FeedD();
    var d: seq<Byte> := [0x44];
    var n, e := [0x4e] + d, [0x45] + ([0x4e] + d);
    assert [0x49] + e == [0x49, 0x45, 0x4e, 0x44] && d + [] == d;
    FeedFirst(0xffff_ffff, 0x49, e);
    FeedFirst(0x22fd_e946, 0x45, n);
    FeedFirst(0x992b_ac53, 0x4e, d);
    FeedFirst(0x639f_4775, 0x44, []);
    NothingFed(0x51bd_9f7d);
    assert ALL_ONES == 0xffff_ffff;
  }

  // ---------- What the checksum is for: a changed burst of up to 32 bits is always noticed ----------

  const POWERS_0: seq<bv32> := [0x1, 0x2, 0x4, 0x8, 0x10, 0x20, 0x40, 0x80]
  const POWERS_8: seq<bv32> := [0x100, 0x200, 0x400, 0x800, 0x1000, 0x2000, 0x4000, 0x8000]
  const POWERS_16: seq<bv32> := [0x1_0000, 0x2_0000, 0x4_0000, 0x8_0000, 0x10_0000, 0x20_0000, 0x40_0000, 0x80_0000]
  const POWERS_24: seq<bv32> := [
    0x100_0000, 0x200_0000, 0x400_0000, 0x800_0000, 0x1000_0000, 0x2000_0000, 0x4000_0000, 0x8000_0000]

  /** Each entry is half the next one. */
  ghost predicate Halving(powers: seq<bv32>) {
    && |powers| > 0 && powers[0] >= 1
    && forall i :: 1 <= i < |powers| ==> powers[i] >= 2 && Half(powers[i]) == powers[i - 1]
  }

  lemma HalvingJoins(a: seq<bv32>, b: seq<bv32>)
    requires Halving(a) && Halving(b) && b[0] >= 2 && Half(b[0]) == a[|a| - 1]
    ensures Halving(a + b)
  {
    hide Half;
  }

  lemma PowersOfTwo() returns (powers: seq<bv32>)
    ensures Halving(powers) && |powers| == 32 && powers[31] == 0x8000_0000
  {
    HalvingJoins(POWERS_0, POWERS_8);
    HalvingJoins(POWERS_16, POWERS_24);
    HalvingJoins(POWERS_0 + POWERS_8, POWERS_16 + POWERS_24);
    powers := (POWERS_0 + POWERS_8) + (POWERS_16 + POWERS_24);
  }

  predicate AtLeast(x: bv32, m: bv32) {
    x >= m
  }

  lemma HalfIsMonotone(x: bv32, m: bv32)
    requires AtLeast(x, m)
    ensures AtLeast(Half(x), Half(m))
  {
  }

  lemma BothFeedBack(c: bv32, d: bv32, b: bool, e: bool)
    requires Odd(c) != b && Odd(d) != e
    ensures Xor(FeedBit(c, b), FeedBit(d, e)) == Half(Xor(c, d))
  {
    hide Xor, Half, Odd;
    HalfXor(c, d);
    XorTwice(POLYNOMIAL, Half(c), Half(d));
  }

  lemma NoneFeedsBack(c: bv32, d: bv32, b: bool, e: bool)
    requires Odd(c) == b && Odd(d) == e
    ensures Xor(FeedBit(c, b), FeedBit(d, e)) == Half(Xor(c, d))
  {
    hide Xor, Half, Odd;
    HalfXor(c, d);
  }

  lemma TopBitFirst(x: bv32, y: bv32, m: bv32)
    ensures AtLeast(Xor(Xor(POLYNOMIAL, Half(x)), Half(y)), Half(m))
  {
  }

  lemma TopBitSecond(x: bv32, y: bv32, m: bv32)
    ensures AtLeast(Xor(Half(x), Xor(POLYNOMIAL, Half(y))), Half(m))
  {
  }

  lemma OneFeedsBack(c: bv32, d: bv32, b: bool, e: bool, m: bv32)
    requires (Odd(c) != b) != (Odd(d) != e)
    ensures AtLeast(Xor(FeedBit(c, b), FeedBit(d, e)), Half(m))
  {
    hide Xor, Half, Odd, AtLeast;
    TopBitFirst(c, d, m);
    TopBitSecond(c, d, m);
  }

  /** One more bit on each side moves the highest difference down by at most one place. */
  lemma DifferenceShifts(c: bv32, d: bv32, b: bool, e: bool, m: bv32)
    requires AtLeast(Xor(c, d), m)
    ensures AtLeast(Xor(FeedBit(c, b), FeedBit(d, e)), Half(m))
  {
    hide FeedBit, Half, Odd, Xor, AtLeast;
    HalfIsMonotone(Xor(c, d), m);
    if Odd(c) != b && Odd(d) != e {
      BothFeedBack(c, d, b, e);
    } else if Odd(c) == b && Odd(d) == e {
      NoneFeedsBack(c, d, b, e);
    } else {
      OneFeedsBack(c, d, b, e, m);
    }
  }

  lemma FeedbackFirst(c: bv32, b: bool, e: bool)
    requires b != e
    ensures AtLeast(Xor(FeedBit(c, b), FeedBit(c, e)), 0x8000_0000)
  {
  }

  lemma Differ(c: bv32, d: bv32, m: bv32)
    requires AtLeast(Xor(c, d), m) && m >= 1
    ensures c != d
  {
  }

  lemma FeedBitInjective(c: bv32, d: bv32, b: bool)
    requires FeedBit(c, b) == FeedBit(d, b)
    ensures c == d
  {
  }

  lemma PowerAt(powers: seq<bv32>, n: nat)
    requires Halving(powers) && n < |powers|
    ensures powers[n] >= 1 && (n > 0 ==> Half(powers[n]) == powers[n - 1])
  {
    hide Half;
  }

  /** Registers that differ at bit `n` or above still differ after `n` more bits, whatever the bits. */
  lemma {:induction false} StillDiffer(powers: seq<bv32>, c: bv32, d: bv32, x: seq<bool>, y: seq<bool>, n: nat)
    requires Halving(powers) && |x| == |y| <= n < |powers| && AtLeast(Xor(c, d), powers[n])
    ensures FeedBits(FeedBit, c, x) != FeedBits(FeedBit, d, y)
    decreases n
  {
    hide FeedBit, Half, Xor, Odd, Halving, AtLeast;
    PowerAt(powers, n);
    if |x| == 0 {
      Differ(c, d, powers[n]);
    } else {
      DifferenceShifts(c, d, x[0], y[0], powers[n]);
      var c', d' := FeedBit(c, x[0]), FeedBit(d, y[0]);
      StillDiffer(powers, c', d', x[1..], y[1..], n - 1);
    }
  }

  lemma {:induction false} BurstChangesRegister(c: bv32, x: seq<bool>, y: seq<bool>)
    requires |x| == |y| <= 32 && x != y
    ensures FeedBits(FeedBit, c, x) != FeedBits(FeedBit, c, y)
    decreases |x|
  {
    hide FeedBit, Halving, Xor, AtLeast;
    if x[0] == y[0] {
      assert x == [x[0]] + x[1..] && y == [y[0]] + y[1..];
      BurstChangesRegister(FeedBit(c, x[0]), x[1..], y[1..]);
    } else {
      FeedbackFirst(c, x[0], y[0]);
      var powers := PowersOfTwo();
      StillDiffer(powers, FeedBit(c, x[0]), FeedBit(c, y[0]), x[1..], y[1..], 31);
    }
  }

  lemma {:induction false} FeedingIsInjective(c: bv32, d: bv32, bits: seq<bool>)
    requires c != d
    ensures FeedBits(FeedBit, c, bits) != FeedBits(FeedBit, d, bits)
    decreases |bits|
  {
    hide FeedBit;
    if bits != [] {
      if FeedBit(c, bits[0]) == FeedBit(d, bits[0]) { FeedBitInjective(c, d, bits[0]); }
      FeedingIsInjective(FeedBit(c, bits[0]), FeedBit(d, bits[0]), bits[1..]);
    }
  }

  lemma {:induction false} BitsConcat(a: seq<Byte>, b: seq<Byte>)
    ensures BitsOf(a + b) == BitsOf(a) + BitsOf(b)
  {
    hide Odd, Half, LowBits;
    if a == [] {
      assert a + b == b;
    } else {
      assert (a + b)[1..] == a[1..] + b;
      BitsConcat(a[1..], b);
    }
  }

  lemma ByteFromBits(a: Byte, b: Byte)
    requires LowBits(Odd, Half, a as bv32, 8) == LowBits(Odd, Half, b as bv32, 8)
    ensures a == b
  {
    hide LowBits;
    var x, y := a as bv32, b as bv32;
    HalvedByte(x);
    HalvedByte(y);
    var p, q := LowBits(Odd, Half, x, 8), LowBits(Odd, Half, y, 8);
    assert p[0] == q[0] && p[1] == q[1] && p[2] == q[2] && p[3] == q[3];
    assert p[4] == q[4] && p[5] == q[5] && p[6] == q[6] && p[7] == q[7];
    SameBits(x, y);
  }

  lemma SameBits(x: bv32, y: bv32)
    requires x <= 0xff && y <= 0xff
    requires Odd(x) == Odd(y) && Odd(x >> 1) == Odd(y >> 1) && Odd(x >> 2) == Odd(y >> 2) && Odd(x >> 3) == Odd(y >> 3)
    requires Odd(x >> 4) == Odd(y >> 4) && Odd(x >> 5) == Odd(y >> 5) && Odd(x >> 6) == Odd(y >> 6)
    requires Odd(x >> 7) == Odd(y >> 7)
    ensures x == y
  {
  }

  lemma EightBits(b: bv32)
    ensures |LowBits(Odd, Half, b, 8)| == 8
  {
    HalvedByte(b);
  }

  lemma {:induction false} BitsAreFaithful(x: seq<Byte>, y: seq<Byte>)
    requires |x| == |y|
    ensures |BitsOf(x)| == 8 * |x| && |BitsOf(y)| == 8 * |x|
    ensures BitsOf(x) == BitsOf(y) ==> x == y
  {
    hide LowBits, Odd, Half;
    if x != [] {
      var p, q := LowBits(Odd, Half, x[0] as bv32, 8), LowBits(Odd, Half, y[0] as bv32, 8);
      EightBits(x[0] as bv32);
      EightBits(y[0] as bv32);
      BitsAreFaithful(x[1..], y[1..]);
      if BitsOf(x) == BitsOf(y) {
        assert p == BitsOf(x)[..8] == BitsOf(y)[..8] == q;
        assert BitsOf(x[1..]) == BitsOf(x)[8..] == BitsOf(y)[8..] == BitsOf(y[1..]);
        ByteFromBits(x[0], y[0]);
        assert x == [x[0]] + x[1..] && y == [y[0]] + y[1..];
      }
    }
  }

  /** Changing up to four consecutive bytes of a message, and nothing else, always changes its checksum. */
  lemma BurstIsDetected(before: seq<Byte>, x: seq<Byte>, y: seq<Byte>, after: seq<Byte>)
    requires |x| == |y| <= 4 && x != y
    ensures Reference(before + x + after) != Reference(before + y + after)
  {
    hide FeedBit, Odd, Half, LowBits, FeedBits, BitsOf;
    var c := FeedBits(FeedBit, ALL_ONES, BitsOf(before));
    forall z: seq<Byte>
      ensures FeedBits(FeedBit, ALL_ONES, BitsOf(before + z + after)) ==
              FeedBits(FeedBit, FeedBits(FeedBit, c, BitsOf(z)), BitsOf(after))
    {
      BitsConcat(before + z, after);
      BitsConcat(before, z);
      FeedConcat(FeedBit, ALL_ONES, BitsOf(before) + BitsOf(z), BitsOf(after));
      FeedConcat(FeedBit, ALL_ONES, BitsOf(before), BitsOf(z));
    }
    BitsAreFaithful(x, y);
    BurstChangesRegister(c, BitsOf(x), BitsOf(y));
    FeedingIsInjective(FeedBits(FeedBit, c, BitsOf(x)), FeedBits(FeedBit, c, BitsOf(y)), BitsOf(after));
    ComplementInjective(FeedBits(FeedBit, ALL_ONES, BitsOf(before + x + after)),
                        FeedBits(FeedBit, ALL_ONES, BitsOf(before + y + after)));
  }

  lemma ComplementInjective(c: bv32, d: bv32)
    ensures c ^ ALL_ONES == d ^ ALL_ONES ==> c == d
  {
  }
}

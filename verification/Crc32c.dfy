/** The CRC-32C of voyager/util/crc32c.cc: a table-driven loop that eats four bytes at a
    time, proved equal to the bit-serial checksum of section 12.1 of RFC 3720. */
module Crc32c {
  import opened Fixed

  // The generator polynomial 0x11EDC6F41 without its top bit, bits reflected.
  const POLYNOMIAL: bv32 := 0x82f63b78
  const ALL_ONES: bv32 := 0xffff_ffff
  const MASK_DELTA: bv32 := 0xa282_ead8

  // Named so that proofs can use the laws of these operations and keep the bits out of sight.
  function Xor(a: bv32, b: bv32): bv32 { a ^ b }
  function Half(a: bv32): bv32 { a >> 1 }
  predicate Odd(a: bv32) { a & 1 == 1 }

  // ----- The bit-serial reference -----

  /** The register after one message bit. */
  function FeedBit(l: bv32, bit: bool): bv32 {
    if Odd(l) != bit then Xor(Half(l), POLYNOMIAL) else Half(l)
  }

  function FeedBits(l: bv32, bits: seq<bool>): bv32
    decreases bits
  {
    if bits == [] then l else FeedBits(FeedBit(l, bits[0]), bits[1..])
  }

  /** The n low bits of w in transmission order, least significant first. */
  function LowBits(w: bv32, n: nat): seq<bool>
    decreases n
  {
    if n == 0 then [] else [Odd(w)] + LowBits(Half(w), n - 1)
  }

  function FeedBytes(l: bv32, s: seq<bv8>): bv32
    decreases s
  {
    if s == [] then l else FeedBytes(FeedBits(l, LowBits(s[0] as bv32, 8)), s[1..])
  }

  /** The CRC of A ++ s, where crc is the CRC of A. */
  function BitSerial(crc: bv32, s: seq<bv8>): bv32 {
    Xor(FeedBytes(Xor(crc, ALL_ONES), s), ALL_ONES)
  }

  // ----- The lookup tables: what zero bytes make of an index -----

  function ShiftZeros(l: bv32, n: nat): bv32
    decreases n
  {
    if n == 0 then l else ShiftZeros(FeedBit(l, false), n - 1)
  }

  function Table0(c: bv32): bv32 { ShiftZeros(c, 8) }
  function Table1(c: bv32): bv32 { Table0(Table0(c)) }
  function Table2(c: bv32): bv32 { Table0(Table1(c)) }
  function Table3(c: bv32): bv32 { Table0(Table2(c)) }

  // ----- Linearity over xor -----

  lemma XorAssociative(a: bv32, b: bv32, c: bv32)
    ensures Xor(Xor(a, b), c) == Xor(a, Xor(b, c))
  {
    assert (a ^ b) ^ c == a ^ (b ^ c);
  }

  lemma XorCommutative(a: bv32, b: bv32)
    ensures Xor(a, b) == Xor(b, a)
  {
  }

  lemma XorCancels(a: bv32)
    ensures Xor(a, a) == 0 && Xor(a, 0) == a
  {
  }

  lemma XorSwap(a: bv32, b: bv32, c: bv32)
    ensures Xor(Xor(a, b), c) == Xor(Xor(a, c), b)
  {
    hide Xor;
    XorAssociative(a, b, c);
    XorAssociative(a, c, b);
    XorCommutative(b, c);
  }

  lemma XorUndo(a: bv32, c: bv32)
    ensures Xor(Xor(a, c), c) == a
  {
    hide Xor;
    XorAssociative(a, c, c);
    XorCancels(c);
    XorCancels(a);
  }

  lemma XorPairs(a: bv32, b: bv32, c: bv32, d: bv32)
    ensures Xor(Xor(a, b), Xor(c, d)) == Xor(Xor(a, c), Xor(b, d))
  {
    hide Xor;
    XorAssociative(Xor(a, b), c, d);
    XorSwap(a, b, c);
    XorAssociative(Xor(a, c), b, d);
  }

  lemma OddXor(a: bv32, b: bv32)
    ensures Odd(Xor(a, b)) == (Odd(a) != Odd(b))
  {
  }

  lemma HalfXor(a: bv32, b: bv32)
    ensures Half(Xor(a, b)) == Xor(Half(a), Half(b))
  {
  }

  lemma AbsorbBit(l: bv32, w: bv32)
    ensures FeedBit(Xor(l, w), false) == Xor(FeedBit(l, Odd(w)), Half(w))
    ensures FeedBit(Xor(l, w), false) == Xor(FeedBit(l, false), FeedBit(w, false))
  {
    hide Xor, Half, Odd;
    var l', w' := Half(l), Half(w);
    OddXor(l, w);
    HalfXor(l, w);
    XorSwap(l', w', POLYNOMIAL);
    XorAssociative(l', w', POLYNOMIAL);
    XorPairs(l', POLYNOMIAL, w', POLYNOMIAL);
    XorCancels(POLYNOMIAL);
    XorCancels(Xor(l', w'));
  }

  /** Shifting zero bits through the register is linear over xor. */
  lemma {:induction false} ShiftLinear(a: bv32, b: bv32, n: nat)
    ensures ShiftZeros(Xor(a, b), n) == Xor(ShiftZeros(a, n), ShiftZeros(b, n))
    decreases n
  {
    hide Xor, FeedBit;
    if n != 0 {
      AbsorbBit(a, b);
      ShiftLinear(FeedBit(a, false), FeedBit(b, false), n - 1);
    }
  }

  function DropBits(w: bv32, n: nat): bv32
    decreases n
  {
    if n == 0 then w else DropBits(Half(w), n - 1)
  }

  /** Xoring n bits in at once and shifting zeros through feeds those bits one by one. */
  lemma {:induction false} AbsorbBits(l: bv32, w: bv32, n: nat)
    ensures ShiftZeros(Xor(l, w), n) == Xor(FeedBits(l, LowBits(w, n)), DropBits(w, n))
    decreases n
  {
    hide Xor, FeedBit, Half, Odd;
    if n != 0 {
      AbsorbBit(l, w);
      AbsorbBits(FeedBit(l, Odd(w)), Half(w), n - 1);
      assert LowBits(w, n)[1..] == LowBits(Half(w), n - 1);
    }
  }

  lemma ByteHasEightBits(b: bv8)
    ensures DropBits(b as bv32, 8) == 0
  {
    assert (b as bv32) >> 4 < 16;
    assert DropBits(b as bv32, 4) == (b as bv32) >> 4;
    DropNibble((b as bv32) >> 4);
  }

  lemma DropNibble(w: bv32)
    requires w < 16
    ensures DropBits(w, 4) == 0
  {
  }

  lemma ByteStep(l: bv32, b: bv8)
    ensures FeedBits(l, LowBits(b as bv32, 8)) == ShiftZeros(Xor(l, b as bv32), 8)
  {
    hide *;
    ByteHasEightBits(b);
    AbsorbBits(l, b as bv32, 8);
    XorCancels(FeedBits(l, LowBits(b as bv32, 8)));
  }

  // ----- Whole bytes -----

  function Double(x: bv32): bv32 { x << 1 }

  predicate Small(x: bv32) { x < 0x8000_0000 }

  function ByteUp(b: bv32): bv32 { b << 8 }

  lemma FeedDouble(x: bv32)
    requires Small(x)
    ensures FeedBit(Double(x), false) == x
  {
  }

  lemma ByteUpDoubles(b: bv32)
    requires b < 0x0100_0000
    ensures
      var b1 := Double(b); var b2 := Double(b1); var b3 := Double(b2); var b4 := Double(b3);
      var b5 := Double(b4); var b6 := Double(b5); var b7 := Double(b6);
      Small(b) && Small(b1) && Small(b2) && Small(b3) && Small(b4) && Small(b5) && Small(b6) && Small(b7)
      && Double(b7) == ByteUp(b)
  {
  }

  lemma ShiftEight(b8: bv32, b7: bv32, b6: bv32, b5: bv32, b4: bv32, b3: bv32, b2: bv32, b1: bv32, b: bv32)
    requires FeedBit(b8, false) == b7 && FeedBit(b7, false) == b6 && FeedBit(b6, false) == b5
    requires FeedBit(b5, false) == b4 && FeedBit(b4, false) == b3 && FeedBit(b3, false) == b2
    requires FeedBit(b2, false) == b1 && FeedBit(b1, false) == b
    ensures ShiftZeros(b8, 8) == b
  {
    hide FeedBit;
    assert ShiftZeros(b4, 4) == b;
  }

  lemma Table0Linear(a: bv32, b: bv32)
    ensures Table0(Xor(a, b)) == Xor(Table0(a), Table0(b))
  {
    ShiftLinear(a, b, 8);
  }

  /** A zero byte shifts out a low byte of zeros and nothing else. */
  lemma Table0ByteUp(b: bv32)
    requires b < 0x0100_0000
    ensures Table0(ByteUp(b)) == b
  {
    hide Double, FeedBit, Small, ByteUp, ShiftZeros;
    ByteUpDoubles(b);
    var b1 := Double(b);
    var b2 := Double(b1);
    var b3 := Double(b2);
    var b4 := Double(b3);
    var b5 := Double(b4);
    var b6 := Double(b5);
    var b7 := Double(b6);
    FeedDouble(b);
    FeedDouble(b1);
    FeedDouble(b2);
    FeedDouble(b3);
    FeedDouble(b4);
    FeedDouble(b5);
    FeedDouble(b6);
    FeedDouble(b7);
    ShiftEight(Double(b7), b7, b6, b5, b4, b3, b2, b1, b);
  }

  lemma SplitByte(x: bv32)
    ensures Xor(x & 0xff, ByteUp(x >> 8)) == x && x >> 8 < 0x0100_0000
  {
  }

  /** Only the low byte needs a lookup; the rest is shifted down. */
  lemma Table0Split(x: bv32)
    ensures Table0(x) == Xor(Table0(x & 0xff), x >> 8)
  {
    hide Xor, Table0, ByteUp;
    SplitByte(x);
    Table0ByteUp(x >> 8);
    Table0Linear(x & 0xff, ByteUp(x >> 8));
  }

  // ----- The two step macros -----

  function Step1(l: bv32, b: bv8): bv32 {
    Xor(Table0((l & 0xff) ^ (b as bv32)), l >> 8)
  }

  function Byte0(c: bv32): bv32 { c & 0xff }
  function Byte1(c: bv32): bv32 { (c >> 8) & 0xff }
  function Byte2(c: bv32): bv32 { (c >> 16) & 0xff }
  function Byte3(c: bv32): bv32 { c >> 24 }

  function Step4(l: bv32, word: bv32): bv32 {
    var c := Xor(l, word);
    Xor(Xor(Xor(Table3(Byte0(c)), Table2(Byte1(c))), Table1(Byte2(c))), Table0(Byte3(c)))
  }

  lemma LowByteXor(l: bv32, b: bv8, x: bv32)
    requires x == Xor(l, b as bv32)
    ensures x & 0xff == (l & 0xff) ^ (b as bv32) && x >> 8 == l >> 8
  {
  }

  lemma Step1Correct(l: bv32, b: bv8)
    ensures Step1(l, b) == FeedBits(l, LowBits(b as bv32, 8))
  {
    hide Xor, ShiftZeros, FeedBits, LowBits;
    var x := Xor(l, b as bv32);
    LowByteXor(l, b, x);
    Table0Split(x);
    ByteStep(l, b);
  }

  /** Four zero bytes, each of which looks one byte up and leaves the rest to the next. */
  lemma PeelColumns(c: bv32, c0: bv32, r1: bv32, c1: bv32, r2: bv32, c2: bv32, r3: bv32)
    requires Table0(c) == Xor(Table0(c0), r1)
    requires Table0(r1) == Xor(Table0(c1), r2)
    requires Table0(r2) == Xor(Table0(c2), r3)
    ensures Table3(c) == Xor(Xor(Xor(Table3(c0), Table2(c1)), Table1(c2)), Table0(r3))
  {
    hide Xor, Table0;
    Table0Linear(Table0(c0), r1);
    XorAssociative(Table1(c0), Table0(c1), r2);
    Table0Linear(Xor(Table1(c0), Table0(c1)), r2);
    Table0Linear(Table1(c0), Table0(c1));
    XorAssociative(Xor(Table2(c0), Table1(c1)), Table0(c2), r3);
    Table0Linear(Xor(Xor(Table2(c0), Table1(c1)), Table0(c2)), r3);
    Table0Linear(Xor(Table2(c0), Table1(c1)), Table0(c2));
    Table0Linear(Table2(c0), Table1(c1));
  }

  function Rest1(c: bv32): bv32 { c >> 8 }
  function Rest2(c: bv32): bv32 { c >> 16 }

  lemma Column0(c: bv32)
    ensures Table0(c) == Xor(Table0(Byte0(c)), Rest1(c))
  {
    hide Xor, Table0;
    Table0Split(c);
  }

  lemma Column1(c: bv32)
    ensures Table0(Rest1(c)) == Xor(Table0(Byte1(c)), Rest2(c))
  {
    hide Xor, Table0;
    Table0Split(Rest1(c));
    assert (c >> 8) >> 8 == c >> 16;
  }

  lemma Column2(c: bv32)
    ensures Table0(Rest2(c)) == Xor(Table0(Byte2(c)), Byte3(c))
  {
    hide Xor, Table0;
    Table0Split(Rest2(c));
    assert (c >> 16) >> 8 == c >> 24;
  }

  lemma FourColumns(l: bv32, word: bv32)
    ensures Step4(l, word) == Table3(Xor(l, word))
  {
    hide Xor, Table0, Table1, Table2, Table3, Byte0, Byte1, Byte2, Byte3, Rest1, Rest2;
    var c := Xor(l, word);
    Column0(c);
    Column1(c);
    Column2(c);
    PeelColumns(c, Byte0(c), Rest1(c), Byte1(c), Rest2(c), Byte2(c), Byte3(c));
  }

  lemma WordBytes(b0: bv8, b1: bv8, b2: bv8, b3: bv8)
    ensures DecodeFixed32(b0, b1, b2, b3) ==
      Xor(Xor(Xor(b0 as bv32, ByteUp(b1 as bv32)), ByteUp(ByteUp(b2 as bv32))), ByteUp(ByteUp(ByteUp(b3 as bv32))))
    ensures (b1 as bv32) < 0x0100_0000 && (b2 as bv32) < 0x0100_0000 && (b3 as bv32) < 0x0100_0000
    ensures ByteUp(b2 as bv32) < 0x0100_0000 && ByteUp(b3 as bv32) < 0x0100_0000
    ensures ByteUp(ByteUp(b3 as bv32)) < 0x0100_0000
  {
  }

  /** A byte may be xored in late, or early and one place higher. */
  lemma XorEarly(x: bv32, b: bv32)
    requires b < 0x0100_0000
    ensures Xor(Table0(x), b) == Table0(Xor(x, ByteUp(b)))
  {
    hide Xor, Table0, ByteUp;
    Table0Linear(x, ByteUp(b));
    Table0ByteUp(b);
  }

  function Bytewise(l: bv32, b: bv8): bv32 { Table0(Xor(l, b as bv32)) }

  /** One four-byte step is four byte steps. */
  lemma Step4Correct(l: bv32, b0: bv8, b1: bv8, b2: bv8, b3: bv8)
    ensures Step4(l, DecodeFixed32(b0, b1, b2, b3)) == Bytewise(Bytewise(Bytewise(Bytewise(l, b0), b1), b2), b3)
  {
    hide Xor, Table0, ByteUp, Step4, DecodeFixed32;
    var w0, w1, w2, w3 := b0 as bv32, b1 as bv32, b2 as bv32, b3 as bv32;
    FourColumns(l, DecodeFixed32(b0, b1, b2, b3));
    WordBytes(b0, b1, b2, b3);
    var x0 := Xor(l, w0);
    var x1 := Xor(x0, ByteUp(w1));
    var x2 := Xor(x1, ByteUp(ByteUp(w2)));
    XorEarly(x0, w1);
    XorEarly(Table0(x1), w2);
    XorEarly(x1, ByteUp(w2));
    XorEarly(Table1(x2), w3);
    XorEarly(Table0(x2), ByteUp(w3));
    XorEarly(x2, ByteUp(ByteUp(w3)));
    XorAssociative(l, w0, ByteUp(w1));
    XorAssociative(l, Xor(w0, ByteUp(w1)), ByteUp(ByteUp(w2)));
    XorAssociative(l, Xor(Xor(w0, ByteUp(w1)), ByteUp(ByteUp(w2))), ByteUp(ByteUp(ByteUp(w3))));
  }

  /** The entries of the stored table at the powers of two; the others are xors of these. */
  lemma Table0Entries()
    ensures Table0(1) == 0xf26b8303 && Table0(2) == 0xe13b70f7
    ensures Table0(4) == 0xc79a971f && Table0(8) == 0x8ad958cf
    ensures Table0(16) == 0x105ec76f && Table0(32) == 0x20bd8ede
    ensures Table0(64) == 0x417b1dbc && Table0(128) == 0x82f63b78
  {
  }

  // ----- The checksum -----

  lemma Eat1(l: bv32, s: seq<bv8>)
    requires |s| >= 1
    ensures FeedBytes(l, s) == FeedBytes(Step1(l, s[0]), s[1..])
  {
    hide Step1, FeedBits, LowBits;
    Step1Correct(l, s[0]);
  }

  lemma EatBytewise(l: bv32, s: seq<bv8>)
    requires |s| >= 1
    ensures FeedBytes(l, s) == FeedBytes(Bytewise(l, s[0]), s[1..])
  {
    hide Xor, FeedBits, LowBits, ShiftZeros;
    ByteStep(l, s[0]);
  }

  lemma Eat4(l: bv32, s: seq<bv8>)
    requires |s| >= 4
    ensures FeedBytes(l, s) == FeedBytes(Step4(l, DecodeFixed32(s[0], s[1], s[2], s[3])), s[4..])
  {
    hide Bytewise, Step4, DecodeFixed32, FeedBytes;
    var l1 := Bytewise(l, s[0]);
    var l2 := Bytewise(l1, s[1]);
    var l3 := Bytewise(l2, s[2]);
    EatBytewise(l, s);
    EatBytewise(l1, s[1..]);
    EatBytewise(l2, s[2..]);
    EatBytewise(l3, s[3..]);
    assert s[1..][1..] == s[2..] && s[2..][1..] == s[3..] && s[3..][1..] == s[4..];
    Step4Correct(l, s[0], s[1], s[2], s[3]);
  }

  lemma FeedNothing(l: bv32, s: seq<bv8>)
    requires s == []
    ensures FeedBytes(l, s) == l
  {
  }

  /** The four-bytes-at-a-time loop, where addr is the address of the first byte. */
  method Extend(crc: bv32, buf: seq<bv8>, addr: nat) returns (r: bv32)
    ensures r == BitSerial(crc, buf)
  {
    hide Xor, Step1, Step4, DecodeFixed32, FeedBytes;
    var p, e := 0, |buf|;
    var l := Xor(crc, ALL_ONES);
    ghost var all := FeedBytes(l, buf);
    // The first aligned byte, which may lie just past the end of the buffer.
    var x := (addr + 3) / 4 * 4 - addr;
    if x <= e {
      while p != x
        invariant p <= x
        invariant FeedBytes(l, buf[p..]) == all
      {
        Eat1(l, buf[p..]);
        assert buf[p..][1..] == buf[p + 1..];
        l := Step1(l, buf[p]);
        p := p + 1;
      }
    }
    while e - p >= 16
      invariant p <= e
      invariant FeedBytes(l, buf[p..]) == all
    {
      l, p := EatWord(l, buf, p);
      l, p := EatWord(l, buf, p);
      l, p := EatWord(l, buf, p);
      l, p := EatWord(l, buf, p);
    }
    while e - p >= 4
      invariant p <= e
      invariant FeedBytes(l, buf[p..]) == all
    {
      l, p := EatWord(l, buf, p);
    }
    while p != e
      invariant p <= e
      invariant FeedBytes(l, buf[p..]) == all
    {
      Eat1(l, buf[p..]);
      assert buf[p..][1..] == buf[p + 1..];
      l := Step1(l, buf[p]);
      p := p + 1;
    }
    FeedNothing(l, buf[p..]);
    r := Xor(l, ALL_ONES);
  }

  method EatWord(l: bv32, buf: seq<bv8>, p: nat) returns (l': bv32, p': nat)
    requires p + 4 <= |buf|
    ensures p' == p + 4
    ensures FeedBytes(l', buf[p'..]) == FeedBytes(l, buf[p..])
  {
    hide Step4, DecodeFixed32, FeedBytes;
    Eat4(l, buf[p..]);
    assert buf[p..][4..] == buf[p + 4..];
    l' := Step4(l, DecodeFixed32(buf[p], buf[p + 1], buf[p + 2], buf[p + 3]));
    p' := p + 4;
  }

  lemma {:induction false} FeedAppend(l: bv32, a: seq<bv8>, b: seq<bv8>)
    ensures FeedBytes(l, a + b) == FeedBytes(FeedBytes(l, a), b)
    decreases a
  {
    if a == [] {
      assert a + b == b;
    } else {
      hide FeedBits, LowBits;
      assert (a + b)[1..] == a[1..] + b;
      FeedAppend(FeedBits(l, LowBits(a[0] as bv32, 8)), a[1..], b);
    }
  }

  /** Extending by a and then by b is extending by a ++ b. */
  lemma ExtendConcat(crc: bv32, a: seq<bv8>, b: seq<bv8>)
    ensures BitSerial(BitSerial(crc, a), b) == BitSerial(crc, a + b)
  {
    hide Xor, FeedBytes;
    XorUndo(FeedBytes(Xor(crc, ALL_ONES), a), ALL_ONES);
    FeedAppend(Xor(crc, ALL_ONES), a, b);
  }

  // ----- Values that fix the constants -----

  function Zeros(n: nat): (s: seq<bv8>)
    ensures |s| == n
  {
    seq(n, _ => 0)
  }

  lemma ZeroByte(l: bv32)
    ensures Bytewise(l, 0) == Table0(l)
  {
    hide Table0;
  }

  lemma FeedZeroWord(l: bv32, n: nat)
    ensures FeedBytes(l, Zeros(n + 4)) == FeedBytes(Table3(l), Zeros(n))
  {
    hide FeedBytes, Table0, Bytewise;
    var l1 := Table0(l);
    var l2 := Table0(l1);
    var l3 := Table0(l2);
    ZeroByte(l);
    ZeroByte(l1);
    ZeroByte(l2);
    ZeroByte(l3);
    EatBytewise(l, Zeros(n + 4));
    EatBytewise(l1, Zeros(n + 3));
    EatBytewise(l2, Zeros(n + 2));
    EatBytewise(l3, Zeros(n + 1));
    assert Zeros(n + 4)[1..] == Zeros(n + 3) && Zeros(n + 3)[1..] == Zeros(n + 2);
    assert Zeros(n + 2)[1..] == Zeros(n + 1) && Zeros(n + 1)[1..] == Zeros(n);
  }

  lemma ZeroWord0()
    ensures Table3(0xffff_ffff) == 0xb798_b438
  {
    assert Table0(0xffff_ffff) == 0xad82_acae && Table0(0xad82_acae) == 0x0e9e_882d;
    assert Table0(0x0e9e_882d) == 0x9f9b_5c85 && Table0(0x9f9b_5c85) == 0xb798_b438;
    hide Table0;
  }

  lemma ZeroWord1()
    ensures Table3(0xb798_b438) == 0x73d7_4d75
  {
    assert Table0(0xb798_b438) == 0xba8d_89ca && Table0(0xba8d_89ca) == 0xa8d5_8375;
    assert Table0(0xa8d5_8375) == 0x44c1_9592 && Table0(0x44c1_9592) == 0x73d7_4d75;
    hide Table0;
  }

  lemma ZeroWord2()
    ensures Table3(0x73d7_4d75) == 0xd49f_4aa2
  {
    assert Table0(0x73d7_4d75) == 0x441a_975c && Table0(0x441a_975c) == 0x1c22_0f94;
    assert Table0(0x1c22_0f94) == 0x552e_4907 && Table0(0x552e_4907) == 0xd49f_4aa2;
    hide Table0;
  }

  lemma ZeroWord3()
    ensures Table3(0xd49f_4aa2) == 0xbd8f_6515
  {
    assert Table0(0xd49f_4aa2) == 0x43a4_5a1b && Table0(0x43a4_5a1b) == 0x8994_c80e;
    assert Table0(0x8994_c80e) == 0xacf1_2bef && Table0(0xacf1_2bef) == 0xbd8f_6515;
    hide Table0;
  }

  lemma ZeroWord4()
    ensures Table3(0xbd8f_6515) == 0x433a_a9c1
  {
    assert Table0(0xbd8f_6515) == 0x2512_5c16 && Table0(0x2512_5c16) == 0x36da_32db;
    assert Table0(0x36da_32db) == 0x4a6c_90a2 && Table0(0x4a6c_90a2) == 0x433a_a9c1;
    hide Table0;
  }

  lemma ZeroWord5()
    ensures Table3(0x433a_a9c1) == 0x7b04_1311
  {
    assert Table0(0x433a_a9c1) == 0x31a5_9f6e && Table0(0x31a5_9f6e) == 0xcd8f_89da;
    assert Table0(0xcd8f_89da) == 0xb8fc_461a && Table0(0xb8fc_461a) == 0x7b04_1311;
    hide Table0;
  }

  lemma ZeroWord6()
    ensures Table3(0x7b04_1311) == 0x0836_3896
  {
    assert Table0(0x7b04_1311) == 0xe24e_407f && Table0(0xe24e_407f) == 0x2f69_2669;
    assert Table0(0x2f69_2669) == 0x195b_2188 && Table0(0x195b_2188) == 0x0836_3896;
    hide Table0;
  }

  lemma ZeroWord7()
    ensures Table3(0x0836_3896) == 0x756e_c955
  {
    assert Table0(0x0836_3896) == 0xb401_2dc7 && Table0(0xb401_2dc7) == 0x17f3_4302;
    assert Table0(0x17f3_4302) == 0xe12c_83b4 && Table0(0xe12c_83b4) == 0x756e_c955;
    hide Table0;
  }

  /** The checksum of 32 zero bytes, from appendix B.4 of RFC 3720. */
  lemma CheckValue()
    ensures BitSerial(0, Zeros(32)) == 0x8a91_36aa
  {
    hide FeedBytes, Table3, Zeros;
    ZeroWord0();
    FeedZeroWord(0xffff_ffff, 28);
    ZeroWord1();
    FeedZeroWord(0xb798_b438, 24);
    ZeroWord2();
    FeedZeroWord(0x73d7_4d75, 20);
    ZeroWord3();
    FeedZeroWord(0xd49f_4aa2, 16);
    ZeroWord4();
    FeedZeroWord(0xbd8f_6515, 12);
    ZeroWord5();
    FeedZeroWord(0x433a_a9c1, 8);
    ZeroWord6();
    FeedZeroWord(0x7b04_1311, 4);
    ZeroWord7();
    FeedZeroWord(0x0836_3896, 0);
    FeedNothing(0x756e_c955, Zeros(0));
  }

  /** What the receiver sees: a message of any bytes followed by its own checksum, lowest byte
      first, always has the same checksum. */
  lemma Residue(s: seq<bv8>)
    ensures BitSerial(0, s + EncodeFixed32(BitSerial(0, s))) == 0x4867_4bc7
  {
    var l := FeedBytes(Xor(0, ALL_ONES), s);
    var crc := BitSerial(0, s);
    assert crc == Xor(l, ALL_ONES);
    XorOnes(l);
    assert BitSerial(0, s + EncodeFixed32(crc)) == Xor(FeedBytes(Xor(0, ALL_ONES), s + EncodeFixed32(crc)), ALL_ONES);
    hide *;
    FeedAppend(Xor(0, ALL_ONES), s, EncodeFixed32(crc));
    FeedWord(l, crc);
    Step4OfOnes(l, crc);
  }

  lemma FeedWord(l: bv32, word: bv32)
    ensures FeedBytes(l, EncodeFixed32(word)) == Step4(l, word)
  {
    var e := EncodeFixed32(word);
    StoredBytes(word);
    assert e[0] == Lane0(word) && e[1] == Lane1(word) && e[2] == Lane2(word) && e[3] == Lane3(word);
    hide *;
    Eat4(l, e);
    FeedNothing(Step4(l, word), e[4..]);
  }

  lemma XorOnes(l: bv32)
    ensures Xor(l, Xor(l, ALL_ONES)) == 0xffff_ffff
  {
  }

  lemma Step4OfOnes(l: bv32, word: bv32)
    requires Xor(l, word) == 0xffff_ffff
    ensures Xor(Step4(l, word), ALL_ONES) == 0x4867_4bc7
  {
    FourColumns(l, word);
    ZeroWord0();
    hide Table3, Step4;
  }

  function Mask(crc: bv32): bv32 { ((crc >> 15) | (crc << 17)) + MASK_DELTA }

  function Unmask(masked: bv32): bv32 {
    var rot := masked - MASK_DELTA;
    (rot >> 17) | (rot << 15)
  }

  lemma UnmaskMask(crc: bv32)
    ensures Unmask(Mask(crc)) == crc
    ensures Mask(Unmask(crc)) == crc
  {
  }

  /** The rotation by 15 bits and the constant, on two words that fix them. */
  lemma MaskValues()
    ensures Mask(0) == 0xa282_ead8 && Mask(0x8000) == 0xa282_ead9
  {
  }
}

/** The fixed-width little-endian integers of voyager/util/coding.h, and the numbers that
    32-bit words stand for. */
module Fixed {
  const TWO_32: nat := 0x1_0000_0000

  function DecodeFixed32(b0: bv8, b1: bv8, b2: bv8, b3: bv8): bv32 {
    (b0 as bv32) | ((b1 as bv32) << 8) | ((b2 as bv32) << 16) | ((b3 as bv32) << 24)
  }

  // The bytes of a 32-bit word in memory order.
  function Lane0(x: bv32): bv8 { (x & 0xff) as bv8 }
  function Lane1(x: bv32): bv8 { ((x >> 8) & 0xff) as bv8 }
  function Lane2(x: bv32): bv8 { ((x >> 16) & 0xff) as bv8 }
  function Lane3(x: bv32): bv8 { ((x >> 24) & 0xff) as bv8 }

  function EncodeFixed32(x: bv32): (s: seq<bv8>)
    ensures |s| == 4
  {
    [Lane0(x), Lane1(x), Lane2(x), Lane3(x)]
  }

  lemma LoadedBytes(b0: bv8, b1: bv8, b2: bv8, b3: bv8)
    ensures var y := DecodeFixed32(b0, b1, b2, b3);
      Lane0(y) == b0 && Lane1(y) == b1 && Lane2(y) == b2 && Lane3(y) == b3
  {
  }

  lemma StoredBytes(x: bv32)
    ensures DecodeFixed32(Lane0(x), Lane1(x), Lane2(x), Lane3(x)) == x
  {
  }

  // ----- Words as numbers -----

  function Digit(n: nat): bv8 { (n % 256) as bv8 }

  function Number(x: bv32): nat {
    Lane0(x) as nat + 256 * (Lane1(x) as nat) + 0x1_0000 * (Lane2(x) as nat) + 0x100_0000 * (Lane3(x) as nat)
  }

  /** The conversion of a number to uint32_t, which drops what does not fit. */
  function Word(n: nat): bv32 {
    DecodeFixed32(Digit(n), Digit(n / 256), Digit(n / 0x1_0000), Digit(n / 0x100_0000))
  }

  lemma NextByte(b: bv8)
    requires b != 0xff
    ensures (b + 1) as nat == b as nat + 1
  {
  }

  lemma ByteAsNumber(b: bv8)
    ensures (b as nat) as bv8 == b
  {
  }

  lemma {:induction false} ByteValue(k: nat)
    requires k < 256
    ensures (k as bv8) as nat == k
  {
    if k != 0 {
      ByteValue(k - 1);
      var b := (k - 1) as bv8;
      NextByte(b);
      ByteAsNumber(b + 1);
    }
  }

  lemma NumberOfWord(n: nat)
    ensures Number(Word(n)) == n % TWO_32
  {
    hide Lane0, Lane1, Lane2, Lane3, DecodeFixed32;
    LoadedBytes(Digit(n), Digit(n / 256), Digit(n / 0x1_0000), Digit(n / 0x100_0000));
    ByteValue(n % 256);
    ByteValue(n / 256 % 256);
    ByteValue(n / 0x1_0000 % 256);
    ByteValue(n / 0x100_0000 % 256);
    Base256(n);
  }

  lemma FixedRoundTrip(n: nat)
    ensures var e := EncodeFixed32(Word(n)); Number(DecodeFixed32(e[0], e[1], e[2], e[3])) == n % TWO_32
  {
    hide Lane0, Lane1, Lane2, Lane3, DecodeFixed32, Digit, Number;
    StoredBytes(Word(n));
    NumberOfWord(n);
  }

  /** The k-th byte is the k-th digit of the number to base 256, lowest first. */
  lemma LittleEndian(n: nat)
    ensures var e := EncodeFixed32(Word(n));
      e[0] as nat == n % 256 && e[1] as nat == n / 256 % 256 && e[2] as nat == n / 0x1_0000 % 256 && e[3] as nat == n / 0x100_0000 % 256
  {
    hide Lane0, Lane1, Lane2, Lane3, DecodeFixed32;
    LoadedBytes(Digit(n), Digit(n / 256), Digit(n / 0x1_0000), Digit(n / 0x100_0000));
    ByteValue(n % 256);
    ByteValue(n / 256 % 256);
    ByteValue(n / 0x1_0000 % 256);
    ByteValue(n / 0x100_0000 % 256);
  }

  lemma Divided(n: nat, d: nat, q: nat, r: nat)
    requires d == 0x1_0000 || d == 0x100_0000 || d == TWO_32
    requires n == q * d + r && r < d
    ensures n / d == q && n % d == r
  {
  }

  lemma Base256(n: nat)
    ensures n % TWO_32 ==
      n % 256 + 256 * (n / 256 % 256) + 0x1_0000 * (n / 0x1_0000 % 256) + 0x100_0000 * (n / 0x100_0000 % 256)
  {
    var q1, r1 := n / 256, n % 256;
    var q2, r2 := q1 / 256, q1 % 256;
    var q3, r3 := q2 / 256, q2 % 256;
    var q4, r4 := q3 / 256, q3 % 256;
    Divided(n, 0x1_0000, q2, 256 * r2 + r1);
    Divided(n, 0x100_0000, q3, 0x1_0000 * r3 + 256 * r2 + r1);
    Divided(n, TWO_32, q4, 0x100_0000 * r4 + 0x1_0000 * r3 + 256 * r2 + r1);
  }
}

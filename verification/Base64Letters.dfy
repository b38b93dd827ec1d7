/** What modp_b64 writes, letter by letter: table 1 and section 4 of RFC 4648. */
module Base64Letters {
  import opened Base64

  lemma Alphabet0()
    ensures Letter(0) == 'A' as bv8 && Letter(1) == 'B' as bv8 && Letter(2) == 'C' as bv8 && Letter(3) == 'D' as bv8
    ensures Letter(4) == 'E' as bv8 && Letter(5) == 'F' as bv8 && Letter(6) == 'G' as bv8 && Letter(7) == 'H' as bv8
    ensures Letter(8) == 'I' as bv8 && Letter(9) == 'J' as bv8 && Letter(10) == 'K' as bv8 && Letter(11) == 'L' as bv8
    ensures Letter(12) == 'M' as bv8 && Letter(13) == 'N' as bv8 && Letter(14) == 'O' as bv8 && Letter(15) == 'P' as bv8
  {
  }

  lemma Alphabet1()
    ensures Letter(16) == 'Q' as bv8 && Letter(17) == 'R' as bv8 && Letter(18) == 'S' as bv8 && Letter(19) == 'T' as bv8
    ensures Letter(20) == 'U' as bv8 && Letter(21) == 'V' as bv8 && Letter(22) == 'W' as bv8 && Letter(23) == 'X' as bv8
    ensures Letter(24) == 'Y' as bv8 && Letter(25) == 'Z' as bv8 && Letter(26) == 'a' as bv8 && Letter(27) == 'b' as bv8
    ensures Letter(28) == 'c' as bv8 && Letter(29) == 'd' as bv8 && Letter(30) == 'e' as bv8 && Letter(31) == 'f' as bv8
  {
  }

  lemma Alphabet2()
    ensures Letter(32) == 'g' as bv8 && Letter(33) == 'h' as bv8 && Letter(34) == 'i' as bv8 && Letter(35) == 'j' as bv8
    ensures Letter(36) == 'k' as bv8 && Letter(37) == 'l' as bv8 && Letter(38) == 'm' as bv8 && Letter(39) == 'n' as bv8
    ensures Letter(40) == 'o' as bv8 && Letter(41) == 'p' as bv8 && Letter(42) == 'q' as bv8 && Letter(43) == 'r' as bv8
    ensures Letter(44) == 's' as bv8 && Letter(45) == 't' as bv8 && Letter(46) == 'u' as bv8 && Letter(47) == 'v' as bv8
  {
  }

  lemma Alphabet3()
    ensures Letter(48) == 'w' as bv8 && Letter(49) == 'x' as bv8 && Letter(50) == 'y' as bv8 && Letter(51) == 'z' as bv8
    ensures Letter(52) == '0' as bv8 && Letter(53) == '1' as bv8 && Letter(54) == '2' as bv8 && Letter(55) == '3' as bv8
    ensures Letter(56) == '4' as bv8 && Letter(57) == '5' as bv8 && Letter(58) == '6' as bv8 && Letter(59) == '7' as bv8
    ensures Letter(60) == '8' as bv8 && Letter(61) == '9' as bv8 && Letter(62) == '+' as bv8 && Letter(63) == '/' as bv8
  {
  }

  // ----- Six bits at a time -----

  /** The k-th bit of a byte, the most significant first. */
  predicate BitOf(b: bv8, k: nat) {
    match k
    case 0 => b & 0x80 != 0
    case 1 => b & 0x40 != 0
    case 2 => b & 0x20 != 0
    case 3 => b & 0x10 != 0
    case 4 => b & 0x08 != 0
    case 5 => b & 0x04 != 0
    case 6 => b & 0x02 != 0
    case _ => b & 0x01 != 0
  }

  /** The k-th bit of the input; beyond its end come zeros. */
  predicate Bit(s: seq<bv8>, k: nat) { k / 8 < |s| && BitOf(s[k / 8], k % 8) }

  function SixOf(b5: bool, b4: bool, b3: bool, b2: bool, b1: bool, b0: bool): (v: bv32)
    ensures v < 64
  {
    (if b5 then 32 else 0) | (if b4 then 16 else 0) | (if b3 then 8 else 0) |
    (if b2 then 4 else 0) | (if b1 then 2 else 0) | (if b0 then 1 else 0)
  }

  /** The i-th six bits of the input. */
  function SixBits(s: seq<bv8>, i: nat): (v: bv32)
    ensures v < 64
  {
    SixOf(Bit(s, 6 * i), Bit(s, 6 * i + 1), Bit(s, 6 * i + 2), Bit(s, 6 * i + 3), Bit(s, 6 * i + 4), Bit(s, 6 * i + 5))
  }

  lemma GroupSix0(b0: bv8, b1: bv8, b2: bv8)
    ensures Six0(Group(b0, b1, b2)) ==
      SixOf(BitOf(b0, 0), BitOf(b0, 1), BitOf(b0, 2), BitOf(b0, 3), BitOf(b0, 4), BitOf(b0, 5))
  {
  }

  lemma GroupSix1(b0: bv8, b1: bv8, b2: bv8)
    ensures Six1(Group(b0, b1, b2)) ==
      SixOf(BitOf(b0, 6), BitOf(b0, 7), BitOf(b1, 0), BitOf(b1, 1), BitOf(b1, 2), BitOf(b1, 3))
  {
  }

  lemma GroupSix2(b0: bv8, b1: bv8, b2: bv8)
    ensures Six2(Group(b0, b1, b2)) ==
      SixOf(BitOf(b1, 4), BitOf(b1, 5), BitOf(b1, 6), BitOf(b1, 7), BitOf(b2, 0), BitOf(b2, 1))
  {
  }

  lemma GroupSix3(b0: bv8, b1: bv8, b2: bv8)
    ensures Six3(Group(b0, b1, b2)) ==
      SixOf(BitOf(b2, 2), BitOf(b2, 3), BitOf(b2, 4), BitOf(b2, 5), BitOf(b2, 6), BitOf(b2, 7))
  {
  }

  lemma NoBits(k: nat)
    ensures !BitOf(0, k)
  {
  }

  /** The letters of the first group. */
  lemma FirstLetters(s: seq<bv8>)
    requires s != []
    ensures var w := Group(s[0], if |s| > 1 then s[1] else 0, if |s| > 2 then s[2] else 0);
      Six0(w) == SixBits(s, 0) && Six1(w) == SixBits(s, 1) && Six2(w) == SixBits(s, 2) && Six3(w) == SixBits(s, 3)
  {
    var b0, b1, b2 := s[0], if |s| > 1 then s[1] else 0, if |s| > 2 then s[2] else 0;
    GroupSix0(b0, b1, b2);
    GroupSix1(b0, b1, b2);
    GroupSix2(b0, b1, b2);
    GroupSix3(b0, b1, b2);
    forall k: nat | k < 8 ensures Bit(s, k) == BitOf(b0, k) && Bit(s, 8 + k) == BitOf(b1, k) && Bit(s, 16 + k) == BitOf(b2, k) {
      NoBits(k);
      assert (8 + k) / 8 == 1 && (16 + k) / 8 == 2;
      hide BitOf;
    }
    hide BitOf, Bit, SixOf, Group, Six0, Six1, Six2, Six3;
    FirstBits(s, b0, b1, b2);
  }

  lemma FirstBits(s: seq<bv8>, b0: bv8, b1: bv8, b2: bv8)
    requires forall k: nat :: k < 8 ==> Bit(s, k) == BitOf(b0, k) && Bit(s, 8 + k) == BitOf(b1, k) && Bit(s, 16 + k) == BitOf(b2, k)
    ensures SixBits(s, 0) == SixOf(BitOf(b0, 0), BitOf(b0, 1), BitOf(b0, 2), BitOf(b0, 3), BitOf(b0, 4), BitOf(b0, 5))
    ensures SixBits(s, 1) == SixOf(BitOf(b0, 6), BitOf(b0, 7), BitOf(b1, 0), BitOf(b1, 1), BitOf(b1, 2), BitOf(b1, 3))
    ensures SixBits(s, 2) == SixOf(BitOf(b1, 4), BitOf(b1, 5), BitOf(b1, 6), BitOf(b1, 7), BitOf(b2, 0), BitOf(b2, 1))
    ensures SixBits(s, 3) == SixOf(BitOf(b2, 2), BitOf(b2, 3), BitOf(b2, 4), BitOf(b2, 5), BitOf(b2, 6), BitOf(b2, 7))
  {
    hide BitOf, Bit, SixOf;
    assert Bit(s, 8 + 0) == BitOf(b1, 0) && Bit(s, 8 + 1) == BitOf(b1, 1) && Bit(s, 8 + 2) == BitOf(b1, 2);
    assert Bit(s, 8 + 3) == BitOf(b1, 3) && Bit(s, 8 + 4) == BitOf(b1, 4) && Bit(s, 8 + 5) == BitOf(b1, 5);
    assert Bit(s, 8 + 6) == BitOf(b1, 6) && Bit(s, 8 + 7) == BitOf(b1, 7) && Bit(s, 16 + 0) == BitOf(b2, 0);
    assert Bit(s, 16 + 1) == BitOf(b2, 1) && Bit(s, 16 + 2) == BitOf(b2, 2) && Bit(s, 16 + 3) == BitOf(b2, 3);
    assert Bit(s, 16 + 4) == BitOf(b2, 4) && Bit(s, 16 + 5) == BitOf(b2, 5) && Bit(s, 16 + 6) == BitOf(b2, 6);
    assert Bit(s, 16 + 7) == BitOf(b2, 7);
  }

  lemma LaterBits(s: seq<bv8>, i: nat)
    requires |s| >= 3 && i >= 4
    ensures SixBits(s, i) == SixBits(s[3..], i - 4)
  {
    hide BitOf, SixOf;
    forall k: nat | k >= 24 ensures Bit(s, k) == Bit(s[3..], k - 24) {
      assert (k - 24) / 8 == k / 8 - 3 && (k - 24) % 8 == k % 8;
    }
    hide Bit;
    var k := 6 * i;
    assert 6 * (i - 4) == k - 24;
  }

  /** The i-th letter of an encoding is that of the i-th six bits of the input, as long as there
      are bits; then come equals signs. */
  lemma {:induction false} LettersOfBits(s: seq<bv8>, i: nat)
    requires i < |Encoded(s)|
    ensures Encoded(s)[i] == if 6 * i < 8 * |s| then Letter(SixBits(s, i)) else '=' as bv8
    decreases |s|
  {
    hide Group, Six0, Six1, Six2, Six3, SixBits, Letter;
    assert '=' as bv8 == PAD;
    FirstLetters(s);
    if |s| > 2 && i >= 4 {
      LaterBits(s, i);
      LettersOfBits(s[3..], i - 4);
    }
  }
}

/** Base64 as in voyager/util/base64/modp_base64: table-driven coding that stores four bytes
    at a time, proved equal to the 24-bit groups of section 4 of RFC 4648. */
module Base64 {
  import opened Wrappers
  import opened Fixed

  const PAD: bv8 := 61
  const BADCHAR: bv32 := 0x01ff_ffff

  // ----- The alphabet -----

  function Letter(v: bv32): bv8
    requires v < 64
  {
    var b := v as bv8;
    if v < 26 then 65 + b
    else if v < 52 then 71 + b
    else if v < 62 then b - 4
    else if v == 62 then 43
    else 47
  }

  predicate IsLetter(c: bv8) {
    65 <= c <= 90 || 97 <= c <= 122 || 48 <= c <= 57 || c == 43 || c == 47
  }

  function Sextet(c: bv8): bv32
    requires IsLetter(c)
  {
    if 65 <= c <= 90 then (c - 65) as bv32
    else if 97 <= c <= 122 then (c - 71) as bv32
    else if 48 <= c <= 57 then (c + 4) as bv32
    else if c == 43 then 62
    else 63
  }

  lemma SextetOfLetter(v: bv32)
    requires v < 64
    ensures IsLetter(Letter(v)) && Sextet(Letter(v)) == v
  {
  }

  lemma LetterOfSextet(c: bv8)
    requires IsLetter(c)
    ensures Sextet(c) < 64 && Letter(Sextet(c)) == c
  {
  }

  // ----- The groups of RFC 4648 -----

  function Group(b0: bv8, b1: bv8, b2: bv8): bv32 {
    ((b0 as bv32) << 16) | ((b1 as bv32) << 8) | (b2 as bv32)
  }

  function Six0(w: bv32): bv32 { (w >> 18) & 0x3f }
  function Six1(w: bv32): bv32 { (w >> 12) & 0x3f }
  function Six2(w: bv32): bv32 { (w >> 6) & 0x3f }
  function Six3(w: bv32): bv32 { w & 0x3f }

  function Quad(w: bv32): (q: seq<bv8>)
    ensures |q| == 4
  {
    [Letter(Six0(w)), Letter(Six1(w)), Letter(Six2(w)), Letter(Six3(w))]
  }

  function Encoded(s: seq<bv8>): seq<bv8> {
    if s == [] then []
    else if |s| == 1 then Quad(Group(s[0], 0, 0))[..2] + [PAD, PAD]
    else if |s| == 2 then Quad(Group(s[0], s[1], 0))[..3] + [PAD]
    else Quad(Group(s[0], s[1], s[2])) + Encoded(s[3..])
  }

  function Joined(v0: bv32, v1: bv32, v2: bv32, v3: bv32): bv32 {
    (v0 << 18) | (v1 << 12) | (v2 << 6) | v3
  }

  function Bytes(w: bv32): (b: seq<bv8>)
    ensures |b| == 3
  {
    [((w >> 16) & 0xff) as bv8, ((w >> 8) & 0xff) as bv8, (w & 0xff) as bv8]
  }

  /** How many letters the last group of four holds. */
  function Letters(g: seq<bv8>): nat
    requires |g| == 4
  {
    if g[3] != PAD then 4 else if g[2] != PAD then 3 else 2
  }

  function LastGroup(g: seq<bv8>): Option<seq<bv8>>
    requires |g| == 4
  {
    var n := Letters(g);
    if exists c :: c in g[..n] && !IsLetter(c) then None
    else
      var v2 := if n > 2 then Sextet(g[2]) else 0;
      var v3 := if n > 3 then Sextet(g[3]) else 0;
      Some(Bytes(Joined(Sextet(g[0]), Sextet(g[1]), v2, v3))[..n - 1])
  }

  function Decoded(t: seq<bv8>): Option<seq<bv8>> {
    if t == [] then Some([])
    else if |t| % 4 != 0 then None
    else if |t| == 4 then LastGroup(t)
    else if IsLetter(t[0]) && IsLetter(t[1]) && IsLetter(t[2]) && IsLetter(t[3]) then
      Prepend(Bytes(Joined(Sextet(t[0]), Sextet(t[1]), Sextet(t[2]), Sextet(t[3]))), Decoded(t[4..]))
    else None
  }

  function Prepend(a: seq<bv8>, r: Option<seq<bv8>>): Option<seq<bv8>> {
    match r
    case None => None
    case Some(b) => Some(a + b)
  }

  // ----- Round trips -----

  lemma GroupBits(b0: bv8, b1: bv8, b2: bv8)
    ensures var w := Group(b0, b1, b2);
      Six0(w) < 64 && Six1(w) < 64 && Six2(w) < 64 && Six3(w) < 64 &&
      Joined(Six0(w), Six1(w), Six2(w), Six3(w)) == w &&
      (b2 == 0 ==> Six3(w) == 0) && (b1 == b2 == 0 ==> Six2(w) == 0)
    ensures Bytes(Group(b0, b1, b2)) == [b0, b1, b2]
  {
  }

  lemma JoinedSix(v0: bv32, v1: bv32, v2: bv32, v3: bv32)
    requires v0 < 64 && v1 < 64 && v2 < 64 && v3 < 64
    ensures var w := Joined(v0, v1, v2, v3);
      w < 0x0100_0000 && Six0(w) == v0 && Six1(w) == v1 && Six2(w) == v2 && Six3(w) == v3
  {
  }

  function TwoBytes(w: bv32): bv32 { w & 0xff_ff00 }
  function OneByte(w: bv32): bv32 { w & 0xff_0000 }
  function DropTwo(v: bv32): bv32 { v & 0x3c }
  function DropFour(v: bv32): bv32 { v & 0x30 }
  predicate LowTwoClear(v: bv32) { v & 3 == 0 }
  predicate LowFourClear(v: bv32) { v & 15 == 0 }

  lemma GroupOfBytes(w: bv32, b: seq<bv8>)
    requires w < 0x0100_0000 && b == Bytes(w)
    ensures Group(b[0], b[1], b[2]) == w
    ensures Group(b[0], b[1], 0) == TwoBytes(w)
    ensures Group(b[0], 0, 0) == OneByte(w)
  {
  }

  lemma SpareBits(v0: bv32, v1: bv32, v2: bv32)
    requires v0 < 64 && v1 < 64 && v2 < 64
    ensures TwoBytes(Joined(v0, v1, v2, 0)) == Joined(v0, v1, DropTwo(v2), 0)
    ensures OneByte(Joined(v0, v1, 0, 0)) == Joined(v0, DropFour(v1), 0, 0)
    ensures DropTwo(v2) < 64 && DropFour(v1) < 64
    ensures DropTwo(v2) == v2 <==> LowTwoClear(v2)
    ensures DropFour(v1) == v1 <==> LowFourClear(v1)
  {
  }

  lemma QuadLetters(w: bv32)
    ensures forall c :: c in Quad(w) ==> IsLetter(c)
    ensures var q := Quad(w);
      Sextet(q[0]) == Six0(w) && Sextet(q[1]) == Six1(w) && Sextet(q[2]) == Six2(w) && Sextet(q[3]) == Six3(w)
  {
    SextetOfLetter(Six0(w));
    SextetOfLetter(Six1(w));
    SextetOfLetter(Six2(w));
    SextetOfLetter(Six3(w));
  }

  lemma {:induction false} EncodedLength(s: seq<bv8>)
    ensures |Encoded(s)| == (|s| + 2) / 3 * 4
    decreases |s|
  {
    hide Quad, Group;
    if |s| > 2 { EncodedLength(s[3..]); }
  }

  lemma LastGroupRoundTrip(s: seq<bv8>)
    requires 1 <= |s| <= 3
    ensures |Encoded(s)| == 4 && LastGroup(Encoded(s)) == Some(s)
  {
    hide Group, Joined, Bytes, Six0, Six1, Six2, Six3, Sextet, IsLetter, Quad;
    var b1, b2 := if |s| > 1 then s[1] else 0, if |s| > 2 then s[2] else 0;
    var w := Group(s[0], b1, b2);
    GroupBits(s[0], b1, b2);
    QuadLetters(w);
    var q := Quad(w);
    LettersAreNotPad(q);
    assert q[2] in q && q[3] in q;
    var g := Encoded(s);
    EncodedLength(s);
    if |s| == 3 {
      assert s[3..] == [];
    }
    assert Letters(g) == |s| + 1 && g[..|s| + 1] == q[..|s| + 1];
    assert forall c :: c in g[..|s| + 1] ==> c in q;
    assert LastGroup(g) == Some(Bytes(w)[..|s|]);
    assert [s[0], b1, b2][..|s|] == s;
  }

  lemma LettersAreNotPad(g: seq<bv8>)
    requires forall c :: c in g ==> IsLetter(c)
    ensures PAD !in g
  {

  }

  /** Decoding an encoding gives the bytes back. */
  lemma {:induction false} DecodeEncode(s: seq<bv8>)
    ensures Decoded(Encoded(s)) == Some(s)
    decreases |s|
  {
    hide Group, Joined, Bytes, Six0, Six1, Six2, Six3, Sextet, IsLetter, Quad, LastGroup;
    EncodedLength(s);
    if s == [] {
    } else if |s| <= 3 {
      LastGroupRoundTrip(s);
    } else {
      var w := Group(s[0], s[1], s[2]);
      var q := Quad(w);
      EncodedLength(s[3..]);
      DecodeEncode(s[3..]);
      assert Encoded(s)[4..] == Encoded(s[3..]);
      assert Encoded(s)[..4] == q;
      GroupBits(s[0], s[1], s[2]);
      QuadLetters(w);
      assert s == [s[0], s[1], s[2]] + s[3..];
    }
  }

  // ----- Encoding what was decoded -----

  /** The spare bits of the last letter, which decoding drops, are zero. */
  predicate SpareBitsClear(g: seq<bv8>)
    requires |g| == 4 && LastGroup(g).Some?
  {
    LastGroupLetters(g);
    match Letters(g)
    case 2 => LowFourClear(Sextet(g[1]))
    case 3 => LowTwoClear(Sextet(g[2]))
    case _ => true
  }

  lemma LastGroupLetters(g: seq<bv8>)
    requires |g| == 4 && LastGroup(g).Some?
    ensures forall i :: 0 <= i < Letters(g) ==> IsLetter(g[i])
  {
    forall i | 0 <= i < Letters(g) ensures IsLetter(g[i]) {
      assert g[i] in g[..Letters(g)];
    }
  }

  predicate Canonical(t: seq<bv8>)
    requires Decoded(t).Some?
    decreases |t|
  {
    if t == [] then true else if |t| == 4 then SpareBitsClear(t) else Canonical(t[4..])
  }

  lemma QuadOf(v0: bv32, v1: bv32, v2: bv32, v3: bv32)
    requires v0 < 64 && v1 < 64 && v2 < 64 && v3 < 64
    ensures Quad(Joined(v0, v1, v2, v3)) == [Letter(v0), Letter(v1), Letter(v2), Letter(v3)]
  {
    hide Joined, Six0, Six1, Six2, Six3, Letter;
    JoinedSix(v0, v1, v2, v3);
  }

  lemma LetterInjective(v: bv32, w: bv32)
    requires v < 64 && w < 64
    ensures Letter(v) == Letter(w) <==> v == w
  {
    SextetOfLetter(v);
    SextetOfLetter(w);
    hide Letter, Sextet, IsLetter;
  }

  lemma ReencodeTwo(g: seq<bv8>)
    requires |g| == 4 && LastGroup(g).Some? && Letters(g) == 2
    ensures Encoded(LastGroup(g).value) == g <==> SpareBitsClear(g)
  {
    hide Group, Joined, Bytes, Sextet, IsLetter, Letter, Quad, TwoBytes, OneByte, DropTwo, DropFour, LowTwoClear, LowFourClear;
    LastGroupLetters(g);
    var v0, v1 := Sextet(g[0]), Sextet(g[1]);
    LetterOfSextet(g[0]);
    LetterOfSextet(g[1]);
    JoinedSix(v0, v1, 0, 0);
    SpareBits(v0, v1, 0);
    var b := Bytes(Joined(v0, v1, 0, 0));
    GroupOfBytes(Joined(v0, v1, 0, 0), b);
    QuadOf(v0, DropFour(v1), 0, 0);
    LetterInjective(v1, DropFour(v1));
    assert LastGroup(g).value == [b[0]];
  }

  lemma ReencodeThree(g: seq<bv8>)
    requires |g| == 4 && LastGroup(g).Some? && Letters(g) == 3
    ensures Encoded(LastGroup(g).value) == g <==> SpareBitsClear(g)
  {
    hide Group, Joined, Bytes, Sextet, IsLetter, Letter, Quad, TwoBytes, OneByte, DropTwo, DropFour, LowTwoClear, LowFourClear;
    LastGroupLetters(g);
    var v0, v1, v2 := Sextet(g[0]), Sextet(g[1]), Sextet(g[2]);
    LetterOfSextet(g[0]);
    LetterOfSextet(g[1]);
    LetterOfSextet(g[2]);
    JoinedSix(v0, v1, v2, 0);
    SpareBits(v0, v1, v2);
    var b := Bytes(Joined(v0, v1, v2, 0));
    GroupOfBytes(Joined(v0, v1, v2, 0), b);
    QuadOf(v0, v1, DropTwo(v2), 0);
    LetterInjective(v2, DropTwo(v2));
    assert LastGroup(g).value == [b[0], b[1]];
  }

  /** Four letters decode to three bytes that encode to the same four letters. */
  lemma ReencodeFour(g: seq<bv8>)
    requires |g| == 4 && IsLetter(g[0]) && IsLetter(g[1]) && IsLetter(g[2]) && IsLetter(g[3])
    ensures var b := Bytes(Joined(Sextet(g[0]), Sextet(g[1]), Sextet(g[2]), Sextet(g[3])));
      Quad(Group(b[0], b[1], b[2])) == g
  {
    hide Group, Joined, Bytes, Sextet, IsLetter, Letter, Quad;
    var v0, v1, v2, v3 := Sextet(g[0]), Sextet(g[1]), Sextet(g[2]), Sextet(g[3]);
    LetterOfSextet(g[0]);
    LetterOfSextet(g[1]);
    LetterOfSextet(g[2]);
    LetterOfSextet(g[3]);
    JoinedSix(v0, v1, v2, v3);
    GroupOfBytes(Joined(v0, v1, v2, v3), Bytes(Joined(v0, v1, v2, v3)));
    QuadOf(v0, v1, v2, v3);
  }

  lemma ReencodeLastGroup(g: seq<bv8>)
    requires |g| == 4 && LastGroup(g).Some?
    ensures Encoded(LastGroup(g).value) == g <==> SpareBitsClear(g)
  {
    if Letters(g) == 2 {
      ReencodeTwo(g);
    } else if Letters(g) == 3 {
      ReencodeThree(g);
    } else {
      hide Group, Joined, Bytes, Sextet, IsLetter, Quad;
      LastGroupLetters(g);
      ReencodeFour(g);
      assert LastGroup(g).value[3..] == [];
    }
  }

  /** Encoding an accepted text's bytes reproduces it exactly when its spare bits are zero. */
  lemma {:induction false} EncodeDecode(t: seq<bv8>)
    requires Decoded(t).Some?
    ensures Encoded(Decoded(t).value) == t <==> Canonical(t)
    decreases |t|
  {
    hide Group, Joined, Bytes, Sextet, IsLetter, Letter, Quad, LastGroup;
    if t == [] {
    } else if |t| == 4 {
      ReencodeLastGroup(t);
    } else {
      var rest := Decoded(t[4..]).value;
      EncodeDecode(t[4..]);
      var b := Bytes(Joined(Sextet(t[0]), Sextet(t[1]), Sextet(t[2]), Sextet(t[3])));
      ReencodeFour(t[..4]);
      assert (b + rest)[3..] == rest;
      assert Encoded(b + rest) == t[..4] + Encoded(rest);
      assert t == t[..4] + t[4..];
    }
  }

  // ----- The encoder -----

  function E0(t: bv8): bv8 {
    assert (t >> 2) as bv32 < 64;
    Letter((t >> 2) as bv32)
  }

  function E1(t: bv8): bv8 {
    assert (t & 0x3f) as bv32 < 64;
    Letter((t & 0x3f) as bv32)
  }

  function E2(t: bv8): bv8 { E1(t) }

  function SecondIndex(t1: bv8, t2: bv8): bv8 { ((t1 & 0x03) << 4) | ((t2 >> 4) & 0x0f) }
  function ThirdIndex(t2: bv8, t3: bv8): bv8 { ((t2 & 0x0f) << 2) | ((t3 >> 6) & 0x03) }

  lemma IndexBits(t1: bv8, t2: bv8, t3: bv8)
    ensures var w := Group(t1, t2, t3);
      (t1 >> 2) as bv32 == Six0(w) && (SecondIndex(t1, t2) & 0x3f) as bv32 == Six1(w) &&
      (ThirdIndex(t2, t3) & 0x3f) as bv32 == Six2(w) && (t3 & 0x3f) as bv32 == Six3(w)
    ensures SecondIndex(t1, 0) == (t1 & 0x03) << 4 && ThirdIndex(t2, 0) == (t2 & 0x0f) << 2
  {
  }

  lemma EncodeGroup(t1: bv8, t2: bv8, t3: bv8)
    ensures [E0(t1), E1(SecondIndex(t1, t2)), E1(ThirdIndex(t2, t3)), E2(t3)] == Quad(Group(t1, t2, t3))
  {
    hide Group, SecondIndex, ThirdIndex, Letter, Six0, Six1, Six2, Six3;
    IndexBits(t1, t2, t3);
  }

  function LastIndex1(t1: bv8): bv8 { (t1 & 0x03) << 4 }
  function LastIndex2(t2: bv8): bv8 { (t2 & 0x0f) << 2 }

  lemma EncodeStep(s: seq<bv8>)
    requires |s| >= 3
    ensures Encoded(s) ==
      [E0(s[0]), E1(SecondIndex(s[0], s[1])), E1(ThirdIndex(s[1], s[2])), E2(s[2])] + Encoded(s[3..])
  {
    hide Group, Quad, SecondIndex, ThirdIndex, Letter, E0, E1, E2;
    EncodeGroup(s[0], s[1], s[2]);
  }

  lemma EncodeTail(t1: bv8, t2: bv8)
    ensures Encoded([t1]) == [E0(t1), E1(LastIndex1(t1)), PAD, PAD]
    ensures Encoded([t1, t2]) == [E0(t1), E1(SecondIndex(t1, t2)), E2(LastIndex2(t2)), PAD]
  {
    hide Group, Quad, SecondIndex, ThirdIndex, Letter, E0, E1, E2;
    EncodeGroup(t1, 0, 0);
    IndexBits(t1, 0, 0);
    EncodeGroup(t1, t2, 0);
    IndexBits(t1, t2, 0);
    E2IsE1(LastIndex2(t2));
  }

  lemma E2IsE1(t: bv8)
    ensures E2(t) == E1(t)
  {
  }

  method Put4(dest: array<bv8>, p: nat, c0: bv8, c1: bv8, c2: bv8, c3: bv8) returns (p': nat)
    requires p + 4 <= dest.Length
    modifies dest
    ensures p' == p + 4
    ensures dest[..p'] == old(dest[..p]) + [c0, c1, c2, c3]
    ensures dest[p'..] == old(dest[p'..])
  {
    dest[p], dest[p + 1], dest[p + 2], dest[p + 3] := c0, c1, c2, c3;
    p' := p + 4;
  }

  lemma EncodedNothing()
    ensures Encoded([]) == []
  {
  }

  /** The last one or two bytes, padded. */
  method EncodeLast(dest: array<bv8>, p: nat, rest: seq<bv8>) returns (p': nat)
    requires |rest| <= 2 && p + |Encoded(rest)| <= dest.Length
    modifies dest
    ensures p' == p + |Encoded(rest)| && dest[..p'] == old(dest[..p]) + Encoded(rest)
    ensures dest[p'..] == old(dest[p'..])
  {
    hide SecondIndex, LastIndex1, LastIndex2, E0, E1, E2, Encoded;
    EncodedNothing();
    p' := p;
    match |rest| {
      case 0 =>
      case 1 =>
        var t1 := rest[0];
        EncodeTail(t1, 0);
        assert rest == [t1];
        p' := Put4(dest, p, E0(t1), E1(LastIndex1(t1)), PAD, PAD);
      case _ =>
        var t1, t2 := rest[0], rest[1];
        EncodeTail(t1, t2);
        assert rest == [t1, t2];
        p' := Put4(dest, p, E0(t1), E1(SecondIndex(t1, t2)), E2(LastIndex2(t2)), PAD);
    }
  }

  method Encode(dest: array<bv8>, str: seq<bv8>) returns (n: nat)
    requires dest.Length >= (|str| + 2) / 3 * 4 + 1
    modifies dest
    ensures n < dest.Length && dest[..n] == Encoded(str) && dest[n] == 0
    ensures dest[n + 1..] == old(dest[n + 1..])
  {
    hide SecondIndex, ThirdIndex, E0, E1, E2, Encoded;
    EncodedLength(str);
    assert str[0..] == str;
    var i, p := 0, 0;
    while i < |str| - 2
      invariant i % 3 == 0 && p == i / 3 * 4 && i <= |str|
      invariant Encoded(str) == dest[..p] + Encoded(str[i..])
      invariant dest[p..] == old(dest[p..])
    {
      var t1, t2, t3 := str[i], str[i + 1], str[i + 2];
      EncodeStep(str[i..]);
      ghost var before := dest[p..];
      p := Put4(dest, p, E0(t1), E1(SecondIndex(t1, t2)), E1(ThirdIndex(t2, t3)), E2(t3));
      assert dest[p..] == before[4..];
      assert str[i..][3..] == str[i + 3..];
      i := i + 3;
    }
    ghost var before := dest[p..];
    n := EncodeLast(dest, p, str[i..]);
    assert dest[n..] == before[n - p..];
    dest[n] := 0;
    assert dest[..n] == Encoded(str);
  }

  // ----- The decoder -----

  // Where the four sextets of a group go in a little-endian word.
  function Put0(v: bv32): bv32 { v << 2 }
  function Put1(v: bv32): bv32 { (v >> 4) | ((v & 0x0f) << 12) }
  function Put2(v: bv32): bv32 { ((v >> 2) << 8) | ((v & 0x03) << 22) }
  function Put3(v: bv32): bv32 { v << 16 }

  function D0(c: bv8): bv32 { if IsLetter(c) then Put0(Sextet(c)) else BADCHAR }
  function D1(c: bv8): bv32 { if IsLetter(c) then Put1(Sextet(c)) else BADCHAR }
  function D2(c: bv8): bv32 { if IsLetter(c) then Put2(Sextet(c)) else BADCHAR }
  function D3(c: bv8): bv32 { if IsLetter(c) then Put3(Sextet(c)) else BADCHAR }

  function Or(a: bv32, b: bv32): bv32 { a | b }

  function TableWord(c0: bv8, c1: bv8, c2: bv8, c3: bv8): bv32 {
    Or(Or(Or(D0(c0), D1(c1)), D2(c2)), D3(c3))
  }

  function Shuffled(v0: bv32, v1: bv32, v2: bv32, v3: bv32): bv32 {
    Or(Or(Or(Put0(v0), Put1(v1)), Put2(v2)), Put3(v3))
  }

  lemma ShuffledLanes(v0: bv32, v1: bv32, v2: bv32, v3: bv32)
    requires v0 < 64 && v1 < 64 && v2 < 64 && v3 < 64
    ensures Shuffled(v0, v1, v2, v3) < BADCHAR
    ensures var x := Shuffled(v0, v1, v2, v3); var w := Joined(v0, v1, v2, v3);
      x & 0xff == (w >> 16) & 0xff && (x >> 8) & 0xff == (w >> 8) & 0xff && (x >> 16) & 0xff == w & 0xff
  {
  }

  lemma ShuffledBytes(v0: bv32, v1: bv32, v2: bv32, v3: bv32)
    requires v0 < 64 && v1 < 64 && v2 < 64 && v3 < 64
    ensures var x := Shuffled(v0, v1, v2, v3);
      [Lane0(x), Lane1(x), Lane2(x)] == Bytes(Joined(v0, v1, v2, v3))
  {
    hide Or, Shuffled, Joined;
    ShuffledLanes(v0, v1, v2, v3);
  }

  /** The tables lay letters out; what is missing counts as zero. */
  lemma LetterWords(c0: bv8, c1: bv8, c2: bv8, c3: bv8)
    requires IsLetter(c0) && IsLetter(c1)
    ensures Or(D0(c0), D1(c1)) == Shuffled(Sextet(c0), Sextet(c1), 0, 0)
    ensures IsLetter(c2) ==> Or(Or(D0(c0), D1(c1)), D2(c2)) == Shuffled(Sextet(c0), Sextet(c1), Sextet(c2), 0)
    ensures IsLetter(c2) && IsLetter(c3) ==>
      TableWord(c0, c1, c2, c3) == Shuffled(Sextet(c0), Sextet(c1), Sextet(c2), Sextet(c3))
  {
    OrNothing(Or(D0(c0), D1(c1)));
    OrNothing(Or(Or(D0(c0), D1(c1)), D2(c2)));
    hide IsLetter, Sextet, Or, Put0, Put1, Put2, Put3;
  }

  lemma OrNothing(a: bv32)
    ensures Or(a, 0) == a && Put2(0) == 0 && Put3(0) == 0
  {
  }

  lemma OrGrows(a: bv32, b: bv32)
    requires a <= BADCHAR && b <= BADCHAR && (a == BADCHAR || b == BADCHAR)
    ensures Or(a, b) == BADCHAR
  {
  }

  lemma OrBounded(a: bv32, b: bv32)
    requires a <= BADCHAR && b <= BADCHAR
    ensures Or(a, b) <= BADCHAR
  {
  }

  lemma TablesBounded(c: bv8)
    ensures D0(c) <= BADCHAR && D1(c) <= BADCHAR && D2(c) <= BADCHAR && D3(c) <= BADCHAR
    ensures !IsLetter(c) ==> D0(c) == D1(c) == D2(c) == D3(c) == BADCHAR
  {
    if IsLetter(c) { LetterOfSextet(c); }
  }

  /** A foreign character leaves a mark that no later or can hide. */
  lemma ForeignWords(c0: bv8, c1: bv8, c2: bv8, c3: bv8)
    ensures !IsLetter(c0) || !IsLetter(c1) ==> Or(D0(c0), D1(c1)) == BADCHAR
    ensures !IsLetter(c0) || !IsLetter(c1) || !IsLetter(c2) ==> Or(Or(D0(c0), D1(c1)), D2(c2)) == BADCHAR
    ensures !IsLetter(c0) || !IsLetter(c1) || !IsLetter(c2) || !IsLetter(c3) ==> TableWord(c0, c1, c2, c3) == BADCHAR
  {
    hide IsLetter, D0, D1, D2, D3, Or;
    TablesBounded(c0);
    TablesBounded(c1);
    TablesBounded(c2);
    TablesBounded(c3);
    var x2, x3 := Or(D0(c0), D1(c1)), Or(Or(D0(c0), D1(c1)), D2(c2));
    OrBounded(D0(c0), D1(c1));
    OrBounded(x2, D2(c2));
    if !IsLetter(c0) || !IsLetter(c1) { OrGrows(D0(c0), D1(c1)); }
    if !IsLetter(c0) || !IsLetter(c1) || !IsLetter(c2) { OrGrows(x2, D2(c2)); }
    if !IsLetter(c0) || !IsLetter(c1) || !IsLetter(c2) || !IsLetter(c3) { OrGrows(x3, D3(c3)); }
  }

  function LastWord(g: seq<bv8>): bv32
    requires |g| == 4
  {
    match Letters(g)
    case 2 => Or(D0(g[0]), D1(g[1]))
    case 3 => Or(Or(D0(g[0]), D1(g[1])), D2(g[2]))
    case _ => TableWord(g[0], g[1], g[2], g[3])
  }

  lemma LastWordCorrect(g: seq<bv8>)
    requires |g| == 4
    ensures LastGroup(g).None? <==> LastWord(g) >= BADCHAR
    ensures LastGroup(g).Some? ==>
      var x := LastWord(g); LastGroup(g).value == [Lane0(x), Lane1(x), Lane2(x)][..Letters(g) - 1]
  {
    hide IsLetter, D0, D1, D2, D3, Or, TableWord, Sextet, Shuffled, Joined, Bytes, Lane0, Lane1, Lane2;
    var n := Letters(g);
    ForeignWords(g[0], g[1], g[2], g[3]);
    if LastGroup(g).None? {
      var c :| c in g[..n] && !IsLetter(c);
    } else {
      assert g[0] in g[..n] && g[1] in g[..n] && (n > 2 ==> g[2] in g[..n]) && (n > 3 ==> g[3] in g[..n]);
      LetterWords(g[0], g[1], g[2], g[3]);
      LetterOfSextet(g[0]);
      LetterOfSextet(g[1]);
      if n > 2 { LetterOfSextet(g[2]); }
      if n > 3 { LetterOfSextet(g[3]); }
      var v2 := if n > 2 then Sextet(g[2]) else 0;
      var v3 := if n > 3 then Sextet(g[3]) else 0;
      ShuffledLanes(Sextet(g[0]), Sextet(g[1]), v2, v3);
      ShuffledBytes(Sextet(g[0]), Sextet(g[1]), v2, v3);
    }
  }

  lemma ChunkCorrect(t: seq<bv8>)
    requires |t| > 4 && |t| % 4 == 0
    ensures var x := TableWord(t[0], t[1], t[2], t[3]);
      Decoded(t) == if x >= BADCHAR then None else Prepend([Lane0(x), Lane1(x), Lane2(x)], Decoded(t[4..]))
  {
    hide IsLetter, D0, D1, D2, D3, Or, TableWord, Sextet, Shuffled, Joined, Bytes, Lane0, Lane1, Lane2;
    ForeignWords(t[0], t[1], t[2], t[3]);
    if IsLetter(t[0]) && IsLetter(t[1]) && IsLetter(t[2]) && IsLetter(t[3]) {
      LetterWords(t[0], t[1], t[2], t[3]);
      LetterOfSextet(t[0]);
      LetterOfSextet(t[1]);
      LetterOfSextet(t[2]);
      LetterOfSextet(t[3]);
      ShuffledLanes(Sextet(t[0]), Sextet(t[1]), Sextet(t[2]), Sextet(t[3]));
      ShuffledBytes(Sextet(t[0]), Sextet(t[1]), Sextet(t[2]), Sextet(t[3]));
    }
  }

  /** A 32-bit store, of which the caller keeps three bytes. */
  method Store32(dest: array<bv8>, p: nat, x: bv32)
    requires p + 4 <= dest.Length
    modifies dest
    ensures dest[..p + 3] == old(dest[..p]) + [Lane0(x), Lane1(x), Lane2(x)]
  {
    hide Lane0, Lane1, Lane2, Lane3;
    dest[p], dest[p + 1], dest[p + 2], dest[p + 3] := Lane0(x), Lane1(x), Lane2(x), Lane3(x);
  }

  method Load32(src: seq<bv8>, k: nat) returns (y: bv32)
    requires k + 4 <= |src|
    ensures Lane0(y) == src[k] && Lane1(y) == src[k + 1] && Lane2(y) == src[k + 2] && Lane3(y) == src[k + 3]
  {
    LoadedBytes(src[k], src[k + 1], src[k + 2], src[k + 3]);
    y := DecodeFixed32(src[k], src[k + 1], src[k + 2], src[k + 3]);
  }

  /** How much of the text remains once its padding is cut off. */
  method Unpadded(src: seq<bv8>) returns (len: nat)
    requires |src| >= 4 && |src| % 4 == 0
    ensures len == |src| - 4 + Letters(src[|src| - 4..])
  {
    len := |src|;
    if src[len - 1] == PAD {
      len := len - 1;
      if src[len - 1] == PAD {
        len := len - 1;
      }
    }
  }

  method DecodeLast(dest: array<bv8>, p: nat, y: bv32, leftover: nat, ghost g: seq<bv8>) returns (ok: bool)
    requires |g| == 4 && g == [Lane0(y), Lane1(y), Lane2(y), Lane3(y)] && leftover == Letters(g) % 4
    requires p + Letters(g) - 1 <= dest.Length
    modifies dest
    ensures ok == LastGroup(g).Some?
    ensures ok ==> dest[..p + Letters(g) - 1] == old(dest[..p]) + LastGroup(g).value
  {
    hide D0, D1, D2, D3, Or, Lane0, Lane1, Lane2, Lane3, LastGroup;
    LastWordCorrect(g);
    var x;
    if leftover == 0 {
      x := TableWord(Lane0(y), Lane1(y), Lane2(y), Lane3(y));
      if x >= BADCHAR { return false; }
      dest[p], dest[p + 1], dest[p + 2] := Lane0(x), Lane1(x), Lane2(x);
    } else if leftover == 2 {
      x := Or(D0(Lane0(y)), D1(Lane1(y)));
      dest[p] := Lane0(x);
    } else {
      x := Or(Or(D0(Lane0(y)), D1(Lane1(y))), D2(Lane2(y)));
      dest[p], dest[p + 1] := Lane0(x), Lane1(x);
    }
    ok := x < BADCHAR;
  }

  method DecodeChunk(dest: array<bv8>, p: nat, y: bv32, ghost rest: seq<bv8>) returns (ok: bool, ghost b: seq<bv8>)
    requires |rest| > 4 && |rest| % 4 == 0 && rest[..4] == [Lane0(y), Lane1(y), Lane2(y), Lane3(y)]
    requires p + 4 <= dest.Length
    modifies dest
    ensures !ok ==> Decoded(rest) == None
    ensures ok ==> dest[..p + 3] == old(dest[..p]) + b && |b| == 3 && Decoded(rest) == Prepend(b, Decoded(rest[4..]))
  {
    hide Decoded, TableWord, Lane0, Lane1, Lane2, Lane3;
    ChunkCorrect(rest);
    assert rest[0] == rest[..4][0] && rest[1] == rest[..4][1] && rest[2] == rest[..4][2] && rest[3] == rest[..4][3];
    var x := TableWord(Lane0(y), Lane1(y), Lane2(y), Lane3(y));
    b := [Lane0(x), Lane1(x), Lane2(x)];
    ok := x < BADCHAR;
    if ok { Store32(dest, p, x); }
  }

  /** All groups but the last; y comes back holding the last one. */
  method DecodeChunks(dest: array<bv8>, src: seq<bv8>, chunks: nat) returns (ok: bool, p: nat, y: bv32)
    requires |src| == 4 * chunks + 4 && dest.Length >= 3 * chunks + 5
    modifies dest
    ensures !ok ==> Decoded(src) == None
    ensures ok ==> p == 3 * chunks && [Lane0(y), Lane1(y), Lane2(y), Lane3(y)] == src[4 * chunks..]
    ensures ok ==> Decoded(src) == Prepend(dest[..p], Decoded(src[4 * chunks..]))
  {
    hide Decoded, Lane0, Lane1, Lane2, Lane3;
    PrependNothing(Decoded(src));
    assert src[0..] == src && dest[..0] == [];
    p, ok := 0, true;
    y := Load32(src, 0);
    for i := 0 to chunks
      invariant p == 3 * i && ok
      invariant [Lane0(y), Lane1(y), Lane2(y), Lane3(y)] == src[4 * i..4 * i + 4]
      invariant Decoded(src) == Prepend(dest[..p], Decoded(src[4 * i..]))
    {
      ghost var before, rest := dest[..p], src[4 * i..];
      assert rest[..4] == src[4 * i..4 * i + 4];
      ghost var b;
      ok, b := DecodeChunk(dest, p, y, rest);
      if !ok { return; }
      assert rest[4..] == src[4 * (i + 1)..];
      PrependTwice(before, b, Decoded(rest[4..]));
      p := p + 3;
      y := Load32(src, 4 * (i + 1));
    }
  }

  method Decode(dest: array<bv8>, src: seq<bv8>) returns (d: int)
    requires dest.Length >= |src| / 4 * 3 + 2
    modifies dest
    ensures d == -1 <==> Decoded(src).None?
    ensures d != -1 ==> 0 <= d <= dest.Length && Decoded(src) == Some(dest[..d])
  {
    hide Decoded, LastGroup, Lane0, Lane1, Lane2, Lane3;
    DecodedEdges(src);
    if |src| == 0 { return 0; }
    if |src| < 4 || |src| % 4 != 0 { return -1; }
    ghost var g := src[|src| - 4..];
    var len := Unpadded(src);
    var leftover := len % 4;
    var chunks := if leftover == 0 then len / 4 - 1 else len / 4;
    assert |src| == 4 * chunks + 4 && leftover == Letters(g) % 4 && 2 <= Letters(g) <= 4;
    hide Letters;
    var ok, p, y := DecodeChunks(dest, src, chunks);
    if !ok { return -1; }
    DecodedEdges(g);
    ok := DecodeLast(dest, p, y, leftover, g);
    if !ok { return -1; }
    d := if leftover == 0 then (chunks + 1) * 3 else 3 * chunks + 6 * leftover / 8;
    assert d == p + Letters(g) - 1;
  }

  lemma PrependNothing(r: Option<seq<bv8>>)
    ensures Prepend([], r) == r
  {
    if r.Some? { assert [] + r.value == r.value; }
  }

  lemma DecodedEdges(t: seq<bv8>)
    ensures |t| == 0 ==> Decoded(t) == Some([])
    ensures |t| % 4 != 0 ==> Decoded(t) == None
    ensures |t| == 4 ==> Decoded(t) == LastGroup(t)
  {
    hide LastGroup;
  }

  lemma PrependTwice(a: seq<bv8>, b: seq<bv8>, r: Option<seq<bv8>>)
    ensures Prepend(a, Prepend(b, r)) == Prepend(a + b, r)
  {
    if r.Some? { assert a + (b + r.value) == a + b + r.value; }
  }
}

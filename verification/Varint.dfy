/** The variable-length integers and length-prefixed slices of voyager/util/coding.cc. */
module Varint {
  import opened Fixed

  datatype Parsed<T> = Rejected | Accepted(value: T, rest: seq<bv8>)

  // ----- What a varint means -----

  function MoreByte(v: bv64): bv8 { ((v & 127) | 128) as bv8 }

  /** Seven bits a byte, low bits first; a set top bit says that more bytes follow. */
  function Encoded(v: bv64): (s: seq<bv8>)
    ensures |s| >= 1
    decreases v
  {
    if v < 128 then [v as bv8] else [MoreByte(v)] + Encoded(v >> 7)
  }

  predicate More(b: bv8) { b & 128 != 0 }
  function Seven(b: bv8): bv64 { (b & 127) as bv64 }

  // Named so that proofs can keep the bits out of sight.
  function Or(a: bv64, b: bv64): bv64 { a | b }
  function Up7(v: bv64): bv64 { v << 7 }

  /** Reads at most k bytes; bits beyond the 64th are lost. */
  function Parse(s: seq<bv8>, k: nat): (r: Parsed<bv64>)
    ensures r.Accepted? ==> |r.rest| < |s|
    decreases k
  {
    if k == 0 || s == [] then Rejected
    else if !More(s[0]) then Accepted(Seven(s[0]), s[1..])
    else
      match Parse(s[1..], k - 1)
      case Rejected => Rejected
      case Accepted(v, rest) => Accepted(Or(Seven(s[0]), Up7(v)), rest)
  }

  function Low32(v: bv64): bv32 { (v & 0xffff_ffff) as bv32 }

  function Parse32(s: seq<bv8>): (r: Parsed<bv32>)
    ensures r.Accepted? ==> |r.rest| < |s|
  {
    match Parse(s, 5)
    case Rejected => Rejected
    case Accepted(v, rest) => Accepted(Low32(v), rest)
  }

  // ----- Round trip and prefix-freeness -----

  lemma SplitSeven(v: bv64)
    ensures v >= 128 ==> More(MoreByte(v)) && Or(Seven(MoreByte(v)), Up7(v >> 7)) == v
    ensures v < 128 ==> !More(v as bv8) && Seven(v as bv8) == v
  {
  }

  lemma {:induction false} ParseEncoded(v: bv64, rest: seq<bv8>, k: nat)
    requires |Encoded(v)| <= k
    ensures Parse(Encoded(v) + rest, k) == Accepted(v, rest)
    decreases k
  {
    hide MoreByte, More, Seven, Or, Up7;
    SplitSeven(v);
    if v < 128 {
      assert (Encoded(v) + rest)[1..] == rest;
    } else {
      assert (Encoded(v) + rest)[1..] == Encoded(v >> 7) + rest;
      ParseEncoded(v >> 7, rest, k - 1);
    }
  }

  lemma {:induction false} ProperPrefixRejected(v: bv64, n: nat, k: nat)
    requires n < |Encoded(v)|
    ensures Parse(Encoded(v)[..n], k) == Rejected
    decreases k
  {
    hide MoreByte, More, Seven, Or, Up7;
    SplitSeven(v);
    if k != 0 && n != 0 {
      assert Encoded(v)[..n][1..] == Encoded(v >> 7)[..n - 1];
      ProperPrefixRejected(v >> 7, n - 1, k - 1);
    }
  }

  predicate AtMostBits(v: bv64, k: nat)
    decreases k
  {
    v == 0 || (k > 0 && AtMostBits(v >> 7, k - 1))
  }

  lemma {:induction false} EncodedLength(v: bv64, k: nat)
    requires AtMostBits(v, k)
    ensures |Encoded(v)| <= if k == 0 then 1 else k
    decreases k
  {
    if v >= 128 {
      assert v >> 7 != 0;
      EncodedLength(v >> 7, k - 1);
    }
  }

  lemma Width64(v: bv64)
    ensures AtMostBits(v, 10)
  {
    assert AtMostBits((((((((v >> 7) >> 7) >> 7) >> 7) >> 7) >> 7) >> 7) >> 7, 2);
    assert AtMostBits((((v >> 7) >> 7) >> 7) >> 7, 6);
  }

  lemma Width32(v: bv64)
    requires v < 0x1_0000_0000
    ensures AtMostBits(v, 5)
  {
    assert AtMostBits(((v >> 7) >> 7) >> 7, 2);
  }

  lemma LengthOf(v: bv64)
    ensures |Encoded(v)| <= 10
    ensures v < 0x1_0000_0000 ==> |Encoded(v)| <= 5
  {
    Width64(v);
    EncodedLength(v, 10);
    if v < 0x1_0000_0000 {
      Width32(v);
      EncodedLength(v, 5);
    }
  }

  // ----- The bytes of a varint -----

  function DownBy(v: bv64, k: nat): bv64 { if k == 0 then v else DownBy(v >> 7, k - 1) }

  /** The k-th byte has the k-th seven bits of the value, lowest first, and its top bit set exactly
      when another follows; there is no byte more than the value needs. */
  lemma {:induction false} EncodedBytes(v: bv64, k: nat)
    requires k < |Encoded(v)|
    ensures Seven(Encoded(v)[k]) == DownBy(v, k) & 127
    ensures Encoded(v)[k] & 128 != 0 <==> k + 1 < |Encoded(v)|
    ensures k > 0 ==> DownBy(v, k) != 0
    decreases k
  {
    hide Seven, MoreByte;
    LowByte(v);
    if k > 0 {
      EncodedBytes(v >> 7, k - 1);
      StillSome(v);
    } else {
      hide Encoded;
      Unfold(v);
    }
  }

  lemma LowByte(v: bv64)
    ensures Seven(MoreByte(v)) == v & 127 && MoreByte(v) & 128 != 0
    ensures v < 128 ==> Seven(v as bv8) == v & 127 && (v as bv8) & 128 == 0
  {
  }

  lemma StillSome(v: bv64)
    ensures v >= 128 ==> v >> 7 != 0
  {
  }

  /** Where the first byte stands that no other follows. */
  function Ends(s: seq<bv8>): (n: nat)
    ensures n <= |s|
  {
    if s == [] || !More(s[0]) then 0 else 1 + Ends(s[1..])
  }

  /** Reading accepts exactly when the last byte is among the first k, and leaves what comes after it. */
  lemma {:induction false} ParseAccepts(s: seq<bv8>, k: nat)
    ensures Parse(s, k).Accepted? <==> Ends(s) < k && Ends(s) < |s|
    ensures Parse(s, k).Accepted? ==> Parse(s, k).rest == s[Ends(s) + 1..]
    decreases k
  {
    hide More, Seven, Or, Up7;
    if k != 0 && s != [] && More(s[0]) { ParseAccepts(s[1..], k - 1); }
  }

  // ----- The encoders -----

  lemma Unfold(w: bv64)
    ensures w >= 128 ==> Encoded(w) == [MoreByte(w)] + Encoded(w >> 7)
    ensures w < 128 ==> Encoded(w) == [w as bv8]
  {
  }

  method EncodeVarint64(dst: array<bv8>, v: bv64) returns (end: nat)
    requires dst.Length >= 10
    modifies dst
    ensures end <= dst.Length && dst[..end] == Encoded(v)
  {
    LengthOf(v);
    hide MoreByte, Encoded;
    var w := v;
    end := 0;
    assert dst[..0] == [];
    while w >= 128
      invariant end + |Encoded(w)| <= 10
      invariant Encoded(v) == dst[..end] + Encoded(w)
      decreases w
    {
      Unfold(w);
      dst[end] := MoreByte(w);
      end := end + 1;
      assert dst[..end] == dst[..end - 1] + [MoreByte(w)];
      w := w >> 7;
    }
    Unfold(w);
    dst[end] := w as bv8;
    end := end + 1;
    assert dst[..end] == dst[..end - 1] + [w as bv8];
  }

  function Uchar(v: bv32): bv8 { (v & 0xff) as bv8 }
  function Marked(v: bv32): bv8 { Uchar(v | 128) }
  predicate Small(v: bv32) { v < 128 }
  function Shift7(v: bv32): bv32 { v >> 7 }

  lemma ZeroExtended(v: bv32, w: bv64)
    requires w == v as bv64
    ensures Small(v) <==> w < 128
    ensures MoreByte(w) == Marked(v)
    ensures Shift7(v) as bv64 == w >> 7
    ensures Small(v) ==> w as bv8 == Uchar(v)
  {
  }

  function Encoded32(v: bv32): seq<bv8> { Encoded(v as bv64) }

  lemma Unfold32(v: bv32)
    ensures Encoded32(v) == if Small(v) then [Uchar(v)] else [Marked(v)] + Encoded32(Shift7(v))
  {
    hide MoreByte, Marked, Small, Shift7, Uchar;
    ZeroExtended(v, v as bv64);
  }

  lemma Shifts(v: bv32)
    ensures Shift7(v) == v >> 7 && Shift7(v >> 7) == v >> 14 && Shift7(v >> 14) == v >> 21 && Shift7(v >> 21) == v >> 28
    ensures Small(v) <==> v < 1 << 7
    ensures Small(v >> 7) <==> v < 1 << 14
    ensures Small(v >> 14) <==> v < 1 << 21
    ensures Small(v >> 21) <==> v < 1 << 28
    ensures Small(v >> 28)
  {
  }

  /** The five lengths of the unrolled 32-bit encoder are what the looping 64-bit encoder writes. */
  lemma Unrolled(v0: bv32, v1: bv32, v2: bv32, v3: bv32, v4: bv32)
    requires Shift7(v0) == v1 && Shift7(v1) == v2 && Shift7(v2) == v3 && Shift7(v3) == v4 && Small(v4)
    ensures Encoded32(v0) ==
      if Small(v0) then [Uchar(v0)]
      else if Small(v1) then [Marked(v0), Uchar(v1)]
      else if Small(v2) then [Marked(v0), Marked(v1), Uchar(v2)]
      else if Small(v3) then [Marked(v0), Marked(v1), Marked(v2), Uchar(v3)]
      else [Marked(v0), Marked(v1), Marked(v2), Marked(v3), Uchar(v4)]
  {
    hide Encoded32, Marked, Small, Shift7, Uchar;
    Unfold32(v0);
    Unfold32(v1);
    Unfold32(v2);
    Unfold32(v3);
    Unfold32(v4);
  }

  method EncodeVarint32(dst: array<bv8>, v: bv32) returns (end: nat)
    requires dst.Length >= 5
    modifies dst
    ensures end <= dst.Length && dst[..end] == Encoded(v as bv64)
  {
    Shifts(v);
    Unrolled(v, v >> 7, v >> 14, v >> 21, v >> 28);
    hide Encoded, Marked, Small, Shift7, Uchar;
    if v < 1 << 7 {
      dst[0] := Uchar(v);
      end := 1;
    } else if v < 1 << 14 {
      dst[0], dst[1] := Marked(v), Uchar(v >> 7);
      end := 2;
    } else if v < 1 << 21 {
      dst[0], dst[1], dst[2] := Marked(v), Marked(v >> 7), Uchar(v >> 14);
      end := 3;
    } else if v < 1 << 28 {
      dst[0], dst[1], dst[2], dst[3] := Marked(v), Marked(v >> 7), Marked(v >> 14), Uchar(v >> 21);
      end := 4;
    } else {
      dst[0], dst[1], dst[2], dst[3], dst[4] :=
        Marked(v), Marked(v >> 7), Marked(v >> 14), Marked(v >> 21), Uchar(v >> 28);
      end := 5;
    }
  }

  method VarintLength(v: bv64) returns (len: nat)
    ensures len == |Encoded(v)|
  {
    hide Encoded;
    len := 1;
    var w := v;
    Unfold(w);
    while w >= 128
      invariant len + |Encoded(w)| == |Encoded(v)| + 1
      decreases w
    {
      Unfold(w);
      w := w >> 7;
      len := len + 1;
    }
    Unfold(w);
  }

  // ----- The decoders -----

  /** The place of v above n bytes. */
  function Place(v: bv64, n: nat): bv64
    decreases n
  {
    if n == 0 then v else Up7(Place(v, n - 1))
  }

  /** What the bits gathered from n bytes make of what the remaining bytes stand for. */
  function Gathered(result: bv64, n: nat, rest: Parsed<bv64>): Parsed<bv64> {
    match rest
    case Rejected => Rejected
    case Accepted(v, tail) => Accepted(Or(result, Place(v, n)), tail)
  }

  lemma Up7Or(a: bv64, b: bv64)
    ensures Up7(Or(a, b)) == Or(Up7(a), Up7(b))
  {
  }

  lemma {:induction false} PlaceOr(a: bv64, b: bv64, n: nat)
    ensures Place(Or(a, b), n) == Or(Place(a, n), Place(b, n))
  {
    hide Or, Up7;
    if n != 0 {
      PlaceOr(a, b, n - 1);
      Up7Or(Place(a, n - 1), Place(b, n - 1));
    }
  }

  lemma {:induction false} PlaceUp(v: bv64, n: nat)
    ensures Place(Up7(v), n) == Place(v, n + 1)
  {
    hide Up7;
    if n != 0 { PlaceUp(v, n - 1); }
  }

  lemma OrAssociative(a: bv64, b: bv64, c: bv64)
    ensures Or(Or(a, b), c) == Or(a, Or(b, c))
  {
    assert (a | b) | c == a | (b | c);
  }

  lemma GatherStep(result: bv64, n: nat, s: seq<bv8>, k: nat)
    requires k > 0 && s != []
    ensures Gathered(result, n, Parse(s, k)) ==
      if More(s[0]) then Gathered(Or(result, Place(Seven(s[0]), n)), n + 1, Parse(s[1..], k - 1))
      else Accepted(Or(result, Place(Seven(s[0]), n)), s[1..])
  {
    hide Or, Place, Up7, Seven, More;
    var more := Parse(s[1..], k - 1);
    if more.Accepted? {
      PlaceOr(Seven(s[0]), Up7(more.value), n);
      PlaceUp(more.value, n);
      OrAssociative(result, Place(Seven(s[0]), n), Place(more.value, n + 1));
    }
  }

  lemma GatherStart(s: seq<bv8>, k: nat)
    ensures Gathered(0, 0, Parse(s, k)) == Parse(s, k)
  {
    var r := Parse(s, k);
    if r.Accepted? { assert 0 | r.value == r.value; }
  }

  /** The shift after n bytes. */
  function ShiftAt(n: nat): bv64
    requires n <= 10
  {
    [0, 7, 14, 21, 28, 35, 42, 49, 56, 63, 70][n]
  }

  function ShiftBy(v: bv64, shift: bv64): bv64
    requires shift <= 63
  {
    v << shift
  }

  lemma ShiftOnce(v: bv64, shift: bv64, x: bv64)
    requires shift == 0 || shift == 7 || shift == 14 || shift == 21 || shift == 28
      || shift == 35 || shift == 42 || shift == 49 || shift == 56
    requires x == v << shift
    ensures x << 7 == v << (shift + 7)
  {
  }

  lemma ShiftByOnce(v: bv64, shift: bv64, shift': bv64, x: bv64, y: bv64)
    requires shift == 0 || shift == 7 || shift == 14 || shift == 21 || shift == 28
      || shift == 35 || shift == 42 || shift == 49 || shift == 56
    requires x == ShiftBy(v, shift) && shift' == shift + 7 && y == x << 7
    ensures shift' <= 63 && y == ShiftBy(v, shift')
  {
    ShiftOnce(v, shift, x);
  }

  lemma Up7IsShift(x: bv64)
    ensures Up7(x) == x << 7
  {
  }

  lemma NextShift(n: nat)
    requires n <= 10
    ensures ShiftAt(n) <= 63 <==> n < 10
    ensures n < 10 ==> ShiftAt(n) + 7 == ShiftAt(n + 1)
  {
  }

  lemma Enumerated(n: nat)
    requires n < 9
    ensures var shift := ShiftAt(n);
      shift == 0 || shift == 7 || shift == 14 || shift == 21 || shift == 28
      || shift == 35 || shift == 42 || shift == 49 || shift == 56
  {
  }

  lemma {:induction false} PlaceIsShift(v: bv64, n: nat)
    requires n < 10
    ensures ShiftAt(n) <= 63 && Place(v, n) == ShiftBy(v, ShiftAt(n))
  {
    if n == 0 {
      assert v << 0 == v;
    } else {
      PlaceIsShift(v, n - 1);
      NextShift(n - 1);
      Enumerated(n - 1);
      hide ShiftBy, Up7, ShiftAt;
      var x := Place(v, n - 1);
      Up7IsShift(x);
      ShiftByOnce(v, ShiftAt(n - 1), ShiftAt(n), x, Up7(x));
    }
  }

  lemma GatherEnd(result: bv64, n: nat, s: seq<bv8>, k: nat)
    requires s == [] || k == 0
    ensures Gathered(result, n, Parse(s, k)) == Rejected
  {
  }

  method GetVarint64Ptr(s: seq<bv8>) returns (r: Parsed<bv64>)
    ensures r == Parse(s, 10)
  {
    hide ShiftAt, Or, Place, Seven, More, ShiftBy, Parse, Gathered;
    GatherStart(s, 10);
    var result: bv64, shift, p := 0, ShiftAt(0), 0;
    assert s[0..] == s;
    NextShift(0);
    while shift <= 63 && p < |s|
      invariant p <= 10 && p <= |s| && shift == ShiftAt(p) && (shift <= 63 <==> p < 10)
      invariant Parse(s, 10) == Gathered(result, p, Parse(s[p..], 10 - p))
    {
      var byte := s[p];
      GatherStep(result, p, s[p..], 10 - p);
      PlaceIsShift(Seven(byte), p);
      result := Or(result, ShiftBy(Seven(byte), shift));
      NextShift(p);
      p := p + 1;
      if !More(byte) {
        return Accepted(result, s[p..]);
      }
      NextShift(p);
      shift := shift + 7;
    }
    GatherEnd(result, p, s[p..], 10 - p);
    return Rejected;
  }

  // ----- The 32-bit decoder -----

  function Or32(a: bv32, b: bv32): bv32 { a | b }
  function Seven32(b: bv8): bv32 { (b & 127) as bv32 }

  function ShiftBy32(v: bv32, shift: bv32): bv32
    requires shift <= 28
  {
    v << shift
  }

  function ShiftAt32(n: nat): bv32
    requires n <= 5
  {
    [0, 7, 14, 21, 28, 35][n]
  }

  lemma NextShift32(n: nat)
    requires n <= 5
    ensures ShiftAt32(n) <= 28 <==> n < 5
    ensures n < 5 ==> ShiftAt32(n) + 7 == ShiftAt32(n + 1)
  {
  }

  lemma Low32Or(a: bv64, b: bv64)
    ensures Low32(Or(a, b)) == Or32(Low32(a), Low32(b))
  {
  }

  lemma Low32Shift(b: bv8, n: nat)
    requires n < 5
    ensures Low32(Place(Seven(b), n)) == ShiftBy32(Seven32(b), ShiftAt32(n))
  {
    PlaceIsShift(Seven(b), n);
    Widened(b);
    hide Low32, Place, Seven, Seven32, ShiftBy, ShiftBy32, ShiftAt, ShiftAt32;
    ShiftsAgree(Seven32(b), n);
  }

  lemma ShiftsAgree(w: bv32, n: nat)
    requires n < 5
    ensures ShiftAt(n) <= 63 && ShiftAt32(n) <= 28
    ensures Low32(ShiftBy(w as bv64, ShiftAt(n))) == ShiftBy32(w, ShiftAt32(n))
  {
    NextShift(n);
    NextShift32(n);
    var shift, shift' := ShiftAt(n), ShiftAt32(n);
    assert n == 0 ==> shift == 0 && shift' == 0;
    assert n == 1 ==> shift == 7 && shift' == 7;
    assert n == 2 ==> shift == 14 && shift' == 14;
    assert n == 3 ==> shift == 21 && shift' == 21;
    assert n == 4 ==> shift == 28 && shift' == 28;
    hide Low32, ShiftBy, ShiftBy32, ShiftAt, ShiftAt32;
    Low32Shift0(w);
    Low32Shift7(w);
    Low32Shift14(w);
    Low32Shift21(w);
    Low32Shift28(w);
  }

  lemma Widened(b: bv8)
    ensures Seven(b) == Seven32(b) as bv64
  {
  }

  lemma Low32Shift0(w: bv32)
    ensures Low32(ShiftBy(w as bv64, 0)) == ShiftBy32(w, 0)
  {
  }

  lemma Low32Shift7(w: bv32)
    ensures Low32(ShiftBy(w as bv64, 7)) == ShiftBy32(w, 7)
  {
  }

  lemma Low32Shift14(w: bv32)
    ensures Low32(ShiftBy(w as bv64, 14)) == ShiftBy32(w, 14)
  {
  }

  lemma Low32Shift21(w: bv32)
    ensures Low32(ShiftBy(w as bv64, 21)) == ShiftBy32(w, 21)
  {
  }

  lemma Low32Shift28(w: bv32)
    ensures Low32(ShiftBy(w as bv64, 28)) == ShiftBy32(w, 28)
  {
  }

  method GetVarint32PtrFallback(s: seq<bv8>) returns (r: Parsed<bv32>)
    ensures r == Parse32(s)
  {
    hide ShiftAt32, Or, Or32, Place, Seven, Seven32, More, ShiftBy32, Parse, Gathered, Low32;
    GatherStart(s, 5);
    var result: bv32, shift, p := 0, ShiftAt32(0), 0;
    ghost var gathered: bv64 := 0;
    assert s[0..] == s;
    NextShift32(0);
    Low32Zero();
    while shift <= 28 && p < |s|
      invariant p <= 5 && p <= |s| && shift == ShiftAt32(p) && (shift <= 28 <==> p < 5)
      invariant result == Low32(gathered)
      invariant Parse(s, 5) == Gathered(gathered, p, Parse(s[p..], 5 - p))
    {
      var byte := s[p];
      GatherStep(gathered, p, s[p..], 5 - p);
      Low32Or(gathered, Place(Seven(byte), p));
      Low32Shift(byte, p);
      gathered := Or(gathered, Place(Seven(byte), p));
      result := Or32(result, ShiftBy32(Seven32(byte), shift));
      NextShift32(p);
      p := p + 1;
      if !More(byte) {
        return Accepted(result, s[p..]);
      }
      NextShift32(p);
      shift := shift + 7;
    }
    GatherEnd(gathered, p, s[p..], 5 - p);
    return Rejected;
  }

  lemma Low32Zero()
    ensures Low32(0) == 0
  {
  }

  /** A first byte without a mark is the whole number; only longer ones take the loop. */
  method GetVarint32Ptr(s: seq<bv8>) returns (r: Parsed<bv32>)
    ensures r == Parse32(s)
  {
    if s != [] {
      var result := s[0] as bv32;
      if result & 128 == 0 {
        OneByte(s[0]);
        hide More, Seven, Low32;
        return Accepted(result, s[1..]);
      }
    }
    r := GetVarint32PtrFallback(s);
  }

  lemma OneByte(b: bv8)
    requires (b as bv32) & 128 == 0
    ensures !More(b) && Low32(Seven(b)) == b as bv32
  {
  }

  // ----- Length-prefixed slices -----

  /** PutLengthPrefixedSlice; the size is cut to 32 bits on the way. */
  function Prefixed(value: seq<bv8>): seq<bv8> {
    Encoded(Word(|value|) as bv64) + value
  }

  method PutLengthPrefixedSlice(dst: seq<bv8>, value: seq<bv8>) returns (dst': seq<bv8>)
    ensures dst' == dst + Prefixed(value)
  {
    var buf := new bv8[5];
    var end := EncodeVarint32(buf, Word(|value|));
    hide *;
    dst' := dst + buf[..end];
    dst' := dst' + value;
    PrefixedParts(value);
  }

  lemma PrefixedParts(value: seq<bv8>)
    ensures Prefixed(value) == Encoded(Word(|value|) as bv64) + value
  {
  }

  datatype Slices = Failed(input: seq<bv8>) | Got(result: seq<bv8>, input: seq<bv8>)

  /** What GetLengthPrefixedSlice makes of its input; a short slice loses its length all the same. */
  function TakePrefixed(input: seq<bv8>): (r: Slices)
    ensures r.Got? ==> |r.input| < |input|
  {
    match Parse32(input)
    case Rejected => Failed(input)
    case Accepted(len, rest) =>
      if |rest| >= Number(len) then Got(rest[..Number(len)], rest[Number(len)..]) else Failed(rest)
  }

  method GetVarint32(input: seq<bv8>) returns (ok: bool, value: bv32, input': seq<bv8>)
    ensures ok == Parse32(input).Accepted?
    ensures ok ==> Parse32(input) == Accepted(value, input')
    ensures !ok ==> input' == input
  {
    var q := GetVarint32Ptr(input);
    hide *;
    match q {
      case Rejected => ok, value, input' := false, 0, input;
      case Accepted(v, rest) => ok, value, input' := true, v, rest;
    }
  }

  method GetLengthPrefixedSlice(input: seq<bv8>) returns (r: Slices)
    ensures r == TakePrefixed(input)
  {
    hide Parse32, Number;
    var ok, len, input' := GetVarint32(input);
    if ok && |input'| >= Number(len) {
      r := Got(input'[..Number(len)], input'[Number(len)..]);
    } else {
      r := Failed(input');
    }
  }

  lemma Parse32OfWord(w: bv32, rest: seq<bv8>)
    ensures Parse32(Encoded(w as bv64) + rest) == Accepted(w, rest)
  {
    var v := w as bv64;
    assert v < 0x1_0000_0000 && Low32(v) == w;
    hide Low32, Encoded, Parse;
    LengthOf(v);
    ParseEncoded(v, rest, 5);
  }

  /** Reading a slice back gives it whole exactly when its length fits 32 bits. */
  lemma PrefixedRoundTrip(value: seq<bv8>, rest: seq<bv8>)
    ensures |value| < TWO_32 <==> TakePrefixed(Prefixed(value) + rest) == Got(value, rest)
  {
    hide Parse32, Encoded, Number, Word;
    var w := Word(|value|);
    assert Prefixed(value) + rest == Encoded(w as bv64) + (value + rest);
    Parse32OfWord(w, value + rest);
    NumberOfWord(|value|);
    if |value| < TWO_32 {
      assert (value + rest)[..|value|] == value && (value + rest)[|value|..] == rest;
    }
  }

  function PrefixedAll(values: seq<seq<bv8>>): seq<bv8> {
    if values == [] then [] else Prefixed(values[0]) + PrefixedAll(values[1..])
  }

  /** Takes slices until the input is used up or broken. */
  function TakeAll(input: seq<bv8>): (seq<seq<bv8>>, seq<bv8>)
    decreases |input|
  {
    match TakePrefixed(input)
    case Failed(_) => ([], input)
    case Got(value, rest) =>
      var (values, tail) := TakeAll(rest);
      ([value] + values, tail)
  }

  lemma TakeAllStep(input: seq<bv8>, value: seq<bv8>, rest: seq<bv8>)
    requires TakePrefixed(input) == Got(value, rest)
    ensures TakeAll(input) == ([value] + TakeAll(rest).0, TakeAll(rest).1)
  {
    hide TakePrefixed;
  }

  /** Any list of slices decodes back to itself. */
  lemma {:induction false} TakeAllPrefixed(values: seq<seq<bv8>>)
    requires forall value :: value in values ==> |value| < TWO_32
    ensures TakeAll(PrefixedAll(values)) == (values, [])
    decreases values
  {
    hide TakePrefixed, Prefixed, TakeAll, TWO_32;
    if values == [] {
      NothingToTake();
    } else {
      var rest := PrefixedAll(values[1..]);
      TakeAllPrefixed(values[1..]);
      PrefixedRoundTrip(values[0], rest);
      TakeAllStep(PrefixedAll(values), values[0], rest);
      assert [values[0]] + values[1..] == values;
    }
  }

  lemma NothingToTake()
    ensures TakeAll([]) == ([], [])
  {
    assert TakePrefixed([]) == Failed([]);
  }
}

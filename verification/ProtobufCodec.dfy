/** The length-framed message stream of voyager/protobuf/protobuf_codec.h. Serialising and parsing
    a message are the protobuf library's; here they are functions of which parsing undoes serialising. */
module Protobuf {
  import opened Wrappers
  import opened Fixed
  import opened Buffers

  const HEADER: nat := 4

  /** What is parsed is the body of a frame; the message callback says whether to go on. It may
      depend on everything it was given so far. */
  datatype Codec<!M(!new)> = Codec(serialize: M -> seq<bv8>, parse: seq<bv8> -> Option<M>, goOn: seq<M> -> bool)

  /** SendMessage's frame: the size counts the header and is cut to 32 bits. */
  function Frame(body: seq<bv8>): (f: seq<bv8>)
    ensures |f| == HEADER + |body|
  {
    EncodeFixed32(Word(HEADER + |body|)) + body
  }

  /** Four bytes with the size of the whole frame, lowest first, and the body. */
  lemma FrameBytes(body: seq<bv8>)
    ensures var f, size := Frame(body), 4 + |body|;
      |f| == size && f[4..] == body &&
      f[0] as nat == size % 256 && f[1] as nat == size / 256 % 256 &&
      f[2] as nat == size / 0x1_0000 % 256 && f[3] as nat == size / 0x100_0000 % 256
  {
    hide Word, EncodeFixed32;
    LittleEndian(4 + |body|);
  }

  function FrameSize(s: seq<bv8>): nat
    requires |s| >= HEADER
  {
    Number(DecodeFixed32(s[0], s[1], s[2], s[3]))
  }

  lemma FrameSizeOfFrame(body: seq<bv8>, rest: seq<bv8>)
    requires HEADER + |body| < TWO_32
    ensures FrameSize(Frame(body) + rest) == HEADER + |body|
  {
    hide Word, Number, EncodeFixed32, DecodeFixed32;
    FixedRoundTrip(HEADER + |body|);
    var e, s := EncodeFixed32(Word(HEADER + |body|)), Frame(body) + rest;
    assert s[0] == e[0] && s[1] == e[1] && s[2] == e[2] && s[3] == e[3];
  }

  /** A whole frame is there. */
  predicate Complete(s: seq<bv8>) { |s| >= HEADER && |s| >= FrameSize(s) }

  // ----- What one call of OnMessage does to the buffer -----

  /** Going: the loop ended for want of bytes; Refused: the callback said stop; Broken: a body did
      not parse and stays in the buffer. */
  datatype Ending = Going | Refused | Broken

  datatype Progress<M> = Progress(seen: seq<M>, rest: seq<bv8>, ending: Ending)

  function Body<M(!new)>(c: Codec<M>, s: seq<bv8>): Option<M>
    requires Complete(s)
  {
    if FrameSize(s) < HEADER then None else c.parse(s[HEADER..FrameSize(s)])
  }

  function Consumed<M(!new)>(c: Codec<M>, seen: seq<M>, s: seq<bv8>): Progress<M>
    decreases |s|
  {
    if !Complete(s) then Progress(seen, s, Going)
    else
      match Body(c, s)
      case None => Progress(seen, s, Broken)
      case Some(m) =>
        if c.goOn(seen + [m]) then Consumed(c, seen + [m], s[FrameSize(s)..])
        else Progress(seen + [m], s[FrameSize(s)..], Refused)
  }

  /** SendMessage up to the connection: a message that serialises goes out as one frame, another
      not at all. */
  method SendMessage(serialized: Option<seq<bv8>>) returns (sent: Option<seq<bv8>>)
    ensures serialized.Some? ==> sent == Some(Frame(serialized.value))
    ensures serialized.None? ==> sent == None
  {
    match serialized {
      case None => sent := None;
      case Some(body) =>
        var size := Word(HEADER + |body|);
        var s := EncodeFixed32(size);
        s := s + body;
        sent := Some(s);
    }
  }

  method OnMessage<M(!new)>(c: Codec<M>, seen: seq<M>, buf: Buffer) returns (seen': seq<M>, ending: Ending)
    requires buf.Valid()
    modifies buf
    ensures buf.Valid() && Progress(seen', buf.Contents(), ending) == Consumed(c, seen, old(buf.Contents()))
  {
    hide DecodeFixed32, Number;
    var res := true;
    seen', ending := seen, Going;
    while res
      invariant buf.Valid()
      invariant res ==> ending == Going
      invariant Consumed(c, seen, old(buf.Contents())) ==
        if res then Consumed(c, seen', buf.Contents()) else Progress(seen', buf.Contents(), ending)
      decreases res, |buf.Contents()|
    {
      ghost var s := buf.Contents();
      if buf.ReadableSize() >= HEADER {
        var p := buf.PeekRange(0, HEADER);
        var size := Number(DecodeFixed32(p[0], p[1], p[2], p[3]));
        assert size == FrameSize(s);
        if buf.ReadableSize() >= size {
          var message := if size < HEADER then None else c.parse(buf.PeekRange(HEADER, size));
          res := message.Some?;
          if res {
            seen' := seen' + [message.value];
            res := c.goOn(seen');
            if !res { ending := Refused; }
            buf.Retrieve(size);
          } else {
            ending := Broken;
          }
          continue;
        }
      }
      break;
    }
  }

  // ----- Framing round trip -----

  ghost predicate Inverse<M(!new)>(c: Codec<M>) {
    forall m :: c.parse(c.serialize(m)) == Some(m)
  }

  ghost predicate Sendable<M(!new)>(c: Codec<M>, ms: seq<M>) {
    forall m :: m in ms ==> HEADER + |c.serialize(m)| < TWO_32
  }

  /** The bytes that sending the messages puts on the connection. */
  function Stream<M(!new)>(c: Codec<M>, ms: seq<M>): seq<bv8> {
    if ms == [] then [] else Frame(c.serialize(ms[0])) + Stream(c, ms[1..])
  }

  /** The callback never stops the loop. */
  ghost predicate Tireless<M(!new)>(c: Codec<M>) { forall seen :: c.goOn(seen) }

  lemma ConsumedFrame<M(!new)>(c: Codec<M>, seen: seq<M>, m: M, tail: seq<bv8>)
    requires Inverse(c) && Tireless(c) && HEADER + |c.serialize(m)| < TWO_32
    ensures Consumed(c, seen, Frame(c.serialize(m)) + tail) == Consumed(c, seen + [m], tail)
  {
    hide FrameSize, TWO_32;
    var body := c.serialize(m);
    var s := Frame(body) + tail;
    FrameSizeOfFrame(body, tail);
    assert s[HEADER..FrameSize(s)] == body && s[FrameSize(s)..] == tail;
  }

  lemma ConsumedNothing<M(!new)>(c: Codec<M>, seen: seq<M>, s: seq<bv8>)
    requires !Complete(s)
    ensures Consumed(c, seen, s) == Progress(seen, s, Going)
  {
  }

  /** Complete frames are delivered in order and once; an incomplete frame stays. */
  lemma {:induction false} ConsumedStream<M(!new)>(c: Codec<M>, seen: seq<M>, ms: seq<M>, partial: seq<bv8>)
    requires Inverse(c) && Tireless(c) && Sendable(c, ms) && !Complete(partial)
    ensures Consumed(c, seen, Stream(c, ms) + partial) == Progress(seen + ms, partial, Going)
    decreases ms
  {
    hide Frame, Consumed, Complete, Inverse, Tireless, TWO_32;
    if ms == [] {
      assert Stream(c, ms) + partial == partial && seen + ms == seen;
      ConsumedNothing(c, seen, partial);
    } else {
      var tail := Stream(c, ms[1..]) + partial;
      assert Stream(c, ms) + partial == Frame(c.serialize(ms[0])) + tail;
      ConsumedFrame(c, seen, ms[0], tail);
      ConsumedStream(c, seen + [ms[0]], ms[1..], partial);
      assert seen + [ms[0]] + ms[1..] == seen + ms;
    }
  }

  // ----- Segmentation -----

  /** More bytes do not change where a complete frame ends or what is in it. */
  lemma CompleteGrows(s: seq<bv8>, t: seq<bv8>)
    requires Complete(s)
    ensures Complete(s + t) && FrameSize(s + t) == FrameSize(s)
  {
  }

  /** Consuming bytes in two parts is consuming them at once, as long as the first part is not cut short. */
  lemma {:induction false} ConsumedTwice<M(!new)>(c: Codec<M>, seen: seq<M>, s: seq<bv8>, t: seq<bv8>)
    requires Consumed(c, seen, s).ending.Going?
    ensures Consumed(c, seen, s + t) == Consumed(c, Consumed(c, seen, s).seen, Consumed(c, seen, s).rest + t)
    decreases |s|
  {
    hide FrameSize;
    if Complete(s) {
      CompleteGrows(s, t);
      var size := FrameSize(s);
      if size >= HEADER {
        assert (s + t)[HEADER..size] == s[HEADER..size] && (s + t)[size..] == s[size..] + t;
        var m := c.parse(s[HEADER..size]);
        if m.Some? && c.goOn(seen + [m.value]) {
          ConsumedTwice(c, seen + [m.value], s[size..], t);
        }
      }
    }
  }

  function Joined(chunks: seq<seq<bv8>>): seq<bv8> {
    if chunks == [] then [] else chunks[0] + Joined(chunks[1..])
  }

  /** One OnMessage call after each read. */
  function Fed<M(!new)>(c: Codec<M>, p: Progress<M>, chunks: seq<seq<bv8>>): Progress<M>
    decreases chunks
  {
    if chunks == [] then p else Fed(c, Consumed(c, p.seen, p.rest + chunks[0]), chunks[1..])
  }

  lemma {:induction false} StopsForGood<M(!new)>(c: Codec<M>, seen: seq<M>, s: seq<bv8>, t: seq<bv8>)
    requires !Consumed(c, seen, s).ending.Going?
    ensures Consumed(c, seen, s + t).ending == Consumed(c, seen, s).ending
    decreases |s|
  {
    hide FrameSize;
    CompleteGrows(s, t);
    var size := FrameSize(s);
    if size >= HEADER {
      assert (s + t)[HEADER..size] == s[HEADER..size] && (s + t)[size..] == s[size..] + t;
      var m := c.parse(s[HEADER..size]);
      if m.Some? && c.goOn(seen + [m.value]) {
        StopsForGood(c, seen + [m.value], s[size..], t);
      }
    }
  }

  /** Reading in pieces is reading at once. */
  lemma {:induction false} FedIsConsumed<M(!new)>(c: Codec<M>, seen: seq<M>, s: seq<bv8>, chunks: seq<seq<bv8>>)
    requires !Complete(s) && Consumed(c, seen, s + Joined(chunks)).ending.Going?
    ensures Fed(c, Progress(seen, s, Going), chunks) == Consumed(c, seen, s + Joined(chunks))
    decreases chunks
  {
    hide Complete;
    if chunks == [] {
      assert s + Joined(chunks) == s;
    } else {
      var first, rest := s + chunks[0], Joined(chunks[1..]);
      assert s + Joined(chunks) == first + rest;
      if !Consumed(c, seen, first).ending.Going? { StopsForGood(c, seen, first, rest); }
      var p := Consumed(c, seen, first);
      RestIncomplete(c, seen, first);
      ConsumedTwice(c, seen, first, rest);
      FedIsConsumed(c, p.seen, p.rest, chunks[1..]);
    }
  }

  lemma {:induction false} RestIncomplete<M(!new)>(c: Codec<M>, seen: seq<M>, s: seq<bv8>)
    requires Consumed(c, seen, s).ending.Going?
    ensures !Complete(Consumed(c, seen, s).rest)
    decreases |s|
  {
    if Complete(s) {
      RestIncomplete(c, seen + [Body(c, s).value], s[FrameSize(s)..]);
    }
  }

  /** Messages that are framed, sent and read back in whatever pieces are delivered in order and
      once; the buffer holds exactly the frame that has not come in whole. */
  lemma AnySegmentation<M(!new)>(c: Codec<M>, ms: seq<M>, partial: seq<bv8>, chunks: seq<seq<bv8>>)
    requires Inverse(c) && Tireless(c) && Sendable(c, ms) && !Complete(partial)
    requires Joined(chunks) == Stream(c, ms) + partial
    ensures Fed(c, Progress([], [], Going), chunks) == Progress(ms, partial, Going)
  {
    ConsumedStream(c, [], ms, partial);
    assert [] + Joined(chunks) == Joined(chunks) && [] + ms == ms;
    FedIsConsumed(c, [], [], chunks);
  }

  /** On any bytes and with any parser: what stays is the end of the input; the loop goes on until
      no whole frame is left, or the callback has had enough, or a body does not parse, which then stays. */
  lemma {:induction false} ConsumedStops<M(!new)>(c: Codec<M>, seen: seq<M>, s: seq<bv8>)
    ensures var p := Consumed(c, seen, s);
      |p.rest| <= |s| && p.rest == s[|s| - |p.rest|..] && seen <= p.seen &&
      (p.ending.Going? ==> !Complete(p.rest)) &&
      (p.ending.Refused? ==> p.seen != [] && !c.goOn(p.seen)) &&
      (p.ending.Broken? ==> Complete(p.rest) && Body(c, p.rest) == None) &&
      (s == p.rest ==> p.seen == seen && !p.ending.Refused?)
    decreases |s|
  {
    hide FrameSize;
    if Complete(s) && Body(c, s).Some? {
      var size, m := FrameSize(s), Body(c, s).value;
      if c.goOn(seen + [m]) {
        ConsumedStops(c, seen + [m], s[size..]);
        var p := Consumed(c, seen + [m], s[size..]);
        assert s[size..][|s| - size - |p.rest|..] == s[|s| - |p.rest|..];
      }
    }
  }

  // ----- Callbacks that stop -----

  /** Whatever the callback answers, consuming takes whole frames off the front, in order, and
      nothing else: what is kept and what is still to come are the frames not yet delivered. */
  lemma {:induction false} ConsumedConserves<M(!new)>(c: Codec<M>, seen: seq<M>, s: seq<bv8>, ms: seq<M>, future: seq<bv8>)
    returns (k: nat)
    requires Inverse(c) && Sendable(c, ms) && s + future == Stream(c, ms)
    ensures var p := Consumed(c, seen, s);
      k <= |ms| && p.seen == seen + ms[..k] && p.rest + future == Stream(c, ms[k..]) && !p.ending.Broken?
    decreases ms
  {
    hide Frame, FrameSize, Stream, Inverse, TWO_32;
    if !Complete(s) {
      k := 0;
      assert ms[0..] == ms;
    } else {
      FirstFrame(c, s, ms, future);
      assert ms[..1] == [ms[0]];
      OneMessage(c, seen, s, ms[0]);
      hide Consumed;
      if c.goOn(seen + [ms[0]]) {
        k := ConsumedConserves(c, seen + [ms[0]], s[FrameSize(s)..], ms[1..], future);
        Shifted(seen, ms, k);
        k := k + 1;
      } else {
        k := 1;
      }
    }
  }

  lemma OneMessage<M(!new)>(c: Codec<M>, seen: seq<M>, s: seq<bv8>, m: M)
    requires Complete(s) && HEADER <= FrameSize(s) && c.parse(s[HEADER..FrameSize(s)]) == Some(m)
    ensures Consumed(c, seen, s) ==
      if c.goOn(seen + [m]) then Consumed(c, seen + [m], s[FrameSize(s)..])
      else Progress(seen + [m], s[FrameSize(s)..], Refused)
  {
    hide FrameSize;
  }

  lemma Shifted<M>(seen: seq<M>, ms: seq<M>, k: nat)
    requires k < |ms|
    ensures seen + [ms[0]] + ms[1..][..k] == seen + ms[..k + 1] && ms[1..][k..] == ms[k + 1..]
  {
    assert [ms[0]] + ms[1..][..k] == ms[..k + 1];
  }

  /** A complete frame at the front of what is left of a stream is that of the next message. */
  lemma FirstFrame<M(!new)>(c: Codec<M>, s: seq<bv8>, ms: seq<M>, future: seq<bv8>)
    requires Inverse(c) && Sendable(c, ms) && s + future == Stream(c, ms) && Complete(s)
    ensures ms != [] && HEADER <= FrameSize(s) && c.parse(s[HEADER..FrameSize(s)]) == Some(ms[0])
    ensures s[FrameSize(s)..] + future == Stream(c, ms[1..])
  {
    CompleteGrows(s, future);
    hide FrameSize, TWO_32;
    assert ms != [];
    var body, tail := c.serialize(ms[0]), Stream(c, ms[1..]);
    FrameSizeOfFrame(body, tail);
    var size := FrameSize(s);
    assert size == HEADER + |body|;
    assert (s + future)[HEADER..size] == s[HEADER..size] && (Frame(body) + tail)[HEADER..size] == body;
    assert (s + future)[size..] == s[size..] + future && (Frame(body) + tail)[size..] == tail;
  }

  /** For every callback and every segmentation of a stream, up to any point of it: a prefix of the
      messages has been delivered, in order and once, and the buffer holds what follows them. */
  lemma {:induction false} FedConserves<M(!new)>(c: Codec<M>, p: Progress<M>, chunks: seq<seq<bv8>>, ms: seq<M>, future: seq<bv8>)
    returns (k: nat)
    requires Inverse(c) && Sendable(c, ms) && p.rest + Joined(chunks) + future == Stream(c, ms)
    ensures var q := Fed(c, p, chunks);
      k <= |ms| && q.seen == p.seen + ms[..k] && q.rest + future == Stream(c, ms[k..])
    decreases chunks
  {
    hide Consumed, Inverse, Stream;
    if chunks == [] {
      k := 0;
      assert p.rest + Joined(chunks) == p.rest && ms[0..] == ms;
    } else {
      var later := Joined(chunks[1..]) + future;
      assert p.rest + chunks[0] + later == p.rest + Joined(chunks) + future;
      k := ConsumedConserves(c, p.seen, p.rest + chunks[0], ms, later);
      var q := Consumed(c, p.seen, p.rest + chunks[0]);
      assert q.rest + Joined(chunks[1..]) + future == q.rest + later;
      var more := FedConserves(c, q, chunks[1..], ms[k..], future);
      assert ms[..k] + ms[k..][..more] == ms[..k + more] && ms[k..][more..] == ms[k + more..];
      assert p.seen + ms[..k] + ms[k..][..more] == p.seen + (ms[..k] + ms[k..][..more]);
      k := k + more;
    }
  }

  /** Whatever part of a stream has come in, it is some whole frames and less than one more. */
  lemma {:induction false} PrefixOfStream<M(!new)>(c: Codec<M>, ms: seq<M>, n: nat) returns (k: nat, partial: seq<bv8>)
    requires Sendable(c, ms) && n <= |Stream(c, ms)|
    ensures k <= |ms| && Stream(c, ms)[..n] == Stream(c, ms[..k]) + partial && !Complete(partial)
    ensures k < |ms| ==> |partial| < |Frame(c.serialize(ms[k]))| && partial == Frame(c.serialize(ms[k]))[..|partial|]
    ensures k == |ms| ==> partial == []
    decreases ms
  {
    hide Complete, Frame, TWO_32;
    NothingComplete();
    if ms == [] {
      k, partial := 0, [];
    } else {
      var frame, tail := Frame(c.serialize(ms[0])), Stream(c, ms[1..]);
      if n < |frame| {
        k, partial := 0, frame[..n];
        assert Stream(c, ms)[..n] == partial && ms[..0] == [];
        PartOfFrame(c.serialize(ms[0]), n);
      } else {
        k, partial := PrefixOfStream(c, ms[1..], n - |frame|);
        assert (frame + tail)[..n] == frame + tail[..n - |frame|];
        assert ms[..k + 1][0] == ms[0] && ms[..k + 1][1..] == ms[1..][..k];
        k := k + 1;
      }
    }
  }

  lemma NothingComplete()
    ensures !Complete([])
  {
  }

  lemma PartOfFrame(body: seq<bv8>, n: nat)
    requires HEADER + |body| < TWO_32 && n < |Frame(body)|
    ensures !Complete(Frame(body)[..n])
  {
    FrameSizeOfFrame(body, []);
    assert Frame(body) + [] == Frame(body);
    hide DecodeFixed32, Number, EncodeFixed32;
    if n >= HEADER {
      assert FrameSize(Frame(body)[..n]) == FrameSize(Frame(body));
    }
  }
}

/**
  Reassembling frames from a byte stream: whatever the chunks, the frames delivered are those of the
  concatenated bytes.
 */
module Reassembly {
  import opened Values
  import opened Codec

  /** What repeated decoding takes from the front of a buffer, what it leaves, and the error that
      stopped it, if any. */
  datatype Drained = Drained(frames: seq<Frame>, rest: Bytes, error: Option<ProtocolError>)

  function Prepend(frame: Frame, d: Drained): Drained {
    d.(frames := [frame] + d.frames)
  }

  function Drain(lib: Library, data: Bytes, limit: nat): Drained
    decreases |data|
  {
    match TryDecode(lib, data, limit)
    case Incomplete => Drained([], data, None)
    case Malformed(error) => Drained([], data, Some(error))
    case Whole(frame, consumed) => Prepend(frame, Drain(lib, data[consumed..], limit))
  }

  /** The reader's state after one more chunk; a reader that met an error reads no further. */
  function Feed(lib: Library, s: Drained, chunk: Bytes, limit: nat): Drained {
    if s.error.Some? then s
    else
      var d := Drain(lib, s.rest + chunk, limit);
      d.(frames := s.frames + d.frames)
  }

  function FeedAll(lib: Library, s: Drained, chunks: seq<Bytes>, limit: nat): Drained
    decreases |chunks|
  {
    if chunks == [] then s else FeedAll(lib, Feed(lib, s, chunks[0], limit), chunks[1..], limit)
  }

  function Flatten(chunks: seq<Bytes>): Bytes {
    if chunks == [] then [] else chunks[0] + Flatten(chunks[1..])
  }

  // ----- draining in two goes -----

  lemma {:induction false} RestIsIncomplete(lib: Library, data: Bytes, limit: nat)
    requires Drain(lib, data, limit).error.None?
    ensures TryDecode(lib, Drain(lib, data, limit).rest, limit).Incomplete?
    decreases |data|
  {
    var d := TryDecode(lib, data, limit);
    if d.Whole? {
      RestIsIncomplete(lib, data[d.consumed..], limit);
    }
  }

  /** Bytes that arrive later join what is left, unless an error came first. */
  lemma {:induction false} DrainMore(lib: Library, data: Bytes, more: Bytes, limit: nat)
    ensures
      var first, both := Drain(lib, data, limit), Drain(lib, data + more, limit);
      if first.error.Some? then both.frames == first.frames && both.error == first.error
      else
        var later := Drain(lib, first.rest + more, limit);
        both == later.(frames := first.frames + later.frames)
    decreases |data|
  {
    hide TryDecode;
    var d := TryDecode(lib, data, limit);
    if d.Incomplete? {
      var later := Drain(lib, data + more, limit);
      assert [] + later.frames == later.frames;
    } else {
      DecisionsAreFinal(lib, data, more, limit);
      if d.Whole? {
        assert (data + more)[d.consumed..] == data[d.consumed..] + more;
        DrainMore(lib, data[d.consumed..], more, limit);
        var first := Drain(lib, data[d.consumed..], limit);
        var later := Drain(lib, first.rest + more, limit);
        assert [d.frame] + (first.frames + later.frames) == [d.frame] + first.frames + later.frames;
      }
    }
  }

  lemma FeedIsDrain(lib: Library, data: Bytes, chunk: Bytes, limit: nat)
    requires Drain(lib, data, limit).error.None?
    ensures Feed(lib, Drain(lib, data, limit), chunk, limit) == Drain(lib, data + chunk, limit)
  {
    DrainMore(lib, data, chunk, limit);
  }

  lemma FlattenFirst(data: Bytes, chunks: seq<Bytes>)
    requires chunks != []
    ensures data + Flatten(chunks) == data + chunks[0] + Flatten(chunks[1..])
  {
  }

  lemma {:induction false} FeedAllIsDrain(lib: Library, data: Bytes, chunks: seq<Bytes>, limit: nat)
    ensures
      var whole, fed := Drain(lib, data + Flatten(chunks), limit), FeedAll(lib, Drain(lib, data, limit), chunks, limit);
      && fed.frames == whole.frames && fed.error == whole.error
      && (whole.error.None? ==> fed.rest == whole.rest)
    decreases |chunks|
  {
    if chunks == [] {
      assert data + [] == data;
    } else {
      var s := Drain(lib, data, limit);
      if s.error.Some? {
        StuckReader(lib, s, chunks, limit);
        DrainMore(lib, data, Flatten(chunks), limit);
      } else {
        FeedIsDrain(lib, data, chunks[0], limit);
        FlattenFirst(data, chunks);
        FeedAllIsDrain(lib, data + chunks[0], chunks[1..], limit);
      }
    }
  }

  lemma {:induction false} StuckReader(lib: Library, s: Drained, chunks: seq<Bytes>, limit: nat)
    requires s.error.Some?
    ensures FeedAll(lib, s, chunks, limit) == s
    decreases |chunks|
  {
    if chunks != [] {
      StuckReader(lib, s, chunks[1..], limit);
    }
  }

  const Fresh := Drained([], [], None)

  /** The frames delivered, the error and, without one, the buffer left depend on the bytes alone,
      not on how they were cut into chunks. This holds of every byte stream, valid or not. */
  lemma ChunkIndependence(lib: Library, chunks: seq<Bytes>, others: seq<Bytes>, limit: nat)
    requires Flatten(chunks) == Flatten(others)
    ensures
      var a, b := FeedAll(lib, Fresh, chunks, limit), FeedAll(lib, Fresh, others, limit);
      a.frames == b.frames && a.error == b.error && (a.error.None? ==> a.rest == b.rest)
  {
    FeedAllIsDrain(lib, [], chunks, limit);
    FeedAllIsDrain(lib, [], others, limit);
  }

  // ----- streams of encoded frames -----

  datatype Message = Message(frame: Frame, compress: bool, checksum: bool)

  ghost predicate Sendable(lib: Library, m: Message, limit: nat) {
    && 1 <= m.frame.opcode <= LAST_OPCODE && m.frame.version == PROTOCOL_VERSION
    && Encode(lib, m.frame, limit, m.compress, m.checksum).Ok?
  }

  ghost function OneWire(lib: Library, m: Message, limit: nat): Bytes
    requires Sendable(lib, m, limit)
  {
    Encode(lib, m.frame, limit, m.compress, m.checksum).value
  }

  ghost function Wire(lib: Library, ms: seq<Message>, limit: nat): Bytes
    requires forall m :: m in ms ==> Sendable(lib, m, limit)
  {
    if ms == [] then []
    else
      var m := ms[0];
      assert m in ms;
      OneWire(lib, m, limit) + Wire(lib, ms[1..], limit)
  }

  function Expected(ms: seq<Message>): seq<Frame> {
    if ms == [] then [] else [Received(ms[0].frame, ms[0].checksum)] + Expected(ms[1..])
  }

  lemma {:induction false} DrainWire(lib: Library, ms: seq<Message>, limit: nat)
    requires Faithful(lib) && forall m :: m in ms ==> Sendable(lib, m, limit)
    ensures Drain(lib, Wire(lib, ms, limit), limit) == Drained(Expected(ms), [], None)
  {
    if ms != [] {
      var m := ms[0];
      assert m in ms;
      var data := OneWire(lib, m, limit);
      var more := Wire(lib, ms[1..], limit);
      DecodeAfterEncode(lib, m.frame, limit, limit, m.compress, m.checksum, more);
      assert (data + more)[|data|..] == more;
      DrainWire(lib, ms[1..], limit);
    }
  }

  /** However the bytes of a list of encoded frames are cut, exactly those frames come out, in order,
      and nothing is left in the buffer. */
  lemma FramesSurviveTheStream(lib: Library, ms: seq<Message>, chunks: seq<Bytes>, limit: nat)
    requires Faithful(lib) && forall m :: m in ms ==> Sendable(lib, m, limit)
    requires Flatten(chunks) == Wire(lib, ms, limit)
    ensures FeedAll(lib, Fresh, chunks, limit) == Drained(Expected(ms), [], None)
  {
    FeedAllIsDrain(lib, [], chunks, limit);
    assert [] + Flatten(chunks) == Flatten(chunks);
    DrainWire(lib, ms, limit);
  }

  /** A byte left over from a broken connection makes the first frame of the next one unreadable. */
  lemma StaleByteBreaksTheStream(lib: Library, m: Message, stale: Byte, limit: nat)
    requires Sendable(lib, m, limit)
    ensures Drain(lib, [stale] + Wire(lib, [m], limit), limit) == Drained([], [stale] + Wire(lib, [m], limit), Some(BadMagic))
  {
    var data := OneWire(lib, m, limit);
    assert [m][1..] == [];
    assert Wire(lib, [m], limit) == data + [] == data;
    assert data[0] == 0x41 && data[1] == 0x55;
    var all := [stale] + data;
    assert all[..HEADER_SIZE][..4][1] == all[1] == 0x41;
  }

  // ----- where draining stops -----

  /** Draining takes frames off the front until what is left is refused, with the error reported, or holds no
      whole frame. */
  lemma {:induction false} DrainStops(lib: Library, data: Bytes, limit: nat)
    ensures
      var d := Drain(lib, data, limit);
      && |d.rest| <= |data| && data[|data| - |d.rest|..] == d.rest
      && TryDecode(lib, d.rest, limit) == if d.error.Some? then Malformed(d.error.value) else Incomplete
    decreases |data|
  {
    hide TryDecode;
    var d := TryDecode(lib, data, limit);
    if d.Whole? {
      DrainStops(lib, data[d.consumed..], limit);
    }
  }

  /** The first frame drained is the first that decodes, and the others are drained from what follows it. */
  lemma DrainStarts(lib: Library, data: Bytes, limit: nat)
    ensures
      var d, first := Drain(lib, data, limit), TryDecode(lib, data, limit);
      if !first.Whole? then d.frames == [] && d.rest == data
      else
        var later := Drain(lib, data[first.consumed..], limit);
        d.frames == [first.frame] + later.frames && d.rest == later.rest && d.error == later.error
  {
    hide TryDecode;
  }
}

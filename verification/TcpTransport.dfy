/**
  The TCP transport's fields and the loops that change them, tied to the steps of the correlation
  state machine, and the counter that issues request ids.
 */
module TcpTransport {
  import opened Values
  import opened Codec
  import opened Reassembly
  import opened Correlation

  datatype RequestError = NotConnected | EncodeFailure(error: EncodeError)

  class TCPTransport {
    const lib: Library
    const limit: nat
    const compress: bool
    const checksum: bool
    var waiters: seq<Waiter>
    var pending: map<nat, nat>
    var buffer: Bytes
    var connected: bool
    var reading: bool

    ghost function Abstract(): Transport
      reads this
    {
      Transport(waiters, pending, buffer, connected, reading)
    }

    constructor (lib: Library, limit: nat, compress: bool, checksum: bool)
      ensures Abstract() == Idle
      ensures this.lib == lib && this.limit == limit && this.compress == compress && this.checksum == checksum
    {
      this.lib, this.limit, this.compress, this.checksum := lib, limit, compress, checksum;
      waiters, pending, buffer, connected, reading := [], map[], [], false, false;
    }

    /** The buffer is not cleared. */
    method Connect()
      modifies this
      ensures Abstract() == Step(lib, old(Abstract()), Event.Connect, limit)
    {
      if connected {
        return;
      }
      connected, reading := true, true;
    }

    /** The future is registered before the frame is encoded, and stays when encoding fails. */
    method Request(frame: Frame) returns (r: Result<Bytes, RequestError>)
      modifies this
      ensures Abstract() == Step(lib, old(Abstract()), Event.Request(frame.requestId), limit)
      ensures r ==
        if !old(connected) then Err(NotConnected)
        else
          var data := Encode(lib, frame, limit, compress, checksum);
          if data.Ok? then Ok(data.value) else Err(EncodeFailure(data.error))
    {
      if !connected {
        return Err(NotConnected);
      }
      waiters, pending := waiters + [Waiter(frame.requestId, Waiting)], pending[frame.requestId := |waiters|];
      var data := Encode(lib, frame, limit, compress, checksum);
      r := if data.Ok? then Ok(data.value) else Err(EncodeFailure(data.error));
    }

    method FailPending(cause: Failure)
      modifies this
      ensures Abstract() == Correlation.FailPending(old(Abstract()), cause)
    {
      ghost var was := waiters;
      var left := pending.Values;
      while left != {}
        invariant left <= pending.Values == old(pending).Values && |waiters| == |was|
        invariant buffer == old(buffer) && connected == old(connected) && reading == old(reading)
        invariant forall k :: 0 <= k < |was| ==>
          waiters[k] == if k in pending.Values - left && was[k].status.Waiting? then Waiter(was[k].id, Failed(cause)) else was[k]
      {
        var k :| k in left;
        if k < |waiters| && waiters[k].status.Waiting? {
          waiters := waiters[k := Waiter(waiters[k].id, Failed(cause))];
        }
        left := left - {k};
      }
      pending := map[];
    }

    /** Takes every whole frame off the buffer and hands it to the request it answers. */
    method DrainBuffer() returns (error: Option<ProtocolError>)
      modifies this
      ensures
        var d := Drain(lib, old(buffer), limit);
        error == d.error && Abstract() == DeliverAll(old(Abstract()).(buffer := d.rest), d.frames)
    {
      hide TryDecode;
      ghost var all := Drain(lib, buffer, limit);
      ghost var start := Abstract();
      while true
        invariant var d := Drain(lib, buffer, limit);
          && d.rest == all.rest && d.error == all.error
          && DeliverAll(Abstract().(buffer := all.rest), d.frames) == DeliverAll(start.(buffer := all.rest), all.frames)
        decreases |buffer|
      {
        var next := TryDecode(lib, buffer, limit);
        match next {
          case Malformed(e) => return Some(e);
          case Incomplete => return None;
          case Whole(frame, consumed) =>
            buffer := buffer[consumed..];
            if frame.requestId in pending {
              var k := pending[frame.requestId];
              pending := pending - {frame.requestId};
              if k < |waiters| && waiters[k].status.Waiting? {
                waiters := waiters[k := Waiter(waiters[k].id, Completed(frame))];
              }
            }
        }
      }
    }

    /** One turn of the read loop: a chunk, or the end of the stream when it is empty. */
    method Read(data: Bytes)
      modifies this
      ensures Abstract() == Step(lib, old(Abstract()), if data == [] then EndOfStream else Chunk(data), limit)
    {
      if !connected || !reading {
        return;
      }
      if data == [] {
        FailPending(ConnectionClosed);
        connected, reading := false, false;
        return;
      }
      buffer := buffer + data;
      var error := DrainBuffer();
      if error.Some? {
        FailPending(Broken(error.value));
        reading := false;
      }
    }

    method ReadFails()
      modifies this
      ensures Abstract() == Step(lib, old(Abstract()), ReadFailure, limit)
    {
      if connected && reading {
        FailPending(ReadError);
        reading := false;
      }
    }

    /** The wait of the k-th request times out. */
    method Expire(k: nat)
      modifies this
      ensures Abstract() == Step(lib, old(Abstract()), Event.Expire(k), limit)
    {
      if k < |waiters| && waiters[k].status.Waiting? {
        waiters := waiters[k := Waiter(waiters[k].id, TimedOut)];
      }
    }

    method Forget(k: nat)
      modifies this
      ensures Abstract() == Step(lib, old(Abstract()), Event.Forget(k), limit)
    {
      if k < |waiters| && waiters[k].status.TimedOut? {
        pending := pending - {waiters[k].id};
      }
    }

    method Close()
      modifies this
      ensures Abstract() == Step(lib, old(Abstract()), Event.Close, limit)
    {
      connected, reading := false, false;
      FailPending(TransportClosed);
    }
  }

  // ----- request ids -----

  const WRAP: nat := 0x8000_0000_0000_0000

  /** The id that the n-th request gets. */
  function IdOf(n: nat): nat {
    if n % WRAP == 0 then 1 else n % WRAP
  }

  class RequestIds {
    var counter: nat
    ghost var calls: nat

    ghost predicate Valid()
      reads this
    {
      counter == calls % WRAP
    }

    constructor ()
      ensures Valid() && calls == 0
    {
      counter, calls := 0, 0;
    }

    method Next() returns (id: nat)
      requires Valid()
      modifies this
      ensures Valid() && calls == old(calls) + 1 && id == IdOf(calls)
    {
      counter := (counter + 1) % WRAP;
      calls := calls + 1;
      id := if counter == 0 then 1 else counter;
    }
  }

  function FirstIds(n: nat): (r: seq<nat>)
    ensures |r| == n && forall i :: 0 <= i < n ==> r[i] == IdOf(i + 1)
  {
    seq(n, i requires 0 <= i < n => IdOf(i + 1))
  }

  /** The first n ids are distinct, and fit the 8-byte header field, exactly up to n = 2^63 - 1; the
      next one is 1 again. */
  lemma IdsDistinctExactlyBelowTheWrap(n: nat)
    ensures Unique(FirstIds(n)) <==> n < 0x8000_0000_0000_0000
    ensures forall i :: 0 <= i < n ==> 0 < FirstIds(n)[i] < 0x8000_0000_0000_0000
    ensures n < 0x8000_0000_0000_0000 ==> forall i :: 0 <= i < n ==> FirstIds(n)[i] == i + 1
  {
    var ids := FirstIds(n);
    if n < WRAP {
      forall i | 0 <= i < n ensures ids[i] == i + 1 {
      }
    } else {
      assert ids[0] == IdOf(1) == 1;
      assert ids[WRAP - 1] == IdOf(WRAP) == 1;
    }
  }

  /** A client that takes its ids from the counter and makes fewer than 2^63 requests on a transport
      is left with no unsettled request once the transport is no longer connected, whatever order
      responses, timeouts and failures come in. */
  lemma FreshIdsSettleEveryone(lib: Library, es: seq<Event>, limit: nat, n: nat)
    requires RequestedIds(es) == FirstIds(n) && n < WRAP
    ensures
      var after := Run(lib, Idle, es, limit);
      !after.connected ==> forall k :: 0 <= k < |after.waiters| ==> !after.waiters[k].status.Waiting?
  {
    IdsDistinctExactlyBelowTheWrap(n);
    assert Ids(Idle) == [];
    assert [] + RequestedIds(es) == RequestedIds(es);
    UniqueIdsAreOrderly(lib, Idle, es, limit);
    ClosingSettlesEveryone(lib, Idle, es, limit);
  }
}

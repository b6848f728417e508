/**
  Correlating responses with waiting requests over one connection, whatever the order of events.
 */
module Correlation {
  import opened Values
  import opened Codec
  import opened Reassembly

  datatype Failure = ConnectionClosed | TransportClosed | ReadError | Broken(error: ProtocolError)

  datatype Status = Waiting | Completed(frame: Frame) | Failed(cause: Failure) | TimedOut

  datatype Waiter = Waiter(id: nat, status: Status)

  /** The future of the k-th request is `waiters[k]`; `pending` names the future registered under a
      request id. `reading` says that the read loop is alive. */
  datatype Transport = Transport(waiters: seq<Waiter>, pending: map<nat, nat>, buffer: Bytes, connected: bool, reading: bool)

  /** A timeout first cancels the future; the waiting coroutine drops the entry when it next runs. */
  datatype Event =
    | Connect | Request(id: nat) | Chunk(data: Bytes) | EndOfStream | ReadFailure
    | Expire(k: nat) | Forget(k: nat) | Close

  const Idle := Transport([], map[], [], false, false)

  // ----- steps -----

  /** Settles a future unless it is settled already. */
  function Settle(waiters: seq<Waiter>, k: nat, status: Status): seq<Waiter> {
    if k < |waiters| && waiters[k].status.Waiting? then waiters[k := Waiter(waiters[k].id, status)] else waiters
  }

  function Deliver(t: Transport, frame: Frame): Transport {
    if frame.requestId in t.pending then
      t.(waiters := Settle(t.waiters, t.pending[frame.requestId], Completed(frame)), pending := t.pending - {frame.requestId})
    else t
  }

  function DeliverAll(t: Transport, frames: seq<Frame>): Transport
    decreases |frames|
  {
    if frames == [] then t else DeliverAll(Deliver(t, frames[0]), frames[1..])
  }

  /** Every registered future still waiting fails, and nothing stays registered. */
  function FailPending(t: Transport, cause: Failure): Transport {
    t.(waiters := seq(|t.waiters|, k requires 0 <= k < |t.waiters| =>
                    if k in t.pending.Values && t.waiters[k].status.Waiting? then Waiter(t.waiters[k].id, Failed(cause))
                    else t.waiters[k]),
       pending := map[])
  }

  /** A chunk is read only while the loop runs. A protocol error ends the loop but leaves the
      transport marked as connected. */
  function Receive(lib: Library, t: Transport, data: Bytes, limit: nat): Transport {
    if !t.connected || !t.reading then t
    else
      var d := Drain(lib, t.buffer + data, limit);
      var delivered := DeliverAll(t.(buffer := d.rest), d.frames);
      if d.error.None? then delivered else FailPending(delivered, Broken(d.error.value)).(reading := false)
  }

  function Step(lib: Library, t: Transport, e: Event, limit: nat): Transport {
    match e
    case Connect => if t.connected then t else t.(connected := true, reading := true)
    case Request(id) =>
      if !t.connected then t
      else t.(waiters := t.waiters + [Waiter(id, Waiting)], pending := t.pending[id := |t.waiters|])
    case Chunk(data) => Receive(lib, t, data, limit)
    case EndOfStream =>
      if t.connected && t.reading then FailPending(t, ConnectionClosed).(connected := false, reading := false) else t
    case ReadFailure =>
      if t.connected && t.reading then FailPending(t, ReadError).(reading := false) else t
    case Expire(k) => t.(waiters := Settle(t.waiters, k, TimedOut))
    case Forget(k) =>
      if k < |t.waiters| && t.waiters[k].status.TimedOut? then t.(pending := t.pending - {t.waiters[k].id}) else t
    case Close => FailPending(t, TransportClosed).(connected := false, reading := false)
  }

  function Run(lib: Library, t: Transport, es: seq<Event>, limit: nat): Transport
    decreases |es|
  {
    if es == [] then t else Run(lib, Step(lib, t, es[0], limit), es[1..], limit)
  }

  // ----- the right frame, once -----

  /** Every registered future exists and waits under the id it is registered with, and every
      completed one holds a frame with its own id. */
  ghost predicate Correlated(t: Transport) {
    && (forall id :: id in t.pending ==> t.pending[id] < |t.waiters| && t.waiters[t.pending[id]].id == id)
    && (forall k :: 0 <= k < |t.waiters| && t.waiters[k].status.Completed? ==> t.waiters[k].status.frame.requestId == t.waiters[k].id)
  }

  /** No future disappears or changes its id, and a settled one keeps its outcome. */
  ghost predicate Settles(before: Transport, after: Transport) {
    && |before.waiters| <= |after.waiters|
    && forall k :: 0 <= k < |before.waiters| ==>
         && after.waiters[k].id == before.waiters[k].id
         && (!before.waiters[k].status.Waiting? ==> after.waiters[k] == before.waiters[k])
  }

  lemma {:induction false} DeliverAllKeeps(t: Transport, frames: seq<Frame>)
    requires Correlated(t)
    ensures Correlated(DeliverAll(t, frames)) && Settles(t, DeliverAll(t, frames))
    ensures |DeliverAll(t, frames).waiters| == |t.waiters|
    decreases |frames|
  {
    if frames != [] {
      DeliverAllKeeps(Deliver(t, frames[0]), frames[1..]);
    }
  }

  lemma ReceiveKeeps(lib: Library, t: Transport, data: Bytes, limit: nat)
    requires Correlated(t)
    ensures Correlated(Receive(lib, t, data, limit)) && Settles(t, Receive(lib, t, data, limit))
  {
    var d := Drain(lib, t.buffer + data, limit);
    DeliverAllKeeps(t.(buffer := d.rest), d.frames);
  }

  lemma StepKeeps(lib: Library, t: Transport, e: Event, limit: nat)
    requires Correlated(t)
    ensures Correlated(Step(lib, t, e, limit)) && Settles(t, Step(lib, t, e, limit))
  {
    if e.Chunk? {
      ReceiveKeeps(lib, t, e.data, limit);
    }
  }

  /** Over every interleaving: a request that completes gets a frame carrying its own id, and no
      request is ever settled twice. Nothing is assumed of the ids or of the bytes received. */
  lemma {:induction false} RunsCorrelate(lib: Library, t: Transport, es: seq<Event>, limit: nat)
    requires Correlated(t)
    ensures Correlated(Run(lib, t, es, limit)) && Settles(t, Run(lib, t, es, limit))
    decreases |es|
  {
    if es != [] {
      StepKeeps(lib, t, es[0], limit);
      RunsCorrelate(lib, Step(lib, t, es[0], limit), es[1..], limit);
    }
  }

  // ----- nobody is left waiting -----

  /** Every future that still waits is the one registered under its id, on a connected transport. */
  ghost predicate NobodyForgotten(t: Transport) {
    forall k :: 0 <= k < |t.waiters| && t.waiters[k].status.Waiting? ==>
      t.connected && t.waiters[k].id in t.pending && t.pending[t.waiters[k].id] == k
  }

  ghost predicate Waits(t: Transport, id: nat) {
    exists k :: 0 <= k < |t.waiters| && t.waiters[k].status.Waiting? && t.waiters[k].id == id
  }

  /** An id is neither requested nor dropped while another future waits under it. */
  ghost predicate Orderly(t: Transport, e: Event) {
    match e
    case Request(id) => !Waits(t, id)
    case Forget(k) => k < |t.waiters| && t.waiters[k].status.TimedOut? ==> !Waits(t, t.waiters[k].id)
    case _ => true
  }

  ghost predicate OrderlyRun(lib: Library, t: Transport, es: seq<Event>, limit: nat)
    decreases |es|
  {
    es == [] || (Orderly(t, es[0]) && OrderlyRun(lib, Step(lib, t, es[0], limit), es[1..], limit))
  }

  lemma {:induction false} DeliverAllForgetsNobody(t: Transport, frames: seq<Frame>)
    requires Correlated(t) && NobodyForgotten(t)
    ensures NobodyForgotten(DeliverAll(t, frames))
    decreases |frames|
  {
    if frames != [] {
      DeliverAllForgetsNobody(Deliver(t, frames[0]), frames[1..]);
    }
  }

  lemma FailPendingSettlesAll(t: Transport, cause: Failure)
    requires NobodyForgotten(t)
    ensures forall k :: 0 <= k < |t.waiters| ==> !FailPending(t, cause).waiters[k].status.Waiting?
  {
    forall k | 0 <= k < |t.waiters| && t.waiters[k].status.Waiting? ensures k in t.pending.Values {
      assert t.pending[t.waiters[k].id] == k;
    }
  }

  lemma ReceiveForgetsNobody(lib: Library, t: Transport, data: Bytes, limit: nat)
    requires Correlated(t) && NobodyForgotten(t)
    ensures NobodyForgotten(Receive(lib, t, data, limit))
  {
    var d := Drain(lib, t.buffer + data, limit);
    var delivered := DeliverAll(t.(buffer := d.rest), d.frames);
    DeliverAllForgetsNobody(t.(buffer := d.rest), d.frames);
    if d.error.Some? {
      FailPendingSettlesAll(delivered, Broken(d.error.value));
    }
  }

  lemma StepForgetsNobody(lib: Library, t: Transport, e: Event, limit: nat)
    requires Correlated(t) && NobodyForgotten(t) && Orderly(t, e)
    ensures NobodyForgotten(Step(lib, t, e, limit))
  {
    match e
    case Chunk(data) => ReceiveForgetsNobody(lib, t, data, limit);
    case EndOfStream => FailPendingSettlesAll(t, ConnectionClosed);
    case ReadFailure => FailPendingSettlesAll(t, ReadError);
    case Close => FailPendingSettlesAll(t, TransportClosed);
    case Request(id) =>
    case Expire(k) =>
    case Forget(k) =>
    case Connect =>
  }

  /** Over every orderly interleaving, whoever still waits can still be answered; in particular, once
      the connection is closed from either side, every request ever made is settled. */
  lemma {:induction false} ClosingSettlesEveryone(lib: Library, t: Transport, es: seq<Event>, limit: nat)
    requires Correlated(t) && NobodyForgotten(t) && OrderlyRun(lib, t, es, limit)
    ensures
      var after := Run(lib, t, es, limit);
      && NobodyForgotten(after)
      && (!after.connected ==> forall k :: 0 <= k < |after.waiters| ==> !after.waiters[k].status.Waiting?)
    decreases |es|
  {
    if es != [] {
      StepKeeps(lib, t, es[0], limit);
      StepForgetsNobody(lib, t, es[0], limit);
      ClosingSettlesEveryone(lib, Step(lib, t, es[0], limit), es[1..], limit);
    }
  }

  // ----- exactly the orderly runs settle everyone -----

  lemma DisorderForgets(lib: Library, t: Transport, e: Event, limit: nat)
    requires Correlated(t) && NobodyForgotten(t) && !Orderly(t, e)
    ensures !NobodyForgotten(Step(lib, t, e, limit))
  {
    var id := if e.Request? then e.id else t.waiters[e.k].id;
    var k :| 0 <= k < |t.waiters| && t.waiters[k].status.Waiting? && t.waiters[k].id == id;
    var after := Step(lib, t, e, limit);
    assert t.connected && t.pending[id] == k;
    assert after.waiters[k] == t.waiters[k];
    assert id !in after.pending || after.pending[id] != k;
  }

  /** Where everyone waiting is registered, a step leaves it so if and only if the step is orderly. */
  lemma OrderlyExactly(lib: Library, t: Transport, e: Event, limit: nat)
    requires Correlated(t) && NobodyForgotten(t)
    ensures NobodyForgotten(Step(lib, t, e, limit)) <==> Orderly(t, e)
  {
    if Orderly(t, e) {
      StepForgetsNobody(lib, t, e, limit);
    } else {
      DisorderForgets(lib, t, e, limit);
    }
  }

  /** Closing the transport now would settle every request ever made. */
  ghost predicate SettledByClosing(lib: Library, t: Transport, limit: nat) {
    var after := Step(lib, t, Close, limit);
    forall k :: 0 <= k < |after.waiters| ==> !after.waiters[k].status.Waiting?
  }

  /** Nothing is registered with a transport that is not connected. */
  ghost predicate ConnectedToWait(t: Transport) {
    t.connected || t.pending == map[]
  }

  lemma ClosingSettlesExactly(lib: Library, t: Transport, limit: nat)
    requires Correlated(t) && ConnectedToWait(t)
    ensures SettledByClosing(lib, t, limit) <==> NobodyForgotten(t)
  {
    if NobodyForgotten(t) {
      FailPendingSettlesAll(t, TransportClosed);
    }
    if SettledByClosing(lib, t, limit) {
      forall k | 0 <= k < |t.waiters| && t.waiters[k].status.Waiting?
        ensures t.connected && t.waiters[k].id in t.pending && t.pending[t.waiters[k].id] == k
      {
        assert !Step(lib, t, Close, limit).waiters[k].status.Waiting?;
        assert k in t.pending.Values;
      }
    }
  }

  lemma {:induction false} DeliverAllStaysConnected(t: Transport, frames: seq<Frame>)
    ensures DeliverAll(t, frames).connected == t.connected
    decreases |frames|
  {
    if frames != [] {
      DeliverAllStaysConnected(Deliver(t, frames[0]), frames[1..]);
    }
  }

  lemma StepKeepsConnectedToWait(lib: Library, t: Transport, e: Event, limit: nat)
    requires ConnectedToWait(t)
    ensures ConnectedToWait(Step(lib, t, e, limit))
  {
    if e.Chunk? {
      var d := Drain(lib, t.buffer + e.data, limit);
      DeliverAllStaysConnected(t.(buffer := d.rest), d.frames);
    }
  }

  /** Over whole runs: at every moment a close would settle every request made so far if and only if
      the run is orderly. */
  lemma {:induction false} SettledExactlyWhenOrderly(lib: Library, t: Transport, es: seq<Event>, limit: nat)
    requires Correlated(t) && NobodyForgotten(t) && ConnectedToWait(t)
    ensures OrderlyRun(lib, t, es, limit) <==>
      forall i :: 0 <= i <= |es| ==> SettledByClosing(lib, Run(lib, t, es[..i], limit), limit)
    decreases |es|
  {
    hide Step, SettledByClosing, NobodyForgotten, Correlated, ConnectedToWait, Orderly;
    ClosingSettlesExactly(lib, t, limit);
    if es == [] {
      assert es[..0] == [];
    } else {
      var next := Step(lib, t, es[0], limit);
      StepKeeps(lib, t, es[0], limit);
      StepKeepsConnectedToWait(lib, t, es[0], limit);
      OrderlyExactly(lib, t, es[0], limit);
      ClosingSettlesExactly(lib, next, limit);
      forall i | 0 <= i <= |es| ensures
        Run(lib, t, es[..i], limit) == if i == 0 then t else Run(lib, next, es[1..][..i - 1], limit)
      {
        if i > 0 {
          assert es[..i][1..] == es[1..][..i - 1];
        }
      }
      if Orderly(t, es[0]) {
        SettledExactlyWhenOrderly(lib, next, es[1..], limit);
        if OrderlyRun(lib, t, es, limit) {
          forall i | 0 <= i <= |es| ensures SettledByClosing(lib, Run(lib, t, es[..i], limit), limit) {
            if i > 0 {
              assert SettledByClosing(lib, Run(lib, next, es[1..][..i - 1], limit), limit);
            }
          }
        } else {
          var i :| 0 <= i <= |es[1..]| && !SettledByClosing(lib, Run(lib, next, es[1..][..i], limit), limit);
          assert Run(lib, t, es[..i + 1], limit) == Run(lib, next, es[1..][..i + 1 - 1], limit);
        }
      } else {
        assert es[1..][..0] == [];
        assert Run(lib, t, es[..1], limit) == next;
      }
    }
  }

  // ----- distinct ids are orderly -----

  function Ids(t: Transport): (r: seq<nat>)
    ensures |r| == |t.waiters| && forall k :: 0 <= k < |r| ==> r[k] == t.waiters[k].id
  {
    seq(|t.waiters|, k requires 0 <= k < |t.waiters| => t.waiters[k].id)
  }

  function RequestedIds(es: seq<Event>): seq<nat> {
    if es == [] then [] else (if es[0].Request? then [es[0].id] else []) + RequestedIds(es[1..])
  }

  ghost predicate Unique(ids: seq<nat>) {
    forall i, j :: 0 <= i < j < |ids| ==> ids[i] != ids[j]
  }

  lemma {:induction false} DeliverAllKeepsIds(t: Transport, frames: seq<Frame>)
    ensures Ids(DeliverAll(t, frames)) == Ids(t)
    decreases |frames|
  {
    if frames != [] {
      DeliverAllKeepsIds(Deliver(t, frames[0]), frames[1..]);
      assert Ids(Deliver(t, frames[0])) == Ids(t);
    }
  }

  lemma StepIds(lib: Library, t: Transport, e: Event, limit: nat)
    ensures Ids(Step(lib, t, e, limit)) == if e.Request? && t.connected then Ids(t) + [e.id] else Ids(t)
  {
    if e.Chunk? {
      var d := Drain(lib, t.buffer + e.data, limit);
      DeliverAllKeepsIds(t.(buffer := d.rest), d.frames);
      assert Ids(t.(buffer := d.rest)) == Ids(t);
    }
  }

  lemma UniqueOrderly(t: Transport, e: Event, later: seq<nat>)
    requires Unique(Ids(t) + ((if e.Request? then [e.id] else []) + later))
    ensures Orderly(t, e) && Unique(Ids(t) + later)
    ensures e.Request? ==> Unique(Ids(t) + [e.id] + later)
  {
    var own := if e.Request? then [e.id] else [];
    var all := Ids(t) + (own + later);
    var n := |Ids(t)|;
    assert forall k :: 0 <= k < n ==> all[k] == t.waiters[k].id;
    assert e.Request? ==> all[n] == e.id;
    assert Ids(t) + own + later == all;
    forall i, j | 0 <= i < j < |Ids(t) + later| ensures (Ids(t) + later)[i] != (Ids(t) + later)[j] {
      assert all[if i < n then i else i + |own|] != all[if j < n then j else j + |own|];
    }
  }

  lemma {:induction false} UniqueIdsAreOrderly(lib: Library, t: Transport, es: seq<Event>, limit: nat)
    requires Unique(Ids(t) + RequestedIds(es))
    ensures OrderlyRun(lib, t, es, limit)
    decreases |es|
  {
    if es != [] {
      var e := es[0];
      UniqueOrderly(t, e, RequestedIds(es[1..]));
      StepIds(lib, t, e, limit);
      UniqueIdsAreOrderly(lib, Step(lib, t, e, limit), es[1..], limit);
    }
  }

  lemma FourSteps(lib: Library, t: Transport, a: Event, b: Event, c: Event, e: Event, limit: nat)
    ensures Run(lib, t, [a, b, c, e], limit) ==
      Step(lib, Step(lib, Step(lib, Step(lib, t, a, limit), b, limit), c, limit), e, limit)
  {
    hide Step;
    assert [a, b, c, e][1..] == [b, c, e] && [b, c, e][1..] == [c, e] && [c, e][1..] == [e] && [e][1..] == [];
    var t1 := Step(lib, t, a, limit);
    var t2 := Step(lib, t1, b, limit);
    var t3 := Step(lib, t2, c, limit);
    assert Run(lib, t3, [e], limit) == Step(lib, t3, e, limit);
    assert Run(lib, t2, [c, e], limit) == Run(lib, t3, [e], limit);
    assert Run(lib, t1, [b, c, e], limit) == Run(lib, t2, [c, e], limit);
  }

  /** Two requests under one id: the first is forgotten, even by a close. */
  lemma ReusedIdIsForgotten(lib: Library, id: nat, limit: nat)
    ensures Run(lib, Idle, [Connect, Request(id), Request(id), Close], limit).waiters ==
      [Waiter(id, Waiting), Waiter(id, Failed(TransportClosed))]
  {
    hide Run;
    FourSteps(lib, Idle, Connect, Request(id), Request(id), Close, limit);
    var t2 := Transport([Waiter(id, Waiting)], map[id := 0], [], true, true);
    var t3 := Transport([Waiter(id, Waiting), Waiter(id, Waiting)], map[id := 1], [], true, true);
    assert Step(lib, Step(lib, Idle, Connect, limit), Request(id), limit) == t2;
    assert t2.pending[id := 1] == map[id := 1];
    assert Step(lib, t2, Request(id), limit) == t3;
    assert t3.pending[id] == 1;
    assert 1 in t3.pending.Values && 0 !in t3.pending.Values;
  }

  /** After a protocol error or a read error the transport still accepts requests but answers none:
      short of a timeout or a close, no request settles, and connecting again does nothing. */
  lemma {:induction false} StrandedAfterAnError(lib: Library, t: Transport, es: seq<Event>, limit: nat)
    requires t.connected && !t.reading
    requires forall e :: e in es ==> !e.Expire? && !e.Close?
    ensures
      var after := Run(lib, t, es, limit);
      after.connected && !after.reading && t.waiters <= after.waiters
    decreases |es|
  {
    if es != [] {
      assert es[0] in es;
      StrandedAfterAnError(lib, Step(lib, t, es[0], limit), es[1..], limit);
    }
  }

  // ----- answers reach their requests -----

  predicate Answers(frames: seq<Frame>, id: nat) {
    frames != [] && (frames[0].requestId == id || Answers(frames[1..], id))
  }

  function FirstAnswer(frames: seq<Frame>, id: nat): Frame
    requires Answers(frames, id)
  {
    if frames[0].requestId == id then frames[0] else FirstAnswer(frames[1..], id)
  }

  /** A waiting request completes with the first frame that carries its id. */
  lemma {:induction false} AnswerCompletes(t: Transport, frames: seq<Frame>, k: nat)
    requires Correlated(t) && NobodyForgotten(t) && k < |t.waiters| && t.waiters[k].status.Waiting?
    requires Answers(frames, t.waiters[k].id)
    ensures
      var after := DeliverAll(t, frames);
      k < |after.waiters| && after.waiters[k] == Waiter(t.waiters[k].id, Completed(FirstAnswer(frames, t.waiters[k].id)))
    decreases |frames|
  {
    var next := Deliver(t, frames[0]);
    if frames[0].requestId == t.waiters[k].id {
      DeliverAllKeeps(next, frames[1..]);
    } else {
      AnswerCompletes(next, frames[1..], k);
    }
  }

  function ChunkEvents(chunks: seq<Bytes>): seq<Event> {
    if chunks == [] then [] else [Chunk(chunks[0])] + ChunkEvents(chunks[1..])
  }

  lemma {:induction false} DeliverAppend(t: Transport, a: seq<Frame>, b: seq<Frame>, buffer: Bytes)
    ensures DeliverAll(t, a + b).(buffer := buffer) == DeliverAll(DeliverAll(t, a).(buffer := buffer), b)
    decreases |a|
  {
    if a == [] {
      assert a + b == b;
      DeliverBuffer(t, b, buffer);
    } else {
      assert (a + b)[1..] == a[1..] + b;
      DeliverAppend(Deliver(t, a[0]), a[1..], b, buffer);
    }
  }

  lemma {:induction false} DeliverBuffer(t: Transport, frames: seq<Frame>, buffer: Bytes)
    ensures DeliverAll(t.(buffer := buffer), frames) == DeliverAll(t, frames).(buffer := buffer)
    ensures DeliverAll(t, frames).connected == t.connected && DeliverAll(t, frames).reading == t.reading
    ensures DeliverAll(t, frames).buffer == t.buffer
    decreases |frames|
  {
    if frames != [] {
      DeliverBuffer(Deliver(t, frames[0]), frames[1..], buffer);
    }
  }

  lemma {:induction false} FeedAllPrefix(lib: Library, frames: seq<Frame>, rest: Bytes, chunks: seq<Bytes>, limit: nat)
    ensures
      var joined, alone := FeedAll(lib, Drained(frames, rest, None), chunks, limit), FeedAll(lib, Drained([], rest, None), chunks, limit);
      joined == alone.(frames := frames + alone.frames)
    decreases |chunks|
  {
    hide Drain;
    if chunks == [] {
      assert frames + [] == frames;
    } else {
      var d := Drain(lib, rest + chunks[0], limit);
      assert [] + d.frames == d.frames;
      if d.error.Some? {
        StuckReader(lib, d, chunks[1..], limit);
        StuckReader(lib, d.(frames := frames + d.frames), chunks[1..], limit);
      } else {
        FeedAllPrefix(lib, d.frames, d.rest, chunks[1..], limit);
        FeedAllPrefix(lib, frames + d.frames, d.rest, chunks[1..], limit);
        var later := FeedAll(lib, Drained([], d.rest, None), chunks[1..], limit).frames;
        assert frames + d.frames + later == frames + (d.frames + later);
      }
    }
  }

  /** Reading chunk after chunk delivers the frames of the reassembled stream, one after another. */
  lemma {:induction false} ChunksDeliver(lib: Library, t: Transport, chunks: seq<Bytes>, limit: nat)
    requires t.connected && t.reading
    requires FeedAll(lib, Drained([], t.buffer, None), chunks, limit).error.None?
    ensures
      var fed := FeedAll(lib, Drained([], t.buffer, None), chunks, limit);
      Run(lib, t, ChunkEvents(chunks), limit) == DeliverAll(t, fed.frames).(buffer := fed.rest)
    decreases |chunks|
  {
    if chunks == [] {
    } else {
      var d := Drain(lib, t.buffer + chunks[0], limit);
      assert [] + d.frames == d.frames;
      assert ChunkEvents(chunks)[1..] == ChunkEvents(chunks[1..]);
      if d.error.Some? {
        StuckReader(lib, d, chunks[1..], limit);
      } else {
        FeedAllPrefix(lib, d.frames, d.rest, chunks[1..], limit);
        var next := DeliverAll(t, d.frames).(buffer := d.rest);
        DeliverBuffer(t, d.frames, d.rest);
        ChunksDeliver(lib, next, chunks[1..], limit);
        var fed := FeedAll(lib, Drained([], d.rest, None), chunks[1..], limit);
        DeliverAppend(t, d.frames, fed.frames, fed.rest);
        DeliverBuffer(DeliverAll(t, d.frames), fed.frames, d.rest);
        DeliverBuffer(DeliverAll(t, d.frames), fed.frames, fed.rest);
      }
    }
  }

  /** End to end: when the server's encoded frames arrive cut into any chunks, every waiting request
      that one of them answers completes with the first such frame. */
  lemma ResponsesReachTheirRequests(lib: Library, t: Transport, ms: seq<Message>, chunks: seq<Bytes>, limit: nat, k: nat)
    requires Faithful(lib) && forall m :: m in ms ==> Sendable(lib, m, limit)
    requires Flatten(chunks) == Wire(lib, ms, limit)
    requires Correlated(t) && NobodyForgotten(t) && t.connected && t.reading && t.buffer == []
    requires k < |t.waiters| && t.waiters[k].status.Waiting? && Answers(Expected(ms), t.waiters[k].id)
    ensures
      var after := Run(lib, t, ChunkEvents(chunks), limit);
      && k < |after.waiters| && after.buffer == []
      && after.waiters[k] == Waiter(t.waiters[k].id, Completed(FirstAnswer(Expected(ms), t.waiters[k].id)))
  {
    FramesSurviveTheStream(lib, ms, chunks, limit);
    ChunksDeliver(lib, t, chunks, limit);
    AnswerCompletes(t, Expected(ms), k);
  }

  // ----- what each event settles -----

  /** The future of the k-th request is the one registered under its id. */
  predicate Registered(t: Transport, k: nat)
    requires k < |t.waiters|
  {
    t.waiters[k].id in t.pending && t.pending[t.waiters[k].id] == k
  }

  /** Delivering frames completes the registered futures they answer, each with its first answer, changes no
      other, and leaves registered what was not answered. */
  lemma {:induction false} DeliverAllSettles(t: Transport, frames: seq<Frame>, k: nat)
    requires Correlated(t) && k < |t.waiters|
    ensures
      var after, id := DeliverAll(t, frames), t.waiters[k].id;
      && |after.waiters| == |t.waiters|
      && after.waiters[k] == Waiter(id, if t.waiters[k].status.Waiting? && Registered(t, k) && Answers(frames, id)
                                        then Completed(FirstAnswer(frames, id)) else t.waiters[k].status)
      && (Registered(after, k) <==> Registered(t, k) && !Answers(frames, id))
    decreases |frames|
  {
    if frames != [] {
      var next := Deliver(t, frames[0]);
      DeliverAllSettles(next, frames[1..], k);
      if frames[0].requestId in t.pending && t.pending[frames[0].requestId] != k {
        assert frames[0].requestId != t.waiters[k].id || !Registered(t, k);
      }
    }
  }

  /** What a future has become after an event. */
  ghost function After(lib: Library, t: Transport, e: Event, limit: nat, k: nat): Status
    requires k < |t.waiters|
  {
    var id, listening := t.waiters[k].id, t.connected && t.reading;
    if !t.waiters[k].status.Waiting? then t.waiters[k].status
    else if e == Expire(k) then TimedOut
    else if !Registered(t, k) then Waiting
    else
      match e
      case Close => Failed(TransportClosed)
      case EndOfStream => if listening then Failed(ConnectionClosed) else Waiting
      case ReadFailure => if listening then Failed(ReadError) else Waiting
      case Chunk(data) =>
        var d := Drain(lib, t.buffer + data, limit);
        if !listening then Waiting
        else if Answers(d.frames, id) then Completed(FirstAnswer(d.frames, id))
        else if d.error.Some? then Failed(Broken(d.error.value))
        else Waiting
      case _ => Waiting
  }

  lemma InPending(t: Transport, k: nat)
    requires Correlated(t) && k < |t.waiters|
    ensures k in t.pending.Values <==> Registered(t, k)
  {
  }

  lemma ChunkSettles(lib: Library, t: Transport, data: Bytes, limit: nat, k: nat)
    requires Correlated(t) && k < |t.waiters|
    ensures
      var after := Receive(lib, t, data, limit);
      |after.waiters| == |t.waiters| && after.waiters[k] == Waiter(t.waiters[k].id, After(lib, t, Chunk(data), limit, k))
  {
    hide DeliverAll, Correlated, Drain;
    if t.connected && t.reading {
      var d := Drain(lib, t.buffer + data, limit);
      var aside := t.(buffer := d.rest);
      assert Correlated(aside) by {
        BufferAside(t, d.rest);
      }
      DeliverAllSettles(aside, d.frames, k);
      DeliverAllKeeps(aside, d.frames);
      InPending(DeliverAll(aside, d.frames), k);
    }
  }

  lemma BufferAside(t: Transport, buffer: Bytes)
    requires Correlated(t)
    ensures Correlated(t.(buffer := buffer))
  {
  }

  /** Every event settles exactly the futures it should, each with the outcome it should; a request adds one
      that waits. */
  lemma StepSettles(lib: Library, t: Transport, e: Event, limit: nat)
    requires Correlated(t)
    ensures
      var after := Step(lib, t, e, limit);
      && |after.waiters| == |t.waiters| + (if e.Request? && t.connected then 1 else 0)
      && (forall k :: 0 <= k < |t.waiters| ==> after.waiters[k] == Waiter(t.waiters[k].id, After(lib, t, e, limit, k)))
      && (e.Request? && t.connected ==> after.waiters[|t.waiters|] == Waiter(e.id, Waiting) && Registered(after, |t.waiters|))
  {
    hide Receive, Correlated;
    forall k | 0 <= k < |t.waiters|
      ensures k < |Step(lib, t, e, limit).waiters|
      ensures Step(lib, t, e, limit).waiters[k] == Waiter(t.waiters[k].id, After(lib, t, e, limit, k))
    {
      InPending(t, k);
      if e.Chunk? {
        ChunkSettles(lib, t, e.data, limit, k);
      }
    }
    if e.Chunk? {
      ReceiveKeepsCount(lib, t, e.data, limit);
    }
  }

  lemma ReceiveKeepsCount(lib: Library, t: Transport, data: Bytes, limit: nat)
    requires Correlated(t)
    ensures |Receive(lib, t, data, limit).waiters| == |t.waiters|
  {
    var d := Drain(lib, t.buffer + data, limit);
    DeliverAllKeeps(t.(buffer := d.rest), d.frames);
  }

  /** A protocol error fails every registered request that it leaves unanswered, with that error; nothing
      stays registered and nobody reads on, though the transport counts as connected. */
  lemma ErrorFailsTheWaiting(lib: Library, t: Transport, data: Bytes, limit: nat)
    requires Correlated(t) && NobodyForgotten(t) && t.connected && t.reading
    requires Drain(lib, t.buffer + data, limit).error.Some?
    ensures
      var d := Drain(lib, t.buffer + data, limit);
      var after := Step(lib, t, Chunk(data), limit);
      && |after.waiters| == |t.waiters| && after.pending == map[] && after.connected && !after.reading && after.buffer == d.rest
      && forall k :: 0 <= k < |t.waiters| && t.waiters[k].status.Waiting? ==>
           after.waiters[k].status == if Answers(d.frames, t.waiters[k].id) then Completed(FirstAnswer(d.frames, t.waiters[k].id))
                                      else Failed(Broken(d.error.value))
  {
    hide DeliverAll, Correlated;
    StepSettles(lib, t, Chunk(data), limit);
    var d := Drain(lib, t.buffer + data, limit);
    DeliveryKeepsState(t.(buffer := d.rest), d.frames);
  }

  lemma {:induction false} DeliveryKeepsState(t: Transport, frames: seq<Frame>)
    ensures
      var after := DeliverAll(t, frames);
      && after.buffer == t.buffer && after.connected == t.connected && after.reading == t.reading
      && forall id :: id in after.pending <==> id in t.pending && !Answers(frames, id)
    decreases |frames|
  {
    if frames != [] {
      DeliveryKeepsState(Deliver(t, frames[0]), frames[1..]);
    }
  }

  /** What an event leaves of the connection: who is registered, whether it is up, whether anybody reads. */
  lemma StepConnection(lib: Library, t: Transport, e: Event, limit: nat)
    ensures
      var after, listening := Step(lib, t, e, limit), t.connected && t.reading;
      var failed := e.Chunk? && listening && Drain(lib, t.buffer + e.data, limit).error.Some?;
      && after.connected == (e.Connect? || (t.connected && !e.Close? && !(e.EndOfStream? && listening)))
      && after.reading == (if e.Connect? && !t.connected then true
                           else t.reading && !e.Close? && !(listening && (e.EndOfStream? || e.ReadFailure?)) && !failed)
      && after.buffer == (if e.Chunk? && listening then Drain(lib, t.buffer + e.data, limit).rest else t.buffer)
    ensures
      var after, listening := Step(lib, t, e, limit), t.connected && t.reading;
      forall id :: id in after.pending <==>
        (if e.Request? && t.connected then id == e.id || id in t.pending
         else if e.Chunk? && listening then
           var d := Drain(lib, t.buffer + e.data, limit);
           id in t.pending && d.error.None? && !Answers(d.frames, id)
         else if e.Forget? && e.k < |t.waiters| && t.waiters[e.k].status.TimedOut? then id in t.pending && id != t.waiters[e.k].id
         else id in t.pending && !e.Close? && !(listening && (e.EndOfStream? || e.ReadFailure?)))
  {
    hide DeliverAll, Drain;
    if e.Chunk? {
      var d := Drain(lib, t.buffer + e.data, limit);
      DeliveryKeepsState(t.(buffer := d.rest), d.frames);
    }
  }
}

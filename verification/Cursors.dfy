/**
  Server cursors: a select runs once, when its cursor is opened, and is handed out page by page, while
  anyone mutates the tables, commits, rolls back, and uses cursors of their own.
 */
module Cursors {
  import opened Values
  import opened Predicates
  import opened Tables
  import opened Selects
  import opened Records
  import T = Transactions
  import ReferenceStore

  datatype Cursor = Cursor(rows: seq<Row>, batch: nat)

  /** The tables of the server, and its cursors. */
  datatype State = State(server: T.Server, open: map<nat, Cursor>, issued: nat)

  /** `Request` is any transaction opcode, query or mutation. */
  datatype Event =
    | Request(request: T.Request)
    | Open(tx: nat, model: string, query: Select, batch: nat)
    | Fetch(token: nat, batch: nat)
    | Close(token: nat)

  /** A page comes with a token exactly while rows are left. */
  datatype Reply =
    | Page(rows: seq<Row>, token: Option<nat>) | UnknownCursor | Closed(existed: bool)
    | QueryFailed(error: EvalError) | Answered

  const DEFAULT_BATCH: nat := 1000

  function Size(asked: nat, stored: nat): (n: nat)
    ensures n > 0 && (asked > 0 ==> n == asked)
  {
    if asked > 0 then asked else if stored > 0 then stored else DEFAULT_BATCH
  }

  function Take(rows: seq<Row>, n: nat): seq<Row> {
    if n < |rows| then rows[..n] else rows
  }

  function Drop(rows: seq<Row>, n: nat): seq<Row> {
    if n < |rows| then rows[n..] else []
  }

  /** The select a cursor is opened for, on the store its transaction sees. */
  function OneShot(catalog: T.Catalog, server: T.Server, tx: nat, model: string, q: Select): Result<seq<Row>, EvalError> {
    SelectRows(T.ModelNamed(catalog, model).key, RowsOf(T.TableNamed(T.Visible(server, tx), model)), q)
  }

  /** The first page, and the cursor for the rest if there is any. */
  function Opened(s: State, rows: seq<Row>, batch: nat): (State, Reply) {
    var n := Size(batch, 0);
    var left := Drop(rows, n);
    if left == [] then (s, Page(Take(rows, n), None))
    else
      (s.(open := s.open[s.issued + 1 := Cursor(left, n)], issued := s.issued + 1), Page(Take(rows, n), Some(s.issued + 1)))
  }

  function Step(catalog: T.Catalog, s: State, e: Event): (State, Reply) {
    match e
    case Request(request) => (s.(server := T.Step(catalog, s.server, request)), Answered)
    case Open(tx, model, query, batch) =>
      var named := s.(server := T.Step(catalog, s.server, T.Operate(tx, T.Query(model))));
      var rows := OneShot(catalog, s.server, tx, model, query);
      if rows.Err? then (named, QueryFailed(rows.error)) else Opened(named, rows.value, batch)
    case Fetch(token, batch) =>
      if token !in s.open then (s, UnknownCursor)
      else
        var n := Size(batch, s.open[token].batch);
        var left := Drop(s.open[token].rows, n);
        var page := Take(s.open[token].rows, n);
        if left == [] then (s.(open := s.open - {token}), Page(page, None))
        else (s.(open := s.open[token := s.open[token].(rows := left)]), Page(page, Some(token)))
    case Close(token) => (s.(open := s.open - {token}), Closed(token in s.open))
  }

  function Run(catalog: T.Catalog, s: State, es: seq<Event>): State
    decreases |es|
  {
    if es == [] then s else Run(catalog, Step(catalog, s, es[0]).0, es[1..])
  }

  // ----- the invariant -----

  /** Tokens are numbered up to `issued`, and an open cursor has rows left. */
  ghost predicate Valid(s: State) {
    forall t :: t in s.open ==> 0 < t <= s.issued && s.open[t].rows != [] && s.open[t].batch > 0
  }

  lemma StepKeeps(catalog: T.Catalog, s: State, e: Event)
    requires Valid(s)
    ensures Valid(Step(catalog, s, e).0) && s.issued <= Step(catalog, s, e).0.issued
  {
    hide OneShot, T.Step;
  }

  /** A token names one cursor for ever: it is new when it is issued, and once its cursor is drained or
      closed no later request revives it. */
  lemma {:induction false} TokensAreNeverReused(catalog: T.Catalog, s: State, es: seq<Event>, t: nat)
    requires Valid(s) && t <= s.issued && t !in s.open
    ensures
      var after := Run(catalog, s, es);
      && Valid(after) && t !in after.open
      && (forall rows, batch :: Opened(after, rows, batch).1.token != Some(t))
      && (forall batch :: Step(catalog, after, Fetch(t, batch)).1 == UnknownCursor)
    decreases |es|
  {
    hide OneShot, T.Step;
    if es != [] {
      StepKeeps(catalog, s, es[0]);
      TokensAreNeverReused(catalog, Step(catalog, s, es[0]).0, es[1..], t);
    }
  }

  // ----- conservation -----

  /** The rows a request returns from cursor `t`. */
  function Returned(catalog: T.Catalog, s: State, e: Event, t: nat): seq<Row> {
    var reply := Step(catalog, s, e).1;
    if e.Fetch? && e.token == t && reply.Page? then reply.rows else []
  }

  /** All rows that the requests of the run return from cursor `t`, in order. */
  function Fetched(catalog: T.Catalog, s: State, es: seq<Event>, t: nat): seq<Row>
    decreases |es|
  {
    if es == [] then [] else Returned(catalog, s, es[0], t) + Fetched(catalog, Step(catalog, s, es[0]).0, es[1..], t)
  }

  function Left(s: State, t: nat): seq<Row> {
    if t in s.open then s.open[t].rows else []
  }

  lemma TakeDrop(rows: seq<Row>, n: nat)
    ensures Take(rows, n) + Drop(rows, n) == rows
  {
  }

  lemma StepConserves(catalog: T.Catalog, s: State, e: Event, t: nat)
    requires Valid(s) && t <= s.issued && e != Close(t)
    ensures Returned(catalog, s, e, t) + Left(Step(catalog, s, e).0, t) == Left(s, t)
  {
    hide OneShot, T.Step;
    if e.Fetch? && t in s.open {
      TakeDrop(s.open[t].rows, Size(e.batch, s.open[t].batch));
    }
  }

  /** Over every interleaving of mutations, transactions and other cursors, what a cursor has returned
      followed by what it still holds is what it held at first: no row is lost, repeated, reordered or
      changed. */
  lemma {:induction false} CursorsConserveRows(catalog: T.Catalog, s: State, es: seq<Event>, t: nat)
    requires Valid(s) && t <= s.issued && Close(t) !in es
    ensures Fetched(catalog, s, es, t) + Left(Run(catalog, s, es), t) == Left(s, t)
    decreases |es|
  {
    hide Step;
    if es != [] {
      StepKeeps(catalog, s, es[0]);
      StepConserves(catalog, s, es[0], t);
      var next := Step(catalog, s, es[0]).0;
      CursorsConserveRows(catalog, next, es[1..], t);
      AppendTwice(Returned(catalog, s, es[0], t), Fetched(catalog, next, es[1..], t), Left(Run(catalog, next, es[1..]), t));
    } else {
      assert [] + Left(s, t) == Left(s, t);
    }
  }

  /** The first page, all later pages and what is left together are the result of the select on the
      store its transaction saw when the cursor was opened, whatever is inserted, updated, deleted,
      committed or rolled back before the later pages are fetched. */
  lemma PagesAreTheOneShotResult(catalog: T.Catalog, s: State, tx: nat, model: string, q: Select, batch: nat, es: seq<Event>)
    requires Valid(s) && Close(s.issued + 1) !in es
    ensures
      var (begun, first) := Step(catalog, s, Open(tx, model, q, batch));
      var result := OneShot(catalog, s.server, tx, model, q);
      if result.Err? then first == QueryFailed(result.error) && begun.open == s.open
      else if first.token.None? then first.rows == result.value
      else
        && first.token == Some(s.issued + 1)
        && first.rows + (Fetched(catalog, begun, es, s.issued + 1) + Left(Run(catalog, begun, es), s.issued + 1)) == result.value
  {
    hide OneShot, T.Step, Run, Fetched;
    var (begun, first) := Step(catalog, s, Open(tx, model, q, batch));
    var result := OneShot(catalog, s.server, tx, model, q);
    StepKeeps(catalog, s, Open(tx, model, q, batch));
    if result.Ok? {
      TakeDrop(result.value, Size(batch, 0));
      if first.token.Some? {
        CursorsConserveRows(catalog, begun, es, s.issued + 1);
      } else {
        assert first.rows + [] == first.rows;
      }
    }
  }

  /** What the events ask of the tables: opening a cursor is a query of its model. */
  function RequestsOf(es: seq<Event>): seq<T.Request> {
    if es == [] then []
    else
      (match es[0]
       case Request(request) => [request]
       case Open(tx, model, _, _) => [T.Operate(tx, T.Query(model))]
       case _ => [])
      + RequestsOf(es[1..])
  }

  /** Conversely cursors leave no trace in the tables: they are what the requests alone make of them. */
  lemma {:induction false} TablesIgnoreCursors(catalog: T.Catalog, s: State, es: seq<Event>)
    ensures Run(catalog, s, es).server == T.Run(catalog, s.server, RequestsOf(es))
    decreases |es|
  {
    hide OneShot, T.Step;
    if es != [] {
      TablesIgnoreCursors(catalog, Step(catalog, s, es[0]).0, es[1..]);
      var rest := RequestsOf(es[1..]);
      if es[0].Request? || es[0].Open? {
        assert RequestsOf(es)[1..] == rest;
      } else {
        assert RequestsOf(es) == rest;
      }
    }
  }

  /** A page never exceeds the size asked for, is never empty after the first, and is full unless it is
      the last; it is the last exactly when its cursor is gone. */
  lemma PagesAreFull(catalog: T.Catalog, s: State, t: nat, batch: nat)
    requires Valid(s) && t in s.open
    ensures
      var (next, reply) := Step(catalog, s, Fetch(t, batch));
      var n := Size(batch, s.open[t].batch);
      && reply.Page? && 0 < |reply.rows| <= n
      && (reply.token.Some? <==> t in next.open) && (reply.token.Some? ==> reply.token.value == t && |reply.rows| == n)
  {
  }

  // ----- the server -----

  /** A cursor on the heap: its rows are the objects the select made, one new one for each row. */
  datatype HeapCursor = HeapCursor(rows: seq<Record>, batch: nat)

  ghost function ValuesOf(rows: seq<Record>): (r: seq<Row>)
    reads rows
    ensures |r| == |rows| && forall i :: 0 <= i < |r| ==> r[i] == rows[i].fields
  {
    seq(|rows|, i requires 0 <= i < |rows| reads rows => rows[i].fields)
  }

  /** New row objects with these contents. */
  method CopyRows(rows: seq<Row>) returns (copies: seq<Record>)
    ensures ValuesOf(copies) == rows && forall r :: r in copies ==> fresh(r)
  {
    copies := [];
    for i := 0 to |rows|
      invariant |copies| == i && forall k :: 0 <= k < i ==> fresh(copies[k]) && copies[k].fields == rows[k]
    {
      var copy := new Record(rows[i]);
      copies := copies + [copy];
    }
  }

  /** The rows as they are written into a response. */
  method ReadRows(records: seq<Record>) returns (rows: seq<Row>)
    ensures rows == ValuesOf(records)
  {
    rows := [];
    for i := 0 to |records|
      invariant |rows| == i && forall k :: 0 <= k < i ==> rows[k] == records[k].fields
    {
      rows := rows + [records[i].fields];
    }
  }

  class CursorServer {
    const engine: ReferenceStore.ReferenceServer
    var cursors: map<nat, HeapCursor>
    var sequence: nat
    ghost var Repr: set<object>

    /** The row objects of the cursors are none of the tables'. */
    ghost predicate Valid()
      reads this, Repr
    {
      && this in Repr && engine in Repr && engine.Repr <= Repr && this !in engine.Repr && engine.Valid()
      && forall t, r :: t in cursors && r in cursors[t].rows ==> r in Repr && r !in engine.Repr
    }

    ghost function OpenCursors(): map<nat, Cursor>
      reads this, Repr
      requires Valid()
    {
      map t | t in cursors :: Cursor(ValuesOf(cursors[t].rows), cursors[t].batch)
    }

    ghost function Abstract(): State
      reads this, Repr
      requires Valid()
    {
      State(engine.Abstract(), OpenCursors(), sequence)
    }

    constructor (catalog: T.Catalog)
      ensures Valid() && fresh(Repr) && engine.catalog == catalog
      ensures Abstract() == State(T.Server(map[], map[]), map[], 0)
    {
      var server := new ReferenceStore.ReferenceServer(catalog);
      engine, cursors, sequence := server, map[], 0;
      Repr := {this} + {server} + server.Repr;
    }

    /** A transaction opcode, query or mutation: it may change any table in place, and no cursor. */
    method Serve(request: T.Request) returns (response: Option<T.Response>)
      requires Valid()
      modifies Repr
      ensures Valid() && fresh(Repr - old(Repr))
      ensures cursors == old(cursors) && sequence == old(sequence) && OpenCursors() == old(OpenCursors())
      ensures engine.Abstract() == T.Step(engine.catalog, old(engine.Abstract()), request)
      ensures response == if request.Operate? then Some(T.Answer(engine.catalog, T.Visible(old(engine.Abstract()), request.tx), request.op)) else None
    {
      hide ReferenceStore.ReferenceServer.Valid, ReferenceStore.ReferenceServer.Abstract, T.Step, T.Answer, T.Visible;
      response := engine.Dispatch(request);
      Repr := Repr + engine.Repr;
    }

    /** Keeps the rest of a result behind a new token. */
    method Register(rest: seq<Record>, batch: nat) returns (token: nat)
      requires Valid() && forall r :: r in rest ==> r !in Repr
      modifies this
      ensures Valid() && Repr == old(Repr) + set r | r in rest
      ensures token == old(sequence) + 1 && sequence == token
      ensures engine.Abstract() == old(engine.Abstract()) && OpenCursors() == old(OpenCursors())[token := Cursor(ValuesOf(rest), batch)]
    {
      hide ReferenceStore.ReferenceServer.Valid, ReferenceStore.ReferenceServer.Abstract;
      sequence := sequence + 1;
      token := sequence;
      cursors := cursors[token := HeapCursor(rest, batch)];
      Repr := Repr + set r | r in rest;
    }

    /** The first page of a result, and a cursor for the rest if there is any. */
    method KeepResult(rows: seq<Row>, batch: nat) returns (r: Reply)
      requires Valid()
      modifies Repr
      ensures Valid() && fresh(Repr - old(Repr)) && engine.Abstract() == old(engine.Abstract())
      ensures
        var (after, reply) := Opened(State(old(engine.Abstract()), old(OpenCursors()), old(sequence)), rows, batch);
        r == reply && OpenCursors() == after.open && sequence == after.issued
    {
      hide ReferenceStore.ReferenceServer.Valid, ReferenceStore.ReferenceServer.Abstract, OpenCursors;
      var n := Size(batch, 0);
      if n >= |rows| {
        var page := CopyRows(rows);
        var values := ReadRows(page);
        return Page(values, None);
      }
      var page := CopyRows(rows[..n]);
      var rest := CopyRows(rows[n..]);
      var values := ReadRows(page);
      var token := Register(rest, n);
      r := Page(values, Some(token));
    }

    /** Runs the select on the store the transaction sees. */
    method OpenCursor(tx: nat, model: string, q: Select, batch: nat) returns (r: Reply)
      requires Valid()
      modifies Repr
      ensures Valid() && fresh(Repr - old(Repr))
      ensures (Abstract(), r) == Step(engine.catalog, old(Abstract()), Open(tx, model, q, batch))
    {
      hide ReferenceStore.ReferenceServer.Valid, ReferenceStore.ReferenceServer.Abstract, T.Step, T.Visible, SelectRows, Valid, OpenCursors;
      var response := Serve(T.Operate(tx, T.Query(model)));
      var result := ExecuteSelect(T.ModelNamed(engine.catalog, model).key, response.value.rows, q);
      if result.Err? {
        return QueryFailed(result.error);
      }
      r := KeepResult(result.value, batch);
    }

    method FetchCursor(token: nat, batch: nat) returns (r: Reply)
      requires Valid()
      modifies Repr
      ensures Valid() && Repr == old(Repr)
      ensures (Abstract(), r) == Step(engine.catalog, old(Abstract()), Fetch(token, batch))
    {
      hide ReferenceStore.ReferenceServer.Valid, ReferenceStore.ReferenceServer.Abstract;
      if token !in cursors {
        return UnknownCursor;
      }
      var rows := cursors[token].rows;
      var n := Size(batch, cursors[token].batch);
      assert OpenCursors()[token] == Cursor(ValuesOf(rows), cursors[token].batch);
      assert n < |rows| ==> ValuesOf(rows[..n]) == ValuesOf(rows)[..n];
      if n < |rows| {
        var page := ReadRows(rows[..n]);
        Shorten(token, n);
        r := Page(page, Some(token));
      } else {
        var page := ReadRows(rows);
        Remove(token);
        r := Page(page, None);
      }
    }

    /** Drops the first rows of a cursor. */
    method Shorten(token: nat, n: nat)
      requires Valid() && token in cursors && n <= |cursors[token].rows|
      modifies this`cursors
      ensures Valid() && engine.Abstract() == old(engine.Abstract())
      ensures OpenCursors() == old(OpenCursors())[token := old(OpenCursors())[token].(rows := old(OpenCursors())[token].rows[n..])]
    {
      hide ReferenceStore.ReferenceServer.Valid, ReferenceStore.ReferenceServer.Abstract;
      var state := cursors[token];
      cursors := cursors[token := state.(rows := state.rows[n..])];
      assert forall r :: r in state.rows[n..] ==> r in state.rows;
      assert ValuesOf(state.rows[n..]) == ValuesOf(state.rows)[n..];
    }

    method Remove(token: nat)
      requires Valid()
      modifies this`cursors
      ensures Valid() && engine.Abstract() == old(engine.Abstract())
      ensures OpenCursors() == old(OpenCursors()) - {token}
    {
      hide ReferenceStore.ReferenceServer.Valid, ReferenceStore.ReferenceServer.Abstract;
      cursors := cursors - {token};
    }

    method CloseCursor(token: nat) returns (r: Reply)
      requires Valid()
      modifies Repr
      ensures Valid() && Repr == old(Repr)
      ensures (Abstract(), r) == Step(engine.catalog, old(Abstract()), Close(token))
    {
      hide ReferenceStore.ReferenceServer.Valid, ReferenceStore.ReferenceServer.Abstract;
      r := Closed(token in cursors);
      Remove(token);
    }

    /** One event of any kind. */
    method Handle(e: Event) returns (r: Reply)
      requires Valid()
      modifies Repr
      ensures Valid() && fresh(Repr - old(Repr))
      ensures (Abstract(), r) == Step(engine.catalog, old(Abstract()), e)
    {
      hide ReferenceStore.ReferenceServer.Valid, ReferenceStore.ReferenceServer.Abstract, Valid, OpenCursors, T.Step, OneShot, Opened;
      match e
      case Request(request) =>
        var response := Serve(request);
        r := Answered;
      case Open(tx, model, query, batch) => r := OpenCursor(tx, model, query, batch);
      case Fetch(token, batch) => r := FetchCursor(token, batch);
      case Close(token) => r := CloseCursor(token);
    }

    /** What everyone else does meanwhile. */
    method Others(es: seq<Event>)
      requires Valid()
      modifies Repr
      ensures Valid() && fresh(Repr - old(Repr))
      ensures Abstract() == Run(engine.catalog, old(Abstract()), es)
    {
      hide Valid, Abstract, Step;
      ghost var start := Abstract();
      for i := 0 to |es|
        invariant Valid() && fresh(Repr - old(Repr))
        invariant Run(engine.catalog, Abstract(), es[i..]) == Run(engine.catalog, start, es)
      {
        assert es[i..][0] == es[i] && es[i..][1..] == es[i + 1..];
        var r := Handle(es[i]);
      }
    }
  }

  // ----- a streaming client -----

  /** Everyone else knows no token but their own. */
  ghost predicate Foreign(es: seq<Event>, t: nat) {
    forall e :: e in es ==> !(e.Fetch? && e.token == t) && !(e.Close? && e.token == t)
  }

  lemma {:induction false} ForeignRunsKeepTheCursor(catalog: T.Catalog, s: State, es: seq<Event>, t: nat)
    requires Valid(s) && t <= s.issued && Foreign(es, t)
    ensures
      var after := Run(catalog, s, es);
      && Valid(after) && s.issued <= after.issued && (t in after.open <==> t in s.open)
      && (t in s.open ==> after.open[t] == s.open[t])
    decreases |es|
  {
    hide OneShot, T.Step;
    if es != [] {
      assert es[0] in es;
      StepKeeps(catalog, s, es[0]);
      ForeignRunsKeepTheCursor(catalog, Step(catalog, s, es[0]).0, es[1..], t);
    }
  }

  /** A client streaming cursor `token` has `out`, and holds the page `page`; `rows` is the whole result. */
  ghost predicate Streaming(s: State, token: nat, page: Reply, out: seq<Row>, rows: seq<Row>, wanted: nat) {
    && Valid(s) && page.Page? && |out| <= wanted
    && (if page.token.Some? then page.token.value == token && token in s.open && token <= s.issued else token !in s.open)
    && out + page.rows + Left(s, token) == rows
  }

  lemma StreamBegins(catalog: T.Catalog, s: State, tx: nat, model: string, q: Select, batch: nat, wanted: nat)
    requires Valid(s)
    ensures
      var (begun, page) := Step(catalog, s, Open(tx, model, q, batch));
      var result := OneShot(catalog, s.server, tx, model, q);
      && (result.Ok? ==> Streaming(begun, s.issued + 1, page, [], result.value, wanted))
      && (result.Err? ==> page == QueryFailed(result.error) && begun.open == s.open && begun.issued == s.issued && Valid(begun))
  {
    hide OneShot, T.Step;
    var result := OneShot(catalog, s.server, tx, model, q);
    StepKeeps(catalog, s, Open(tx, model, q, batch));
    if result.Ok? {
      TakeDrop(result.value, Size(batch, 0));
      var (begun, page) := Step(catalog, s, Open(tx, model, q, batch));
      assert [] + page.rows == page.rows;
    }
  }

  /** Everyone else's events and the next fetch. */
  lemma StreamGoesOn(catalog: T.Catalog, s: State, token: nat, page: Reply, out: seq<Row>, rows: seq<Row>, wanted: nat,
                     es: seq<Event>, batch: nat)
    requires Streaming(s, token, page, out, rows, wanted) && page.token.Some? && Foreign(es, token) && |out| + |page.rows| <= wanted
    ensures
      var (next, more) := Step(catalog, Run(catalog, s, es), Fetch(token, batch));
      Streaming(next, token, more, out + page.rows, rows, wanted) && |Left(next, token)| < |Left(s, token)|
  {
    hide OneShot, T.Step, Run;
    ForeignRunsKeepTheCursor(catalog, s, es, token);
    var now := Run(catalog, s, es);
    StepKeeps(catalog, now, Fetch(token, batch));
    StepConserves(catalog, now, Fetch(token, batch), token);
    AppendTwice(out + page.rows, Step(catalog, now, Fetch(token, batch)).1.rows, Left(Step(catalog, now, Fetch(token, batch)).0, token));
  }

  /** The client has enough: it closes the cursor if the page left one. */
  lemma StreamStops(catalog: T.Catalog, s: State, token: nat, page: Reply, out: seq<Row>, rows: seq<Row>, wanted: nat)
    requires Streaming(s, token, page, out, rows, wanted) && wanted <= |out| + |page.rows|
    ensures out + page.rows[..wanted - |out|] == Take(rows, wanted)
    ensures page.token.Some? ==>
      var closed := Step(catalog, s, Close(token)).0;
      Valid(closed) && token !in closed.open
  {
    var left := Left(s, token);
    assert rows == out + page.rows + left;
    assert rows[..wanted] == out + page.rows[..wanted - |out|];
  }

  lemma StreamDrained(s: State, token: nat, page: Reply, out: seq<Row>, rows: seq<Row>, wanted: nat)
    requires Streaming(s, token, page, out, rows, wanted) && page.token.None? && |out| + |page.rows| < wanted
    ensures out + page.rows == Take(rows, wanted)
  {
    assert Left(s, token) == [];
    assert out + page.rows + [] == out + page.rows;
  }

  /** A client that streams a select and stops after `wanted` rows, at least one. Before its i-th fetch the
      server handles `busy(i)`: any mutations, commits and rollbacks, and other clients' cursors. The client
      gets the first rows of the result at opening time, or the error of the query, and leaves no cursor
      behind, whether it drained the stream or stopped early. */
  method Stream(server: CursorServer, tx: nat, model: string, q: Select, batch: nat, wanted: nat, busy: nat -> seq<Event>)
    returns (out: Result<seq<Row>, EvalError>)
    requires server.Valid() && Valid(server.Abstract()) && wanted > 0
    requires forall i :: Foreign(busy(i), server.sequence + 1)
    modifies server.Repr
    ensures server.Valid() && Valid(server.Abstract())
    ensures
      var result := OneShot(server.engine.catalog, old(server.Abstract().server), tx, model, q);
      out == if result.Err? then Err(result.error) else Ok(Take(result.value, wanted))
    ensures old(server.sequence) + 1 !in server.Abstract().open
  {
    hide CursorServer.Valid, CursorServer.Abstract, Step, Run, Streaming, OneShot, Foreign;
    ghost var catalog, token, s := server.engine.catalog, server.sequence + 1, server.Abstract();
    SequenceIs(server);
    ghost var result := OneShot(catalog, s.server, tx, model, q);
    StreamBegins(catalog, s, tx, model, q, batch, wanted);
    var page := server.OpenCursor(tx, model, q, batch);
    if result.Ok? {
      StreamingIs(server.Abstract(), token, page, [], result.value, wanted);
    }
    if page.QueryFailed? {
      NoSuchToken(s, token);
      return Err(page.error);
    }
    var got: seq<Row> := [];
    var i := 0;
    while true
      invariant server.Valid() && fresh(server.Repr - old(server.Repr))
      invariant Streaming(server.Abstract(), token, page, got, result.value, wanted)
      decreases |Left(server.Abstract(), token)|
    {
      StreamingIs(server.Abstract(), token, page, got, result.value, wanted);
      if wanted <= |got| + |page.rows| {
        StreamStops(catalog, server.Abstract(), token, page, got, result.value, wanted);
        if page.token.Some? {
          var ack := server.CloseCursor(page.token.value);
        }
        return Ok(got + page.rows[..wanted - |got|]);
      }
      if page.token.None? {
        StreamDrained(server.Abstract(), token, page, got, result.value, wanted);
        return Ok(got + page.rows);
      }
      StreamGoesOn(catalog, server.Abstract(), token, page, got, result.value, wanted, busy(i), batch);
      got := got + page.rows;
      server.Others(busy(i));
      page := server.FetchCursor(page.token.value, batch);
      i := i + 1;
    }
  }

  lemma SequenceIs(server: CursorServer)
    requires server.Valid()
    ensures server.Abstract().issued == server.sequence
  {
  }

  lemma NoSuchToken(s: State, token: nat)
    requires Valid(s) && token > s.issued
    ensures token !in s.open
  {
  }

  lemma StreamingIs(s: State, token: nat, page: Reply, out: seq<Row>, rows: seq<Row>, wanted: nat)
    requires Streaming(s, token, page, out, rows, wanted)
    ensures Valid(s) && page.Page? && |out| <= wanted
    ensures if page.token.Some? then page.token.value == token else token !in s.open
  {
  }

  // ----- the size of a page -----

  function Asked(batch: nat, stored: nat): nat {
    if batch != 0 then batch else if stored != 0 then stored else 1000
  }

  /** The first page has the rows up to the size asked for, 1000 when none is given; there is a cursor if and only
      if rows are left, and it holds these and the size. */
  lemma FirstPageIs(catalog: T.Catalog, s: State, tx: nat, model: string, q: Select, batch: nat)
    requires OneShot(catalog, s.server, tx, model, q).Ok?
    ensures
      var rows, n := OneShot(catalog, s.server, tx, model, q).value, Asked(batch, 0);
      var (begun, first) := Step(catalog, s, Open(tx, model, q, batch));
      if |rows| <= n then first == Page(rows, None) && begun.open == s.open && begun.issued == s.issued
      else
        && first == Page(rows[..n], Some(s.issued + 1)) && begun.issued == s.issued + 1
        && begun.open == s.open[s.issued + 1 := Cursor(rows[n..], n)]
  {
  }

  /** A later page has the next rows up to the size asked for, or else the size of the first page. */
  lemma NextPageIs(catalog: T.Catalog, s: State, t: nat, batch: nat)
    requires t in s.open
    ensures
      var rows, n := s.open[t].rows, Asked(batch, s.open[t].batch);
      var (after, page) := Step(catalog, s, Fetch(t, batch));
      && after.server == s.server && after.issued == s.issued
      && if |rows| <= n then page == Page(rows, None) && after.open == s.open - {t}
         else page == Page(rows[..n], Some(t)) && after.open == s.open[t := Cursor(rows[n..], s.open[t].batch)]
  {
  }

  /** Closing drops the cursor, if there is one, and says whether there was. */
  lemma CloseIs(catalog: T.Catalog, s: State, t: nat)
    ensures
      var (after, reply) := Step(catalog, s, Close(t));
      && t !in after.open && (forall u :: u in after.open <==> u in s.open && u != t) && (forall u :: u in after.open ==> after.open[u] == s.open[u])
      && after.server == s.server && after.issued == s.issued && reply == Closed(t in s.open)
  {
  }
}

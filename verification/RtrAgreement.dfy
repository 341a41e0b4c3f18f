/** What the RTR client guarantees over whole runs (RFC 8210 section 8): the live store changes
    only at End Of Data, and against a correct cache it then holds the cache's own table. */
module RtrAgreement {
  import opened Bgp
  import opened Tries
  import opened Rpki
  import opened RtrCodec
  import opened RtrClient

  // ---- Commits are atomic, whatever the connection delivers ----

  predicate IsEndOfData(i: Input) {
    i.Received? && i.pdu.EndOfData?
  }

  /** Only End Of Data changes the live store, and then to the acceptable records of the table. */
  lemma LiveChangesOnlyAtEndOfData(s: State, l: Locals, i: Input, writeOk: bool)
    ensures var r := Step(s, l, i, writeOk);
      if IsEndOfData(i) then r.state.live == InRange(Records(r.state.current)) else r.state.live == s.live
  {
  }

  /** The states a session passes through, one before each input it reads and one after the last. */
  function Trace(s: State, l: Locals, inputs: seq<Input>, writes: nat): (t: seq<State>)
    ensures 1 <= |t| <= |inputs| + 1 && t[0] == s
    decreases |inputs|
  {
    if |inputs| == 0 then [s]
    else
      var r := Step(s, l, inputs[0], writes > 0);
      if r.end.Some? then [s, r.state]
      else [s] + Trace(r.state, r.locals, inputs[1..], WritesLeft(r, writes))
  }

  lemma {:induction false} TraceEndsSession(s: State, l: Locals, inputs: seq<Input>, writes: nat, sent: seq<Query>)
    ensures Last(Trace(s, l, inputs, writes)) == RunInputs(s, l, inputs, writes, sent).state
    decreases |inputs|
  {
    if |inputs| > 0 {
      var r := Step(s, l, inputs[0], writes > 0);
      if r.end.None? {
        TraceEndsSession(r.state, r.locals, inputs[1..], WritesLeft(r, writes), WithQuery(sent, r.sent));
      }
    }
  }

  /** The number of inputs read when the last commit up to input n was done, 0 if there was none. */
  function LastCommit(inputs: seq<Input>, n: nat): (c: nat)
    requires n <= |inputs|
    ensures c <= n
    ensures c > 0 ==> IsEndOfData(inputs[c - 1])
    ensures forall k :: c <= k < n ==> !IsEndOfData(inputs[k])
  {
    if n == 0 then 0
    else if IsEndOfData(inputs[n - 1]) then n
    else LastCommit(inputs, n - 1)
  }

  /** Main result: for every sequence of inputs whatsoever, at every point of the session, the live
      store is the in-range part of the table as of the last commit. */
  lemma {:induction false} CommitIsAtomic(s: State, l: Locals, inputs: seq<Input>, writes: nat, n: nat)
    requires n < |Trace(s, l, inputs, writes)|
    ensures n <= |inputs|
    ensures var t, c := Trace(s, l, inputs, writes), LastCommit(inputs, n);
      t[n].live == if c == 0 then s.live else InRange(Records(t[c].current))
    decreases |inputs|
  {
    hide Step, InRange, Records, IsEndOfData, LastCommit;
    if n == 0 {
      NoCommitYet(inputs);
    } else {
      var r := Step(s, l, inputs[0], writes > 0);
      LiveChangesOnlyAtEndOfData(s, l, inputs[0], writes > 0);
      if r.end.None? {
        CommitIsAtomic(r.state, r.locals, inputs[1..], WritesLeft(r, writes), n - 1);
        LastCommitShifts(inputs, n);
      } else {
        FirstCommit(inputs);
      }
    }
  }

  lemma NoCommitYet(inputs: seq<Input>)
    ensures LastCommit(inputs, 0) == 0
  {
  }

  lemma FirstCommit(inputs: seq<Input>)
    requires |inputs| > 0
    ensures LastCommit(inputs, 1) == if IsEndOfData(inputs[0]) then 1 else 0
  {
    assert LastCommit(inputs, 0) == 0;
  }

  lemma {:induction false} LastCommitShifts(inputs: seq<Input>, n: nat)
    requires 0 < n <= |inputs|
    ensures var c := LastCommit(inputs[1..], n - 1);
      LastCommit(inputs, n) == if c > 0 then c + 1 else if IsEndOfData(inputs[0]) then 1 else 0
    decreases n
  {
    if n > 1 && !IsEndOfData(inputs[n - 1]) {
      LastCommitShifts(inputs, n - 1);
    }
  }

  // ---- Tables as sets ----

  function ApplyToSet(vrps: set<VRP>, changes: seq<Change>): set<VRP> {
    if |changes| == 0 then vrps
    else
      var before := ApplyToSet(vrps, changes[..|changes| - 1]);
      if Last(changes).announce then before + {Last(changes).vrp} else before - {Last(changes).vrp}
  }

  /** The keyed table behaves as the set of its records. */
  lemma {:induction false} TableIsSet(t: Table, changes: seq<Change>)
    requires Keyed(t)
    ensures Keyed(ApplyChanges(t, changes))
    ensures Records(ApplyChanges(t, changes)) == ApplyToSet(Records(t), changes)
  {
    if |changes| > 0 {
      TableIsSet(t, changes[..|changes| - 1]);
      ChangeIsSet(ApplyChanges(t, changes[..|changes| - 1]), Last(changes));
    }
  }

  lemma ChangeIsSet(t: Table, ch: Change)
    requires Keyed(t)
    ensures Keyed(ApplyChange(t, ch))
    ensures Records(ApplyChange(t, ch)) == if ch.announce then Records(t) + {ch.vrp} else Records(t) - {ch.vrp}
  {
    var k, after := KeyOfVrp(ch.vrp), ApplyChange(t, ch);
    forall v
      ensures v in Records(t) <==> KeyOfVrp(v) in t && t[KeyOfVrp(v)] == v
      ensures v in Records(after) <==> KeyOfVrp(v) in after && after[KeyOfVrp(v)] == v
    {
    }
    forall v | KeyOfVrp(v) == k
      ensures v == ch.vrp
    {
    }
  }

  lemma {:induction false} ApplyConcat(vrps: set<VRP>, a: seq<Change>, b: seq<Change>)
    ensures ApplyToSet(vrps, a + b) == ApplyToSet(ApplyToSet(vrps, a), b)
  {
    if |b| == 0 {
      assert a + b == a;
    } else {
      assert (a + b)[..|a + b| - 1] == a + b[..|b| - 1];
      ApplyConcat(vrps, a, b[..|b| - 1]);
    }
  }

  // ---- The cache ----

  /** The cache's tables, by session and serial. */
  type Tables = (U16, U32) -> set<VRP>

  /** The changes a run of PDUs announces. */
  function Changes(ps: seq<Pdu>): seq<Change> {
    if |ps| == 0 then []
    else (if ps[0].PrefixPdu? then [Change(ToVRP(ps[0]), ps[0].announce)] else []) + Changes(ps[1..])
  }

  /** The body of a response: prefix records, and router keys the client ignores. */
  predicate IsBody(ps: seq<Pdu>) {
    forall p :: p in ps ==> p.PrefixPdu? || p.RouterKey?
  }

  /** A response that turns the set `base` into the table of the version its End Of Data names. */
  ghost predicate IsResponse(tables: Tables, base: set<VRP>, ps: seq<Pdu>) {
    && |ps| >= 2
    && ps[0].CacheResponse? && Last(ps).EndOfData?
    && IsBody(ps[1..|ps| - 1])
    && ApplyToSet(base, Changes(ps[1..|ps| - 1])) == tables(Last(ps).session, Last(ps).serial)
  }

  predicate IsFailure(ps: seq<Pdu>) {
    |ps| == 1 && ps[0].ErrorReport?
  }

  /** A correct answer: the full table to a Reset Query; to a Serial Query a delta from the table of
      the serial asked about, or a Cache Reset; and an error report to anything. */
  ghost predicate CorrectAnswer(tables: Tables, q: Query, ps: seq<Pdu>) {
    || IsFailure(ps)
    || match q
       case ResetQuerySent => IsResponse(tables, {}, ps)
       case SerialQuerySent(session, serial) => IsResponse(tables, tables(session, serial), ps) || ps == [CacheReset]
  }

  // ---- The client and the cache together ----

  /** The client, the PDUs on their way to it, and the version of its last End Of Data. A client that
      has stopped does not connect again. */
  datatype System = System(
    state: State,
    locals: Locals,
    connected: bool,
    stopped: bool,
    wire: seq<Pdu>,
    synced: Option<(U16, U32)>)

  datatype Event =
    | Connect(answer: seq<Pdu>)
    | Deliver(writeOk: bool, answer: seq<Pdu>)
    | Notify(session: U16, serial: U32, answer: seq<Pdu>)
    | Expire(answer: seq<Pdu>)
    | Drop

  /** The client takes one input; a query it writes is answered at once, and an end disconnects it. */
  ghost predicate Takes(tables: Tables, a: System, i: Input, writeOk: bool, rest: seq<Pdu>, answer: seq<Pdu>, b: System) {
    var r := Step(a.state, a.locals, i, writeOk);
    && b.state == r.state && b.locals == r.locals
    && b.connected == r.end.None?
    && b.stopped == (r.end == Some(Fatal))
    && (if r.sent.Some? then CorrectAnswer(tables, r.sent.value, answer) && b.wire == rest + answer else b.wire == rest)
    && b.synced == if IsEndOfData(i) then Some((i.pdu.session, i.pdu.serial)) else a.synced
  }

  /** One step of the whole. */
  ghost predicate Moves(tables: Tables, a: System, e: Event, b: System) {
    match e
    case Connect(answer) =>
      && !a.connected && !a.stopped
      && CorrectAnswer(tables, ResetQuerySent, answer)
      && b == a.(connected := true, locals := Locals(true, []), wire := answer)
    case Deliver(writeOk, answer) =>
      && a.connected && |a.wire| > 0
      && Takes(tables, a, Received(a.wire[0]), writeOk, a.wire[1..], answer, b)
    case Notify(session, serial, answer) =>
      && a.connected
      && Takes(tables, a, Received(SerialNotify(session, serial)), true, a.wire, answer, b)
    case Expire(answer) =>
      && a.connected
      && Takes(tables, a, Timeout, true, a.wire, answer, b)
    case Drop =>
      b == a.(connected := false)
  }

  /** The cache notifies, and the refresh timer expires, only when no answer is under way: the code
      drops what it has of an answer when either happens. */
  predicate Patient(a: System, e: Event) {
    e.Notify? || e.Expire? ==> a.wire == []
  }

  ghost predicate Next(tables: Tables, a: System, e: Event, b: System) {
    Moves(tables, a, e, b) && Patient(a, e)
  }

  predicate DeliversEndOfData(a: System, e: Event) {
    e.Deliver? && |a.wire| > 0 && a.wire[0].EndOfData?
  }

  ghost predicate Initial(a: System) {
    && !a.connected && !a.stopped
    && a.synced == None
    && a.state.current == map[] && !a.state.hasSerial
  }

  /** The client's table is the cache's table of the client's own version. */
  ghost predicate InSync(tables: Tables, s: State) {
    && s.hasSerial
    && Records(s.current) == tables(s.sessionID, s.serial)
  }

  /** The client is in sync with this version and validates by it. */
  ghost predicate SyncedAt(tables: Tables, s: State, session: U16, serial: U32) {
    && InSync(tables, s)
    && s.sessionID == session && s.serial == serial
    && s.live == InRange(tables(session, serial))
  }

  /** What the client will build on when the next End Of Data comes. */
  function Base(s: State, l: Locals): set<VRP> {
    if l.fullSync then {} else Records(s.current)
  }

  /** The rest of a response completes what the client already holds of it. */
  ghost predicate Completes(tables: Tables, s: State, l: Locals, wire: seq<Pdu>) {
    && |wire| > 0 && Last(wire).EndOfData?
    && IsBody(wire[..|wire| - 1])
    && ApplyToSet(Base(s, l), l.pending + Changes(wire[..|wire| - 1])) == tables(Last(wire).session, Last(wire).serial)
  }

  ghost predicate AnswerUnderWay(tables: Tables, s: State, l: Locals, wire: seq<Pdu>) {
    || IsFailure(wire)
    || wire == [CacheReset]
    || IsResponse(tables, Base(s, l), wire)
    || Completes(tables, s, l, wire)
  }

  /** The client is in sync or has an answer under way that will bring it there. */
  ghost predicate Settled(tables: Tables, a: System) {
    && Keyed(a.state.current)
    && (a.connected && a.wire == [] ==> InSync(tables, a.state))
    && (a.connected && a.wire != [] ==> AnswerUnderWay(tables, a.state, a.locals, a.wire))
  }

  /** The live store is that of the version of the last End Of Data. */
  ghost predicate LiveIsSynced(tables: Tables, a: System) {
    a.synced.Some? ==> a.state.live == InRange(tables(a.synced.value.0, a.synced.value.1))
  }

  ghost predicate Invariant(tables: Tables, a: System) {
    Settled(tables, a) && LiveIsSynced(tables, a)
  }

  lemma AnswerStarts(tables: Tables, s: State, l: Locals, q: Query, answer: seq<Pdu>)
    requires CorrectAnswer(tables, q, answer)
    requires q == ResetQuerySent ==> l.fullSync
    requires q.SerialQuerySent? ==> !l.fullSync && Records(s.current) == tables(q.session, q.serial)
    ensures answer != [] && AnswerUnderWay(tables, s, l, answer)
  {
  }

  /** Delivering the first PDU of an answer keeps the rest of it completing the client's table. */
  lemma DeliveryKeepsAnswer(tables: Tables, s: State, l: Locals, wire: seq<Pdu>, writeOk: bool)
    requires Keyed(s.current)
    requires wire != [] && AnswerUnderWay(tables, s, l, wire)
    ensures var r := Step(s, l, Received(wire[0]), writeOk);
      && Keyed(r.state.current)
      && (r.sent.Some? ==> r.sent.value == ResetQuerySent && r.locals.fullSync && wire[1..] == [])
      && (r.end.None? && r.sent.None? && wire[1..] != [] ==> AnswerUnderWay(tables, r.state, r.locals, wire[1..]))
      && (r.end.None? && r.sent.None? && wire[1..] == [] ==> IsEndOfData(Received(wire[0])))
      && (IsEndOfData(Received(wire[0])) ==> wire[1..] == [])
      && (IsEndOfData(Received(wire[0])) ==> SyncedAt(tables, r.state, wire[0].session, wire[0].serial))
  {
    if IsResponse(tables, Base(s, l), wire) {
      ResponseStarts(tables, s, l, wire);
    } else if Completes(tables, s, l, wire) {
      if |wire| == 1 {
        ResponseEnds(tables, s, l, wire);
      } else {
        ResponseGoesOn(tables, s, l, wire);
      }
    }
  }

  lemma ResponseStarts(tables: Tables, s: State, l: Locals, wire: seq<Pdu>)
    requires IsResponse(tables, Base(s, l), wire)
    ensures Completes(tables, s.(sessionID := wire[0].session), l.(pending := []), wire[1..])
  {
    var rest := wire[1..];
    assert rest[..|rest| - 1] == wire[1..|wire| - 1];
    assert [] + Changes(rest[..|rest| - 1]) == Changes(rest[..|rest| - 1]);
  }

  lemma ResponseGoesOn(tables: Tables, s: State, l: Locals, wire: seq<Pdu>)
    requires Completes(tables, s, l, wire) && |wire| > 1
    ensures wire[0].PrefixPdu? || wire[0].RouterKey?
    ensures var pending := if wire[0].PrefixPdu? then l.pending + [Change(ToVRP(wire[0]), wire[0].announce)] else l.pending;
      Completes(tables, s, l.(pending := pending), wire[1..])
  {
    var body, rest := wire[..|wire| - 1], wire[1..];
    assert wire[0] == body[0] && body[0] in body;
    assert rest[..|rest| - 1] == body[1..];
    var pending := if wire[0].PrefixPdu? then l.pending + [Change(ToVRP(wire[0]), wire[0].announce)] else l.pending;
    assert l.pending + Changes(body) == pending + Changes(body[1..]);
  }

  lemma ResponseEnds(tables: Tables, s: State, l: Locals, wire: seq<Pdu>)
    requires Keyed(s.current)
    requires Completes(tables, s, l, wire) && |wire| == 1
    ensures var t := Committed(s.current, l.fullSync, l.pending);
      Keyed(t) && Records(t) == tables(wire[0].session, wire[0].serial)
  {
    assert wire[..0] == [] && l.pending + Changes([]) == l.pending;
    TableIsSet(if l.fullSync then map[] else s.current, l.pending);
    assert Records(map[]) == {};
  }

  /** Every patient step keeps the whole settled, and one that delivers End Of Data leaves the client in sync
      with the version it names and the live store with its in-range records. */
  lemma StepAgrees(tables: Tables, a: System, e: Event, b: System)
    requires Settled(tables, a) && Next(tables, a, e, b)
    ensures Settled(tables, b)
    ensures LiveIsSynced(tables, a) ==> LiveIsSynced(tables, b)
    ensures DeliversEndOfData(a, e) ==> SyncedAt(tables, b.state, a.wire[0].session, a.wire[0].serial)
  {
    match e {
      case Connect(answer) =>
        AnswerStarts(tables, b.state, b.locals, ResetQuerySent, answer);
      case Deliver(writeOk, answer) =>
        DeliveryKeepsAnswer(tables, a.state, a.locals, a.wire, writeOk);
        LiveChangesOnlyAtEndOfData(a.state, a.locals, Received(a.wire[0]), writeOk);
        var r := Step(a.state, a.locals, Received(a.wire[0]), writeOk);
        if r.sent.Some? {
          AnswerStarts(tables, b.state, b.locals, r.sent.value, answer);
          assert b.wire == answer;
        }
      case Notify(session, serial, answer) =>
        AnswerStarts(tables, b.state, b.locals, SerialQuerySent(a.state.sessionID, a.state.serial), answer);
        assert b.wire == answer;
      case Expire(answer) =>
        AnswerStarts(tables, b.state, b.locals, SerialQuerySent(a.state.sessionID, a.state.serial), answer);
        assert b.wire == answer;
      case Drop =>
    }
  }

  /** A run of the whole, from the start, through any number of connections. */
  ghost predicate IsRun(tables: Tables, run: seq<System>, events: seq<Event>) {
    && |run| == |events| + 1
    && Initial(run[0])
    && forall n :: 0 <= n < |events| ==> Next(tables, run[n], events[n], run[n + 1])
  }

  lemma {:induction false} RunKeepsInvariant(tables: Tables, run: seq<System>, events: seq<Event>, n: nat)
    requires IsRun(tables, run, events) && n < |run|
    ensures Invariant(tables, run[n])
  {
    if n > 0 {
      RunKeepsInvariant(tables, run, events, n - 1);
      StepAgrees(tables, run[n - 1], events[n - 1], run[n]);
    }
  }

  /** Main result: in every run, after every End Of Data, the client's table is the cache's table at
      the client's serial, the live store validates as that table's in-range records, and between
      syncs the live store stays with the version of the last End Of Data. */
  lemma AgreementOverRuns(tables: Tables, run: seq<System>, events: seq<Event>, n: nat)
    requires IsRun(tables, run, events) && n < |events|
    ensures DeliversEndOfData(run[n], events[n]) ==>
      SyncedAt(tables, run[n + 1].state, run[n].wire[0].session, run[n].wire[0].serial)
    ensures run[n].synced.Some? ==>
      run[n].state.live == InRange(tables(run[n].synced.value.0, run[n].synced.value.1))
  {
    RunKeepsInvariant(tables, run, events, n);
    StepAgrees(tables, run[n], events[n], run[n + 1]);
  }
}

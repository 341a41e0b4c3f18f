/** What a Serial Notify or the refresh timer does to an answer under way (internal/rtr/client.go
    118-122 and 142-146): the client forgets what it has of the answer and asks again. Here is
    exactly when the tables committed after that are right all the same. */
module RtrInterruption {
  import opened Bgp
  import opened Tries
  import opened Rpki
  import opened RtrCodec
  import opened RtrClient
  import opened RtrAgreement

  // ---- When changes make two sets the same ----

  /** The records a list of changes names, to add them or to take them away. */
  function Named(changes: seq<Change>): set<VRP> {
    set c | c in changes :: c.vrp
  }

  /** The changes decide what they name, and leave everything else. */
  lemma {:induction false} NamedDecide(base: set<VRP>, changes: seq<Change>, v: VRP)
    ensures v in ApplyToSet(base, changes) <==>
      if v in Named(changes) then v in ApplyToSet({}, changes) else v in base
  {
    if |changes| > 0 {
      var front := changes[..|changes| - 1];
      NamedDecide(base, front, v);
      assert forall c :: c in changes <==> c in front || c == Last(changes);
      assert v in Named(changes) <==> v in Named(front) || v == Last(changes).vrp;
    }
  }

  /** Changes lead from two sets to the same one exactly when the sets differ in nothing but records
      the changes name. */
  lemma SameAfter(a: set<VRP>, b: set<VRP>, changes: seq<Change>)
    ensures ApplyToSet(a, changes) == ApplyToSet(b, changes) <==> a - Named(changes) == b - Named(changes)
  {
    hide ApplyToSet, Named;
    forall v
      ensures v in ApplyToSet(a, changes) <==> if v in Named(changes) then v in ApplyToSet({}, changes) else v in a
      ensures v in ApplyToSet(b, changes) <==> if v in Named(changes) then v in ApplyToSet({}, changes) else v in b
    {
      NamedDecide(a, changes, v);
      NamedDecide(b, changes, v);
    }
    if ApplyToSet(a, changes) == ApplyToSet(b, changes) {
      forall v
        ensures v in a - Named(changes) <==> v in b - Named(changes)
      {
        assert v in ApplyToSet(a, changes) <==> v in ApplyToSet(b, changes);
      }
    }
    if a - Named(changes) == b - Named(changes) {
      forall v
        ensures v in ApplyToSet(a, changes) <==> v in ApplyToSet(b, changes)
      {
        assert v in a - Named(changes) <==> v in b - Named(changes);
      }
    }
  }

  lemma NoneBeyond(t: set<VRP>, named: set<VRP>)
    ensures {} - named == t - named <==> t <= named
  {
    if t - named == {} - named {
      forall v | v in t
        ensures v in named
      {
        assert v in t - named || v in named;
      }
    }
  }

  lemma SameBeyond(a: set<VRP>, b: set<VRP>, named: set<VRP>)
    ensures a - named == b - named <==> a <= b + named && b - named <= a
  {
    if a <= b + named && b - named <= a {
      assert forall v :: v in a - named <==> v in b - named;
    }
    if a - named == b - named {
      forall v | v in a
        ensures v in b + named
      {
        assert v in a - named || v in named;
      }
    }
  }

  // ---- The rest of a response ----

  datatype Progress = Progress(state: State, locals: Locals)

  /** The client after it has taken these PDUs. */
  function After(s: State, l: Locals, ps: seq<Pdu>): Progress
    decreases |ps|
  {
    if |ps| == 0 then Progress(s, l)
    else
      var r := Step(s, l, Received(ps[0]), true);
      After(r.state, r.locals, ps[1..])
  }

  /** A response, or what is left of one. */
  predicate IsRest(ps: seq<Pdu>) {
    && |ps| > 0 && Last(ps).EndOfData?
    && (ps[0].CacheResponse? ==> |ps| >= 2)
    && IsBody(BodyOf(ps))
  }

  /** The records still to come. */
  function BodyOf(ps: seq<Pdu>): seq<Pdu>
    requires |ps| > 0 && (ps[0].CacheResponse? ==> |ps| >= 2)
  {
    if ps[0].CacheResponse? then ps[1..|ps| - 1] else ps[..|ps| - 1]
  }

  function Late(ps: seq<Pdu>): seq<Change>
    requires |ps| > 0 && (ps[0].CacheResponse? ==> |ps| >= 2)
  {
    Changes(BodyOf(ps))
  }

  /** What the client will apply the rest of the response to. */
  function StartsFrom(s: State, l: Locals, ps: seq<Pdu>): set<VRP>
    requires |ps| > 0
  {
    if ps[0].CacheResponse? then Base(s, l) else ApplyToSet(Base(s, l), l.pending)
  }

  /** The rest of a response leads from `promised` to the table of the version it ends with. */
  ghost predicate Promises(tables: Tables, promised: set<VRP>, ps: seq<Pdu>) {
    && IsRest(ps)
    && ApplyToSet(promised, Late(ps)) == tables(Last(ps).session, Last(ps).serial)
  }

  /** The change a PDU of the body makes. */
  function ChangeOf(p: Pdu): seq<Change> {
    if p.PrefixPdu? then [Change(ToVRP(p), p.announce)] else []
  }

  lemma BodyStep(s: State, l: Locals, p: Pdu)
    requires p.PrefixPdu? || p.RouterKey?
    ensures Step(s, l, Received(p), true) == Turn(s, l.(pending := l.pending + ChangeOf(p)), None, None)
  {
    assert l.pending + [] == l.pending;
  }

  lemma FirstChange(p: Pdu, more: seq<Pdu>)
    ensures Changes([p] + more) == ChangeOf(p) + Changes(more)
  {
    assert ([p] + more)[1..] == more;
  }

  lemma AfterOne(s: State, l: Locals, p: Pdu, rest: seq<Pdu>)
    requires p.PrefixPdu? || p.RouterKey?
    ensures After(s, l, [p] + rest) == After(s, l.(pending := l.pending + ChangeOf(p)), rest)
  {
    hide Step;
    BodyStep(s, l, p);
    assert ([p] + rest)[1..] == rest;
  }

  lemma {:induction false} BodyArrives(s: State, l: Locals, body: seq<Pdu>, tail: seq<Pdu>)
    requires IsBody(body)
    ensures After(s, l, body + tail) == After(s, l.(pending := l.pending + Changes(body)), tail)
    decreases |body|
  {
    hide After, ChangeOf;
    if |body| == 0 {
      assert body + tail == tail && l.pending + [] == l.pending;
    } else {
      hide Changes;
      var p, more := body[0], body[1..];
      var l' := l.(pending := l.pending + ChangeOf(p));
      assert p in body;
      AfterOne(s, l, p, more + tail);
      assert [p] + (more + tail) == body + tail && [p] + more == body;
      BodyArrives(s, l', more, tail);
      FirstChange(p, more);
      assert l'.pending + Changes(more) == l.pending + (ChangeOf(p) + Changes(more));
    }
  }

  /** The client has committed this table, of this version. */
  ghost predicate Landed(e: Progress, table: set<VRP>, session: U16, serial: U32) {
    && Keyed(e.state.current)
    && Records(e.state.current) == table
    && e.state.live == InRange(table)
    && e.state.hasSerial && e.state.sessionID == session && e.state.serial == serial
    && e.locals == Locals(false, [])
  }

  /** Taking the rest of a response commits what it makes of what the client starts from. */
  lemma RestArrives(s: State, l: Locals, ps: seq<Pdu>)
    requires Keyed(s.current) && IsRest(ps)
    ensures Landed(After(s, l, ps), ApplyToSet(StartsFrom(s, l, ps), Late(ps)), Last(ps).session, Last(ps).serial)
  {
    hide Changes, IsBody, ApplyToSet, Landed, After, Base;
    var body := BodyOf(ps);
    if ps[0].CacheResponse? {
      var s', l' := s.(sessionID := ps[0].session), l.(pending := []);
      assert ps == [ps[0]] + (body + [Last(ps)]);
      ResponseArrives(s, l, ps[0], body + [Last(ps)]);
      BodyThenEnd(s', l', body, Last(ps));
      assert [] + Late(ps) == Late(ps);
      SameBase(s, l, ps[0].session);
    } else {
      assert ps == body + [Last(ps)];
      BodyThenEnd(s, l, body, Last(ps));
      ApplyConcat(Base(s, l), l.pending, Late(ps));
    }
  }

  lemma SameBase(s: State, l: Locals, session: U16)
    ensures Base(s.(sessionID := session), l.(pending := [])) == Base(s, l)
  {
  }

  lemma ResponseArrives(s: State, l: Locals, p: Pdu, rest: seq<Pdu>)
    requires p.CacheResponse?
    ensures After(s, l, [p] + rest) == After(s.(sessionID := p.session), l.(pending := []), rest)
  {
    assert ([p] + rest)[1..] == rest;
  }

  lemma BodyThenEnd(s: State, l: Locals, body: seq<Pdu>, p: Pdu)
    requires Keyed(s.current) && IsBody(body) && p.EndOfData?
    ensures Landed(After(s, l, body + [p]), ApplyToSet(Base(s, l), l.pending + Changes(body)), p.session, p.serial)
  {
    hide Changes, IsBody, ApplyToSet, Landed, After;
    BodyArrives(s, l, body, [p]);
    EndArrives(s, l.(pending := l.pending + Changes(body)), p);
  }

  lemma EndArrives(s: State, l: Locals, p: Pdu)
    requires Keyed(s.current) && p.EndOfData?
    ensures Landed(After(s, l, [p]), ApplyToSet(Base(s, l), l.pending), p.session, p.serial)
  {
    hide InRange, ApplyToSet;
    TableIsSet(if l.fullSync then map[] else s.current, l.pending);
    assert Records(map[]) == {};
    assert [p][1..] == [];
  }

  /** Main result: the End Of Data of a response leaves the client in sync if and only if what the
      client started from and what the cache started from differ in nothing but records the rest of
      the response names. */
  lemma LandsExactlyWhen(tables: Tables, s: State, l: Locals, ps: seq<Pdu>, promised: set<VRP>)
    requires Keyed(s.current) && Promises(tables, promised, ps)
    ensures Keyed(After(s, l, ps).state.current)
    ensures Records(After(s, l, ps).state.current) == ApplyToSet(StartsFrom(s, l, ps), Late(ps))
    ensures After(s, l, ps).locals == Locals(false, [])
    ensures SyncedAt(tables, After(s, l, ps).state, Last(ps).session, Last(ps).serial) <==>
      StartsFrom(s, l, ps) - Named(Late(ps)) == promised - Named(Late(ps))
  {
    hide After, Changes, IsBody, Named;
    RestArrives(s, l, ps);
    SameAfter(StartsFrom(s, l, ps), promised, Late(ps));
  }

  /** An answer under way that ends with End Of Data promises to complete what the client has. */
  lemma UnderWayPromises(tables: Tables, s: State, l: Locals, wire: seq<Pdu>)
    requires AnswerUnderWay(tables, s, l, wire) && |wire| > 0 && Last(wire).EndOfData?
    ensures Promises(tables, StartsFrom(s, l, wire), wire)
  {
    hide Changes, ApplyToSet;
    if IsResponse(tables, Base(s, l), wire) {
    } else {
      var body := wire[..|wire| - 1];
      if |body| > 0 {
        assert wire[0] in body;
      }
      ApplyConcat(Base(s, l), l.pending, Changes(body));
    }
  }

  // ---- The interruption ----

  /** A Serial Notify, or the refresh timer of a client that has a serial. */
  predicate Interrupts(s: State, i: Input) {
    match i
    case Timeout => s.hasSerial
    case Received(p) => p.SerialNotify?
    case ReadFailure => false
  }

  /** The client asks for a delta from its own version, and forgets what it has of the answer. */
  lemma InterruptionAsks(s: State, l: Locals, i: Input)
    requires Interrupts(s, i)
    ensures Step(s, l, i, true) == Turn(s, Locals(false, []), Some(SerialQuerySent(s.sessionID, s.serial)), None)
  {
  }

  /** Main result: an interruption in the middle of any answer that ends with End Of Data. With A the
      client's old table and B what the cache had built on, the first commit is right if and only if A
      and B agree on every record still to come in the answer does not name. The second commit, that
      of the delta the client asked for when interrupted, is right if and only if the first one's
      table agrees with the table asked about on every record that delta does not name. */
  lemma InterruptedAnswer(tables: Tables, s: State, l: Locals, i: Input, rest: seq<Pdu>, answer: seq<Pdu>)
    requires Keyed(s.current) && Interrupts(s, i)
    requires AnswerUnderWay(tables, s, l, rest) && |rest| > 0 && Last(rest).EndOfData?
    requires IsResponse(tables, tables(s.sessionID, s.serial), answer)
    ensures IsRest(rest) && IsRest(answer)
    ensures var r := Step(s, l, i, true);
      var one := After(r.state, r.locals, rest);
      var two := After(one.state, one.locals, answer);
      var held := Records(s.current);
      && (SyncedAt(tables, one.state, Last(rest).session, Last(rest).serial) <==>
            held - Named(Late(rest)) == StartsFrom(s, l, rest) - Named(Late(rest)))
      && (SyncedAt(tables, two.state, Last(answer).session, Last(answer).serial) <==>
            ApplyToSet(held, Late(rest)) - Named(Late(answer)) == tables(s.sessionID, s.serial) - Named(Late(answer)))
  {
    hide Step, After, Changes, Named, SyncedAt, AnswerUnderWay;
    InterruptionAsks(s, l, i);
    UnderWayPromises(tables, s, l, rest);
    var forgot := Locals(false, []);
    NothingPending(s, rest);
    LandsExactlyWhen(tables, s, forgot, rest, StartsFrom(s, l, rest));
    var one := After(s, forgot, rest);
    NothingPending(one.state, answer);
    LandsExactlyWhen(tables, one.state, one.locals, answer, tables(s.sessionID, s.serial));
  }

  lemma NothingPending(s: State, ps: seq<Pdu>)
    requires |ps| > 0
    ensures StartsFrom(s, Locals(false, []), ps) == Records(s.current)
  {
  }

  /** A Cache Reset and the full table it asks for put any client right again. */
  lemma ResetHeals(tables: Tables, s: State, l: Locals, full: seq<Pdu>)
    requires IsResponse(tables, {}, full)
    ensures var r := Step(s, l, Received(CacheReset), true);
      && r.sent == Some(ResetQuerySent)
      && SyncedAt(tables, After(r.state, r.locals, full).state, Last(full).session, Last(full).serial)
  {
    hide After, Changes, Named, SyncedAt, ApplyToSet;
    LandsExactlyWhen(tables, s.(current := map[]), Locals(true, []), full, {});
  }

  /** An interruption just before a Cache Reset: the delta asked for is applied to nothing, and the full
      table to that delta. The first commit is right if and only if the delta names every record of the
      table it is from, the second if and only if the full table names all the first one left. */
  lemma InterruptedReset(tables: Tables, s: State, l: Locals, i: Input, delta: seq<Pdu>, full: seq<Pdu>)
    requires Interrupts(s, i)
    requires IsResponse(tables, tables(s.sessionID, s.serial), delta) && IsResponse(tables, {}, full)
    ensures IsRest(delta) && IsRest(full)
    ensures var r := Step(s, l, i, true);
      var reset := Step(r.state, r.locals, Received(CacheReset), true);
      var one := After(reset.state, reset.locals, delta);
      var two := After(one.state, one.locals, full);
      && reset.sent == Some(ResetQuerySent)
      && (SyncedAt(tables, one.state, Last(delta).session, Last(delta).serial) <==>
            tables(s.sessionID, s.serial) <= Named(Late(delta)))
      && (SyncedAt(tables, two.state, Last(full).session, Last(full).serial) <==>
            ApplyToSet({}, Late(delta)) <= Named(Late(full)))
  {
    hide After, Changes, Named, SyncedAt, ApplyToSet;
    InterruptionAsks(s, l, i);
    var cleared, whole := s.(current := map[]), Locals(true, []);
    LandsExactlyWhen(tables, cleared, whole, delta, tables(s.sessionID, s.serial));
    var one := After(cleared, whole, delta);
    NothingPending(one.state, full);
    LandsExactlyWhen(tables, one.state, one.locals, full, {});
    NoneBeyond(tables(s.sessionID, s.serial), Named(Late(delta)));
    NoneBeyond(ApplyToSet({}, Late(delta)), Named(Late(full)));
  }

  // ---- In terms of the records ----

  lemma {:induction false} AnnouncesAdd(base: set<VRP>, changes: seq<Change>)
    requires forall c :: c in changes ==> c.announce
    ensures ApplyToSet(base, changes) == base + Named(changes)
  {
    if |changes| > 0 {
      AnnouncesAdd(base, changes[..|changes| - 1]);
      assert forall c :: c in changes <==> c in changes[..|changes| - 1] || c == Last(changes);
    }
  }

  /** In the middle of a full table: the first commit is right exactly when the old table has no record
      beyond the one sent and already has every record forgotten that is not sent again. */
  lemma InterruptedFullTable(tables: Tables, s: State, early: seq<Change>, rest: seq<Pdu>)
    requires Keyed(s.current) && IsRest(rest) && !rest[0].CacheResponse?
    requires Promises(tables, ApplyToSet({}, early), rest)
    requires forall c :: c in early + Late(rest) ==> c.announce
    ensures SyncedAt(tables, After(s, Locals(false, []), rest).state, Last(rest).session, Last(rest).serial) <==>
      && Records(s.current) <= Named(early) + Named(Late(rest))
      && Named(early) - Named(Late(rest)) <= Records(s.current)
  {
    hide After, Named, Changes, SyncedAt, Late;
    forall c | c in early
      ensures c.announce
    {
      assert c in early + Late(rest);
    }
    AnnouncesAdd({}, early);
    NothingPending(s, rest);
    LandsExactlyWhen(tables, s, Locals(false, []), rest, ApplyToSet({}, early));
    SameBeyond(Records(s.current), Named(early), Named(Late(rest)));
    assert {} + Named(early) == Named(early);
  }

  /** In the middle of a delta, for a client in sync with its own version: the first commit is right
      exactly when every change forgotten is either named again or was none, and the second exactly
      when the changes that were committed are named again by the next delta or were none. */
  lemma InterruptedDelta(tables: Tables, s: State, early: seq<Change>, i: Input, rest: seq<Pdu>, answer: seq<Pdu>)
    requires Keyed(s.current) && InSync(tables, s) && Interrupts(s, i)
    requires Completes(tables, s, Locals(false, early), rest)
    requires IsResponse(tables, tables(s.sessionID, s.serial), answer)
    ensures IsRest(rest) && IsRest(answer)
    ensures var r := Step(s, Locals(false, early), i, true);
      var one := After(r.state, r.locals, rest);
      var two := After(one.state, one.locals, answer);
      var t := Records(s.current);
      && (SyncedAt(tables, one.state, Last(rest).session, Last(rest).serial) <==>
            t - Named(Late(rest)) == ApplyToSet(t, early) - Named(Late(rest)))
      && (SyncedAt(tables, two.state, Last(answer).session, Last(answer).serial) <==>
            ApplyToSet(t, Late(rest)) - Named(Late(answer)) == t - Named(Late(answer)))
  {
    hide Step, After, Changes, Named, SyncedAt, ApplyToSet;
    StartsMidway(tables, s, early, rest);
    InterruptedAnswer(tables, s, Locals(false, early), i, rest, answer);
  }

  lemma StartsMidway(tables: Tables, s: State, early: seq<Change>, rest: seq<Pdu>)
    requires Completes(tables, s, Locals(false, early), rest)
    ensures StartsFrom(s, Locals(false, early), rest) == ApplyToSet(Records(s.current), early)
  {
    var body := rest[..|rest| - 1];
    if |body| > 0 {
      assert rest[0] in body;
    }
  }

  // ---- Runs that go wrong ----

  /** A run in which the cache and the timer may come at any time. */
  ghost predicate IsAnyRun(tables: Tables, run: seq<System>, events: seq<Event>) {
    && |run| == |events| + 1
    && Initial(run[0])
    && forall n :: 0 <= n < |events| ==> Moves(tables, run[n], events[n], run[n + 1])
  }

  /** The run ends with an End Of Data that leaves the client out of sync. */
  ghost predicate EndsOutOfSync(tables: Tables, run: seq<System>, events: seq<Event>)
    requires |run| == |events| + 1
  {
    && |events| > 0
    && var n := |events| - 1;
      && DeliversEndOfData(run[n], events[n])
      && !SyncedAt(tables, run[n + 1].state, run[n].wire[0].session, run[n].wire[0].serial)
  }

  lemma StepKeepsKeys(tables: Tables, a: System, e: Event, b: System)
    requires Keyed(a.state.current) && Moves(tables, a, e, b)
    ensures Keyed(b.state.current)
  {
    hide CorrectAnswer, Keyed, ApplyChanges;
    EmptyTable();
    if DeliversEndOfData(a, e) {
      TableIsSet(a.state.current, a.locals.pending);
      TableIsSet(map[], a.locals.pending);
    }
  }

  lemma {:induction false} RunKeepsKeys(tables: Tables, run: seq<System>, events: seq<Event>, n: nat)
    requires IsAnyRun(tables, run, events) && n < |run|
    ensures Keyed(run[n].state.current)
  {
    hide Keyed, Moves;
    EmptyTable();
    if n > 0 {
      RunKeepsKeys(tables, run, events, n - 1);
      StepKeepsKeys(tables, run[n - 1], events[n - 1], run[n]);
    }
  }

  /** Whatever has gone wrong before, a client is put right from here on: it is not connected, or nothing
      is on its way but a Cache Reset, or an answer to a Reset Query has just started alone. */
  ghost predicate StartsAfresh(tables: Tables, a: System) {
    || !a.connected
    || a.wire == [CacheReset]
    || (a.locals.fullSync && CorrectAnswer(tables, ResetQuerySent, a.wire))
  }

  lemma FreshIsSettled(tables: Tables, a: System)
    requires Keyed(a.state.current) && StartsAfresh(tables, a)
    ensures Settled(tables, a)
  {
    hide Keyed;
    if a.connected && a.wire != [CacheReset] {
      AnswerStarts(tables, a.state, a.locals, ResetQuerySent, a.wire);
    }
  }

  lemma {:induction false} StaysSettled(tables: Tables, run: seq<System>, events: seq<Event>, n: nat, m: nat)
    requires IsAnyRun(tables, run, events) && n <= m < |run|
    requires Settled(tables, run[n])
    requires forall k :: n <= k < m ==> Patient(run[k], events[k])
    ensures Settled(tables, run[m])
    decreases m - n
  {
    if n < m {
      hide Settled, Moves;
      StaysSettled(tables, run, events, n, m - 1);
      StepAgrees(tables, run[m - 1], events[m - 1], run[m]);
    }
  }

  /** Main result: in every run, however the cache and the timer have interrupted before, from any point
      at which the client starts afresh every End Of Data leaves it in sync, as long as no answer is
      interrupted after that point. */
  lemma AgreementRecovers(tables: Tables, run: seq<System>, events: seq<Event>, n: nat, m: nat)
    requires IsAnyRun(tables, run, events) && n <= m < |events|
    requires StartsAfresh(tables, run[n])
    requires forall k :: n <= k <= m ==> Patient(run[k], events[k])
    ensures DeliversEndOfData(run[m], events[m]) ==>
      SyncedAt(tables, run[m + 1].state, run[m].wire[0].session, run[m].wire[0].serial)
  {
    hide Settled, Moves, StartsAfresh;
    RunKeepsKeys(tables, run, events, n);
    FreshIsSettled(tables, run[n]);
    StaysSettled(tables, run, events, n, m);
    StepAgrees(tables, run[m], events[m], run[m + 1]);
  }

  /** And a run starts afresh whenever it connects, and whenever it takes a Cache Reset that nothing
      follows on the wire. */
  lemma ConnectingStartsAfresh(tables: Tables, a: System, e: Event, b: System)
    requires Moves(tables, a, e, b)
    ensures e.Connect? ==> StartsAfresh(tables, a) && StartsAfresh(tables, b)
    ensures e.Deliver? && a.wire == [CacheReset] ==> StartsAfresh(tables, a) && StartsAfresh(tables, b)
  {
    hide IsResponse;
    if e.Deliver? && a.wire == [CacheReset] && b.connected {
      assert [] + e.answer == e.answer;
    }
  }

  const FRESH := System(State(0, 0, false, DEFAULT_REFRESH, map[], {}), Locals(false, []), false, false, [], None)

  const TAKE := Deliver(true, [])

  /** The client takes what comes, and no query is due. */
  function Taken(a: System): System
    requires |a.wire| > 0
  {
    var r := Step(a.state, a.locals, Received(a.wire[0]), true);
    System(r.state, r.locals, r.end.None?, r.end == Some(Fatal), a.wire[1..],
           if a.wire[0].EndOfData? then Some((a.wire[0].session, a.wire[0].serial)) else a.synced)
  }

  function Connected(a: System, answer: seq<Pdu>): System {
    a.(connected := true, locals := Locals(true, []), wire := answer)
  }

  /** The cache notifies, and its answer to the query follows what is on its way. */
  function Notified(a: System, answer: seq<Pdu>): System {
    a.(locals := Locals(false, []), wire := a.wire + answer)
  }

  predicate Running(a: System) {
    a.connected && !a.stopped
  }

  lemma TakesResponse(tables: Tables, a: System)
    requires Running(a) && |a.wire| > 0 && a.wire[0].CacheResponse?
    ensures Moves(tables, a, TAKE, Taken(a))
    ensures Taken(a) == a.(state := a.state.(sessionID := a.wire[0].session), locals := a.locals.(pending := []), wire := a.wire[1..])
  {
  }

  lemma TakesRecord(tables: Tables, a: System)
    requires Running(a) && |a.wire| > 0 && a.wire[0].PrefixPdu?
    ensures Moves(tables, a, TAKE, Taken(a))
    ensures Taken(a) == a.(locals := a.locals.(pending := a.locals.pending + ChangeOf(a.wire[0])), wire := a.wire[1..])
  {
  }

  lemma TakesEnd(tables: Tables, a: System)
    requires Running(a) && |a.wire| > 0 && a.wire[0].EndOfData? && Keyed(a.state.current)
    ensures Moves(tables, a, TAKE, Taken(a)) && DeliversEndOfData(a, TAKE)
    ensures var b, e := Taken(a), a.wire[0];
      && Running(b) && b.wire == a.wire[1..] && b.locals == Locals(false, [])
      && Keyed(b.state.current) && Records(b.state.current) == ApplyToSet(Base(a.state, a.locals), a.locals.pending)
      && b.state.sessionID == e.session && b.state.serial == e.serial && b.state.hasSerial
      && (SyncedAt(tables, b.state, e.session, e.serial) <==> Records(b.state.current) == tables(e.session, e.serial))
  {
    hide ApplyToSet;
    EndArrives(a.state, a.locals, a.wire[0]);
    assert [a.wire[0]][1..] == [];
  }

  lemma NotifiedMoves(tables: Tables, a: System, answer: seq<Pdu>)
    requires Running(a)
    requires CorrectAnswer(tables, SerialQuerySent(a.state.sessionID, a.state.serial), answer)
    ensures Moves(tables, a, Notify(0, 0, answer), Notified(a, answer))
  {
  }

  /** An announced record on the wire. */
  predicate Announces(p: Pdu) {
    p.PrefixPdu? && p.announce
  }

  function Adding(p: Pdu): Change
    requires p.PrefixPdu?
  {
    Change(ToVRP(p), true)
  }

  lemma OneChange(p: Pdu, base: set<VRP>)
    requires Announces(p)
    ensures ChangeOf(p) == Changes([p]) == [Adding(p)] && ApplyToSet(base, [Adding(p)]) == base + {ToVRP(p)}
  {
    assert [p][1..] == [];
    assert [Adding(p)][..0] == [];
    assert ApplyToSet(base, []) == base;
  }

  lemma TwoChanges(p: Pdu, q: Pdu)
    requires Announces(p) && Announces(q)
    ensures Changes([p, q]) == [Adding(p), Adding(q)] && ApplyToSet({}, [Adding(p), Adding(q)]) == {ToVRP(p), ToVRP(q)}
  {
    hide Changes, ApplyToSet;
    OneChange(p, {});
    assert {} + {ToVRP(p)} == {ToVRP(p)};
    OneChange(q, {ToVRP(p)});
    assert {ToVRP(p)} + {ToVRP(q)} == {ToVRP(p), ToVRP(q)};
    ApplyConcat({}, [Adding(p)], [Adding(q)]);
    assert [Adding(p)] + [Adding(q)] == [Adding(p), Adding(q)];
    FirstChange(p, [q]);
    assert [p] + [q] == [p, q];
  }

  lemma AnswersWith(tables: Tables, base: set<VRP>, body: seq<Pdu>, session: U16, serial: U32)
    requires IsBody(body) && ApplyToSet(base, Changes(body)) == tables(session, serial)
    ensures IsResponse(tables, base, Response(body, session, serial))
  {
    assert Response(body, session, serial)[1..|body| + 1] == body;
  }

  function Response(body: seq<Pdu>, session: U16, serial: U32): seq<Pdu> {
    [CacheResponse(session)] + body + [EndOfData(session, serial, 0, 0, 0)]
  }

  /** In the middle of a full table: a client connects, is sent two records, is notified between them,
      and is left without the first. */
  lemma NotifyMidTableLosesRecords(p: Pdu, q: Pdu) returns (tables: Tables, run: seq<System>, events: seq<Event>)
    requires Announces(p) && Announces(q) && ToVRP(p) != ToVRP(q)
    ensures IsAnyRun(tables, run, events) && EndsOutOfSync(tables, run, events)
    ensures events == [Connect(Response([p, q], 0, 1)), TAKE, TAKE, Notify(0, 0, [CacheReset]), TAKE, TAKE]
  {
    hide Moves, Step, SyncedAt, ApplyToSet, Changes, Taken, IsResponse, Records, Keyed;
    tables := (session, serial) => if serial == 1 then {ToVRP(p), ToVRP(q)} else {};
    var full := Response([p, q], 0, 1);
    TwoChanges(p, q);
    AnswersWith(tables, {}, [p, q], 0, 1);
    var s1 := Connected(FRESH, full);
    ConnectedMoves(tables, FRESH, full);
    TakesResponse(tables, s1);
    var s2 := Taken(s1);
    TakesRecord(tables, s2);
    var s3 := Taken(s2);
    NotifiedMoves(tables, s3, [CacheReset]);
    var s4 := Notified(s3, [CacheReset]);
    TakesRecord(tables, s4);
    var s5 := Taken(s4);
    OneChange(q, {});
    EmptyTable();
    assert s5.locals.pending == [Adding(q)];
    TakesEnd(tables, s5);
    var s6 := Taken(s5);
    run, events := [FRESH, s1, s2, s3, s4, s5, s6], [Connect(full), TAKE, TAKE, Notify(0, 0, [CacheReset]), TAKE, TAKE];
    assert Records(s6.state.current) == {} + {ToVRP(q)};
    assert ToVRP(p) in tables(0, 1);
  }

  /** In the middle of a delta: a client in sync with an empty table is sent one record more, is notified
      after it, and takes over the new serial without the record. */
  lemma NotifyMidDeltaLosesRecords(p: Pdu) returns (tables: Tables, run: seq<System>, events: seq<Event>)
    requires Announces(p)
    ensures IsAnyRun(tables, run, events) && EndsOutOfSync(tables, run, events)
    ensures events == [Connect(Response([], 0, 1)), TAKE, TAKE, Notify(0, 0, Response([p], 0, 2)), TAKE, TAKE, Notify(0, 0, [CacheReset]), TAKE]
  {
    hide Moves, Step, SyncedAt, ApplyToSet, Changes, Taken, IsResponse, Records, Keyed;
    tables := (session, serial) => if serial == 2 then {ToVRP(p)} else {};
    var full, delta := Response([], 0, 1), Response([p], 0, 2);
    OneChange(p, {});
    NoChange({});
    EmptyTable();
    AnswersWith(tables, {}, [], 0, 1);
    assert {} + {ToVRP(p)} == tables(0, 2);
    AnswersWith(tables, {}, [p], 0, 2);
    var s1 := Connected(FRESH, full);
    ConnectedMoves(tables, FRESH, full);
    TakesResponse(tables, s1);
    var s2 := Taken(s1);
    TakesEnd(tables, s2);
    var s3 := Taken(s2);
    NotifiedMoves(tables, s3, delta);
    var s4 := Notified(s3, delta);
    TakesResponse(tables, s4);
    var s5 := Taken(s4);
    TakesRecord(tables, s5);
    var s6 := Taken(s5);
    NotifiedMoves(tables, s6, [CacheReset]);
    var s7 := Notified(s6, [CacheReset]);
    TakesEnd(tables, s7);
    var s8 := Taken(s7);
    run := [FRESH, s1, s2, s3, s4, s5, s6, s7, s8];
    events := [Connect(full), TAKE, TAKE, Notify(0, 0, delta), TAKE, TAKE, Notify(0, 0, [CacheReset]), TAKE];
    assert ToVRP(p) in tables(0, 2);
  }

  /** And the harm may come with the second answer only: a client reconnects with a table that covers
      what the notification makes it forget, so that the first commit is right, and the delta it then
      gets is from its old serial and does not take back what the first commit added. */
  lemma SecondAnswerGoesWrong(p: Pdu, q: Pdu) returns (tables: Tables, run: seq<System>, events: seq<Event>)
    requires Announces(p) && Announces(q) && ToVRP(p) != ToVRP(q)
    ensures IsAnyRun(tables, run, events) && EndsOutOfSync(tables, run, events)
    ensures |events| == 13 && DeliversEndOfData(run[10], events[10]) && SyncedAt(tables, run[11].state, 1, 7)
  {
    hide Moves, Step, SyncedAt, ApplyToSet, Changes, Taken, IsResponse, Records, Keyed;
    var v, w := ToVRP(p), ToVRP(q);
    tables := (session, serial) => if serial == 7 then {v, w} else {v};
    var first, full, delta := Response([p], 1, 5), Response([p, q], 1, 7), Response([], 1, 8);
    NoChange({v});
    NoChange({v, w});
    AnswersWith(tables, {v}, [], 1, 8);
    var s1, s2, s3, s4 := SyncsWithOne(tables, p, 1, 5);
    var s5 := s4.(connected := false);
    DropMoves(tables, s4);
    var s6, s7, s8, s9, s10, s11 := MissesFirstOfTwo(tables, s5, p, q, delta);
    TakesResponse(tables, s11);
    var s12 := Taken(s11);
    TakesEnd(tables, s12);
    var s13 := Taken(s12);
    run := [FRESH, s1, s2, s3, s4, s5, s6, s7, s8, s9, s10, s11, s12, s13];
    events := [Connect(first), TAKE, TAKE, TAKE, Drop, Connect(full), TAKE, TAKE, Notify(0, 0, delta), TAKE, TAKE, TAKE, TAKE];
    assert w in Records(s13.state.current) && w !in tables(1, 8);
  }

  /** A first connection that brings a table of one record. */
  lemma SyncsWithOne(tables: Tables, p: Pdu, session: U16, serial: U32) returns (s1: System, s2: System, s3: System, s4: System)
    requires Announces(p) && tables(session, serial) == {ToVRP(p)}
    ensures Moves(tables, FRESH, Connect(Response([p], session, serial)), s1)
    ensures Moves(tables, s1, TAKE, s2) && Moves(tables, s2, TAKE, s3) && Moves(tables, s3, TAKE, s4)
    ensures Running(s4) && Keyed(s4.state.current) && Records(s4.state.current) == {ToVRP(p)}
    ensures s4.state.sessionID == session && s4.state.serial == serial
  {
    hide Moves, Step, SyncedAt, ApplyToSet, Changes, Taken, IsResponse, Records, Keyed;
    OneChange(p, {});
    EmptyTable();
    assert {} + {ToVRP(p)} == {ToVRP(p)};
    AnswersWith(tables, {}, [p], session, serial);
    ConnectedMoves(tables, FRESH, Response([p], session, serial));
    s1 := Connected(FRESH, Response([p], session, serial));
    TakesResponse(tables, s1);
    s2 := Taken(s1);
    TakesRecord(tables, s2);
    s3 := Taken(s2);
    assert s3.locals.pending == [Adding(p)];
    TakesEnd(tables, s3);
    s4 := Taken(s3);
  }

  /** A client that has the first of two records reconnects, is sent both, is notified between them, and
      has both all the same. */
  lemma MissesFirstOfTwo(tables: Tables, s5: System, p: Pdu, q: Pdu, delta: seq<Pdu>)
    returns (s6: System, s7: System, s8: System, s9: System, s10: System, s11: System)
    requires Announces(p) && Announces(q) && tables(1, 7) == {ToVRP(p), ToVRP(q)}
    requires !s5.connected && !s5.stopped && Keyed(s5.state.current) && Records(s5.state.current) == {ToVRP(p)}
    requires IsResponse(tables, tables(1, s5.state.serial), delta)
    ensures Moves(tables, s5, Connect(Response([p, q], 1, 7)), s6)
    ensures Moves(tables, s6, TAKE, s7) && Moves(tables, s7, TAKE, s8) && Moves(tables, s8, Notify(0, 0, delta), s9)
    ensures Moves(tables, s9, TAKE, s10) && Moves(tables, s10, TAKE, s11) && DeliversEndOfData(s10, TAKE)
    ensures SyncedAt(tables, s11.state, 1, 7) && Running(s11) && s11.wire == delta && s11.locals == Locals(false, [])
    ensures Keyed(s11.state.current) && Records(s11.state.current) == {ToVRP(p), ToVRP(q)}
  {
    hide Moves, Step, SyncedAt, ApplyToSet, Changes, Taken, IsResponse, Records, Keyed;
    var full := Response([p, q], 1, 7);
    TwoChanges(p, q);
    OneChange(q, {ToVRP(p)});
    assert {ToVRP(p)} + {ToVRP(q)} == {ToVRP(p), ToVRP(q)};
    AnswersWith(tables, {}, [p, q], 1, 7);
    ConnectedMoves(tables, s5, full);
    s6 := Connected(s5, full);
    TakesResponse(tables, s6);
    s7 := Taken(s6);
    TakesRecord(tables, s7);
    s8 := Taken(s7);
    NotifiedMoves(tables, s8, delta);
    s9 := Notified(s8, delta);
    TakesRecord(tables, s9);
    s10 := Taken(s9);
    assert s10.locals.pending == [Adding(q)];
    assert s10.wire[1..] == delta;
    TakesEnd(tables, s10);
    s11 := Taken(s10);
  }

  lemma NoChange(base: set<VRP>)
    ensures Changes([]) == [] && ApplyToSet(base, []) == base
  {
  }

  lemma DropMoves(tables: Tables, a: System)
    ensures Moves(tables, a, Drop, a.(connected := false))
  {
  }

  lemma ConnectedMoves(tables: Tables, a: System, answer: seq<Pdu>)
    requires !a.connected && !a.stopped && IsResponse(tables, {}, answer)
    ensures Moves(tables, a, Connect(answer), Connected(a, answer))
  {
  }

  lemma EmptyTable()
    ensures Keyed(map[]) && Records(map[]) == {}
  {
  }
}

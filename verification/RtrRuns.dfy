/** The runs of client and cache together are runs of the client alone: what the cache and the network
    make of a run is a list of connections, and the imperative client that is given them answers as
    the cache's table says (internal/rtr/client.go 63-187). */
module RtrRuns {
  import opened Bgp
  import opened Prefixes
  import opened Tries
  import opened Rpki
  import opened RtrCodec
  import opened RtrClient
  import opened RtrAgreement

  // ---- Sessions that are still going on ----

  /** These inputs lead from one point of a session to another without ending it; of the writes, `left`
      are left. */
  ghost predicate GoesOn(s: State, l: Locals, inputs: seq<Input>, writes: nat, left: nat, s': State, l': Locals)
    decreases |inputs|
  {
    if |inputs| == 0 then s == s' && l == l' && writes == left
    else
      var r := Step(s, l, inputs[0], writes > 0);
      r.end.None? && GoesOn(r.state, r.locals, inputs[1..], WritesLeft(r, writes), left, s', l')
  }

  /** Whether a write would succeed matters only to a step that writes. */
  lemma WriteUnused(s: State, l: Locals, i: Input)
    requires Step(s, l, i, false).end != Some(WriteFailed)
    ensures Step(s, l, i, true) == Step(s, l, i, false) && Step(s, l, i, true).sent.None?
  {
  }

  /** A step that writes is a step whose write succeeds. */
  lemma WriteUsed(s: State, l: Locals, i: Input, ok: bool)
    requires Step(s, l, i, ok).sent.Some?
    ensures ok && Step(s, l, i, ok).end.None?
  {
  }

  /** One more write to spare changes nothing. */
  lemma {:induction false} SpareWrite(s: State, l: Locals, inputs: seq<Input>, writes: nat, left: nat, s': State, l': Locals)
    requires GoesOn(s, l, inputs, writes, left, s', l')
    ensures GoesOn(s, l, inputs, writes + 1, left + 1, s', l')
    decreases |inputs|
  {
    if |inputs| > 0 {
      hide Step;
      var r := Step(s, l, inputs[0], writes > 0);
      if writes == 0 {
        WriteUnused(s, l, inputs[0]);
      }
      if r.sent.Some? {
        WriteUsed(s, l, inputs[0], writes > 0);
      }
      SpareWrite(r.state, r.locals, inputs[1..], WritesLeft(r, writes), left, s', l');
    }
  }

  /** One more input. */
  lemma {:induction false} GoesOneFurther(s: State, l: Locals, inputs: seq<Input>, writes: nat, left: nat, s': State, l': Locals, i: Input)
    requires GoesOn(s, l, inputs, writes, left, s', l')
    requires Step(s', l', i, left > 0).end.None?
    ensures var r := Step(s', l', i, left > 0);
      GoesOn(s, l, inputs + [i], writes, WritesLeft(r, left), r.state, r.locals)
    decreases |inputs|
  {
    hide Step;
    if |inputs| == 0 {
      assert inputs + [i] == [i] && [i][1..] == [];
    } else {
      var r := Step(s, l, inputs[0], writes > 0);
      assert (inputs + [i])[1..] == inputs[1..] + [i];
      GoesOneFurther(r.state, r.locals, inputs[1..], WritesLeft(r, writes), left, s', l', i);
    }
  }

  /** The rest of a session is what it is from where it has got to. */
  lemma {:induction false} RunsOn(s: State, l: Locals, inputs: seq<Input>, writes: nat, left: nat, s': State, l': Locals,
                                  more: seq<Input>, sent: seq<Query>) returns (sent': seq<Query>)
    requires GoesOn(s, l, inputs, writes, left, s', l')
    ensures RunInputs(s, l, inputs + more, writes, sent) == RunInputs(s', l', more, left, sent')
    decreases |inputs|
  {
    hide Step;
    if |inputs| == 0 {
      sent' := sent;
      assert inputs + more == more;
    } else {
      var r := Step(s, l, inputs[0], writes > 0);
      assert (inputs + more)[1..] == inputs[1..] + more;
      sent' := RunsOn(r.state, r.locals, inputs[1..], WritesLeft(r, writes), left, s', l', more, WithQuery(sent, r.sent));
    }
  }

  // ---- Lists of connections ----

  /** None of these connections ends in a fatal error. */
  ghost predicate KeepsGoing(s: State, cs: seq<Connection>)
    decreases |cs|
  {
    |cs| > 0 ==> RunSession(s, cs[0]).end != Fatal && KeepsGoing(RunSession(s, cs[0]).state, cs[1..])
  }

  lemma {:induction false} OneMoreConnection(s: State, cs: seq<Connection>, c: Connection)
    requires KeepsGoing(s, cs)
    ensures RunAll(s, cs + [c]) == RunSession(RunAll(s, cs), c).state
    ensures KeepsGoing(s, cs + [c]) <==> RunSession(RunAll(s, cs), c).end != Fatal
    decreases |cs|
  {
    hide RunSession;
    if |cs| == 0 {
      assert cs + [c] == [c] && [c][1..] == [];
    } else {
      assert (cs + [c])[1..] == cs[1..] + [c];
      OneMoreConnection(RunSession(s, cs[0]).state, cs[1..], c);
    }
  }

  /** A session cut off where it has got to. */
  lemma CutOff(s: State, inputs: seq<Input>, writes: nat, s': State, l': Locals)
    requires GoesOn(s, Locals(true, []), inputs, writes, 0, s', l')
    ensures var r := RunSession(s, Connection(inputs, writes + 1));
      r.state == s' && r.end == ReadFailed
  {
    hide GoesOn, Step;
    var sent := RunsOn(s, Locals(true, []), inputs, writes, 0, s', l', [], [ResetQuerySent]);
    assert inputs + [] == inputs;
  }

  /** A session that one more input ends. */
  lemma EndedBy(s: State, inputs: seq<Input>, writes: nat, s': State, l': Locals, i: Input, writeOk: bool)
    requires GoesOn(s, Locals(true, []), inputs, writes, 0, s', l')
    requires Step(s', l', i, writeOk).end.Some?
    ensures var r := RunSession(s, Connection(inputs + [i], writes + if writeOk then 2 else 1));
      r.state == Step(s', l', i, writeOk).state && Some(r.end) == Step(s', l', i, writeOk).end
  {
    hide GoesOn, Step;
    var left := if writeOk then 1 else 0;
    if writeOk {
      SpareWrite(s, Locals(true, []), inputs, writes, 0, s', l');
    }
    var sent := RunsOn(s, Locals(true, []), inputs, writes + left, left, s', l', [i], [ResetQuerySent]);
  }

  /** A step of a session that goes on, with just the writes it needs. */
  lemma GoesOnBy(s: State, inputs: seq<Input>, writes: nat, s': State, l': Locals, i: Input, writeOk: bool) returns (writes': nat)
    requires GoesOn(s, Locals(true, []), inputs, writes, 0, s', l')
    requires Step(s', l', i, writeOk).end.None?
    ensures var r := Step(s', l', i, writeOk);
      GoesOn(s, Locals(true, []), inputs + [i], writes', 0, r.state, r.locals)
  {
    hide GoesOn, Step;
    var r := Step(s', l', i, writeOk);
    if r.sent.Some? {
      WriteUsed(s', l', i, writeOk);
      SpareWrite(s, Locals(true, []), inputs, writes, 0, s', l');
      GoesOneFurther(s, Locals(true, []), inputs, writes + 1, 1, s', l', i);
      writes' := writes + 1;
    } else {
      NoWriteNeeded(s', l', i, writeOk);
      GoesOneFurther(s, Locals(true, []), inputs, writes, 0, s', l', i);
      writes' := writes;
    }
  }

  lemma NoWriteNeeded(s: State, l: Locals, i: Input, ok: bool)
    requires Step(s, l, i, ok).end.None? && Step(s, l, i, ok).sent.None?
    ensures Step(s, l, i, false) == Step(s, l, i, ok)
  {
  }

  // ---- Runs as lists of connections ----

  /** What the client reads in a step of a run. */
  function InputOf(a: System, e: Event): Input
    requires (e.Deliver? && |a.wire| > 0) || e.Notify? || e.Expire?
  {
    match e
    case Deliver(_, _) => Received(a.wire[0])
    case Notify(session, serial, _) => Received(SerialNotify(session, serial))
    case Expire(_) => Timeout
  }

  function WriteOk(e: Event): bool {
    e.Deliver? ==> e.writeOk
  }

  /** The connections so far make the client of the run: those that are over, and the one that is still
      open, as far as it has got. */
  ghost predicate MadeBy(start: State, a: System, done: seq<Connection>, inputs: seq<Input>, writes: nat) {
    && (a.connected ==>
          && !a.stopped && KeepsGoing(start, done)
          && GoesOn(RunAll(start, done), Locals(true, []), inputs, writes, 0, a.state, a.locals))
    && (!a.connected ==> RunAll(start, done) == a.state && (!a.stopped ==> KeepsGoing(start, done)))
  }

  lemma TakesStep(tables: Tables, a: System, e: Event, b: System)
    requires Moves(tables, a, e, b) && (e.Deliver? || e.Notify? || e.Expire?)
    ensures a.connected && (e.Deliver? ==> |a.wire| > 0)
    ensures var r := Step(a.state, a.locals, InputOf(a, e), WriteOk(e));
      b.state == r.state && b.locals == r.locals && b.connected == r.end.None? && b.stopped == (r.end == Some(Fatal))
  {
    hide Step, CorrectAnswer;
  }

  lemma StepMadeBy(tables: Tables, start: State, a: System, e: Event, b: System, done: seq<Connection>, inputs: seq<Input>, writes: nat)
    returns (done': seq<Connection>, inputs': seq<Input>, writes': nat)
    requires Moves(tables, a, e, b) && MadeBy(start, a, done, inputs, writes)
    ensures MadeBy(start, b, done', inputs', writes')
  {
    hide Step, GoesOn, KeepsGoing, RunAll, RunSession, CorrectAnswer;
    done', inputs', writes' := done, inputs, writes;
    match e {
      case Connect(answer) =>
        inputs', writes' := [], 0;
        NothingTaken(RunAll(start, done));
      case Drop =>
        if a.connected {
          CutOff(RunAll(start, done), inputs, writes, a.state, a.locals);
          done' := done + [Connection(inputs, writes + 1)];
          OneMoreConnection(start, done, Connection(inputs, writes + 1));
        }
      case _ =>
        TakesStep(tables, a, e, b);
        var i, ok := InputOf(a, e), WriteOk(e);
        if b.connected {
          writes' := GoesOnBy(RunAll(start, done), inputs, writes, a.state, a.locals, i, ok);
          inputs' := inputs + [i];
        } else {
          var c := Connection(inputs + [i], writes + if ok then 2 else 1);
          EndedBy(RunAll(start, done), inputs, writes, a.state, a.locals, i, ok);
          OneMoreConnection(start, done, c);
          done' := done + [c];
        }
    }
  }

  lemma NothingTaken(s: State)
    ensures GoesOn(s, Locals(true, []), [], 0, 0, s, Locals(true, []))
  {
  }

  lemma {:induction false} RunMadeBy(tables: Tables, run: seq<System>, events: seq<Event>, n: nat)
    returns (done: seq<Connection>, inputs: seq<Input>, writes: nat)
    requires IsRun(tables, run, events) && n < |run|
    ensures MadeBy(run[0].state, run[n], done, inputs, writes)
  {
    if n == 0 {
      done, inputs, writes := [], [], 0;
    } else {
      hide MadeBy, Moves;
      done, inputs, writes := RunMadeBy(tables, run, events, n - 1);
      done, inputs, writes := StepMadeBy(tables, run[0].state, run[n - 1], events[n - 1], run[n], done, inputs, writes);
    }
  }

  /** Main result: every point of every run is one the client alone reaches on some list of connections. */
  lemma RunIsClients(tables: Tables, run: seq<System>, events: seq<Event>, n: nat) returns (cs: seq<Connection>)
    requires IsRun(tables, run, events) && n < |run|
    ensures RunAll(run[0].state, cs) == run[n].state
  {
    hide GoesOn, KeepsGoing, RunAll, RunSession, IsRun;
    var inputs, writes;
    cs, inputs, writes := RunMadeBy(tables, run, events, n);
    if run[n].connected {
      CutOff(RunAll(run[0].state, cs), inputs, writes, run[n].state, run[n].locals);
      OneMoreConnection(run[0].state, cs, Connection(inputs, writes + 1));
      cs := cs + [Connection(inputs, writes + 1)];
    }
  }

  /** Main result: the imperative client, run on the connections of a run up to an End Of Data, then
      validates exactly as the in-range records of the cache's table of that version. */
  method ValidateAfterRun(c: Client, ghost tables: Tables, ghost run: seq<System>, ghost events: seq<Event>, ghost n: nat,
                          conns: seq<Connection>, prefix: Prefix, origin: Asn) returns (v: Validation)
    requires c.Valid()
    requires IsRun(tables, run, events) && n < |events| && DeliversEndOfData(run[n], events[n])
    requires c.Abs() == run[0].state && RunAll(c.Abs(), conns) == run[n + 1].state
    modifies c, c.live
    ensures c.Valid() && c.Abs() == run[n + 1].state
    ensures var table := tables(run[n].wire[0].session, run[n].wire[0].serial);
      && Records(c.current) == table
      && (v.IndexPanic? <==> Panics(InRange(table), prefix))
      && (v.Answered? ==> Answers(v.result, InRange(table), prefix, origin))
      && (!Is4In6(prefix) ==> v.Answered? && v.result.status == RovStatus(InRange(table), prefix, origin))
  {
    hide IsRun, InRange, Records, RunAll, Answers, Panics, RovStatus, Is4In6, IsTrie, Contents;
    AgreementOverRuns(tables, run, events, n);
    c.Run(conns);
    v := c.live.Validate(prefix, origin);
  }

  // ---- Atomicity over connections ----

  /** The table as of the last End Of Data of a session, `last` if there is none. */
  function CommittedIn(s: State, l: Locals, inputs: seq<Input>, writes: nat, last: Option<Table>): Option<Table>
    decreases |inputs|
  {
    if |inputs| == 0 then last
    else
      var r := Step(s, l, inputs[0], writes > 0);
      var now := if IsEndOfData(inputs[0]) then Some(r.state.current) else last;
      if r.end.Some? then now else CommittedIn(r.state, r.locals, inputs[1..], WritesLeft(r, writes), now)
  }

  /** The table as of the last End Of Data of a list of connections. */
  function CommittedOver(s: State, cs: seq<Connection>, last: Option<Table>): Option<Table>
    decreases |cs|
  {
    if |cs| == 0 then last
    else
      var c := cs[0];
      var now := if c.Connection? && c.writes > 0 then CommittedIn(s, Locals(true, []), c.inputs, c.writes - 1, last) else last;
      var r := RunSession(s, c);
      if r.end == Fatal then now else CommittedOver(r.state, cs[1..], now)
  }

  function LiveOf(initial: set<VRP>, last: Option<Table>): set<VRP> {
    if last.Some? then InRange(Records(last.value)) else initial
  }

  lemma {:induction false} AtomicInSession(s: State, l: Locals, inputs: seq<Input>, writes: nat, sent: seq<Query>, initial: set<VRP>, last: Option<Table>)
    requires s.live == LiveOf(initial, last)
    ensures RunInputs(s, l, inputs, writes, sent).state.live == LiveOf(initial, CommittedIn(s, l, inputs, writes, last))
    decreases |inputs|
  {
    if |inputs| > 0 {
      hide Step, InRange, Records, IsEndOfData;
      var r := Step(s, l, inputs[0], writes > 0);
      LiveChangesOnlyAtEndOfData(s, l, inputs[0], writes > 0);
      var now := if IsEndOfData(inputs[0]) then Some(r.state.current) else last;
      if r.end.None? {
        AtomicInSession(r.state, r.locals, inputs[1..], WritesLeft(r, writes), WithQuery(sent, r.sent), initial, now);
      }
    }
  }

  /** Main result: over any connections whatsoever the live store is the in-range part of the table as of
      the last End Of Data, of whichever connection it was. */
  lemma {:induction false} AtomicOverConnections(s: State, cs: seq<Connection>, initial: set<VRP>, last: Option<Table>)
    requires s.live == LiveOf(initial, last)
    ensures RunAll(s, cs).live == LiveOf(initial, CommittedOver(s, cs, last))
    decreases |cs|
  {
    if |cs| > 0 {
      hide RunInputs, CommittedIn, LiveOf;
      var c := cs[0];
      var now := last;
      if c.Connection? && c.writes > 0 {
        AtomicInSession(s, Locals(true, []), c.inputs, c.writes - 1, [ResetQuerySent], initial, last);
        now := CommittedIn(s, Locals(true, []), c.inputs, c.writes - 1, last);
      }
      if RunSession(s, c).end != Fatal {
        AtomicOverConnections(RunSession(s, c).state, cs[1..], initial, now);
      }
    }
  }
}

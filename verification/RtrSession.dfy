/** How a session of the RTR client ends, what it asks and when it is the last one
    (internal/rtr/client.go 63-162), by the PDUs and their code points. */
module RtrSession {
  import opened Bgp
  import opened Rpki
  import opened RtrCodec
  import opened RtrClient

  /** An error report of code 4: the cache does not speak this protocol version (RFC 8210 section 12). */
  predicate IsVersionError(i: Input) {
    i.Received? && i.pdu.ErrorReport? && i.pdu.code == 4
  }

  /** An input that makes the client write: a notification or the timer of a client with a serial, which
      ask for a delta, or a Cache Reset, which asks for the full table. */
  predicate MakesQuery(s: State, i: Input) {
    match i
    case Received(p) => p.SerialNotify? || p.CacheReset?
    case Timeout => s.hasSerial
    case ReadFailure => false
  }

  /** How one input ends a session, if it does. */
  lemma EndsWhen(s: State, l: Locals, i: Input, writeOk: bool)
    ensures var end := Step(s, l, i, writeOk).end;
      && (end == Some(Fatal) <==> IsVersionError(i))
      && (forall code :: end == Some(CacheError(code)) <==> i.Received? && i.pdu.ErrorReport? && i.pdu.code == code && code != 4)
      && (end == Some(ReadFailed) <==> i == ReadFailure || (i == Timeout && !s.hasSerial))
      && (end == Some(WriteFailed) <==> MakesQuery(s, i) && !writeOk)
      && end != Some(DialFailed)
  {
  }

  /** What one input makes the client ask. */
  lemma AsksWhen(s: State, l: Locals, i: Input, writeOk: bool)
    ensures var r := Step(s, l, i, writeOk);
      && (r.sent.Some? <==> MakesQuery(s, i) && writeOk)
      && (r.sent.Some? ==> r.sent.value == if i == Received(CacheReset) then ResetQuerySent else SerialQuerySent(s.sessionID, s.serial))
      && (r.sent.Some? ==> r.locals == Locals(i == Received(CacheReset), []))
  {
  }

  /** What one input changes of the client itself. */
  lemma ChangesWhen(s: State, l: Locals, i: Input, writeOk: bool)
    ensures var t := Step(s, l, i, writeOk).state;
      && (t.sessionID == if i.Received? && (i.pdu.CacheResponse? || i.pdu.EndOfData?) then i.pdu.session else s.sessionID)
      && (t.serial == if i.Received? && i.pdu.EndOfData? then i.pdu.serial else s.serial)
      && (t.hasSerial <==> s.hasSerial || (i.Received? && i.pdu.EndOfData?))
      && (t.refresh == if i.Received? && i.pdu.EndOfData? && i.pdu.refresh > 0 then i.pdu.refresh else s.refresh)
      && (t.current != s.current ==> i.Received? && (i.pdu.EndOfData? || i.pdu.CacheReset?))
      && (i == Received(CacheReset) ==> t.current == map[])
  {
  }

  /** The number of inputs a session reads before the one that ends it; all of them if none does. */
  function Survived(s: State, l: Locals, inputs: seq<Input>, writes: nat): (n: nat)
    ensures n <= |inputs|
    decreases |inputs|
  {
    if |inputs| == 0 then 0
    else
      var r := Step(s, l, inputs[0], writes > 0);
      if r.end.Some? then 0 else 1 + Survived(r.state, r.locals, inputs[1..], WritesLeft(r, writes))
  }

  /** A session on a connection ends with a version error. */
  predicate MeetsVersionError(s: State, c: Connection) {
    && c.Connection? && c.writes > 0
    && var n := Survived(s, Locals(true, []), c.inputs, c.writes - 1);
      n < |c.inputs| && IsVersionError(c.inputs[n])
  }

  lemma {:induction false} InputsEndFatal(s: State, l: Locals, inputs: seq<Input>, writes: nat, sent: seq<Query>)
    ensures var n := Survived(s, l, inputs, writes);
      RunInputs(s, l, inputs, writes, sent).end == Fatal <==> n < |inputs| && IsVersionError(inputs[n])
    decreases |inputs|
  {
    if |inputs| > 0 {
      hide Step, IsVersionError;
      EndsWhen(s, l, inputs[0], writes > 0);
      var r := Step(s, l, inputs[0], writes > 0);
      if r.end.None? {
        InputsEndFatal(r.state, r.locals, inputs[1..], WritesLeft(r, writes), WithQuery(sent, r.sent));
      }
    }
  }

  /** Main result: a session ends for good if and only if the input that ends it is an error report of
      code 4; no other error report, failed read, failed write or failed dial does. */
  lemma SessionEndsFatal(s: State, c: Connection)
    ensures RunSession(s, c).end == Fatal <==> MeetsVersionError(s, c)
  {
    hide Step, IsVersionError, Survived, RunInputs;
    if c.Connection? && c.writes > 0 {
      InputsEndFatal(s, Locals(true, []), c.inputs, c.writes - 1, [ResetQuerySent]);
    }
  }

  /** Main result: the client gives up after a connection exactly when it met a version error, and goes on
      with the next one, from the state it has got to, after any other end. */
  lemma GivesUpExactlyWhen(s: State, c: Connection, cs: seq<Connection>)
    ensures RunAll(s, [c] + cs) == if MeetsVersionError(s, c) then RunSession(s, c).state else RunAll(RunSession(s, c).state, cs)
  {
    hide RunSession, MeetsVersionError;
    SessionEndsFatal(s, c);
    assert ([c] + cs)[0] == c && ([c] + cs)[1..] == cs;
  }

  /** A cache that has no data yet and is asked again later delivers: an error report of another code costs
      the client nothing but the connection. */
  lemma OtherErrorsAreRetried(s: State, code: U16, text: seq<Byte>, writes: nat, cs: seq<Connection>)
    requires code != 4
    ensures RunAll(s, [Connection([Received(ErrorReport(code, text))], writes)] + cs) == RunAll(s, cs)
  {
    var c := Connection([Received(ErrorReport(code, text))], writes);
    GivesUpExactlyWhen(s, c, cs);
  }
}

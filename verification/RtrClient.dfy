/** The router side of RFC 8210 (internal/rtr/client.go) and the validator it feeds
    (internal/rpki/live.go). The imperative client is proved against a step function on
    values; what it does with any connection is then proved about that function. */
module RtrClient {
  import opened Bgp
  import opened Prefixes
  import opened Tries
  import opened Rpki
  import opened RtrCodec

  const DEFAULT_REFRESH: nat := 3600

  /** The text key of a VRP, as the tuple it prints. */
  datatype VrpKey = VrpKey(prefix: Prefix, maxLength: Byte, originAS: Asn)

  function KeyOfVrp(v: VRP): VrpKey {
    VrpKey(v.prefix, v.maxLength, v.originAS)
  }

  type Table = map<VrpKey, VRP>

  predicate Keyed(t: Table) {
    forall k :: k in t ==> KeyOfVrp(t[k]) == k
  }

  function Records(t: Table): set<VRP> {
    set k | k in t :: t[k]
  }

  datatype Change = Change(vrp: VRP, announce: bool)

  /** What one read from the connection yields. */
  datatype Input = Received(pdu: Pdu) | Timeout | ReadFailure

  datatype Query = ResetQuerySent | SerialQuerySent(session: U16, serial: U32)

  datatype SessionEnd =
    | DialFailed
    | WriteFailed
    | ReadFailed
    | CacheError(code: U16)
    | Fatal

  // ---- The session as a function of its inputs ----

  /** The fields of the client and the VRPs of its live store. */
  datatype State = State(
    sessionID: U16,
    serial: U32,
    hasSerial: bool,
    refresh: nat,
    current: Table,
    live: set<VRP>)

  /** The variables of one session: whether a full table is awaited, and the changes received. */
  datatype Locals = Locals(fullSync: bool, pending: seq<Change>)

  datatype Turn = Turn(state: State, locals: Locals, sent: Option<Query>, end: Option<SessionEnd>)

  function ToVRP(p: Pdu): VRP
    requires p.PrefixPdu?
  {
    VRP(p.prefix, p.maxLen, p.asn)
  }

  function ApplyChange(t: Table, ch: Change): Table {
    var k := KeyOfVrp(ch.vrp);
    if ch.announce then t[k := ch.vrp] else t - {k}
  }

  function ApplyChanges(t: Table, changes: seq<Change>): Table {
    if |changes| == 0 then t
    else ApplyChange(ApplyChanges(t, changes[..|changes| - 1]), Last(changes))
  }

  /** The table after a commit. */
  function Committed(t: Table, fullSync: bool, changes: seq<Change>): Table {
    ApplyChanges(if fullSync then map[] else t, changes)
  }

  /** A query, and what the client forgets or awaits once it is written. */
  function Ask(s: State, l: Locals, q: Query, fullSync: bool, writeOk: bool): Turn {
    if writeOk then Turn(s, Locals(fullSync, []), Some(q), None)
    else Turn(s, l, None, Some(WriteFailed))
  }

  /** The state after a commit at End Of Data. */
  function AtEndOfData(s: State, l: Locals, session: U16, serial: U32, refresh: U32): State {
    var t := Committed(s.current, l.fullSync, l.pending);
    State(session, serial, true, if refresh > 0 then refresh else s.refresh, t, InRange(Records(t)))
  }

  /** One turn of the session loop. */
  function Step(s: State, l: Locals, i: Input, writeOk: bool): Turn {
    match i
    case ReadFailure => Turn(s, l, None, Some(ReadFailed))
    case Timeout =>
      if s.hasSerial then Ask(s, l, SerialQuerySent(s.sessionID, s.serial), false, writeOk)
      else Turn(s, l, None, Some(ReadFailed))
    case Received(p) =>
      match p
      case CacheResponse(session) => Turn(s.(sessionID := session), l.(pending := []), None, None)
      case PrefixPdu(announce, _, _, _) => Turn(s, l.(pending := l.pending + [Change(ToVRP(p), announce)]), None, None)
      case EndOfData(session, serial, refresh, _, _) =>
        Turn(AtEndOfData(s, l, session, serial, refresh), Locals(false, []), None, None)
      case SerialNotify(_, _) => Ask(s, l, SerialQuerySent(s.sessionID, s.serial), false, writeOk)
      case CacheReset => Ask(s.(current := map[]), l, ResetQuerySent, true, writeOk)
      case ErrorReport(code, _) => Turn(s, l, None, Some(if code == UNSUPPORTED_PROTOCOL_VERSION then Fatal else CacheError(code)))
      case ResetQuery => Turn(s, l, None, None)
      case SerialQuery(_, _) => Turn(s, l, None, None)
      case RouterKey => Turn(s, l, None, None)
  }

  /** A connection: the dial fails, or its reads yield `inputs` and its first `writes` writes succeed. */
  datatype Connection = NoConnection | Connection(inputs: seq<Input>, writes: nat)

  datatype SessionResult = SessionResult(state: State, sent: seq<Query>, end: SessionEnd)

  function WithQuery(sent: seq<Query>, q: Option<Query>): seq<Query> {
    if q.Some? then sent + [q.value] else sent
  }

  /** The writes that still succeed after a turn. */
  function WritesLeft(r: Turn, writes: nat): nat {
    if r.sent.Some? && writes > 0 then writes - 1 else writes
  }

  /** The session loop on the rest of a connection. */
  function RunInputs(s: State, l: Locals, inputs: seq<Input>, writes: nat, sent: seq<Query>): SessionResult
    decreases |inputs|
  {
    if |inputs| == 0 then SessionResult(s, sent, ReadFailed)
    else
      var r := Step(s, l, inputs[0], writes > 0);
      if r.end.Some? then SessionResult(r.state, sent, r.end.value)
      else RunInputs(r.state, r.locals, inputs[1..], WritesLeft(r, writes), WithQuery(sent, r.sent))
  }

  /** A whole session: dial, Reset Query, loop. */
  function RunSession(s: State, c: Connection): SessionResult {
    match c
    case NoConnection => SessionResult(s, [], DialFailed)
    case Connection(inputs, writes) =>
      if writes == 0 then SessionResult(s, [], WriteFailed)
      else RunInputs(s, Locals(true, []), inputs, writes - 1, [ResetQuerySent])
  }

  /** The reconnect loop over a list of connections; only a fatal error ends it early. */
  function RunAll(s: State, cs: seq<Connection>): State
    decreases |cs|
  {
    if |cs| == 0 then s
    else
      var r := RunSession(s, cs[0]);
      if r.end == Fatal then r.state else RunAll(r.state, cs[1..])
  }

  // ---- The imperative client ----

  /** The swappable validator. */
  class Live {
    var store: VRPStore

    constructor (initial: VRPStore)
      ensures store == initial
    {
      store := initial;
    }

    ghost predicate Valid()
      reads this, store.repr
    {
      store.Valid()
    }

    method Validate(prefix: Prefix, origin: Asn) returns (r: Validation)
      requires Valid()
      ensures r.IndexPanic? <==> Panics(store.vrps, prefix)
      ensures r.Answered? ==> Answers(r.result, store.vrps, prefix, origin)
      ensures !Is4In6(prefix) ==> r.Answered? && r.result.status == RovStatus(store.vrps, prefix, origin)
    {
      hide Answers, Panics, RovStatus, Is4In6, IsTrie, Contents;
      r := store.Validate(prefix, origin);
    }

    /** Swaps in a new store; null is ignored. */
    method Replace(s: VRPStore?)
      modifies this
      ensures store == if s == null then old(store) else s
    {
      if s != null {
        store := s;
      }
    }
  }

  class Client {
    const live: Live
    var refresh: nat
    var sessionID: U16
    var serial: U32
    var hasSerial: bool
    var current: Table

    ghost predicate Valid()
      reads this, live, live.store.repr
    {
      live.Valid()
    }

    constructor (live: Live)
      requires live.Valid()
      ensures Valid() && this.live == live
      ensures Abs() == State(0, 0, false, 3600, map[], live.store.vrps)
    {
      this.live := live;
      refresh, sessionID, serial, hasSerial, current := DEFAULT_REFRESH, 0, 0, false, map[];
    }

    ghost function Abs(): State
      reads this, live
    {
      State(sessionID, serial, hasSerial, refresh, current, live.store.vrps)
    }

    /** Applies the accumulated changes and swaps in a freshly built store. Whatever order the
        table is walked in, the store holds the acceptable records of the table; the store it
        replaces is not touched and stays valid for whoever still reads it. */
    method Commit(fullSync: bool, changes: seq<Change>)
      requires Valid()
      modifies this`current, live
      ensures Valid() && fresh(live.store) && fresh(live.store.repr)
      ensures current == Committed(old(current), fullSync, changes)
      ensures live.store.vrps == InRange(Records(current))
      ensures old(live.store).Valid()
    {
      hide IsTrie, Contents, Rooted, InRange, Records;
      if fullSync {
        current := map[];
      }
      ghost var base := current;
      for i := 0 to |changes|
        invariant current == ApplyChanges(base, changes[..i])
        invariant unchanged(live)
      {
        assert changes[..i + 1][..i] == changes[..i];
        var k := KeyOfVrp(changes[i].vrp);
        if changes[i].announce {
          current := current[k := changes[i].vrp];
        } else {
          current := current - {k};
        }
      }
      assert changes[..|changes|] == changes;
      var s := BuildStore(current);
      live.Replace(s);
    }

    /** End Of Data: commit, and take over the new serial and timer. */
    method Finish(fullSync: bool, pending: seq<Change>, session: U16, newSerial: U32, newRefresh: U32)
      requires Valid()
      modifies this, live
      ensures Valid()
      ensures Abs() == AtEndOfData(old(Abs()), Locals(fullSync, pending), session, newSerial, newRefresh)
    {
      hide IsTrie, Contents, Rooted, Committed, InRange, Records;
      Commit(fullSync, pending);
      sessionID, serial, hasSerial := session, newSerial, true;
      if newRefresh > 0 {
        refresh := newRefresh;
      }
    }

    /** What the session loop does with one input. */
    method Handle(i: Input, writeOk: bool, fullSync: bool, pending: seq<Change>)
      returns (fullSync': bool, pending': seq<Change>, sent: Option<Query>, end: Option<SessionEnd>)
      requires Valid()
      modifies this, live
      ensures Valid()
      ensures Turn(Abs(), Locals(fullSync', pending'), sent, end) == Step(old(Abs()), Locals(fullSync, pending), i, writeOk)
    {
      hide IsTrie, Contents, Rooted, AtEndOfData;
      fullSync', pending', sent, end := fullSync, pending, None, None;
      match i {
        case ReadFailure =>
          end := Some(ReadFailed);
        case Timeout =>
          if !hasSerial {
            end := Some(ReadFailed);
          } else if !writeOk {
            end := Some(WriteFailed);
          } else {
            sent := Some(SerialQuerySent(sessionID, serial));
            fullSync', pending' := false, [];
          }
        case Received(p) =>
          match p {
            case CacheResponse(session) =>
              sessionID := session;
              pending' := [];
            case PrefixPdu(announce, _, _, _) =>
              pending' := pending + [Change(ToVRP(p), announce)];
            case EndOfData(session, newSerial, newRefresh, _, _) =>
              Finish(fullSync, pending, session, newSerial, newRefresh);
              fullSync', pending' := false, [];
            case SerialNotify(_, _) =>
              if !writeOk {
                end := Some(WriteFailed);
              } else {
                sent := Some(SerialQuerySent(sessionID, serial));
                fullSync', pending' := false, [];
              }
            case CacheReset =>
              current := map[];
              if !writeOk {
                end := Some(WriteFailed);
              } else {
                sent := Some(ResetQuerySent);
                fullSync', pending' := true, [];
              }
            case ErrorReport(code, _) =>
              end := Some(if code == UNSUPPORTED_PROTOCOL_VERSION then Fatal else CacheError(code));
            case ResetQuery =>
            case SerialQuery(_, _) =>
            case RouterKey =>
          }
      }
    }

    /** A session on one connection. */
    method Session(conn: Connection) returns (sent: seq<Query>, end: SessionEnd)
      requires Valid()
      modifies this, live
      ensures Valid()
      ensures SessionResult(Abs(), sent, end) == RunSession(old(Abs()), conn)
    {
      hide Step;
      if conn == NoConnection {
        return [], DialFailed;
      }
      if conn.writes == 0 {
        return [], WriteFailed;
      }
      var writes := conn.writes - 1;
      sent := [ResetQuerySent];
      var fullSync, pending := true, [];
      ghost var start := Abs();
      for n := 0 to |conn.inputs|
        invariant Valid() && writes >= 0
        invariant RunSession(start, conn) == RunInputs(Abs(), Locals(fullSync, pending), conn.inputs[n..], writes, sent)
      {
        assert conn.inputs[n..][1..] == conn.inputs[n + 1..];
        var query, stop;
        fullSync, pending, query, stop := Handle(conn.inputs[n], writes > 0, fullSync, pending);
        if stop.Some? {
          return sent, stop.value;
        }
        if query.Some? {
          sent := sent + [query.value];
          writes := if writes > 0 then writes - 1 else writes;
        }
      }
      end := ReadFailed;
    }

    /** Reconnects until a fatal error or until the connections run out. */
    method Run(conns: seq<Connection>)
      requires Valid()
      modifies this, live
      ensures Valid()
      ensures Abs() == RunAll(old(Abs()), conns)
    {
      hide RunSession;
      ghost var start := Abs();
      for n := 0 to |conns|
        invariant Valid()
        invariant RunAll(start, conns) == RunAll(Abs(), conns[n..])
      {
        assert conns[n..][1..] == conns[n + 1..];
        var sent, end := Session(conns[n]);
        if end == Fatal {
          return;
        }
      }
    }
  }

  /** The records whose keys have been walked. */
  ghost function Walked(t: Table, todo: set<VrpKey>): set<VRP> {
    set k | k in t && k !in todo :: t[k]
  }

  lemma WalkStarts(t: Table)
    ensures InRange(Walked(t, t.Keys)) == {}
    ensures Walked(t, {}) == Records(t)
  {
  }

  lemma WalkStep(t: Table, todo: set<VrpKey>, k: VrpKey)
    requires k in todo && k in t
    ensures InRange(Walked(t, todo - {k})) == InRange(Walked(t, todo)) + InRange({t[k]})
  {
    assert Walked(t, todo - {k}) == Walked(t, todo) + {t[k]};
  }

  /** The second loop of commit: a fresh store of the records, added in any order. */
  method BuildStore(t: Table) returns (s: VRPStore)
    ensures fresh(s) && fresh(s.repr) && s.Valid()
    ensures s.vrps == InRange(Records(t))
  {
    hide *;
    var b := new Builder();
    var todo := t.Keys;
    WalkStarts(t);
    while todo != {}
      invariant b.Valid() && fresh(b) && fresh(b.repr)
      invariant todo <= t.Keys
      invariant b.seen == InRange(Walked(t, todo))
    {
      var k :| k in todo;
      WalkStep(t, todo, k);
      var err := b.Add(t[k]);
      todo := todo - {k};
    }
    s := b.Build();
  }
}

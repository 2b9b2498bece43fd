/** The acceptor: one connection from a frontend server that carries many
    sessions. It translates between the frontend's session ids (sid) and the
    backend sessions it creates, and addresses pushes and responses back to the
    frontend by sid. */
module Bridge {
  import opened Common

  /** The acceptor's three tables: backend id -> session, frontend sid -> backend
      id, backend id -> frontend sid. */
  datatype Tables = Tables(sessions: map<int, Session>, f2b: map<int, int>, b2f: map<int, int>)

  /** The table invariant of an acceptor whose id is owner: every session is keyed
      by its own positive id and owned by the acceptor, the reverse table has
      exactly the session keys, and the two id tables are inverse to each other. */
  ghost predicate TablesValid(t: Tables, owner: int)
  {
    && t.b2f.Keys == t.sessions.Keys
    && (forall b :: b in t.sessions ==> b > 0 && t.sessions[b] == Session(b, owner))
    && (forall k :: k in t.f2b ==> t.f2b[k] in t.b2f && t.b2f[t.f2b[k]] == k)
    && (forall b :: b in t.b2f ==> t.b2f[b] in t.f2b && t.f2b[t.b2f[b]] == b)
  }

  /** The session Session(sid) returns and the tables it leaves. */
  datatype Resolution = Resolution(session: Session, tables: Tables)

  /** Session(sid) on tables t of acceptor owner, where newId is the id the
      session subsystem hands out if a session is created. */
  function Resolve(t: Tables, owner: int, sid: int, newId: int): (r: Resolution)
    requires TablesValid(t, owner)
    requires newId > 0 && newId !in t.sessions
    // the invariant is kept
    ensures TablesValid(r.tables, owner)
    // the returned session is the one all three tables now associate with sid
    ensures sid in r.tables.f2b && r.tables.f2b[sid] == r.session.id
    ensures r.session.id in r.tables.sessions && r.tables.sessions[r.session.id] == r.session
    ensures r.tables.b2f[r.session.id] == sid
    // a known sid returns its session and changes no table
    ensures sid in t.f2b ==> r.tables == t && r.session == t.sessions[t.f2b[sid]]
    // an unseen sid creates one session with the new id and adds exactly one entry per table
    ensures sid !in t.f2b ==>
              && r.session == Session(newId, owner)
              && r.tables.sessions == t.sessions[newId := r.session]
              && r.tables.f2b == t.f2b[sid := newId]
              && r.tables.b2f == t.b2f[newId := sid]
  {
    if sid in t.f2b && t.f2b[sid] > 0 then
      Resolution(t.sessions[t.f2b[sid]], t)
    else
      var s := Session(newId, owner);
      Resolution(s, Tables(t.sessions[newId := s], t.f2b[sid := newId], t.b2f[newId := sid]))
  }

  /** Resolving the same sid again returns the same session and changes nothing,
      whatever id the session subsystem would hand out the second time. */
  lemma ResolveIdempotent(t: Tables, owner: int, sid: int, newId: int, laterId: int)
    requires TablesValid(t, owner)
    requires newId > 0 && newId !in t.sessions
    requires laterId > 0 && laterId !in Resolve(t, owner, sid, newId).tables.sessions
    ensures Resolve(Resolve(t, owner, sid, newId).tables, owner, sid, laterId) == Resolve(t, owner, sid, newId)
  {
  }

  /** Different sids are never given the same session. */
  lemma ResolveSeparates(t: Tables, owner: int, sid1: int, sid2: int, id1: int, id2: int)
    requires TablesValid(t, owner) && sid1 != sid2
    requires id1 > 0 && id1 !in t.sessions
    requires id2 > 0 && id2 !in Resolve(t, owner, sid1, id1).tables.sessions
    ensures Resolve(Resolve(t, owner, sid1, id1).tables, owner, sid2, id2).session
            != Resolve(t, owner, sid1, id1).session
  {
  }

  /** Push and Response of an acceptor whose socket is socket: serialise, find the
      acceptor registered under the session's owner, translate the session id
      through that acceptor's reverse table, and write one frame on socket. The
      registry lookup yields the reverse table of the acceptor it finds. */
  function Deliver<V>(socket: int, kind: Kind, route: string, session: Session, v: V,
                      serialize: V -> Result<Bytes, Fault>,
                      lookup: int -> Result<map<int, int>, Fault>,
                      write: (int, Frame) -> Option<Fault>): (o: Outcome<()>)
    // serialisation comes first
    ensures |o.trace| >= 1 && o.trace[0] == Serialize
    // a serialisation failure: its error, before any registry lookup, nothing written
    ensures serialize(v).Err? ==>
              o.result == Err(Passed(serialize(v).error)) && !LooksUp(o.trace) && Writes(o.trace) == []
    // otherwise the registry is asked for the session's owner
    ensures serialize(v).Ok? ==> |o.trace| >= 2 && o.trace[1] == LookupAcceptor(session.entity)
    // a failed lookup: its error, nothing written
    ensures serialize(v).Ok? && lookup(session.entity).Err? ==>
              o.result == Err(Passed(lookup(session.entity).error)) && Writes(o.trace) == []
    // the found acceptor does not know the session: ErrSidNotExists, nothing written
    ensures serialize(v).Ok? && lookup(session.entity).Ok? && session.id !in lookup(session.entity).value ==>
              o.result == Err(ErrSidNotExists) && Writes(o.trace) == []
    // otherwise exactly one frame, on this socket, addressed by the found acceptor's sid;
    // the writer's status is the result
    ensures serialize(v).Ok? && lookup(session.entity).Ok? && session.id in lookup(session.entity).value ==>
              var frame := Frame(route, kind, serialize(v).value, lookup(session.entity).value[session.id]);
              Writes(o.trace) == [WriteFrame(socket, frame)] && o.result == FromStatus(write(socket, frame))
  {
    match serialize(v)
    case Err(f) => Outcome(Err(Passed(f)), [Serialize])
    case Ok(data) =>
      match lookup(session.entity)
      case Err(f) => Outcome(Err(Passed(f)), [Serialize, LookupAcceptor(session.entity)])
      case Ok(b2f) =>
        if session.id !in b2f then
          Outcome(Err(ErrSidNotExists), [Serialize, LookupAcceptor(session.entity)])
        else
          var frame := Frame(route, kind, data, b2f[session.id]);
          var trace := [Serialize, LookupAcceptor(session.entity), WriteFrame(socket, frame)];
          WritesAppend([Serialize, LookupAcceptor(session.entity)], [WriteFrame(socket, frame)]);
          Outcome(FromStatus(write(socket, frame)), trace)
  }

  /** A session handed out by Session(sid) is addressed back to sid: with the
      registry returning the acceptor itself, a push or response to it writes one
      frame carrying the original frontend sid. */
  lemma ResolveThenDeliver<V>(t: Tables, owner: int, sid: int, newId: int,
                              kind: Kind, route: string, v: V,
                              serialize: V -> Result<Bytes, Fault>,
                              lookup: int -> Result<map<int, int>, Fault>,
                              write: (int, Frame) -> Option<Fault>)
    requires TablesValid(t, owner)
    requires newId > 0 && newId !in t.sessions
    requires lookup(owner) == Ok(Resolve(t, owner, sid, newId).tables.b2f)
    requires serialize(v).Ok?
    ensures Writes(Deliver(owner, kind, route, Resolve(t, owner, sid, newId).session, v,
                           serialize, lookup, write).trace)
            == [WriteFrame(owner, Frame(route, kind, serialize(v).value, sid))]
  {
  }

  /** The closeSession calls for the sessions of m, visited in the given order. */
  function CloseEvents(m: map<int, Session>, order: seq<int>): (t: seq<Event>)
    requires forall i :: 0 <= i < |order| ==> order[i] in m
    ensures |t| == |order|
    ensures forall i :: 0 <= i < |order| ==> t[i] == CloseSession(m[order[i]])
  {
    if order == [] then [] else [CloseSession(m[order[0]])] + CloseEvents(m, order[1..])
  }

  /** Every session of m is keyed by its own id. */
  ghost predicate KeyedById(m: map<int, Session>)
  {
    forall b :: b in m ==> m[b].id == b
  }

  lemma {:induction false} CloseOccurrences(m: map<int, Session>, order: seq<int>, b: int)
    requires Distinct(order) && (forall i :: 0 <= i < |order| ==> order[i] in m)
    requires KeyedById(m) && b in m
    ensures Occurrences(CloseEvents(m, order), CloseSession(m[b])) == if b in order then 1 else 0
  {
    if order != [] {
      var rest := CloseEvents(m, order[1..]);
      assert CloseEvents(m, order) == [CloseSession(m[order[0]])] + rest;
      OccurrencesAppend([CloseSession(m[order[0]])], rest, CloseSession(m[b]));
      assert Distinct(order[1..]);
      CloseOccurrences(m, order[1..], b);
      if order[0] == b {
        assert b !in order[1..];
      } else {
        assert m[order[0]] != m[b];
        assert b in order <==> b in order[1..];
      }
    }
  }

  /** Closing visits every session exactly once: one closeSession per session, and
      no other call. */
  lemma {:induction false} CloseEachOnce(m: map<int, Session>, order: seq<int>)
    requires Enumerates(order, m.Keys) && KeyedById(m)
    ensures |CloseEvents(m, order)| == |m|
    ensures forall b :: b in m ==> Occurrences(CloseEvents(m, order), CloseSession(m[b])) == 1
    ensures forall e :: e in CloseEvents(m, order) ==> e.CloseSession? && e.session in m.Values
  {
    EnumerationLength(order, m.Keys);
    assert |m| == |m.Keys|;
    forall b | b in m
      ensures Occurrences(CloseEvents(m, order), CloseSession(m[b])) == 1
    {
      CloseOccurrences(m, order, b);
    }
  }

  /** The whole trace of an acceptor's close: one closeSession per session, exactly
      one removeAcceptor for the acceptor and one close of its socket. */
  lemma {:induction false} CloseComplete(m: map<int, Session>, order: seq<int>, id: int)
    requires Enumerates(order, m.Keys) && KeyedById(m)
    ensures forall b :: b in m ==>
              Occurrences(CloseEvents(m, order) + [RemoveAcceptor(id), CloseSocket(id)], CloseSession(m[b])) == 1
    ensures Occurrences(CloseEvents(m, order) + [RemoveAcceptor(id), CloseSocket(id)], RemoveAcceptor(id)) == 1
    ensures Occurrences(CloseEvents(m, order) + [RemoveAcceptor(id), CloseSocket(id)], CloseSocket(id)) == 1
    ensures |CloseEvents(m, order) + [RemoveAcceptor(id), CloseSocket(id)]| == |m| + 2
  {
    var closes := CloseEvents(m, order);
    var tail := [RemoveAcceptor(id), CloseSocket(id)];
    CloseEachOnce(m, order);
    forall b | b in m
      ensures Occurrences(closes + tail, CloseSession(m[b])) == 1
    {
      OccurrencesAppend(closes, tail, CloseSession(m[b]));
    }
    OccurrencesAppend(closes, tail, RemoveAcceptor(id));
    OccurrencesAppend(closes, tail, CloseSocket(id));
  }

  class Acceptor {
    const id: int
    var status: NetworkStatus
    var sessionMap: map<int, Session>
    var f2bMap: map<int, int>
    var b2fMap: map<int, int>
    var lastTime: int
    /** The collaborator calls made by close, in order. */
    ghost var trace: seq<Event>

    ghost function Snapshot(): Tables
      reads this
    {
      Tables(sessionMap, f2bMap, b2fMap)
    }

    ghost predicate Valid()
      reads this
    {
      TablesValid(Snapshot(), id)
    }

    /** newAcceptor(id, conn), with now the time of creation. */
    constructor (id: int, now: int)
      ensures this.id == id && status == StatusStart && lastTime == now
      ensures sessionMap == map[] && f2bMap == map[] && b2fMap == map[]
      ensures trace == []
      ensures Valid()
    {
      this.id := id;
      status := StatusStart;
      sessionMap := map[];
      f2bMap := map[];
      b2fMap := map[];
      lastTime := now;
      trace := [];
    }

    /** heartbeat, with now the current time. */
    method Heartbeat(now: int)
      modifies this`lastTime
      ensures lastTime == now
      ensures status == old(status) && Snapshot() == old(Snapshot())
    {
      lastTime := now;
    }

    /** Session(sid): the session for frontend sid, created on first sight; newId is
        the id the session subsystem would give a new session. */
    method Session(sid: int, newId: int) returns (s: Session)
      requires Valid()
      requires newId > 0 && newId !in sessionMap
      modifies this`sessionMap, this`f2bMap, this`b2fMap
      ensures Valid()
      ensures Resolution(s, Snapshot()) == Resolve(old(Snapshot()), id, sid, newId)
    {
      if sid in f2bMap && f2bMap[sid] > 0 {
        var bsid := f2bMap[sid];
        return sessionMap[bsid];
      }
      s := Common.Session(newId, id);
      sessionMap := sessionMap[s.id := s];
      f2bMap := f2bMap[sid := s.id];
      b2fMap := b2fMap[s.id := sid];
    }

    /** close: mark closed, close every session, remove this acceptor from the
        registry, close the socket. order is the order in which Go's range visits
        sessionMap, which the runtime randomises. Nothing guards a second call, the
        tables are kept, and the socket's close error is dropped. */
    method Close(order: seq<int>)
      requires Enumerates(order, sessionMap.Keys)
      modifies this`status, this`trace
      ensures status == StatusClosed
      ensures Snapshot() == old(Snapshot()) && lastTime == old(lastTime)
      ensures trace == old(trace) + CloseEvents(sessionMap, order) + [RemoveAcceptor(id), CloseSocket(id)]
    {
      status := StatusClosed;
      for i := 0 to |order|
        invariant trace == old(trace) + CloseEvents(sessionMap, order[..i])
      {
        CloseEventsSnoc(sessionMap, order[..i], order[i]);
        assert order[..i + 1] == order[..i] + [order[i]];
        trace := trace + [CloseSession(sessionMap[order[i]])];
      }
      assert order[..|order|] == order;
      trace := trace + [RemoveAcceptor(id), CloseSocket(id)];
    }

    function ID(): (r: int)
      reads this
      requires Valid()
      // the id under which every session this acceptor created finds it in the registry
      ensures forall b :: b in sessionMap ==> sessionMap[b].entity == r
    {
      id
    }

    /** Push(session, route, v). */
    function Push<V>(session: Session, route: string, v: V,
                     serialize: V -> Result<Bytes, Fault>,
                     lookup: int -> Result<map<int, int>, Fault>,
                     write: (int, Frame) -> Option<Fault>): (o: Outcome<()>)
      ensures |Writes(o.trace)| <= 1
      ensures o.result.Ok? ==> |Writes(o.trace)| == 1
      ensures forall e :: e in Writes(o.trace) ==>
                e.socket == id && e.frame.kind == HandlerPush && e.frame.route == route
      // a serialisation failure, an unknown owner or an unknown sid: that error, nothing written
      ensures serialize(v).Err? ==> o.result == Err(Passed(serialize(v).error)) && Writes(o.trace) == []
      ensures serialize(v).Ok? && lookup(session.entity).Err? ==>
                o.result == Err(Passed(lookup(session.entity).error)) && Writes(o.trace) == []
      ensures serialize(v).Ok? && lookup(session.entity).Ok? && session.id !in lookup(session.entity).value ==>
                o.result == Err(ErrSidNotExists) && Writes(o.trace) == []
      // otherwise the frame carries the serialised value and the found acceptor's sid for the session
      ensures serialize(v).Ok? && lookup(session.entity).Ok? && session.id in lookup(session.entity).value ==>
                Writes(o.trace) == [WriteFrame(id, Frame(route, HandlerPush, serialize(v).value,
                                                         lookup(session.entity).value[session.id]))]
    {
      Deliver(id, HandlerPush, route, session, v, serialize, lookup, write)
    }

    /** Response(session, v): as Push, with an empty route. */
    function Response<V>(session: Session, v: V,
                         serialize: V -> Result<Bytes, Fault>,
                         lookup: int -> Result<map<int, int>, Fault>,
                         write: (int, Frame) -> Option<Fault>): (o: Outcome<()>)
      ensures |Writes(o.trace)| <= 1
      ensures o.result.Ok? ==> |Writes(o.trace)| == 1
      ensures forall e :: e in Writes(o.trace) ==>
                e.socket == id && e.frame.kind == HandlerResponse && e.frame.route == ""
      // a serialisation failure, an unknown owner or an unknown sid: that error, nothing written
      ensures serialize(v).Err? ==> o.result == Err(Passed(serialize(v).error)) && Writes(o.trace) == []
      ensures serialize(v).Ok? && lookup(session.entity).Err? ==>
                o.result == Err(Passed(lookup(session.entity).error)) && Writes(o.trace) == []
      ensures serialize(v).Ok? && lookup(session.entity).Ok? && session.id !in lookup(session.entity).value ==>
                o.result == Err(ErrSidNotExists) && Writes(o.trace) == []
      // otherwise the frame carries the serialised value and the found acceptor's sid for the session
      ensures serialize(v).Ok? && lookup(session.entity).Ok? && session.id in lookup(session.entity).value ==>
                Writes(o.trace) == [WriteFrame(id, Frame("", HandlerResponse, serialize(v).value,
                                                         lookup(session.entity).value[session.id]))]
    {
      Deliver(id, HandlerResponse, "", session, v, serialize, lookup, write)
    }
  }

  lemma CloseEventsSnoc(m: map<int, Session>, order: seq<int>, k: int)
    requires forall i :: 0 <= i < |order| ==> order[i] in m
    requires k in m
    ensures CloseEvents(m, order + [k]) == CloseEvents(m, order) + [CloseSession(m[k])]
  {
  }

  /** Frontend sid 42 seen for the first time gets backend session 1001; seeing it
      again gives the same session; a push to that session is framed for sid 42,
      and a response through a reverse table without 1001 writes nothing. */
  method SessionScenario()
  {
    var a := new Acceptor(7, 0);
    var s1 := a.Session(42, 1001);
    assert s1 == Session(1001, 7) && a.f2bMap[42] == 1001 && a.b2fMap[1001] == 42;
    var s2 := a.Session(42, 1002);
    assert s2 == s1 && a.sessionMap.Keys == {1001};

    var b2f := a.b2fMap;
    var data: Bytes := [104, 105];
    var o := a.Push(s1, "room.message", "hi",
                    (v: string) => Ok(data),
                    (entity: int) => if entity == 7 then Ok(b2f) else Err("no acceptor"),
                    (socket: int, f: Frame) => None);
    assert o.result == Ok(());
    assert Writes(o.trace) == [WriteFrame(7, Frame("room.message", HandlerPush, data, 42))];

    // the found acceptor has lost the reverse entry for 1001: nothing is written
    var stale := map[];
    var o2 := a.Response(s1, "hi",
                         (v: string) => Ok(data),
                         (entity: int) => Ok(stale),
                         (socket: int, f: Frame) => None);
    assert o2.result == Err(ErrSidNotExists) && Writes(o2.trace) == [];
  }
}

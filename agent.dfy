/** The agent: one user connection bound to exactly one session for its whole
    life. Pushes and responses go straight to the registry; nothing is
    translated. */
module Direct {
  import opened Common

  class Agent {
    var id: int
    var status: NetworkStatus
    var session: Session
    var lastTime: int
    /** The collaborator calls made by close, in order. */
    ghost var trace: seq<Event>

    /** The agent's id is its session's id, and the session's owner is the agent. */
    ghost predicate Valid()
      reads this
    {
      id == session.id && session.entity == id
    }

    /** newAgent(conn), with now the time of creation and newId the id the session
        subsystem gives the agent's session. */
    constructor (newId: int, now: int)
      ensures Valid()
      ensures status == StatusStart && lastTime == now
      ensures session == Session(newId, newId) && id == newId
      ensures trace == []
    {
      status := StatusStart;
      lastTime := now;
      var s := Session(newId, newId);
      session := s;
      id := s.id;
      trace := [];
    }

    /** heartbeat, with now the current time: only lastTime changes. */
    method Heartbeat(now: int)
      requires Valid()
      modifies this`lastTime
      ensures Valid()
      ensures lastTime == now
      ensures status == old(status) && id == old(id) && session == old(session)
    {
      lastTime := now;
    }

    /** close: mark closed, close the one session, close the socket. There is no
        removeAcceptor call, nothing guards a second call, and the socket's close
        error is dropped. */
    method Close()
      requires Valid()
      modifies this`status, this`trace
      ensures Valid()
      ensures status == StatusClosed
      ensures id == old(id) && session == old(session) && lastTime == old(lastTime)
      ensures trace == old(trace) + [CloseSession(session), CloseSocket(id)]
    {
      status := StatusClosed;
      trace := trace + [CloseSession(session)];
      trace := trace + [CloseSocket(id)];
    }

    function ID(): (r: int)
      reads this
      requires Valid()
      // the agent is known by its session's id, which is also the session's owner key
      ensures r == session.id && r == session.entity
    {
      id
    }

    /** Push(session, route, v): serialise, then hand the bytes to the registry's
        push for that session. */
    function Push<V>(session: Session, route: string, v: V,
                     serialize: V -> Result<Bytes, Fault>,
                     netPush: (Session, string, Bytes) -> Option<Fault>): (o: Outcome<()>)
      // serialisation comes first; its failure is returned and the registry is not called
      ensures |o.trace| >= 1 && o.trace[0] == Serialize
      ensures serialize(v).Err? ==> o.result == Err(Passed(serialize(v).error)) && |o.trace| == 1
      // otherwise exactly one registry push, with the serialised bytes and the route unchanged,
      // whose status is the result
      ensures serialize(v).Ok? ==>
                o.trace == [Serialize, NetPush(session, route, serialize(v).value)] &&
                o.result == FromStatus(netPush(session, route, serialize(v).value))
      // an agent never writes a frame itself
      ensures Writes(o.trace) == []
    {
      match serialize(v)
      case Err(f) => Outcome(Err(Passed(f)), [Serialize])
      case Ok(data) => Outcome(FromStatus(netPush(session, route, data)), [Serialize, NetPush(session, route, data)])
    }

    /** Response(session, v): serialise, then hand the bytes to the registry's
        response for that session. */
    function Response<V>(session: Session, v: V,
                         serialize: V -> Result<Bytes, Fault>,
                         netResponse: (Session, Bytes) -> Option<Fault>): (o: Outcome<()>)
      ensures |o.trace| >= 1 && o.trace[0] == Serialize
      ensures serialize(v).Err? ==> o.result == Err(Passed(serialize(v).error)) && |o.trace| == 1
      ensures serialize(v).Ok? ==>
                o.trace == [Serialize, NetResponse(session, serialize(v).value)] &&
                o.result == FromStatus(netResponse(session, serialize(v).value))
      ensures Writes(o.trace) == []
    {
      match serialize(v)
      case Err(f) => Outcome(Err(Passed(f)), [Serialize])
      case Ok(data) => Outcome(FromStatus(netResponse(session, data)), [Serialize, NetResponse(session, data)])
    }
  }
}

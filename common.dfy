/** Values shared by both connection actors: sessions, frames, routes, the error
    values of the package, and the trace of calls made into the collaborators
    that the model leaves abstract (codec, registry, socket, cluster transport). */
module Common {

  newtype byte = x: int | 0 <= x < 256
  type Bytes = seq<byte>

  /** An error produced by an external collaborator; the actors hand it back unchanged. */
  type Fault = string

  datatype Option<+T> = None | Some(value: T)

  datatype Result<+T, +E> = Ok(value: T) | Err(error: E)

  /** The errors the actors return: their own two values, or a collaborator's error. */
  datatype Error =
    | ErrRPCLocal        // the call targets this process's own server type
    | ErrSidNotExists    // no frontend sid for this backend session
    | Passed(fault: Fault)

  datatype NetworkStatus = StatusStart | StatusClosed

  /** A session as the actors see it: its process-wide id and the id of the entity
      (acceptor or agent) that owns its connection. */
  datatype Session = Session(id: int, entity: int)

  /** A decoded route string. */
  datatype Route = Route(serverType: string, service: string, methodName: string)

  datatype Kind = HandlerPush | HandlerResponse

  /** The message handed to the protocol writer: route, kind, payload and the
      frontend sid it is addressed to. */
  datatype Frame = Frame(route: string, kind: Kind, data: Bytes, sid: int)

  /** One call into a collaborator, in the order the actor makes it. */
  datatype Event =
    | Serialize
    | LookupAcceptor(entity: int)
    | WriteFrame(socket: int, frame: Frame)
    | NetPush(session: Session, route: string, data: Bytes)
    | NetResponse(session: Session, data: Bytes)
    | DecodeRoute(route: string)
    | EncodeArgs
    | ClusterCall(target: Route, session: Session, data: Bytes)
    | DecodeReply(data: Bytes)
    | CloseSession(session: Session)
    | RemoveAcceptor(acceptor: int)
    | CloseSocket(socket: int)

  /** What an operation returns together with the collaborator calls it made. */
  datatype Outcome<+T> = Outcome(result: Result<T, Error>, trace: seq<Event>)

  /** Turns a writer's or registry's error status into the actor's return value. */
  function FromStatus(status: Option<Fault>): Result<(), Error>
  {
    match status
    case None => Ok(())
    case Some(f) => Err(Passed(f))
  }

  /** A collaborator's result as the actor returns it: the value, or its error passed on. */
  function Lift<T>(r: Result<T, Fault>): Result<T, Error>
  {
    match r
    case Ok(v) => Ok(v)
    case Err(f) => Err(Passed(f))
  }

  /** The frame writes of a trace, in order. */
  function Writes(t: seq<Event>): (w: seq<Event>)
    ensures |w| <= |t|
    ensures forall i :: 0 <= i < |w| ==> w[i].WriteFrame?
  {
    if t == [] then []
    else (if t[0].WriteFrame? then [t[0]] else []) + Writes(t[1..])
  }

  /** The number of cluster transport calls in a trace. */
  function ClusterCalls(t: seq<Event>): (n: nat)
    ensures n <= |t|
  {
    if t == [] then 0
    else (if t[0].ClusterCall? then 1 else 0) + ClusterCalls(t[1..])
  }

  /** The number of times event e occurs in a trace. */
  function Occurrences(t: seq<Event>, e: Event): (n: nat)
    ensures n <= |t|
    ensures n == 0 <==> e !in t
  {
    if t == [] then 0
    else (if t[0] == e then 1 else 0) + Occurrences(t[1..], e)
  }

  /** Some step of the trace asked the registry for an acceptor. */
  predicate LooksUp(t: seq<Event>)
  {
    exists i :: 0 <= i < |t| && t[i].LookupAcceptor?
  }

  lemma {:induction false} WritesAppend(s: seq<Event>, t: seq<Event>)
    ensures Writes(s + t) == Writes(s) + Writes(t)
  {
    if s == [] {
      assert s + t == t;
    } else {
      assert (s + t)[1..] == s[1..] + t;
      WritesAppend(s[1..], t);
    }
  }

  /** A trace without transport calls counts none. */
  lemma {:induction false} NoClusterCalls(t: seq<Event>)
    requires forall j :: 0 <= j < |t| ==> !t[j].ClusterCall?
    ensures ClusterCalls(t) == 0
  {
    if t != [] {
      NoClusterCalls(t[1..]);
    }
  }

  /** A trace whose only transport call is at index i counts one. */
  lemma {:induction false} OneClusterCall(t: seq<Event>, i: nat)
    requires i < |t| && t[i].ClusterCall?
    requires forall j :: 0 <= j < |t| && j != i ==> !t[j].ClusterCall?
    ensures ClusterCalls(t) == 1
  {
    if i == 0 {
      NoClusterCalls(t[1..]);
    } else {
      OneClusterCall(t[1..], i - 1);
    }
  }

  lemma {:induction false} OccurrencesAppend(s: seq<Event>, t: seq<Event>, e: Event)
    ensures Occurrences(s + t, e) == Occurrences(s, e) + Occurrences(t, e)
  {
    if s == [] {
      assert s + t == t;
    } else {
      assert (s + t)[1..] == s[1..] + t;
      OccurrencesAppend(s[1..], t, e);
    }
  }

  /** No element of s occurs twice. */
  predicate Distinct(s: seq<int>)
  {
    forall i, j :: 0 <= i < j < |s| ==> s[i] != s[j]
  }

  /** s lists every element of keys exactly once. */
  ghost predicate Enumerates(s: seq<int>, keys: set<int>)
  {
    && Distinct(s)
    && (forall i :: 0 <= i < |s| ==> s[i] in keys)
    && (forall k :: k in keys ==> k in s)
  }

  /** An enumeration of a finite set is exactly as long as the set is large. */
  lemma {:induction false} EnumerationLength(s: seq<int>, keys: set<int>)
    requires Enumerates(s, keys)
    ensures |s| == |keys|
  {
    if s != [] {
      var rest := s[1..];
      assert Enumerates(rest, keys - {s[0]}) by {
        forall k ensures k in rest <==> k in keys - {s[0]} {
          if k in rest {
            var j :| 0 <= j < |rest| && rest[j] == k;
            assert s[j + 1] == k;
          }
          if k in keys - {s[0]} {
            assert k in s;
            var j :| 0 <= j < |s| && s[j] == k;
            assert j != 0;
            assert rest[j - 1] == k;
          }
        }
      }
      EnumerationLength(rest, keys - {s[0]});
      assert s[0] in s;
      assert s[0] in keys;
      assert |keys - {s[0]}| == |keys| - 1;
    } else {
      assert forall k :: k !in keys;
      assert keys == {};
    }
  }
}

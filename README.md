# Connection actors of starx, modelled in Dafny

This project models the two connection actors of the starx server framework:

- the **acceptor** (`acceptor.go`). It sits on a backend server and carries many
  sessions from one frontend server. It creates backend sessions lazily and
  keeps three tables: `sessionMap` (backend id → session), `f2bMap` (frontend sid →
  backend id) and `b2fMap` (backend id → frontend sid). It uses them to address
  pushes and responses back to the frontend by sid.
- the **agent** (`agent.go`). It is bound 1:1 to one user session for its whole
  life and hands pushes and responses straight to the registry.

Both have the same remote `Call`: decode the route, refuse a call to the
process's own server type (`ErrRPCLocal`), encode the arguments, call the cluster
transport, decode the reply.

Layout:

- `common.dfy`, module `Common`: sessions, routes, frames, the error values
  (`ErrRPCLocal`, `ErrSidNotExists`, or a collaborator's error passed on
  unchanged), and the `Event` trace. The trace records every call into a
  collaborator, in order.
- `rpc.dfy`, module `Rpc`: the `Call` pipeline. The two Go `Call` bodies are the
  same line for line and read no entity state, so `Rpc.Call` models both.
- `acceptor.dfy`, module `Bridge`: the tables as a value (`Tables`), their
  invariant (`TablesValid`), the pure specification of `Session(sid)`
  (`Resolve`), the Push/Response pipeline (`Deliver`), and class `Acceptor`.
  The class has the Go fields and methods that update them in place.
- `agent.dfy`, module `Direct`: class `Agent`.

The collaborators the actors read results from are function parameters. These are
`serializeOrRaw`, the registry lookup and delivery
(`defaultNetService.acceptor/push/response`), `rpc.WriteResponse`,
`routelib.Decode`, `gobEncode`, `cluster.Call` and `gobDecode`. The calls whose
results `close` ignores (`defaultNetService.closeSession`,
`defaultNetService.removeAcceptor` and the socket's `Close`) are not parameters.
They are recorded only as the `CloseSession`, `RemoveAcceptor` and `CloseSocket`
events that `close` appends to the trace. Pure operations return an `Outcome`: the result plus the trace of
collaborator calls. That trace is how "nothing is written", "no registry lookup"
and "zero transport calls" are stated. The methods that change state (`close`)
append to a ghost `trace` field instead. The clock is the `now` parameter. The id
the session subsystem allocates is the `newId` parameter. The order in which Go's
`range` visits `sessionMap` (randomised by the runtime) is the `order` parameter
of `Acceptor.Close`.

The model follows the code, including where it falls short of the idealised behaviour:

- `close` is not guarded against a second call. It also does not clear the tables.
- The agent's `close` does not call `removeAcceptor` (agent.go:55-59).
- There is no locking around the three tables.
- The acceptor's Push and Response translate the session id through the
  reverse table of the acceptor the registry returns (`rs`). They still write the
  frame on their own socket (`a.socket`, acceptor.go:108 and 136). `Bridge.Deliver`
  takes the socket and the lookup separately, so the two can differ.

## Model

| member | source | states |
|---|---|---|
| `Bridge.Acceptor.constructor` | acceptor.go:29-39 | status is start, the id is the given one, lastTime is the creation time, all three tables are empty, and the table invariant holds |
| `Bridge.Acceptor.Heartbeat` | acceptor.go:49-51 | lastTime becomes the supplied time; status and all three tables are unchanged |
| `Bridge.Acceptor.Session` | acceptor.go:53-62 | given a positive id that is not yet a session key, the invariant is kept and the returned session and new tables are those of `Resolve` |
| `Bridge.Resolve` | acceptor.go:53-62 | the invariant holds afterwards in both directions (b2f[f2b[k]] == k and f2b[b2f[b]] == b, keys of b2f = keys of sessionMap); the result is the session all three tables associate with sid; a known sid returns sessionMap[f2bMap[sid]] and changes no table; an unseen sid creates Session(newId, acceptor) and adds exactly sessionMap[newId], f2bMap[sid]=newId, b2fMap[newId]=sid |
| `Bridge.ResolveIdempotent` | acceptor.go:54-56 | resolving the same sid a second time returns the same session and leaves the tables as they were, whatever id would be allocated |
| `Bridge.ResolveSeparates` | acceptor.go:57-61 | two different sids are never given the same session |
| `Bridge.Acceptor.Close` | acceptor.go:64-71 | status becomes closed; the trace grows by one closeSession per session in the visiting order, then one removeAcceptor for this acceptor, then one socket close; tables and lastTime are unchanged; no precondition on status, so a repeat call repeats all of it |
| `Bridge.CloseEachOnce` | acceptor.go:66-68 | for a visiting order that lists each key once, closing emits exactly one closeSession per session of the map and no other event, so as many events as sessions |
| `Bridge.CloseComplete` | acceptor.go:64-71 | the whole close trace for a visiting order that lists each key once: exactly one closeSession per session, exactly one removeAcceptor for the acceptor, exactly one socket close, and nothing else (length = sessions + 2) |
| `Bridge.Acceptor.ID` | acceptor.go:73-75 | under the invariant, the returned id is the owner key of every session the acceptor created, i.e. the key the registry lookup in Push/Response uses |
| `Bridge.Deliver` | acceptor.go:83-108 | serialisation comes first; its failure returns its error before any registry lookup, with nothing written; otherwise the registry is asked for the session's owner; a lookup failure returns its error, nothing written; a session id missing from the found acceptor's reverse table returns ErrSidNotExists, nothing written; otherwise exactly one frame {route, kind, serialised data, found b2fMap[session.id]} is written on the actor's own socket, and the writer's status is the result |
| `Bridge.Acceptor.Push` | acceptor.go:82-109 | at most one frame is written, exactly one on success, on this acceptor's socket; a serialisation error, an unknown owner, or a session missing from the found reverse table (ErrSidNotExists) is returned with nothing written; otherwise the one frame is {the given route, HandlerPush, the serialised value, the found acceptor's b2fMap[session.id]} |
| `Bridge.Acceptor.Response` | acceptor.go:112-137 | as Push, with the same three error cases writing nothing; the one frame is {empty route, HandlerResponse, the serialised value, the found acceptor's b2fMap[session.id]} |
| `Bridge.ResolveThenDeliver` | acceptor.go:96-108 | round trip: for a session handed out by Session(sid), with the registry returning this acceptor, a push or response writes one frame addressed to the original frontend sid |
| `Rpc.Call` | acceptor.go:139-160 | the route is decoded first, and a malformed route returns its error with nothing else done; ErrRPCLocal is returned exactly when the decoded server type equals the configured one, with no encoding and no transport call; an encode error is returned with no transport call; the transport is called exactly once when every check passes and never otherwise; a transport error is returned without decoding; success is exactly every stage passing, with the decoded reply as result |
| `Rpc.CallResults` | agent.go:93-114 | every result of the agent's (identical) Call is one of five: the route decoder's error, ErrRPCLocal for a local server type, the encoder's error, the transport's error, or the reply decoder's result |
| `Rpc.LocalCallRejected` | agent.go:99-101 | a route whose server type is the configured one gives ErrRPCLocal with zero transport calls |
| `Direct.Agent.constructor` | agent.go:32-41 | exactly one session is created, owned by the agent; the agent's id is that session's id; status is start and lastTime is the creation time; the invariant id == session.id holds |
| `Direct.Agent.Heartbeat` | agent.go:51-53 | only lastTime changes, to the supplied time; status, id and session are unchanged; the invariant is kept |
| `Direct.Agent.Close` | agent.go:55-59 | status becomes closed; the trace grows by exactly one closeSession for the agent's own session and one socket close, with no removeAcceptor; id, session and lastTime are unchanged |
| `Direct.Agent.ID` | agent.go:61-63 | the returned id is the session's id and the session's owner key (kept by every method, since none reassigns id or session) |
| `Direct.Agent.Push` | agent.go:70-79 | serialisation comes first, and its failure is returned with no registry call; otherwise exactly one registry push with the unchanged session, unchanged route and serialised bytes, whose status is the result; the agent writes no frame itself |
| `Direct.Agent.Response` | agent.go:82-91 | serialisation comes first, and its failure is returned with no registry call; otherwise exactly one registry response with the session and serialised bytes, whose status is the result; no frame is written |

## Left out

- `String` and `Send` on both actors are raw socket I/O and are not modelled. The socket appears only as the ids in the `WriteFrame` and `CloseSocket` events.
- Logging (`log.Debugf`, `log.Errorf`) is left out because it has no behavioural content.
- Concurrency is left out. The source takes no locks. The model is sequential and does not model interleavings between the read loop, timers and callbacks.
- `time.Now().Unix()` is replaced by the `now` parameter.
- The collaborators' internals are not modelled: the serialiser, gob encoding and decoding, the route codec, the cluster transport, `rpc.WriteResponse` and the registry. They are function parameters, and only their results and the order of calls to them are modelled. The registry lookup returns the found acceptor's reverse table as a value, not the acceptor object.
- Session id allocation is replaced by the `newId` parameter. It must be positive and not already a key of the acceptor's `sessionMap`. Uniqueness across all entities of the process is not modelled.
- Sessions are values `Session(id, owner)` compared by content, not shared pointers. The session's other fields (such as `Uid`, which is only logged here) are not modelled.
- Ids are unbounded integers rather than `int64`. The actors do no arithmetic on ids, so wrap-around never arises.
- `Call`'s `reply` out-pointer is modelled as the decoded value being returned. The `rpc.User` call kind passed to the transport is not recorded in the trace.
- `ErrRPCLocal` and `ErrSidNotExists` are modelled as distinct error values. Their message texts are not modelled.
- `Bridge.Acceptor.Close` takes the map's visiting order as a parameter that must list each key exactly once. The model does not pick the order itself.
- Behaviour the code does not implement is not claimed: an idempotent `close`, clearing the tables on close, the agent removing itself from the registry, and a timeout on the blocking call.

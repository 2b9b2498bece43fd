/** The remote call of both connection actors (acceptor.go and agent.go have the
    same Call body): decode the route, refuse a call to this process's own server
    type, encode the arguments, call the cluster transport, decode the reply. */
module Rpc {
  import opened Common

  /** The route decoded and names the server type this process is configured as. */
  predicate IsLocal(configType: string, decoded: Result<Route, Fault>)
  {
    decoded.Ok? && decoded.value.serverType == configType
  }

  /** Route decoding, the locality check and argument encoding all pass, so the
      transport is called. */
  predicate Dispatched<A>(configType: string, route: string, args: seq<A>,
                          decodeRoute: string -> Result<Route, Fault>,
                          encode: seq<A> -> Result<Bytes, Fault>)
  {
    decodeRoute(route).Ok? && !IsLocal(configType, decodeRoute(route)) && encode(args).Ok?
  }

  /** Call(session, route, reply, args...) on a process of type configType. The
      route codec, the argument encoder, the cluster transport and the reply
      decoder are parameters; the decoded reply stands for what Go writes into
      reply. */
  function Call<A, R>(configType: string, session: Session, route: string, args: seq<A>,
                      decodeRoute: string -> Result<Route, Fault>,
                      encode: seq<A> -> Result<Bytes, Fault>,
                      cluster: (Route, Session, Bytes) -> Result<Bytes, Fault>,
                      decode: Bytes -> Result<R, Fault>): (o: Outcome<R>)
    // the route is decoded first
    ensures |o.trace| >= 1 && o.trace[0] == DecodeRoute(route)
    // a malformed route fails with the decoder's error and nothing further happens
    ensures decodeRoute(route).Err? ==>
              o.result == Err(Passed(decodeRoute(route).error)) && |o.trace| == 1
    // ErrRPCLocal exactly for a call to the own server type, and then nothing is encoded or sent
    ensures o.result == Err(ErrRPCLocal) <==> IsLocal(configType, decodeRoute(route))
    ensures IsLocal(configType, decodeRoute(route)) ==> |o.trace| == 1
    // an encoding failure is returned and nothing is sent
    ensures decodeRoute(route).Ok? && !IsLocal(configType, decodeRoute(route)) && encode(args).Err? ==>
              o.result == Err(Passed(encode(args).error)) && o.trace == [DecodeRoute(route), EncodeArgs]
    // the transport is called once when every check passes, and never otherwise
    ensures ClusterCalls(o.trace) == if Dispatched(configType, route, args, decodeRoute, encode) then 1 else 0
    ensures Dispatched(configType, route, args, decodeRoute, encode) ==>
              |o.trace| >= 3 && o.trace[2] == ClusterCall(decodeRoute(route).value, session, encode(args).value)
    // a transport failure is returned without decoding anything
    ensures Dispatched(configType, route, args, decodeRoute, encode) &&
            cluster(decodeRoute(route).value, session, encode(args).value).Err? ==>
              o.result == Err(Passed(cluster(decodeRoute(route).value, session, encode(args).value).error))
              && forall e :: e in o.trace ==> !e.DecodeReply?
    // success is exactly: every stage passes, and the result is the decoded reply
    ensures o.result.Ok? <==>
              Dispatched(configType, route, args, decodeRoute, encode) &&
              cluster(decodeRoute(route).value, session, encode(args).value).Ok? &&
              decode(cluster(decodeRoute(route).value, session, encode(args).value).value).Ok?
    ensures o.result.Ok? ==>
              o.result.value == decode(cluster(decodeRoute(route).value, session, encode(args).value).value).value
  {
    match decodeRoute(route)
    case Err(f) => NoClusterCalls([DecodeRoute(route)]); Outcome(Err(Passed(f)), [DecodeRoute(route)])
    case Ok(r) =>
      NoClusterCalls([DecodeRoute(route)]);
      NoClusterCalls([DecodeRoute(route), EncodeArgs]);
      if configType == r.serverType then
        Outcome(Err(ErrRPCLocal), [DecodeRoute(route)])
      else
        match encode(args)
        case Err(f) => Outcome(Err(Passed(f)), [DecodeRoute(route), EncodeArgs])
        case Ok(data) =>
          var sent := [DecodeRoute(route), EncodeArgs, ClusterCall(r, session, data)];
          match cluster(r, session, data)
          case Err(f) => OneClusterCall(sent, 2); Outcome(Err(Passed(f)), sent)
          case Ok(ret) =>
            var trace := sent + [DecodeReply(ret)];
            OneClusterCall(trace, 2);
            Outcome(Lift(decode(ret)), trace)
  }

  /** A call to the process's own server type, for instance "connector.login" on a
      "connector" server, fails with ErrRPCLocal and never reaches the transport. */
  lemma LocalCallRejected<A, R>(configType: string, session: Session, route: string, args: seq<A>,
                                decodeRoute: string -> Result<Route, Fault>,
                                encode: seq<A> -> Result<Bytes, Fault>,
                                cluster: (Route, Session, Bytes) -> Result<Bytes, Fault>,
                                decode: Bytes -> Result<R, Fault>)
    requires decodeRoute(route).Ok? && decodeRoute(route).value.serverType == configType
    ensures Call(configType, session, route, args, decodeRoute, encode, cluster, decode).result == Err(ErrRPCLocal)
    ensures ClusterCalls(Call(configType, session, route, args, decodeRoute, encode, cluster, decode).trace) == 0
  {
  }

  /** Every result of Call is one of: the route decoder's error, ErrRPCLocal, the
      encoder's error, the transport's error, or what the reply decoder returns. */
  lemma CallResults<A, R>(configType: string, session: Session, route: string, args: seq<A>,
                          decodeRoute: string -> Result<Route, Fault>,
                          encode: seq<A> -> Result<Bytes, Fault>,
                          cluster: (Route, Session, Bytes) -> Result<Bytes, Fault>,
                          decode: Bytes -> Result<R, Fault>)
    ensures var o := Call(configType, session, route, args, decodeRoute, encode, cluster, decode);
            var decoded := decodeRoute(route);
            var encoded := encode(args);
            || (decoded.Err? && o.result == Err(Passed(decoded.error)))
            || (IsLocal(configType, decoded) && o.result == Err(ErrRPCLocal))
            || (decoded.Ok? && !IsLocal(configType, decoded) && encoded.Err? &&
                o.result == Err(Passed(encoded.error)))
            || (decoded.Ok? && !IsLocal(configType, decoded) && encoded.Ok? &&
                var ret := cluster(decoded.value, session, encoded.value);
                || (ret.Err? && o.result == Err(Passed(ret.error)))
                || (ret.Ok? && o.result == Lift(decode(ret.value))))
  {
  }
}

/** The forwarder that relays Broker1 calls from the host session bus to
    the broker inside the container (internal/broker/proxy.go): one
    upstream call per request, the reply passed back untouched, every
    failure turned into the generic Failed error. The container connection
    is an oracle from outgoing call to its result. */
module Forwarder {
  import opened Wrappers
  import opened BrokerEndpoint

  /** One element of a D-Bus message body, as the bus library decodes it:
      a string (`s`), an object path (`o`), an integer of any width (`y`,
      `n`, `q`, `i`, `u`, `x`, `t`, and the file-descriptor index `h`), a
      variant (`v`) around another value, or something with no conversion
      to a string (booleans, doubles, signatures, arrays, dictionaries and
      structs). */
  datatype Value =
    | Str(s: string)
    | ObjectPathValue(path: string)
    | Integer(n: int)
    | Variant(inner: Value)
    | Unconvertible

  /** What the container connection gives back for a call. */
  datatype CallResult = CallFailed(reason: string) | Replied(body: seq<Value>)

  /** An outgoing method call: destination, object path, interface-qualified
      member, call flags and string arguments. */
  datatype MethodCall = MethodCall(destination: string, path: string, member: string, flags: nat, args: seq<string>)

  const FailedErrorName: string := "org.freedesktop.DBus.Error.Failed"

  /** Why a call was turned into an error: the transport failed, or the
      reply body was not a single string. */
  datatype Cause = Transport(reason: string) | Undecodable(body: seq<Value>)

  datatype BusError = BusError(name: string, cause: Cause)

  /** The call issued upstream and what the handler returns to its caller. */
  datatype Forwarded = Forwarded(call: MethodCall, response: string, err: Option<BusError>)

  /** A Unicode scalar value: a code point that is not a surrogate. */
  predicate IsScalar(n: int) {
    0 <= n < 0xD800 || 0xE000 <= n <= 0x10FFFF
  }

  /** Go's conversion of an integer to a string: the one-rune string of a
      scalar value, the replacement character for anything else. */
  function RuneString(n: int): (r: string)
    ensures |r| == 1
    ensures IsScalar(n) ==> r[0] as int == n
    ensures !IsScalar(n) ==> r == "\U{FFFD}"
  {
    if IsScalar(n) then [n as char] else "\U{FFFD}"
  }

  /** The value inside all the variants around `v`. */
  function Unwrap(v: Value): (r: Value)
    ensures !r.Variant?
  {
    match v
    case Variant(inner) => Unwrap(inner)
    case _ => v
  }

  /** `v` inside `depth` variants. */
  function Wrap(depth: nat, v: Value): Value {
    if depth == 0 then v else Variant(Wrap(depth - 1, v))
  }

  /** Storing one value into a Go string: a variant is opened and its
      content stored; a string or object path gives its text; an integer
      is converted to a one-rune string; nothing else converts. */
  function StoreString(v: Value): (r: Option<string>)
    ensures r.None? <==> Unwrap(v) == Unconvertible
    ensures Unwrap(v).Str? ==> r == Some(Unwrap(v).s)
    ensures Unwrap(v).ObjectPathValue? ==> r == Some(Unwrap(v).path)
    ensures Unwrap(v).Integer? ==> r == Some(RuneString(Unwrap(v).n))
  {
    match v
    case Str(s) => Some(s)
    case ObjectPathValue(path) => Some(path)
    case Integer(n) => Some(RuneString(n))
    case Variant(inner) => StoreString(inner)
    case Unconvertible => None
  }

  /** Storing a reply body into one string: the body must hold exactly one
      value, and that value must convert. */
  function DecodeReply(body: seq<Value>): (r: Option<string>)
    ensures r.Some? <==> |body| == 1 && Unwrap(body[0]) != Unconvertible
    ensures r.Some? ==> StoreString(body[0]) == r
  {
    if |body| != 1 then None else StoreString(body[0])
  }

  /** A string reply reaches the caller as sent, however many variants
      carry it. */
  lemma {:induction false} WrappedStringDecodes(depth: nat, s: string)
    ensures DecodeReply([Wrap(depth, Str(s))]) == Some(s)
    ensures StoreString(Wrap(depth, Str(s))) == Some(s)
  {
    if depth > 0 {
      WrappedStringDecodes(depth - 1, s);
    }
  }

  /** An integer reply decodes to one character: the character with that
      code when it is a scalar value, the replacement character otherwise. */
  lemma IntegerReplyDecodes(n: int)
    ensures DecodeReply([Integer(n)]).Some?
    ensures var t := DecodeReply([Integer(n)]).value;
      |t| == 1 && (IsScalar(n) <==> t[0] as int == n)
  {
  }

  /** Forwards one Broker1 call with no retry. */
  function Forward(wireName: string, protocolVersion: string, correlationID: string, requestJSON: string,
                   upstream: MethodCall -> CallResult): (r: Forwarded)
    ensures r.call.destination == BusName && r.call.path == ObjectPath && r.call.flags == 0
    ensures r.call.member == InterfaceName + "." + wireName
    ensures r.call.args == [protocolVersion, correlationID, requestJSON]
    ensures r.err.None? <==> upstream(r.call).Replied? && DecodeReply(upstream(r.call).body).Some?
    ensures r.err.None? ==>
      (upstream(r.call).Replied? && |upstream(r.call).body| == 1
       && StoreString(upstream(r.call).body[0]) == Some(r.response))
    ensures r.err.Some? ==> r.response == "" && r.err.value.name == FailedErrorName
  {
    var call := MethodCall(BusName, ObjectPath, InterfaceName + "." + wireName, 0,
                           [protocolVersion, correlationID, requestJSON]);
    match upstream(call)
    case CallFailed(reason) => Forwarded(call, "", Some(BusError(FailedErrorName, Transport(reason))))
    case Replied(body) =>
      match DecodeReply(body)
      case Some(response) => Forwarded(call, response, None)
      case None => Forwarded(call, "", Some(BusError(FailedErrorName, Undecodable(body))))
  }

  /** A reply holding one string reaches the caller unchanged. */
  lemma ForwardPassesReplyThrough(wireName: string, pv: string, cid: string, req: string,
                                  upstream: MethodCall -> CallResult, reply: string)
    requires upstream(MethodCall(BusName, ObjectPath, InterfaceName + "." + wireName, 0, [pv, cid, req]))
      == Replied([Str(reply)])
    ensures Forward(wireName, pv, cid, req, upstream) == Forwarded(
      MethodCall(BusName, ObjectPath, InterfaceName + "." + wireName, 0, [pv, cid, req]), reply, None)
  {
  }

  /** The handler method for `h`: forwards under the handler's own wire name. */
  function Handle(h: Handler, pv: string, cid: string, req: string, upstream: MethodCall -> CallResult): Forwarded {
    Forward(ForwardedName(h), pv, cid, req, upstream)
  }

  /** Each handler calls upstream exactly the method that the export table
      routes to it, so the proxy changes neither the method nor the
      arguments. */
  lemma HandlerForwardsItsMappedName(h: Handler, pv: string, cid: string, req: string,
                                     upstream: MethodCall -> CallResult)
    ensures Handle(h, pv, cid, req, upstream).call.member == InterfaceName + "." + MethodMap()[HandlerIdent(h)]
    ensures Handle(h, pv, cid, req, upstream).call.args == [pv, cid, req]
  {
  }

  /** The handler the exported table routes an incoming member to: the one
      whose identifier the table maps to it. */
  function Route(member: string): (r: Option<Handler>)
    ensures r.Some? ==> MethodMap()[HandlerIdent(r.value)] == member
    ensures r.None? ==> forall h: Handler :: MethodMap()[HandlerIdent(h)] != member
  {
    RouteFrom(AllHandlers, member)
  }

  function RouteFrom(hs: seq<Handler>, member: string): (r: Option<Handler>)
    ensures r.Some? ==> r.value in hs && ForwardedName(r.value) == member
    ensures r.None? ==> forall h :: h in hs ==> ForwardedName(h) != member
    decreases |hs|
  {
    if |hs| == 0 then None
    else if ForwardedName(hs[0]) == member then Some(hs[0])
    else RouteFrom(hs[1..], member)
  }

  /** Exactly the Broker1 methods are routed, and a routed call goes
      upstream under the same member name with the same arguments. */
  lemma ProxyIsTransparent(member: string, pv: string, cid: string, req: string,
                           upstream: MethodCall -> CallResult)
    ensures Route(member).Some? <==> member in BrokerMethods()
    ensures Route(member).Some? ==>
      var f := Handle(Route(member).value, pv, cid, req, upstream);
      f.call.member == InterfaceName + "." + member && f.call.args == [pv, cid, req]
  {
    if member in BrokerMethods() {
      var i :| 0 <= i < |BrokerMethods()| && BrokerMethods()[i] == member;
      ForwardedNamesInOrder(i);
      assert ForwardedName(AllHandlers[i]) == member;
    }
    if Route(member).Some? {
      var h := Route(member).value;
      assert ForwardedName(h) == BrokerMethods()[HandlerIndex(h)];
    }
  }
}

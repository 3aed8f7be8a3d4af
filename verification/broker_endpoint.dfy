/** The fixed surface of the Broker1 interface that the proxy forwards
    (internal/broker/proxy.go): bus identity, the eight wire method names,
    the Go handler identifiers with the table that maps them to wire names,
    and the introspection description. */
module BrokerEndpoint {
  import opened Text

  const BusName: string := "com.microsoft.identity.broker1"
  const ObjectPath: string := "/com/microsoft/identity/broker1"
  const InterfaceName: string := "com.microsoft.identity.Broker1"

  /** The eight method names of the Broker1 interface, in declaration order. */
  function BrokerMethods(): (r: seq<string>)
    ensures |r| == 8
    ensures forall i, j :: 0 <= i < j < |r| ==> r[i] != r[j]
  {
    [ "acquireTokenInteractively",
      "acquireTokenSilently",
      "getAccounts",
      "removeAccount",
      "acquirePrtSsoCookie",
      "generateSignedHttpRequest",
      "cancelInteractiveFlow",
      "getLinuxBrokerVersion" ]
  }

  /** The eight exported handler methods of the forwarder. */
  datatype Handler =
    | AcquireTokenInteractively
    | AcquireTokenSilently
    | GetAccounts
    | RemoveAccount
    | AcquirePrtSsoCookie
    | GenerateSignedHttpRequest
    | CancelInteractiveFlow
    | GetLinuxBrokerVersion

  const AllHandlers: seq<Handler> := [
    AcquireTokenInteractively, AcquireTokenSilently, GetAccounts, RemoveAccount,
    AcquirePrtSsoCookie, GenerateSignedHttpRequest, CancelInteractiveFlow, GetLinuxBrokerVersion ]

  /** The position of each handler in AllHandlers. */
  function HandlerIndex(h: Handler): (i: nat)
    ensures i < |AllHandlers| && AllHandlers[i] == h
  {
    match h
    case AcquireTokenInteractively => 0
    case AcquireTokenSilently => 1
    case GetAccounts => 2
    case RemoveAccount => 3
    case AcquirePrtSsoCookie => 4
    case GenerateSignedHttpRequest => 5
    case CancelInteractiveFlow => 6
    case GetLinuxBrokerVersion => 7
  }

  /** The Go identifier of each handler method. */
  function HandlerIdent(h: Handler): string {
    match h
    case AcquireTokenInteractively => "AcquireTokenInteractively"
    case AcquireTokenSilently => "AcquireTokenSilently"
    case GetAccounts => "GetAccounts"
    case RemoveAccount => "RemoveAccount"
    case AcquirePrtSsoCookie => "AcquirePrtSsoCookie"
    case GenerateSignedHttpRequest => "GenerateSignedHttpRequest"
    case CancelInteractiveFlow => "CancelInteractiveFlow"
    case GetLinuxBrokerVersion => "GetLinuxBrokerVersion"
  }

  /** The identifier with its first letter lower-cased (ASCII). */
  function LowerFirst(s: string): string {
    if |s| > 0 && 'A' <= s[0] <= 'Z' then [(s[0] as int + 32) as char] + s[1..] else s
  }

  /** The wire name each handler passes on when it forwards a call. */
  function ForwardedName(h: Handler): (r: string)
    ensures r == BrokerMethods()[HandlerIndex(h)]
  {
    match h
    case AcquireTokenInteractively => "acquireTokenInteractively"
    case AcquireTokenSilently => "acquireTokenSilently"
    case GetAccounts => "getAccounts"
    case RemoveAccount => "removeAccount"
    case AcquirePrtSsoCookie => "acquirePrtSsoCookie"
    case GenerateSignedHttpRequest => "generateSignedHttpRequest"
    case CancelInteractiveFlow => "cancelInteractiveFlow"
    case GetLinuxBrokerVersion => "getLinuxBrokerVersion"
  }

  /** Listed in the order of AllHandlers, the handlers forward exactly the
      Broker1 methods in declaration order. */
  lemma ForwardedNamesInOrder(i: nat)
    requires i < |AllHandlers|
    ensures ForwardedName(AllHandlers[i]) == BrokerMethods()[i]
  {
  }

  /** Each handler forwards its own identifier with the first letter
      lower-cased. */
  lemma ForwardedNameIsLowerFirst(h: Handler)
    ensures ForwardedName(h) == LowerFirst(HandlerIdent(h))
  {
    match h
    case AcquireTokenInteractively => AcquireTokenInteractivelyLowers();
    case AcquireTokenSilently => AcquireTokenSilentlyLowers();
    case GetAccounts => GetAccountsLowers();
    case RemoveAccount => RemoveAccountLowers();
    case AcquirePrtSsoCookie => AcquirePrtSsoCookieLowers();
    case GenerateSignedHttpRequest => GenerateSignedHttpRequestLowers();
    case CancelInteractiveFlow => CancelInteractiveFlowLowers();
    case GetLinuxBrokerVersion => GetLinuxBrokerVersionLowers();
  }

  lemma AcquireTokenInteractivelyLowers()
    ensures ForwardedName(AcquireTokenInteractively) == LowerFirst(HandlerIdent(AcquireTokenInteractively))
  {
    LowerFirstWhen(HandlerIdent(AcquireTokenInteractively), ForwardedName(AcquireTokenInteractively));
  }

  lemma AcquireTokenSilentlyLowers()
    ensures ForwardedName(AcquireTokenSilently) == LowerFirst(HandlerIdent(AcquireTokenSilently))
  {
    LowerFirstWhen(HandlerIdent(AcquireTokenSilently), ForwardedName(AcquireTokenSilently));
  }

  lemma GetAccountsLowers()
    ensures ForwardedName(GetAccounts) == LowerFirst(HandlerIdent(GetAccounts))
  {
    LowerFirstWhen(HandlerIdent(GetAccounts), ForwardedName(GetAccounts));
  }

  lemma RemoveAccountLowers()
    ensures ForwardedName(RemoveAccount) == LowerFirst(HandlerIdent(RemoveAccount))
  {
    LowerFirstWhen(HandlerIdent(RemoveAccount), ForwardedName(RemoveAccount));
  }

  lemma AcquirePrtSsoCookieLowers()
    ensures ForwardedName(AcquirePrtSsoCookie) == LowerFirst(HandlerIdent(AcquirePrtSsoCookie))
  {
    LowerFirstWhen(HandlerIdent(AcquirePrtSsoCookie), ForwardedName(AcquirePrtSsoCookie));
  }

  lemma GenerateSignedHttpRequestLowers()
    ensures ForwardedName(GenerateSignedHttpRequest) == LowerFirst(HandlerIdent(GenerateSignedHttpRequest))
  {
    LowerFirstWhen(HandlerIdent(GenerateSignedHttpRequest), ForwardedName(GenerateSignedHttpRequest));
  }

  lemma CancelInteractiveFlowLowers()
    ensures ForwardedName(CancelInteractiveFlow) == LowerFirst(HandlerIdent(CancelInteractiveFlow))
  {
    LowerFirstWhen(HandlerIdent(CancelInteractiveFlow), ForwardedName(CancelInteractiveFlow));
  }

  lemma GetLinuxBrokerVersionLowers()
    ensures ForwardedName(GetLinuxBrokerVersion) == LowerFirst(HandlerIdent(GetLinuxBrokerVersion))
  {
    LowerFirstWhen(HandlerIdent(GetLinuxBrokerVersion), ForwardedName(GetLinuxBrokerVersion));
  }

  lemma LowerFirstWhen(s: string, t: string)
    requires |s| > 0 && |t| > 0 && 'A' <= s[0] <= 'Z'
    requires t[0] as int == s[0] as int + 32 && t[1..] == s[1..]
    ensures t == LowerFirst(s)
  {
    assert t == [t[0]] + t[1..];
  }

  /** The table handed to the bus library's export: Go handler identifier
      to wire method name. It sends each handler's identifier to the name
      that handler forwards. */
  function MethodMap(): (m: map<string, string>)
    ensures forall h: Handler :: HandlerIdent(h) in m && m[HandlerIdent(h)] == ForwardedName(h)
  {
    var m := map[
      "AcquireTokenInteractively" := "acquireTokenInteractively",
      "AcquireTokenSilently" := "acquireTokenSilently",
      "GetAccounts" := "getAccounts",
      "RemoveAccount" := "removeAccount",
      "AcquirePrtSsoCookie" := "acquirePrtSsoCookie",
      "GenerateSignedHttpRequest" := "generateSignedHttpRequest",
      "CancelInteractiveFlow" := "cancelInteractiveFlow",
      "GetLinuxBrokerVersion" := "getLinuxBrokerVersion"
    ];
    m
  }

  /** The table has one entry per handler and no other. */
  lemma MethodMapSize()
    ensures |MethodMap()| == |AllHandlers|
  {
  }

  /** Exporting the table sends each wire method name to exactly one
      handler: the entries are Broker1 method names, pairwise distinct, and
      each is its handler's identifier with the first letter lower-cased. */
  lemma MethodMapDispatch()
    ensures forall h: Handler :: MethodMap()[HandlerIdent(h)] == LowerFirst(HandlerIdent(h))
    ensures forall h: Handler :: MethodMap()[HandlerIdent(h)] in BrokerMethods()
    ensures forall h1: Handler, h2: Handler :: h1 != h2 ==> MethodMap()[HandlerIdent(h1)] != MethodMap()[HandlerIdent(h2)]
  {
    var m := MethodMap();
    forall h: Handler ensures m[HandlerIdent(h)] == LowerFirst(HandlerIdent(h)) {
      ForwardedNameIsLowerFirst(h);
    }
    forall h1: Handler, h2: Handler | h1 != h2 ensures m[HandlerIdent(h1)] != m[HandlerIdent(h2)] {
      assert HandlerIndex(h1) != HandlerIndex(h2);
    }
  }

  /** Every handler has a distinct identifier. */
  lemma HandlerIdentInjective()
    ensures forall h1: Handler, h2: Handler :: h1 != h2 ==> HandlerIdent(h1) != HandlerIdent(h2)
  {
    forall h1: Handler, h2: Handler | h1 != h2 ensures HandlerIdent(h1) != HandlerIdent(h2) {
      MethodMapDispatch();
    }
  }

  // ---------------------------------------------------------------------
  // Introspection

  datatype Direction = In | Out

  datatype ArgDesc = ArgDesc(name: string, signature: string, direction: Direction)

  datatype MethodDesc = MethodDesc(name: string, args: seq<ArgDesc>)

  datatype InterfaceDesc = InterfaceDesc(name: string, methods: seq<MethodDesc>)

  /** The argument list every Broker1 method declares. */
  function Broker1Args(): (r: seq<ArgDesc>)
    ensures |r| == 4
    ensures r[0].name == "protocolVersion" && r[1].name == "correlationID" && r[2].name == "requestJSON"
    ensures forall k :: 0 <= k < 3 ==> r[k].direction == In && r[k].signature == "s"
    ensures r[3] == ArgDesc("responseJSON", "s", Out)
  {
    [ ArgDesc("protocolVersion", "s", In),
      ArgDesc("correlationID", "s", In),
      ArgDesc("requestJSON", "s", In),
      ArgDesc("responseJSON", "s", Out) ]
  }

  /** The interface described by the introspection document: it declares
      exactly the Broker1 methods, in order, each with three string inputs
      and one string output. */
  function Broker1Interface(): (d: InterfaceDesc)
    ensures d.name == InterfaceName
    ensures |d.methods| == |BrokerMethods()|
    ensures forall i :: 0 <= i < |d.methods| ==> d.methods[i].name == BrokerMethods()[i]
    ensures forall i :: 0 <= i < |d.methods| ==> d.methods[i].args == Broker1Args()
    ensures forall i :: 0 <= i < |d.methods| ==> |d.methods[i].args| == 4
    ensures forall i, k :: 0 <= i < |d.methods| && 0 <= k < 3 ==>
      d.methods[i].args[k].direction == In && d.methods[i].args[k].signature == "s"
    ensures forall i :: 0 <= i < |d.methods| ==>
      d.methods[i].args[3] == ArgDesc("responseJSON", "s", Out)
  {
    var names := BrokerMethods();
    var args := Broker1Args();
    InterfaceDesc(InterfaceName, seq(|names|, i requires 0 <= i < |names| => MethodDesc(names[i], args)))
  }

  function DirectionXml(d: Direction): string {
    match d
    case In => "in"
    case Out => "out"
  }

  function ArgXml(a: ArgDesc): string {
    "      <arg name=\"" + a.name + "\" type=\"" + a.signature + "\" direction=\""
    + DirectionXml(a.direction) + "\"/>\n"
  }

  function ArgsXml(args: seq<ArgDesc>): string
    decreases |args|
  {
    if |args| == 0 then "" else ArgXml(args[0]) + ArgsXml(args[1..])
  }

  function MethodOpenTag(name: string): string {
    "    <method name=\"" + name + "\">\n"
  }

  function MethodXml(m: MethodDesc): string {
    MethodOpenTag(m.name) + ArgsXml(m.args) + "    </method>\n"
  }

  function MethodsXml(ms: seq<MethodDesc>): string
    decreases |ms|
  {
    if |ms| == 0 then "" else MethodXml(ms[0]) + MethodsXml(ms[1..])
  }

  /** An interface rendered as an introspection document, followed by
      further interface text. */
  function NodeXml(d: InterfaceDesc, more: string): string {
    "<node>\n  <interface name=\"" + d.name + "\">\n"
    + MethodsXml(d.methods)
    + "  </interface>\n  " + more + "\n</node>"
  }

  /** The introspection document served for the object path. The bus
      library's own description of org.freedesktop.DBus.Introspectable is
      not part of this model and is passed in as `introspectableXml`. */
  function IntrospectXml(introspectableXml: string): string {
    NodeXml(Broker1Interface(), introspectableXml)
  }

  /** The rendering of a method list holds the element of each method. */
  lemma {:induction false} MethodsXmlHoldsEach(ms: seq<MethodDesc>, i: nat)
    requires i < |ms|
    ensures Contains(MethodsXml(ms), MethodXml(ms[i]))
    decreases i
  {
    if i == 0 {
      ContainsMiddle("", MethodXml(ms[0]), MethodsXml(ms[1..]));
      assert MethodsXml(ms) == "" + MethodXml(ms[0]) + MethodsXml(ms[1..]);
    } else {
      MethodsXmlHoldsEach(ms[1..], i - 1);
      ContainsWithin(MethodXml(ms[0]), MethodsXml(ms[1..]), "", MethodXml(ms[i]));
      assert MethodsXml(ms) == MethodXml(ms[0]) + MethodsXml(ms[1..]) + "";
    }
  }

  /** The rendering of an argument list holds the line of each argument. */
  lemma {:induction false} ArgsXmlHoldsEach(args: seq<ArgDesc>, k: nat)
    requires k < |args|
    ensures Contains(ArgsXml(args), ArgXml(args[k]))
    decreases k
  {
    if k == 0 {
      ContainsMiddle("", ArgXml(args[0]), ArgsXml(args[1..]));
      assert ArgsXml(args) == "" + ArgXml(args[0]) + ArgsXml(args[1..]);
    } else {
      ArgsXmlHoldsEach(args[1..], k - 1);
      ContainsWithin(ArgXml(args[0]), ArgsXml(args[1..]), "", ArgXml(args[k]));
      assert ArgsXml(args) == ArgXml(args[0]) + ArgsXml(args[1..]) + "";
    }
  }

  /** A method's element opens with its tag and holds each argument's
      line. */
  lemma MethodXmlHoldsArgs(m: MethodDesc, k: nat)
    requires k < |m.args|
    ensures Contains(MethodXml(m), MethodOpenTag(m.name))
    ensures Contains(MethodXml(m), ArgXml(m.args[k]))
  {
    var close := "    </method>\n";
    ContainsMiddle("", MethodOpenTag(m.name), ArgsXml(m.args) + close);
    assert MethodXml(m) == "" + MethodOpenTag(m.name) + (ArgsXml(m.args) + close);
    ArgsXmlHoldsEach(m.args, k);
    ContainsWithin(MethodOpenTag(m.name), ArgsXml(m.args), close, ArgXml(m.args[k]));
  }

  lemma NodeXmlHoldsEach(d: InterfaceDesc, more: string, i: nat)
    requires i < |d.methods|
    ensures Contains(NodeXml(d, more), MethodXml(d.methods[i]))
  {
    MethodsXmlHoldsEach(d.methods, i);
    var pre := "<node>\n  <interface name=\"" + d.name + "\">\n";
    var post := "  </interface>\n  " + more + "\n</node>";
    assert NodeXml(d, more) == pre + MethodsXml(d.methods) + post;
    ContainsWithin(pre, MethodsXml(d.methods), post, MethodXml(d.methods[i]));
  }

  /** The document holds, for every Broker1 method, an element that opens
      with the method's tag and declares the four Broker1 arguments. */
  lemma IntrospectDeclaresEveryMethod(introspectableXml: string, i: nat)
    requires i < |BrokerMethods()|
    ensures Contains(IntrospectXml(introspectableXml), MethodXml(MethodDesc(BrokerMethods()[i], Broker1Args())))
    ensures Contains(IntrospectXml(introspectableXml), MethodOpenTag(BrokerMethods()[i]))
  {
    var d := Broker1Interface();
    var m := MethodDesc(BrokerMethods()[i], Broker1Args());
    assert d.methods[i] == m;
    NodeXmlHoldsEach(d, introspectableXml, i);
    MethodXmlHoldsArgs(m, 0);
    ContainsTransitive(IntrospectXml(introspectableXml), MethodXml(m), MethodOpenTag(m.name));
  }

  /** Every argument of every Broker1 method is declared inside that
      method's element of the document. */
  lemma IntrospectDeclaresEveryArg(introspectableXml: string, i: nat, k: nat)
    requires i < |BrokerMethods()| && k < |Broker1Args()|
    ensures var m := MethodDesc(BrokerMethods()[i], Broker1Args());
      Contains(IntrospectXml(introspectableXml), MethodXml(m)) && Contains(MethodXml(m), ArgXml(Broker1Args()[k]))
    ensures Contains(IntrospectXml(introspectableXml), ArgXml(Broker1Args()[k]))
  {
    var m := MethodDesc(BrokerMethods()[i], Broker1Args());
    IntrospectDeclaresEveryMethod(introspectableXml, i);
    MethodXmlHoldsArgs(m, k);
    ContainsTransitive(IntrospectXml(introspectableXml), MethodXml(m), ArgXml(Broker1Args()[k]));
  }
}

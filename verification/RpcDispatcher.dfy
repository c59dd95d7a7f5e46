/** Service registration and the dispatch of a request message to a handler. */
module RpcDispatchers {
  import opened Bytes
  import opened Options
  import opened TinyPbFrames

  type Name = seq<byte>

  const DOT: byte := 46

  const ERROR_FAILED_DESERIALIZE: uint32 := 10000003
  const ERROR_FAILED_SERIALIZE: uint32 := 10000004
  const ERROR_SERVICE_NOT_FOUND: uint32 := 10000008
  const ERROR_METHOD_NOT_FOUND: uint32 := 10000009
  const ERROR_PARSE_SERVICE_NAME: uint32 := 10000010

  function Text(s: string): (b: seq<byte>)
    ensures |b| == |s| && forall k :: 0 <= k < |s| ==> b[k] == s[k] as int % 256
  {
    seq(|s|, i requires 0 <= i < |s| => s[i] as int % 256)
  }

  /** What a handler makes of the request bytes: they do not parse, the response does not serialize
      (and leaves some bytes behind), a serialized response, or no answer because the handler never
      ran the closure it was given. */
  datatype Invocation = Rejected | Unserializable(left: seq<byte>) | Replied(pbData: seq<byte>) | Silent

  type Handler = seq<byte> -> Invocation

  datatype Service = Service(fullName: Name, methods: map<Name, Handler>)

  type Registry = map<Name, Service>

  // ---------------------------------------------------------------- names

  function FirstDot(s: Name): (i: nat)
    ensures i <= |s| && DOT !in s[..i] && (i < |s| ==> s[i] == DOT)
  {
    if s == [] || s[0] == DOT then 0 else
      var k := FirstDot(s[1..]);
      assert s[..k + 1] == [s[0]] + s[1..][..k];
      k + 1
  }

  /** The part before the first '.' names the service, everything behind it the method. */
  function ParseServiceFullName(fullName: Name): Option<(Name, Name)> {
    var i := FirstDot(fullName);
    if i == |fullName| then None else Some((fullName[..i], fullName[i + 1..]))
  }

  function Qualified(service: Name, rpc: Name): Name {
    service + [DOT] + rpc
  }

  lemma {:induction false} FirstDotIsFirst(before: Name, after: Name)
    requires DOT !in before
    ensures FirstDot(before + [DOT] + after) == |before|
  {
    if before != [] {
      assert (before + [DOT] + after)[1..] == before[1..] + [DOT] + after;
      FirstDotIsFirst(before[1..], after);
    }
  }

  /** Splitting is the inverse of qualifying exactly for services whose own name has no '.'. */
  lemma {:induction false} QualifiedNameSplits(service: Name, rpc: Name)
    ensures ParseServiceFullName(Qualified(service, rpc)) == Some((service, rpc)) <==> DOT !in service
  {
    var s := Qualified(service, rpc);
    if DOT !in service {
      FirstDotIsFirst(service, rpc);
      assert s[..|service|] == service && s[|service| + 1..] == rpc;
    }
  }

  /** A name splits unless it holds no '.' at all, and splitting loses nothing. */
  lemma {:induction false} SplitNameQualifies(fullName: Name)
    ensures ParseServiceFullName(fullName) == None <==> DOT !in fullName
    ensures forall s, r :: ParseServiceFullName(fullName) == Some((s, r)) ==> Qualified(s, r) == fullName
  {
    var i := FirstDot(fullName);
    assert fullName == fullName[..i] + fullName[i..];
  }

  /** The separator is a full stop, and the codes are those that clients are told. */
  lemma {:induction false} CodesOnTheWire()
    ensures Text(".") == [DOT]
    ensures ERROR_FAILED_DESERIALIZE == 10000003 && ERROR_FAILED_SERIALIZE == 10000004
    ensures ERROR_SERVICE_NOT_FOUND == 10000008 && ERROR_METHOD_NOT_FOUND == 10000009
    ensures ERROR_PARSE_SERVICE_NAME == 10000010
  {
  }

  // ---------------------------------------------------------------- dispatch

  function Blank(req: Message): Message {
    Message(req.msgId, req.methodName, 0, [], [], 0, 0, 0, 0)
  }

  function WithError(m: Message, errCode: uint32, errInfo: seq<byte>): Message {
    m.(errCode := errCode, errInfo := errInfo, errInfoLen := Wrap32(|errInfo|))
  }

  function Reply(req: Message, outcome: Invocation): Message {
    match outcome
    case Rejected => WithError(Blank(req), ERROR_FAILED_DESERIALIZE, Text("deserialize error"))
    case Unserializable(left) =>
      WithError(Blank(req).(pbData := left), ERROR_FAILED_SERIALIZE, Text("serialize error"))
    case Replied(pbData) => Blank(req).(pbData := pbData)
    case Silent => Blank(req)
  }

  function Dispatched(services: Registry, req: Message): Message {
    match ParseServiceFullName(req.methodName)
    case None => WithError(Blank(req), ERROR_PARSE_SERVICE_NAME, Text("parse service name error"))
    case Some((service, rpc)) =>
      if service !in services then WithError(Blank(req), ERROR_SERVICE_NOT_FOUND, Text("service not found"))
      else if rpc !in services[service].methods then
        WithError(Blank(req), ERROR_METHOD_NOT_FOUND, Text("method not found"))
      else Reply(req, services[service].methods[rpc](req.pbData))
  }

  /** Every response carries the id and the method name of its request, and before any handler is asked
      its error code and text tell what is wrong with the name. */
  lemma {:induction false} ResponseTellsTheCause(services: Registry, req: Message)
    ensures var resp := Dispatched(services, req);
            && resp.msgId == req.msgId && resp.methodName == req.methodName
            && (resp.errCode == ERROR_PARSE_SERVICE_NAME <==> DOT !in req.methodName)
            && (resp.errCode == ERROR_SERVICE_NOT_FOUND <==>
                  exists s, r :: req.methodName == Qualified(s, r) && DOT !in s && s !in services)
            && (resp.errCode == ERROR_METHOD_NOT_FOUND <==>
                  exists s, r :: req.methodName == Qualified(s, r) && DOT !in s
                                 && s in services && r !in services[s].methods)
    ensures var resp := Dispatched(services, req);
            && (resp.errCode == ERROR_PARSE_SERVICE_NAME ==> resp.errInfo == Text("parse service name error"))
            && (resp.errCode == ERROR_SERVICE_NOT_FOUND ==> resp.errInfo == Text("service not found"))
            && (resp.errCode == ERROR_METHOD_NOT_FOUND ==> resp.errInfo == Text("method not found"))
            && (resp.errCode in {ERROR_PARSE_SERVICE_NAME, ERROR_SERVICE_NOT_FOUND, ERROR_METHOD_NOT_FOUND} ==>
                  resp.pbData == [] && resp.errInfoLen == Wrap32(|resp.errInfo|))
  {
    hide Text;
    SplitNameQualifies(req.methodName);
    forall s, r | req.methodName == Qualified(s, r) && DOT !in s
      ensures ParseServiceFullName(req.methodName) == Some((s, r))
    {
      QualifiedNameSplits(s, r);
    }
  }

  /** A registered method is run, on the request's own bytes, under its qualified name. */
  lemma {:induction false} RegisteredMethodIsRun(services: Registry, service: Service, rpc: Name, req: Message)
    requires DOT !in service.fullName && rpc in service.methods
    requires service.fullName in services && services[service.fullName] == service
    requires req.methodName == Qualified(service.fullName, rpc)
    ensures Dispatched(services, req) == Reply(req, service.methods[rpc](req.pbData))
    ensures var resp, outcome := Dispatched(services, req), service.methods[rpc](req.pbData);
            && (outcome.Replied? ==> resp.errCode == 0 && resp.errInfo == [] && resp.pbData == outcome.pbData)
            && (outcome == Rejected ==> resp.errCode == ERROR_FAILED_DESERIALIZE && resp.pbData == []
                                        && resp.errInfo == Text("deserialize error"))
            && (outcome.Unserializable? ==> resp.errCode == ERROR_FAILED_SERIALIZE && resp.pbData == outcome.left
                                            && resp.errInfo == Text("serialize error"))
            && (outcome == Silent ==> resp.errCode == 0 && resp.pbData == [] && resp.errInfo == [])
  {
    QualifiedNameSplits(service.fullName, rpc);
  }

  /** A service whose name holds a '.' is never looked up: registering it changes no answer at all. */
  lemma {:induction false} DottedServiceIsInvisible(services: Registry, service: Service, req: Message)
    requires DOT in service.fullName
    ensures Dispatched(services[service.fullName := service], req) == Dispatched(services, req)
  {
    var i := FirstDot(req.methodName);
    assert req.methodName[..i] != service.fullName;
  }

  class RpcDispatcher {
    var services: Registry

    constructor ()
      ensures services == map[]
    {
      services := map[];
    }

    method RegisterService(service: Service)
      modifies this
      ensures services == old(services)[service.fullName := service]
    {
      services := services[service.fullName := service];
    }

    method SetTinyPBError(m: Message, errCode: uint32, errInfo: seq<byte>) returns (failed: Message)
      ensures failed == WithError(m, errCode, errInfo)
    {
      failed := m.(errCode := errCode);
      failed := failed.(errInfo := errInfo);
      failed := failed.(errInfoLen := Wrap32(|errInfo|));
    }

    method Dispatch(req: Message) returns (resp: Message)
      ensures resp == Dispatched(services, req)
    {
      resp := Message([], [], 0, [], [], 0, 0, 0, 0);
      resp := resp.(msgId := req.msgId);
      resp := resp.(methodName := req.methodName);
      var parsed := ParseServiceFullName(req.methodName);
      if parsed == None {
        resp := SetTinyPBError(resp, ERROR_PARSE_SERVICE_NAME, Text("parse service name error"));
        return;
      }
      var (serviceName, rpcName) := parsed.value;
      if serviceName !in services {
        resp := SetTinyPBError(resp, ERROR_SERVICE_NOT_FOUND, Text("service not found"));
        return;
      }
      var service := services[serviceName];
      if rpcName !in service.methods {
        resp := SetTinyPBError(resp, ERROR_METHOD_NOT_FOUND, Text("method not found"));
        return;
      }
      match service.methods[rpcName](req.pbData) {
        case Rejected =>
          resp := SetTinyPBError(resp, ERROR_FAILED_DESERIALIZE, Text("deserialize error"));
        case Unserializable(left) =>
          resp := SetTinyPBError(resp.(pbData := left), ERROR_FAILED_SERIALIZE, Text("serialize error"));
        case Replied(pbData) =>
          resp := resp.(pbData := pbData, errCode := 0, errInfo := []);
        case Silent =>
      }
    }
  }
}

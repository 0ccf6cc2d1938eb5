/** The wrapper that gives every mutation of a device its freshness and identity guards. */
module GuardedOperation {
  import opened Common

  datatype Method = GET | POST | PUT | PATCH | DELETE

  datatype Precondition = Precondition(path: string, query: Option<string>, bodySha256: string)

  datatype Request = Request(
    verb: Method,
    path: string,
    query: Option<string>,
    body: string,
    requestId: Option<string>,
    expectedServerInstanceId: Option<string>,
    resourcePrecondition: Option<Precondition>)

  /** A property of a decoded body: nullish, not a string, or a string. */
  datatype Property = Nullish | NotText | Text(s: string)

  datatype Reply =
    | Rejected
    | Response(snakeId: Property, camelId: Property, bodySha256: Option<string>)

  datatype Error = NoIdentity | NoConfigHash | TransportFailed

  datatype Outcome = Completed(reply: Reply) | Failed(error: Error)

  /** One request on the wire and what came back. */
  datatype Exchange = Exchange(request: Request, reply: Reply)

  // ----- Paths and identities

  /** White space as String.prototype.trim strips it. */
  predicate IsSpace(c: char) {
    var n := c as int;
    9 <= n <= 13 || n == 32 || n == 0xA0 || n == 0x1680 || 0x2000 <= n <= 0x200A || n == 0x2028 || n == 0x2029
    || n == 0x202F || n == 0x205F || n == 0x3000 || n == 0xFEFF
  }

  function DropSlashes(s: string): (r: string)
    ensures r == "" || r[0] != '/'
  {
    if s != "" && s[0] == '/' then DropSlashes(s[1..]) else s
  }

  function NormalizedDevicePath(path: string): string {
    DropSlashes(Trim(path, IsSpace))
  }

  predicate IsDeviceMutation(request: Request) {
    !(request.verb == GET || (request.verb == POST && NormalizedDevicePath(request.path) == "api/curve"))
  }

  predicate IsConfigWrite(request: Request) {
    request.verb == PUT && NormalizedDevicePath(request.path) == "api/config"
  }

  /** A present, non-empty string. */
  predicate Truthy(s: Option<string>) {
    s.Some? && s.value != ""
  }

  function AsNonEmptyString(p: Property): (r: Option<string>)
    ensures r.Some? ==> r.value != ""
  {
    if p.Text? && Trim(p.s, IsSpace) != "" then Some(Trim(p.s, IsSpace)) else None
  }

  /** server_instance_id unless nullish, else serverInstanceId. */
  function ReportedIdentity(reply: Reply): (r: Option<string>)
    requires reply.Response?
    ensures r.Some? ==> r.value != ""
  {
    AsNonEmptyString(if reply.snakeId.Nullish? then reply.camelId else reply.snakeId)
  }

  function Get(path: string, query: Option<string>): Request {
    Request(GET, path, query, "", None, None, None)
  }

  // ----- The contract of a run

  /** Equal but for the three guard fields. */
  predicate SamePayload(a: Request, b: Request) {
    a.verb == b.verb && a.path == b.path && a.query == b.query && a.body == b.body
  }

  /** The precondition was supplied, or hashed from a read of the same query in this run. */
  ghost predicate PreconditionJustified(request: Request, sent: Request, exchanges: seq<Exchange>) {
    && sent.resourcePrecondition.Some?
    && (sent.resourcePrecondition == request.resourcePrecondition
        || exists e :: e in exchanges && e.request == Get("api/config", request.query) && e.reply.Response?
             && e.reply.bodySha256.Some? && e.reply.bodySha256.value != ""
             && sent.resourcePrecondition == Some(Precondition("api/config", request.query, e.reply.bodySha256.value)))
  }

  /** The identity was supplied, or reported by a read of the state in this run. */
  ghost predicate IdentityJustified(request: Request, sent: Request, exchanges: seq<Exchange>) {
    && Truthy(sent.expectedServerInstanceId)
    && (sent.expectedServerInstanceId == request.expectedServerInstanceId
        || exists e :: e in exchanges && e.request == Get("api/state", None) && e.reply.Response?
             && sent.expectedServerInstanceId == ReportedIdentity(e.reply))
  }

  /** What may be on the wire when a request is run: reads first, and the request itself, guarded, last. */
  ghost predicate GuardedRun(request: Request, freshId: string, exchanges: seq<Exchange>) {
    && |exchanges| <= 3
    && (forall i :: 0 <= i < |exchanges| - 1 ==> exchanges[i].request.verb == GET)
    && (forall e :: e in exchanges && IsDeviceMutation(e.request) ==>
          && SamePayload(e.request, request)
          && e.request.requestId == Some(if request.requestId.Some? then request.requestId.value else freshId)
          && IdentityJustified(request, e.request, exchanges)
          && (IsConfigWrite(e.request) ==> PreconditionJustified(request, e.request, exchanges)))
  }

  /** The transport: replies are arbitrary, the log records what was sent. */
  class Transport {
    var log: seq<Exchange>

    constructor ()
      ensures log == []
    {
      log := [];
    }

    method Send(request: Request) returns (reply: Reply)
      modifies this
      ensures log == old(log) + [Exchange(request, reply)]
    {
      reply := *;
      log := log + [Exchange(request, reply)];
    }
  }

  function Result(reply: Reply): Outcome {
    if reply.Rejected? then Failed(TransportFailed) else Completed(reply)
  }

  predicate NeedsHash(request: Request) {
    IsConfigWrite(request) && request.resourcePrecondition.None?
  }

  /** The request with its guards. */
  function WithGuards(
      request: Request, freshId: string, identity: string, precondition: Option<Precondition>): Request
  {
    request.(
      requestId := Some(if request.requestId.Some? then request.requestId.value else freshId),
      expectedServerInstanceId := Some(identity),
      resourcePrecondition := precondition)
  }

  /** The last exchange: the request as given, and the outcome its reply makes. */
  predicate Ends(request: Request, exchanges: seq<Exchange>, outcome: Outcome) {
    |exchanges| == 1 && exchanges[0].request == request && outcome == Result(exchanges[0].reply)
  }

  /** With the identity at hand: a write of the configuration without a precondition first reads the same
      configuration, and goes out guarded with its hash, or not at all. */
  predicate IdentifiedRun(
      request: Request, freshId: string, identity: string, exchanges: seq<Exchange>, outcome: Outcome)
  {
    if !NeedsHash(request) then
      Ends(WithGuards(request, freshId, identity, request.resourcePrecondition), exchanges, outcome)
    else
      && exchanges != [] && exchanges[0].request == Get("api/config", request.query)
      && var reply := exchanges[0].reply;
         if reply.Rejected? then |exchanges| == 1 && outcome == Failed(TransportFailed)
         else if !Truthy(reply.bodySha256) then |exchanges| == 1 && outcome == Failed(NoConfigHash)
         else
           var precondition := Precondition("api/config", request.query, reply.bodySha256.value);
           Ends(WithGuards(request, freshId, identity, Some(precondition)), exchanges[1..], outcome)
  }

  /** What is on the wire when a request is run, and the outcome the replies make: a read-only request goes
      out alone and unchanged; a mutation without an identity first reads the state. */
  predicate ExactRun(request: Request, freshId: string, exchanges: seq<Exchange>, outcome: Outcome) {
    if !IsDeviceMutation(request) then Ends(request, exchanges, outcome)
    else if Truthy(request.expectedServerInstanceId) then
      IdentifiedRun(request, freshId, request.expectedServerInstanceId.value, exchanges, outcome)
    else
      && exchanges != [] && exchanges[0].request == Get("api/state", None)
      && var reply := exchanges[0].reply;
         if reply.Rejected? then |exchanges| == 1 && outcome == Failed(TransportFailed)
         else if ReportedIdentity(reply).None? then |exchanges| == 1 && outcome == Failed(NoIdentity)
         else IdentifiedRun(request, freshId, ReportedIdentity(reply).value, exchanges[1..], outcome)
  }

  /** For every request and all replies, exactly the exchanges and the outcome that these make. */
  method RunGuardedDeviceOperation(request: Request, transport: Transport, freshId: string)
    returns (outcome: Outcome)
    modifies transport
    ensures old(transport.log) <= transport.log
    ensures ExactRun(request, freshId, transport.log[|old(transport.log)|..], outcome)
  {
    ghost var start := transport.log;
    if !IsDeviceMutation(request) {
      var plain := transport.Send(request);
      return Result(plain);
    }
    var identity := request.expectedServerInstanceId;
    if !Truthy(identity) {
      var reply := transport.Send(Get("api/state", None));
      if reply.Rejected? { return Failed(TransportFailed); }
      identity := ReportedIdentity(reply);
    }
    if !Truthy(identity) { return Failed(NoIdentity); }
    ghost var known := transport.log;
    var precondition := request.resourcePrecondition;
    if IsConfigWrite(request) && precondition.None? {
      var current := transport.Send(Get("api/config", request.query));
      if current.Rejected? { return Failed(TransportFailed); }
      if !Truthy(current.bodySha256) { return Failed(NoConfigHash); }
      precondition := Some(Precondition("api/config", request.query, current.bodySha256.value));
    }
    ghost var asked := transport.log;
    var reply := transport.Send(WithGuards(request, freshId, identity.value, precondition));
    outcome := Result(reply);
    Continues(known, asked, transport.log);
    assert IdentifiedRun(request, freshId, identity.value, transport.log[|known|..], outcome);
    Continues(start, known, transport.log);
  }

  lemma Continues(start: seq<Exchange>, before: seq<Exchange>, log: seq<Exchange>)
    requires start <= before <= log
    ensures log[|start|..] == before[|start|..] + log[|before|..]
  {
  }

  // ----- What an exact run is worth

  /** Every mutation on the wire is guarded, and only reads go before it. */
  lemma ExactRunIsGuarded(request: Request, freshId: string, exchanges: seq<Exchange>, outcome: Outcome)
    requires ExactRun(request, freshId, exchanges, outcome)
    ensures GuardedRun(request, freshId, exchanges)
  {
    if IsDeviceMutation(request) {
      if Truthy(request.expectedServerInstanceId) {
        IdentifiedIsGuarded(request, freshId, request.expectedServerInstanceId.value, [], exchanges, outcome);
        assert [] + exchanges == exchanges;
      } else if |exchanges| > 1 {
        var read := exchanges[0];
        assert exchanges == [read] + exchanges[1..];
        IdentifiedIsGuarded(
          request, freshId, ReportedIdentity(read.reply).value, [read], exchanges[1..], outcome);
      }
    }
  }

  lemma IdentifiedIsGuarded(
      request: Request, freshId: string, identity: string, before: seq<Exchange>, exchanges: seq<Exchange>,
      outcome: Outcome)
    requires IsDeviceMutation(request) && IdentifiedRun(request, freshId, identity, exchanges, outcome)
    requires |before| <= 1 && (forall e :: e in before ==> e.request.verb == GET)
    requires IdentityJustified(request, request.(expectedServerInstanceId := Some(identity)), before)
    ensures GuardedRun(request, freshId, before + exchanges)
  {
    var all := before + exchanges;
    if !NeedsHash(request) {
      GuardsJustified(request, freshId, identity, request.resourcePrecondition, before, exchanges[0].reply);
      assert exchanges == [exchanges[0]];
    } else if |exchanges| == 2 {
      var read := exchanges[0];
      var precondition := Precondition("api/config", request.query, read.reply.bodySha256.value);
      assert (before + [read])[|before|] == read;
      assert forall e :: e in before ==> e in before + [read];
      GuardsJustified(request, freshId, identity, Some(precondition), before + [read], exchanges[1].reply);
      assert all == before + [read] + [exchanges[1]];
    } else {
      assert exchanges == [exchanges[0]];
    }
  }

  /** After its reads, the guarded request. */
  lemma GuardsJustified(
      request: Request, freshId: string, identity: string, precondition: Option<Precondition>,
      asked: seq<Exchange>, reply: Reply)
    requires IsDeviceMutation(request) && |asked| <= 2 && forall e :: e in asked ==> e.request.verb == GET
    requires IdentityJustified(request, request.(expectedServerInstanceId := Some(identity)), asked)
    requires IsConfigWrite(request) ==>
      PreconditionJustified(request, request.(resourcePrecondition := precondition), asked)
    ensures GuardedRun(
      request, freshId, asked + [Exchange(WithGuards(request, freshId, identity, precondition), reply)])
  {
    var sent := WithGuards(request, freshId, identity, precondition);
    var all := asked + [Exchange(sent, reply)];
    assert forall e :: e in asked ==> e in all;
    assert IdentityJustified(request, sent, all);
    assert IsConfigWrite(request) ==> PreconditionJustified(request, sent, all);
  }

  /** How each outcome comes about: transport failure exactly on a rejected exchange, which is the last; a
      missing identity or hash exactly on a read that answered without one; completion otherwise, with the
      reply to the request itself. */
  lemma OutcomeIff(request: Request, freshId: string, exchanges: seq<Exchange>, outcome: Outcome)
    requires ExactRun(request, freshId, exchanges, outcome)
    ensures exchanges != [] && forall i :: 0 <= i < |exchanges| - 1 ==> exchanges[i].reply.Response?
    ensures var last := exchanges[|exchanges| - 1];
      && (outcome == Failed(TransportFailed) <==> last.reply.Rejected?)
      && (outcome == Failed(NoIdentity) <==>
            && IsDeviceMutation(request) && !Truthy(request.expectedServerInstanceId) && |exchanges| == 1
            && last.reply.Response? && ReportedIdentity(last.reply).None?)
      && (outcome == Failed(NoConfigHash) <==>
            && NeedsHash(request) && last.request == Get("api/config", request.query)
            && last.reply.Response? && !Truthy(last.reply.bodySha256))
      && (outcome.Completed? ==> SamePayload(last.request, request) && outcome == Completed(last.reply))
  {
  }

  ghost predicate AllSlashes(s: string) {
    forall i :: 0 <= i < |s| ==> s[i] == '/'
  }

  /** The path reads as the name: up to white space around it and slashes in front. */
  ghost predicate ReadsAs(path: string, name: string) {
    exists a, slashes, b ::
      AllSpace(a, IsSpace) && AllSlashes(slashes) && AllSpace(b, IsSpace) && path == a + (slashes + name) + b
  }

  lemma {:induction false} DropSlashesIff(s: string, name: string)
    requires name != "" && name[0] != '/'
    ensures DropSlashes(s) == name <==> exists slashes :: AllSlashes(slashes) && s == slashes + name
  {
    if s == name {
      assert AllSlashes("") && s == "" + name;
    }
    if s != "" && s[0] == '/' {
      DropSlashesIff(s[1..], name);
      if slashes :| AllSlashes(slashes) && s[1..] == slashes + name {
        assert AllSlashes("/" + slashes) && s == ("/" + slashes) + name;
      }
      if slashes :| AllSlashes(slashes) && s == slashes + name {
        assert slashes != "";
        assert AllSlashes(slashes[1..]) && s[1..] == slashes[1..] + name;
      }
    }
  }

  /** A normalised path, told from the path itself. */
  lemma PathIff(path: string, name: string)
    requires name != "" && name[0] != '/' && Solid(name, IsSpace)
    ensures NormalizedDevicePath(path) == name <==> ReadsAs(path, name)
  {
    if NormalizedDevicePath(path) == name {
      var a, b := TrimSplits(path, IsSpace);
      DropSlashesIff(Trim(path, IsSpace), name);
      var slashes :| AllSlashes(slashes) && Trim(path, IsSpace) == slashes + name;
      assert path == a + (slashes + name) + b;
    }
    if a, slashes, b :|
      AllSpace(a, IsSpace) && AllSlashes(slashes) && AllSpace(b, IsSpace) && path == a + (slashes + name) + b
    {
      var core := slashes + name;
      assert core[0] == (if slashes == "" then name[0] else '/') && core[|core| - 1] == name[|name| - 1];
      TrimPadded(a, core, b, IsSpace);
      DropSlashesIff(core, name);
    }
  }

  /** Which requests are guarded at all: all but GET and the POST that previews a curve; and which of them
      write the configuration. */
  lemma DeviceMutationIff(request: Request)
    ensures IsDeviceMutation(request) <==>
      request.verb != GET && !(request.verb == POST && ReadsAs(request.path, "api/curve"))
    ensures IsConfigWrite(request) <==> request.verb == PUT && ReadsAs(request.path, "api/config")
  {
    PathIff(request.path, "api/curve");
    PathIff(request.path, "api/config");
  }

  /** A reported identity is the text of the first property that is not nullish, without white space around
      it; anything but a text, or a blank one, is none. */
  lemma IdentityIff(reply: Reply, id: string)
    requires reply.Response?
    ensures ReportedIdentity(reply) == Some(id) <==>
      var p := if reply.snakeId != Nullish then reply.snakeId else reply.camelId;
      && p.Text? && id != "" && Solid(id, IsSpace)
      && exists a, b :: Padded(p.s, a, id, b, IsSpace)
  {
    var p := if reply.snakeId != Nullish then reply.snakeId else reply.camelId;
    if p.Text? {
      TrimIff(p.s, id, IsSpace);
    }
  }

  // ----- Against the service's own checks

  /** The admin API's demands on a request, for a live identity and live hashes. */
  ghost predicate ServiceAccepts(request: Request, liveIdentity: string, liveHash: string) {
    IsDeviceMutation(request) ==>
      && request.requestId.Some?
      && request.expectedServerInstanceId == Some(liveIdentity)
      && (IsConfigWrite(request) ==>
            request.resourcePrecondition == Some(Precondition("api/config", request.query, liveHash)))
  }

  /** The identity was supplied with the request, or reported by a read of the state in this run. */
  ghost predicate IdentitySource(request: Request, exchanges: seq<Exchange>, identity: string) {
    || request.expectedServerInstanceId == Some(identity)
    || exists e :: e in exchanges && e.request == Get("api/state", None) && e.reply.Response?
         && ReportedIdentity(e.reply) == Some(identity)
  }

  /** The precondition was supplied with the request, or hashed from a read of the configuration with the
      same query in this run. */
  ghost predicate PreconditionSource(request: Request, exchanges: seq<Exchange>, p: Precondition) {
    || request.resourcePrecondition == Some(p)
    || exists e :: e in exchanges && e.request == Get("api/config", request.query) && e.reply.Response?
         && e.reply.bodySha256.Some? && p == Precondition("api/config", request.query, e.reply.bodySha256.value)
  }

  /** Accepted while the server is the named one and the configuration is the one that was hashed. */
  ghost predicate AcceptedWhileLive(sent: Request, query: Option<string>, identity: string, p: Precondition) {
    forall liveIdentity, liveHash :: ServiceAccepts(sent, liveIdentity, liveHash)
      <==> identity == liveIdentity && p == Precondition("api/config", query, liveHash)
  }

  /** An illustration of what RunGuardedDeviceOperation ensures: a configuration write of such a run is
      accepted exactly while the identity and the configuration it was guarded with, supplied by the caller
      or read in the run, are the live ones: a newer edit is never overwritten. */
  lemma GuardedWriteIsFresh(request: Request, freshId: string, exchanges: seq<Exchange>, sent: Request)
    requires GuardedRun(request, freshId, exchanges)
    requires (exists e :: e in exchanges && e.request == sent) && IsConfigWrite(sent)
    ensures exists identity, p ::
      && IdentitySource(request, exchanges, identity) && PreconditionSource(request, exchanges, p)
      && AcceptedWhileLive(sent, request.query, identity, p)
  {
    var s :| s in exchanges && s.request == sent;
    assert IsDeviceMutation(s.request);
    assert PreconditionJustified(request, sent, exchanges) && IdentityJustified(request, sent, exchanges);
    var identity, p := sent.expectedServerInstanceId.value, sent.resourcePrecondition.value;
    assert IdentitySource(request, exchanges, identity);
    assert PreconditionSource(request, exchanges, p);
    assert AcceptedWhileLive(sent, request.query, identity, p);
  }
}

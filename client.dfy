/**
 * The client object: its cache of connections, the leader it currently
 * sends to, issuing a request, and handling the transport's answer,
 * including the leader's redirect.
 */
module Client {
  import opened Wrappers
  import opened Json
  import opened Decimal
  import opened Params
  import opened EtcdStatus
  import opened Nodes
  import opened Decoders
  import opened Requests

  /** The host and port of a `Location` header; the port is -1 when it names none. */
  datatype Location = Location(host: string, port: int)

  /** What the transport hands back for a completed exchange. */
  datatype HttpResponse = HttpResponse(
    code: int,
    indexHeader: Option<string>,
    location: Option<Location>,
    body: Json,
    bodyText: string)

  /** The end of one attempt: a response for the operation, or the same request re-issued. */
  datatype Completion =
    | Completed(response: GenericResponse, status: Status)
    | Redirected(out: Outgoing)

  const NullResponseStatus := Status(UNKNOWN, "evhttp request callback returned a null")

  /** What a transport failure, such as a timeout, completes with: no body and index -1. */
  const NullCompletion := Completed(GenericResponse(JNull, -1), NullResponseStatus)

  /** The conversion of the parsed port to the 16-bit port `UpdateLeader` takes. */
  function ToPort(port: int): (p: Port)
    ensures 0 <= port < 0x1_0000 ==> p == port
    ensures port == -1 ==> p == 0xFFFF
  {
    port % 0x1_0000
  }

  /**
   * A response that is not a redirect: its body, the `X-Etcd-Index`
   * header read with `atoll` (-1 when absent), and the status its code maps to.
   */
  function ResponseOutcome(r: HttpResponse): (c: Completion)
    ensures c.Completed? && c.response.body == r.body
    ensures r.indexHeader.None? ==> c.response.etcdIndex == -1
    ensures r.indexHeader.Some? ==> c.response.etcdIndex == Atoll(r.indexHeader.value)
    ensures c.status == StatusFromResponseCode(r.code, r.body, r.bodyText)
    ensures c.status.IsOk() <==> r.code == 200 || r.code == 201
    ensures !c.status.IsOk() ==> c.status.message == MessageFromJsonStatus(r.body, r.bodyText)
  {
    var index := if r.indexHeader.Some? then Atoll(r.indexHeader.value) else -1;
    Completed(GenericResponse(r.body, index), StatusFromResponseCode(r.code, r.body, r.bodyText))
  }

  /**
   * The store's answer to a read of `n` at index `etcdIndex` reaches the
   * `Get` callback as exactly that node and that index.
   */
  lemma GetThroughTransport(n: Node, etcdIndex: int, code: int, bodyText: string)
    requires IsPlain(n)
    requires code == 200 || code == 201
    ensures var c := ResponseOutcome(HttpResponse(code, Some(ToDecimal(etcdIndex)), None, NodeResponse(n, true), bodyText));
      GetRequestDone(c.status, c.response.body, c.response.etcdIndex) == GetReply(OkStatus, n, etcdIndex)
  {
    AtollToDecimal(etcdIndex);
    var c := ResponseOutcome(HttpResponse(code, Some(ToDecimal(etcdIndex)), None, NodeResponse(n, true), bodyText));
    assert c.status == OkStatus;
    GetRoundTrip(n, etcdIndex);
  }

  /** A failed response reaches every callback as its own status, and no value with it. */
  lemma FailureThroughTransport(r: HttpResponse)
    requires r.code != 200 && r.code != 201
    ensures var c := ResponseOutcome(r);
      && c.status.code == ErrorCodeForHttpResponseCode(r.code)
      && GetRequestDone(c.status, c.response.body, c.response.etcdIndex) == GetReply(c.status, InvalidNode(), -1)
      && CreateRequestDone(c.status, c.response.body) == IndexReply(c.status, -1)
      && CreateInQueueRequestDone(c.status, c.response.body) == KeyIndexReply(c.status, "", -1)
      && UpdateRequestDone(c.status, c.response.body) == IndexReply(c.status, -1)
      && ForceSetRequestDone(c.status, c.response.body) == IndexReply(c.status, -1)
      && DeleteRequestDone(c.status, c.response.etcdIndex) == IndexReply(c.status, -1)
      && GetAllReplies(c.status, c.response.body, c.response.etcdIndex) == [GetAllReply(c.status, [], -1)]
  {
  }

  class EtcdClient {
    const config: Config
    /** The transport's URI encoder, `evhttp_uriencode`. */
    const escape: string -> string
    /** One connection per endpoint ever talked to. */
    var conns: map<Endpoint, Conn>
    var leader: Option<Conn>
    /** The identity the next new connection receives. */
    var nextId: nat

    /** Each cached connection talks to its key, identities are unique, and the leader is cached. */
    ghost predicate Valid()
      reads this
    {
      && (forall e :: e in conns ==> conns[e].endpoint == e && conns[e].id < nextId)
      && (forall e1, e2 :: e1 in conns && e2 in conns && conns[e1].id == conns[e2].id ==> e1 == e2)
      && (leader.Some? ==> leader.value.endpoint in conns && conns[leader.value.endpoint] == leader.value)
    }

    /** A client whose initial leader is `host:port`. */
    constructor (host: string, port: Port, config: Config, escape: string -> string)
      ensures Valid()
      ensures this.config == config && this.escape == escape
      ensures conns == map[Endpoint(host, port) := Conn(0, Endpoint(host, port))]
      ensures leader == Some(Conn(0, Endpoint(host, port)))
    {
      this.config := config;
      this.escape := escape;
      conns := map[];
      leader := None;
      nextId := 0;
      new;
      var c := GetConnection(host, port);
      leader := Some(c);
    }

    /** A client with no leader yet. */
    constructor WithoutLeader(config: Config, escape: string -> string)
      ensures Valid()
      ensures this.config == config && this.escape == escape
      ensures conns == map[] && leader == None
    {
      this.config := config;
      this.escape := escape;
      conns := map[];
      leader := None;
      nextId := 0;
    }

    /** The cached connection to `host:port`, made and cached on first use. */
    method GetConnection(host: string, port: Port) returns (c: Conn)
      requires Valid()
      modifies this`conns, this`nextId
      ensures Valid()
      ensures var e := Endpoint(host, port);
        && e in conns && conns[e] == c
        && (e in old(conns) ==> c == old(conns)[e] && conns == old(conns) && nextId == old(nextId))
        && (e !in old(conns) ==> c == Conn(old(nextId), e) && conns == old(conns)[e := c]
                                 && nextId == old(nextId) + 1)
    {
      var e := Endpoint(host, port);
      if e !in conns {
        c := Conn(nextId, e);
        conns := conns[e := c];
        nextId := nextId + 1;
      } else {
        c := conns[e];
      }
    }

    function GetLeader(): (r: Option<Conn>)
      reads this
      requires Valid()
      ensures r.Some? ==> r.value.endpoint in conns && conns[r.value.endpoint] == r.value
    {
      leader
    }

    /** Makes the cached connection to `host:port` the leader. */
    method UpdateLeader(host: string, port: Port) returns (c: Conn)
      requires Valid()
      modifies this`conns, this`nextId, this`leader
      ensures Valid()
      ensures var e := Endpoint(host, port);
        && leader == Some(c) && c.endpoint == e
        && conns == old(conns)[e := c]
        && (e in old(conns) ==> c == old(conns)[e] && nextId == old(nextId))
        && (e !in old(conns) ==> c == Conn(old(nextId), e) && nextId == old(nextId) + 1)
    {
      c := GetConnection(host, port);
      leader := Some(c);
    }

    /** The transport's `Clone`: a new connection to the same endpoint, kept out of the cache. */
    method Clone(of: Conn) returns (clone: Conn)
      requires Valid()
      modifies this`nextId
      ensures Valid()
      ensures clone == Conn(old(nextId), of.endpoint) && nextId == old(nextId) + 1
      ensures forall e :: e in conns ==> conns[e] != clone
    {
      clone := Conn(nextId, of.endpoint);
      nextId := nextId + 1;
    }

    /**
     * Prepares an operation: the request with the consistency parameters
     * added, to be run on the leader known at this moment.
     */
    method Generic(key: string, params: map<string, string>, verb: Verb, separateConn: bool)
      returns (req: Request, runOn: Conn)
      requires Valid() && ValidKey(key) && leader.Some?
      ensures fresh(req)
      ensures req.verb == verb && req.path == KeysPath(key) && req.separateConn == separateConn
      ensures req.params == JoinedParams(ConsistencyParams(params, config.consistent, config.quorum), escape)
      ensures req.conn == None && req.req == None
      ensures runOn == leader.value
    {
      var modified := InjectConsistencyParams(params, config.consistent, config.quorum);
      req := new Request(verb, key, separateConn, modified, escape);
      runOn := GetLeader().value;
    }

    /** Runs `req` on `runOn`, cloning it first when the request needs its own connection. */
    method Start(req: Request, runOn: Conn, reqId: nat) returns (out: Outgoing)
      requires Valid()
      requires runOn.endpoint in conns && conns[runOn.endpoint] == runOn
      requires req.conn.None? && req.req.None?
      modifies this`nextId, req
      ensures Valid()
      ensures req.separateConn ==> req.conn == Some(Conn(old(nextId), runOn.endpoint)) && nextId == old(nextId) + 1
      ensures !req.separateConn ==> req.conn == Some(runOn) && nextId == old(nextId)
      ensures req.req == Some(reqId)
      ensures out == Outgoing(req.conn.value, req.verb, RequestUri(req.verb, req.path, req.params),
                              ContentType(req.verb), RequestBody(req.verb, req.params),
                              config.connectionTimeoutSeconds)
    {
      var clone := runOn;
      if req.separateConn {
        clone := Clone(runOn);
      }
      out := req.Run(runOn, clone, reqId, config.connectionTimeoutSeconds);
    }

    /**
     * The transport's answer to the attempt of `req`: a missing response
     * fails with UNKNOWN, a 307 moves the leader to its `Location` and
     * re-issues `req` there as `reqId`, anything else is decoded.
     */
    method RequestDone(response: Option<HttpResponse>, req: Request, reqId: nat) returns (c: Completion)
      requires Valid()
      requires response.Some? && response.value.code == 307 ==> response.value.location.Some?
      modifies this`conns, this`nextId, this`leader, req
      ensures Valid()
      ensures response.None? ==>
        && c == NullCompletion
        && conns == old(conns) && leader == old(leader) && req.conn == None && req.req == None
      ensures response.Some? && response.value.code != 307 ==>
        && c == ResponseOutcome(response.value)
        && conns == old(conns) && leader == old(leader) && req.conn == None && req.req == None
      ensures response.Some? && response.value.code == 307 ==>
        var loc := response.value.location.value;
        var e := Endpoint(loc.host, ToPort(loc.port));
        && e in conns && leader == Some(conns[e])
        && conns == old(conns)[e := conns[e]]
        && (e in old(conns) ==> conns == old(conns))
        && c.Redirected? && c.out.conn.endpoint == e
        && (!req.separateConn ==> c.out.conn == conns[e])
        && c.out.verb == req.verb
        && c.out.uri == RequestUri(req.verb, req.path, req.params)
        && c.out.contentType == ContentType(req.verb)
        && c.out.body == RequestBody(req.verb, req.params)
        && c.out.timeoutSeconds == config.connectionTimeoutSeconds
        && req.conn == Some(c.out.conn) && req.req == Some(reqId)
    {
      req.Reset();
      if response.None? {
        c := NullCompletion;
        return;
      }
      var r := response.value;
      if r.code == 307 {
        var loc := r.location.value;
        var newLeader := UpdateLeader(loc.host, ToPort(loc.port));
        var out := Start(req, newLeader, reqId);
        c := Redirected(out);
        return;
      }
      var index := -1;
      if r.indexHeader.Some? {
        index := Atoll(r.indexHeader.value);
      }
      c := Completed(GenericResponse(r.body, index), StatusFromResponseCode(r.code, r.body, r.bodyText));
    }
  }
}

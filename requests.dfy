/**
 * Building one request to the store: the consistency parameters added to
 * every request, the path, and where the joined parameters travel.
 */
module Requests {
  import opened Wrappers
  import opened Json
  import opened Decimal
  import opened Params
  import opened EtcdStatus

  datatype Verb = GET | PUT | POST | DELETE

  /**
   * The client's flags: `etcd_consistent`, `etcd_quorum`,
   * `etcd_watch_error_retry_delay_seconds` and
   * `etcd_connection_timeout_seconds`.
   */
  datatype Config = Config(
    consistent: bool,
    quorum: bool,
    watchRetryDelaySeconds: int,
    connectionTimeoutSeconds: int)

  const DefaultConfig := Config(true, true, 5, 10)

  type Port = p: int | 0 <= p < 0x1_0000

  datatype Endpoint = Endpoint(host: string, port: Port)

  /** A transport connection: its identity and the endpoint it talks to. */
  datatype Conn = Conn(id: nat, endpoint: Endpoint)

  /** The decoded body of a response and the store index it reported (-1 if unknown). */
  datatype GenericResponse = GenericResponse(body: Json, etcdIndex: int)

  /** What the client hands to the transport for one attempt. */
  datatype Outgoing = Outgoing(
    conn: Conn,
    verb: Verb,
    uri: string,
    contentType: Option<string>,
    body: string,
    timeoutSeconds: int)

  /**
   * The parameters `Generic` sends: the caller's, plus `consistent=true`
   * when that flag is on, plus `quorum=true` when that flag is on and the
   * request is not a long poll (has no `wait`).
   */
  function ConsistencyParams(params: map<string, string>, consistent: bool, quorum: bool): (r: map<string, string>)
    ensures consistent ==> "consistent" in r && r["consistent"] == "true"
    ensures quorum && "wait" !in params ==> "quorum" in r && r["quorum"] == "true"
    ensures r.Keys == params.Keys + (if consistent then {"consistent"} else {})
                                 + (if quorum && "wait" !in params then {"quorum"} else {})
    ensures forall k :: (k in params && !(consistent && k == "consistent")
                         && !(quorum && "wait" !in params && k == "quorum")) ==> r[k] == params[k]
  {
    var withConsistent := if consistent then params["consistent" := "true"] else params;
    if quorum && "wait" !in withConsistent then withConsistent["quorum" := "true"] else withConsistent
  }

  method InjectConsistencyParams(params: map<string, string>, consistent: bool, quorum: bool)
    returns (modified: map<string, string>)
    ensures modified == ConsistencyParams(params, consistent, quorum)
  {
    modified := params;
    if consistent {
      modified := modified["consistent" := "true"];
    }
    if quorum {
      if "wait" !in modified {
        modified := modified["quorum" := "true"];
      }
    }
  }

  /** A long poll never asks for a quorum read, whatever the flags say. */
  lemma WaitExcludesQuorum(params: map<string, string>, consistent: bool, quorum: bool)
    requires "wait" in params && "quorum" !in params
    ensures "quorum" !in ConsistencyParams(params, consistent, quorum)
  {
  }

  /** `Request`'s constructor CHECKs that the key is absolute. */
  predicate ValidKey(key: string) {
    key != [] && key[0] == '/'
  }

  function KeysPath(key: string): string {
    "/v2/keys" + key
  }

  predicate HasBody(verb: Verb) {
    verb == PUT || verb == POST
  }

  /** The URI of an attempt: PUT and POST send the parameters in the body, the rest after '?'. */
  function RequestUri(verb: Verb, path: string, params: string): string
  {
    if HasBody(verb) || params == "" then path else path + "?" + params
  }

  function RequestBody(verb: Verb, params: string): string
  {
    if HasBody(verb) then params else ""
  }

  function ContentType(verb: Verb): Option<string>
  {
    if HasBody(verb) then Some("application/x-www-form-urlencoded") else None
  }

  /** How the store splits a request target into path and query. */
  function PathOf(uri: string): string {
    uri[..IndexOf(uri, '?')]
  }

  function QueryOf(uri: string): string {
    var i := IndexOf(uri, '?');
    if i < |uri| then uri[i + 1..] else ""
  }

  /** Where the store finds the parameters of a request: the form body or the query. */
  function CarriedParams(verb: Verb, uri: string, body: string): string {
    if HasBody(verb) then body else QueryOf(uri)
  }

  /**
   * For every verb, the store finds the path it was sent and reads back
   * every parameter exactly once, in key order.
   */
  lemma StoreReadsRequest(verb: Verb, key: string, params: map<string, string>, escape: string -> string)
    requires '?' !in key
    requires EscapesSeparators(escape)
    ensures var q := JoinedParams(params, escape);
      var uri := RequestUri(verb, KeysPath(key), q);
      var ks := SortedKeys(params.Keys);
      && PathOf(uri) == KeysPath(key)
      && ParseParams(CarriedParams(verb, uri, RequestBody(verb, q)))
           == seq(|ks|, i requires 0 <= i < |ks| => (escape(ks[i]), escape(params[ks[i]])))
  {
    var q := JoinedParams(params, escape);
    var path := KeysPath(key);
    var uri := RequestUri(verb, path, q);
    assert '?' !in path by {
      assert forall i :: 0 <= i < |path| ==> (i < 8 && path[i] == "/v2/keys"[i]) || (8 <= i && path[i] == key[i - 8]);
    }
    assert forall k :: 0 <= k < |path| ==> uri[k] == path[k];
    if uri == path {
      assert IndexOf(uri, '?') == |uri|;
      JoinedParamsEmpty(params, escape);
    } else {
      assert uri[|path|] == '?';
      assert IndexOf(uri, '?') == |path|;
      assert uri[|path| + 1..] == q;
    }
    assert uri[..IndexOf(uri, '?')] == path;
    ParseJoinedParams(params, escape);
  }

  /**
   * The path is built from the key unescaped, so a key holding '?' is cut
   * short there: the store reads a different, shorter path, whatever the
   * verb and the parameters.
   */
  lemma QueryMarkInKeyCutsPath(verb: Verb, key: string, params: string)
    requires '?' in key
    ensures var uri := RequestUri(verb, KeysPath(key), params);
      |PathOf(uri)| < |KeysPath(key)| && PathOf(uri) != KeysPath(key)
  {
    var path := KeysPath(key);
    var uri := RequestUri(verb, path, params);
    var j :| 0 <= j < |key| && key[j] == '?';
    assert path[8 + j] == '?';
    assert uri[8 + j] == '?';
    assert IndexOf(uri, '?') <= 8 + j;
  }

  /** One attempt of one operation against the store. */
  class Request {
    const verb: Verb
    const path: string
    const separateConn: bool
    const params: string
    /** The connection of the attempt in flight, if any. */
    var conn: Option<Conn>
    /** The transport's handle of the attempt in flight, if any. */
    var req: Option<nat>

    constructor (verb: Verb, key: string, separateConn: bool, params: map<string, string>, escape: string -> string)
      requires ValidKey(key)
      ensures this.verb == verb && path == KeysPath(key) && this.separateConn == separateConn
      ensures this.params == JoinedParams(params, escape)
      ensures conn == None && req == None
    {
      var joined := UrlEscapeAndJoinParams(params, escape);
      this.verb := verb;
      path := KeysPath(key);
      this.separateConn := separateConn;
      this.params := joined;
      conn := None;
      req := None;
    }

    /**
     * Issues the attempt on `leader`, or on `clone`, the connection the
     * transport's `Clone` gives for it, when the request needs its own.
     */
    method Run(leader: Conn, clone: Conn, reqId: nat, timeoutSeconds: int) returns (out: Outgoing)
      requires conn.None? && req.None?
      requires separateConn ==> clone.endpoint == leader.endpoint && clone != leader
      modifies this
      ensures conn == Some(if separateConn then clone else leader)
      ensures req == Some(reqId)
      ensures out == Outgoing(conn.value, verb, RequestUri(verb, path, params), ContentType(verb),
                              RequestBody(verb, params), timeoutSeconds)
      ensures out.conn.endpoint == leader.endpoint
    {
      conn := if separateConn then Some(clone) else Some(leader);
      var uri := path;
      var body := "";
      var contentType := None;
      if verb == PUT || verb == POST {
        contentType := Some("application/x-www-form-urlencoded");
        body := params;
      } else {
        if params != "" {
          uri := uri + "?" + params;
        }
      }
      req := Some(reqId);
      out := Outgoing(conn.value, verb, uri, contentType, body, timeoutSeconds);
    }

    /** Forgets the attempt once the transport has answered. */
    method Reset()
      modifies this
      ensures conn == None && req == None
    {
      req := None;
      conn := None;
    }
  }

  /** The operations of the client and the requests they make. */
  datatype Operation =
    | Get(key: string)
    | GetAll(dir: string)
    | Create(key: string, value: string, ttl: Option<int>)
    | CreateInQueue(dir: string, value: string)
    | Update(key: string, value: string, previousIndex: int, ttl: Option<int>)
    | ForceSet(key: string, value: string, ttl: Option<int>)
    | Delete(key: string, currentIndex: int)

  /** The HTTP method of each operation. */
  function OperationVerb(op: Operation): (v: Verb)
    ensures v == GET <==> op.Get? || op.GetAll?
    ensures v == POST <==> op.CreateInQueue?
    ensures v == DELETE <==> op.Delete?
    ensures HasBody(v) <==> op.Create? || op.CreateInQueue? || op.Update? || op.ForceSet?
  {
    match op
    case Get(_) => GET
    case GetAll(_) => GET
    case Create(_, _, _) => PUT
    case CreateInQueue(_, _) => POST
    case Update(_, _, _, _) => PUT
    case ForceSet(_, _, _) => PUT
    case Delete(_, _) => DELETE
  }

  /** The `ttl` parameter of the `...WithTTL` operations, in seconds. */
  function TtlParams(ttl: Option<int>): (p: map<string, string>)
    ensures p.Keys == if ttl.Some? then {"ttl"} else {}
  {
    if ttl.Some? then map["ttl" := ToDecimal(ttl.value)] else map[]
  }

  /** `Create` and `CreateWithTTL`: the value, only if the key does not exist yet. */
  function CreateParams(value: string, ttl: Option<int>): (p: map<string, string>)
    ensures p.Keys == {"value", "prevExist"} + TtlParams(ttl).Keys
    ensures p["value"] == value && p["prevExist"] == "false"
  {
    map["value" := value, "prevExist" := "false"] + TtlParams(ttl)
  }

  /** `Update` and `UpdateWithTTL`: the value, only if the key is still at `previousIndex`. */
  function UpdateParams(value: string, previousIndex: int, ttl: Option<int>): (p: map<string, string>)
    ensures p.Keys == {"value", "prevIndex"} + TtlParams(ttl).Keys
    ensures p["value"] == value && p["prevIndex"] == ToDecimal(previousIndex)
  {
    map["value" := value, "prevIndex" := ToDecimal(previousIndex)] + TtlParams(ttl)
  }

  /** `ForceSet` and `ForceSetWithTTL`: the value, unconditionally. */
  function ForceSetParams(value: string, ttl: Option<int>): (p: map<string, string>)
    ensures p.Keys == {"value"} + TtlParams(ttl).Keys
    ensures p["value"] == value
  {
    map["value" := value] + TtlParams(ttl)
  }

  /** `Delete`: only if the key is still at `currentIndex`. */
  function DeleteParams(currentIndex: int): (p: map<string, string>)
    ensures p.Keys == {"prevIndex"} && p["prevIndex"] == ToDecimal(currentIndex)
  {
    map["prevIndex" := ToDecimal(currentIndex)]
  }

  /** The store reads back, with `atoll`, every index and TTL the operations send. */
  lemma IndicesReadBack(value: string, index: int, ttl: Option<int>)
    ensures Atoll(UpdateParams(value, index, ttl)["prevIndex"]) == index
    ensures Atoll(DeleteParams(index)["prevIndex"]) == index
    ensures ttl.Some? ==> && Atoll(CreateParams(value, ttl)["ttl"]) == ttl.value
                          && Atoll(UpdateParams(value, index, ttl)["ttl"]) == ttl.value
                          && Atoll(ForceSetParams(value, ttl)["ttl"]) == ttl.value
  {
    AtollToDecimal(index);
    if ttl.Some? {
      AtollToDecimal(ttl.value);
    }
  }

  /** The caller-side parameters of each operation, before `Generic` adds its own. */
  function OperationParams(op: Operation): (p: map<string, string>)
    ensures p.Keys <= {"value", "prevExist", "prevIndex", "ttl"}
    ensures op.Get? || op.GetAll? ==> p == map[]
  {
    match op
    case Get(_) => map[]
    case GetAll(_) => map[]
    case Create(_, value, ttl) => CreateParams(value, ttl)
    case CreateInQueue(_, value) => CreateParams(value, None)
    case Update(_, value, previousIndex, ttl) => UpdateParams(value, previousIndex, ttl)
    case ForceSet(_, value, ttl) => ForceSetParams(value, ttl)
    case Delete(_, currentIndex) => DeleteParams(currentIndex)
  }

  /** No operation other than a watch waits, and none sets the consistency parameters itself. */
  lemma OperationsDoNotWait(op: Operation)
    ensures var p := OperationParams(op);
      "wait" !in p && "consistent" !in p && "quorum" !in p
  {
    var names := {"value", "prevExist", "prevIndex", "ttl"};
    assert "wait" !in names && "consistent" !in names && "quorum" !in names;
  }

  /** Every operation other than a watch asks for consistent, quorum reads when the flags are on. */
  lemma OperationsAskForQuorum(op: Operation)
    ensures var p := ConsistencyParams(OperationParams(op), true, true);
      p["consistent"] == "true" && p["quorum"] == "true"
      && forall k :: k in OperationParams(op) ==> p[k] == OperationParams(op)[k]
  {
    OperationsDoNotWait(op);
  }
}

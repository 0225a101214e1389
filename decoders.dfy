/**
 * The typed decoders: each turns the outcome of a generic request (its
 * status, its JSON body and the store index of the response) into the
 * callback arguments of one client operation.
 */
module Decoders {
  import opened Wrappers
  import opened Json
  import opened Decimal
  import opened EtcdStatus
  import opened Nodes

  function Invalid(what: string): Status {
    Status(FAILED_PRECONDITION, "Invalid JSON: " + what)
  }

  function Missing(field: string): Status {
    Invalid("Couldn't find '" + field + "'")
  }

  /** The four members a plain node needs, each with its JSON type, as one node. */
  function NodeOf(node: Json): Option<Node>
  {
    match (GetInt(node, "createdIndex"), GetInt(node, "modifiedIndex"), GetString(node, "key"), GetString(node, "value"))
    case (Some(c), Some(m), Some(k), Some(v)) => Some(MakeNode(c, m, k, v))
    case _ => None
  }

  /** A typed member of the body's `node` object. */
  function NodeInt(body: Json, field: string): Option<int>
  {
    match GetObject(body, "node")
    case None => None
    case Some(node) => GetInt(node, field)
  }

  function NodeString(body: Json, field: string): Option<string>
  {
    match GetObject(body, "node")
    case None => None
    case Some(node) => GetString(node, field)
  }

  // ---------------------------------------------------------------- Get

  datatype GetReply = GetReply(status: Status, node: Node, index: int)

  function GetRequestDone(status: Status, body: Json, etcdIndex: int): (r: GetReply)
    ensures !status.IsOk() ==> r == GetReply(status, InvalidNode(), -1)
    ensures status.IsOk() && GetObject(body, "node").Some? && NodeOf(GetObject(body, "node").value).Some?
      ==> r == GetReply(OkStatus, NodeOf(GetObject(body, "node").value).value, etcdIndex)
    ensures status.IsOk() && (GetObject(body, "node").None? || NodeOf(GetObject(body, "node").value).None?)
      ==> r.status.code == FAILED_PRECONDITION && r.node == InvalidNode() && r.index == -1
  {
    if !status.IsOk() then GetReply(status, InvalidNode(), -1)
    else match GetObject(body, "node")
      case None => GetReply(Missing("node"), InvalidNode(), -1)
      case Some(node) =>
        match GetInt(node, "createdIndex")
        case None => GetReply(Missing("createdIndex"), InvalidNode(), -1)
        case Some(createdIndex) =>
          match GetInt(node, "modifiedIndex")
          case None => GetReply(Missing("modifiedIndex"), InvalidNode(), -1)
          case Some(modifiedIndex) =>
            match GetString(node, "key")
            case None => GetReply(Missing("key"), InvalidNode(), -1)
            case Some(key) =>
              match GetString(node, "value")
              case None => GetReply(Missing("value"), InvalidNode(), -1)
              case Some(value) => GetReply(OkStatus, MakeNode(createdIndex, modifiedIndex, key, value), etcdIndex)
  }

  // ---------------------------------------------------------------- GetAll

  datatype GetAllReply = GetAllReply(status: Status, nodes: seq<Node>, index: int)

  /** One child of a directory listing, checked in the order the client checks it. */
  function DecodeEntry(items: seq<Json>, i: nat): (r: StatusOr<Node>)
    requires i < |items|
    ensures r.Value? <==> items[i].JObject? && NodeOf(items[i]).Some?
    ensures r.Value? ==> r.value == NodeOf(items[i]).value
    ensures r.Error? ==> r.status.code == FAILED_PRECONDITION
  {
    match EntryObject(items, i)
    case None => Error(Invalid("Couldn't get 'value_nodes' index " + ToDecimal(i)))
    case Some(entry) =>
      match GetString(entry, "value")
      case None => Error(Missing("value"))
      case Some(value) =>
        match GetInt(entry, "createdIndex")
        case None => Error(Invalid("Coulnd't find 'createdIndex'"))
        case Some(createdIndex) =>
          match GetInt(entry, "modifiedIndex")
          case None => Error(Invalid("Coulnd't find 'modifiedIndex'"))
          case Some(modifiedIndex) =>
            match GetString(entry, "key")
            case None => Error(Missing("key"))
            case Some(key) => Value(MakeNode(createdIndex, modifiedIndex, key, value))
  }

  /** The first `n` children, or the failure of the first child that does not decode. */
  function DecodeEntries(items: seq<Json>, n: nat): StatusOr<seq<Node>>
    requires n <= |items|
  {
    if n == 0 then Value([])
    else match DecodeEntries(items, n - 1)
      case Error(s) => Error(s)
      case Value(nodes) =>
        match DecodeEntry(items, n - 1)
        case Error(s) => Error(s)
        case Value(node) => Value(nodes + [node])
  }

  lemma {:induction false} DecodeEntriesValue(items: seq<Json>, n: nat)
    requires n <= |items|
    ensures DecodeEntries(items, n).Value? <==> forall j :: 0 <= j < n ==> DecodeEntry(items, j).Value?
    ensures DecodeEntries(items, n).Value? ==>
      |DecodeEntries(items, n).value| == n &&
      forall j :: 0 <= j < n ==> DecodeEntries(items, n).value[j] == DecodeEntry(items, j).value
  {
    if n > 0 {
      DecodeEntriesValue(items, n - 1);
    }
  }

  lemma {:induction false} DecodeEntriesError(items: seq<Json>, n: nat)
    requires n <= |items|
    requires DecodeEntries(items, n).Error?
    ensures exists j :: (0 <= j < n && DecodeEntry(items, j) == Error(DecodeEntries(items, n).status)
                         && forall l :: 0 <= l < j ==> DecodeEntry(items, l).Value?)
  {
    DecodeEntriesValue(items, n - 1);
    if DecodeEntries(items, n - 1).Error? {
      DecodeEntriesError(items, n - 1);
    } else {
      assert DecodeEntry(items, n - 1) == Error(DecodeEntries(items, n).status);
    }
  }

  /** The callback of the final outcome: the listing, or why there is none. */
  function ListingReply(node: Json, etcdIndex: int): GetAllReply
  {
    match GetArray(node, "nodes")
    case None => GetAllReply(OkStatus, [], -1)
    case Some(items) =>
      match DecodeEntries(items, |items|)
      case Error(s) => GetAllReply(s, [], -1)
      case Value(nodes) => GetAllReply(OkStatus, nodes, etcdIndex)
  }

  /**
   * Every callback invocation of a directory listing, in order. The client
   * does not return after reporting a missing or false `dir`, so those
   * reports are followed by the listing's own outcome.
   */
  function GetAllReplies(status: Status, body: Json, etcdIndex: int): seq<GetAllReply>
  {
    if !status.IsOk() then [GetAllReply(status, [], -1)]
    else match GetObject(body, "node")
      case None => [GetAllReply(Missing("node"), [], -1)]
      case Some(node) =>
        var isDir := GetBool(node, "dir");
        (if isDir.None? then [GetAllReply(Missing("dir"), [], -1)] else [])
        + (if !isDir.GetOr(false) then [GetAllReply(Status(INVALID_ARGUMENT, "Not a directory"), [], -1)] else [])
        + [ListingReply(node, etcdIndex)]
  }

  method GetAllRequestDone(status: Status, body: Json, etcdIndex: int) returns (calls: seq<GetAllReply>)
    ensures calls == GetAllReplies(status, body, etcdIndex)
  {
    if !status.IsOk() {
      return [GetAllReply(status, [], -1)];
    }
    var node := GetObject(body, "node");
    if node.None? {
      return [GetAllReply(Missing("node"), [], -1)];
    }
    calls := [];
    var isDir := GetBool(node.value, "dir");
    if isDir.None? {
      calls := calls + [GetAllReply(Missing("dir"), [], -1)];
    }
    if !isDir.GetOr(false) {
      calls := calls + [GetAllReply(Status(INVALID_ARGUMENT, "Not a directory"), [], -1)];
    }
    assert GetAllReplies(status, body, etcdIndex) == calls + [ListingReply(node.value, etcdIndex)];
    var valueNodes := GetArray(node.value, "nodes");
    if valueNodes.None? {
      return calls + [GetAllReply(OkStatus, [], -1)];
    }
    var items := valueNodes.value;
    var values: seq<Node> := [];
    var i := 0;
    while i < |items|
      invariant 0 <= i <= |items|
      invariant DecodeEntries(items, i) == Value(values)
    {
      var entry := DecodeEntry(items, i);
      if entry.Error? {
        assert DecodeEntries(items, i + 1) == Error(entry.status);
        DecodeErrorPersists(items, i + 1, |items|);
        assert ListingReply(node.value, etcdIndex) == GetAllReply(entry.status, [], -1);
        return calls + [GetAllReply(entry.status, [], -1)];
      }
      values := values + [entry.value];
      i := i + 1;
    }
    assert ListingReply(node.value, etcdIndex) == GetAllReply(OkStatus, values, etcdIndex);
    calls := calls + [GetAllReply(OkStatus, values, etcdIndex)];
  }

  lemma {:induction false} DecodeErrorPersists(items: seq<Json>, m: nat, n: nat)
    requires m <= n <= |items|
    requires DecodeEntries(items, m).Error?
    ensures DecodeEntries(items, n) == DecodeEntries(items, m)
    decreases n - m
  {
    if m < n {
      DecodeErrorPersists(items, m, n - 1);
    }
  }

  /** A listing reports its outcome exactly once unless `dir` is missing or false. */
  lemma GetAllCallbackCount(status: Status, body: Json, etcdIndex: int)
    ensures var calls := GetAllReplies(status, body, etcdIndex);
      && 1 <= |calls| <= 3
      && (|calls| == 1 <==> !status.IsOk() || GetObject(body, "node").None?
                            || GetBool(GetObject(body, "node").value, "dir") == Some(true))
  {
  }

  /** Asking for a listing of something that is not a directory is reported as such first. */
  lemma GetAllNotDirectory(status: Status, body: Json, etcdIndex: int)
    requires status.IsOk() && GetObject(body, "node").Some?
    requires GetBool(GetObject(body, "node").value, "dir") == Some(false)
    ensures var calls := GetAllReplies(status, body, etcdIndex);
      |calls| == 2 && calls[0] == GetAllReply(Status(INVALID_ARGUMENT, "Not a directory"), [], -1)
  {
  }

  /** A directory without `nodes` is empty: OK, no nodes, and index -1 (not the response's index). */
  lemma GetAllEmptyDirectory(status: Status, body: Json, etcdIndex: int)
    requires status.IsOk() && GetObject(body, "node").Some?
    requires GetBool(GetObject(body, "node").value, "dir") == Some(true)
    requires GetArray(GetObject(body, "node").value, "nodes").None?
    ensures GetAllReplies(status, body, etcdIndex) == [GetAllReply(OkStatus, [], -1)]
  {
  }

  /**
   * A directory whose children all decode yields one node per child, in
   * array order, with the response's index; otherwise the first child that
   * fails decides the failure, and no nodes are passed.
   */
  lemma GetAllListing(status: Status, body: Json, etcdIndex: int)
    requires status.IsOk() && GetObject(body, "node").Some?
    requires GetBool(GetObject(body, "node").value, "dir") == Some(true)
    requires GetArray(GetObject(body, "node").value, "nodes").Some?
    ensures var items := GetArray(GetObject(body, "node").value, "nodes").value;
      var calls := GetAllReplies(status, body, etcdIndex);
      && |calls| == 1
      && ((forall j :: 0 <= j < |items| ==> items[j].JObject? && NodeOf(items[j]).Some?) ==>
            calls[0].status == OkStatus && calls[0].index == etcdIndex && |calls[0].nodes| == |items|
            && forall j :: 0 <= j < |items| ==> calls[0].nodes[j] == NodeOf(items[j]).value)
      && (!(forall j :: 0 <= j < |items| ==> items[j].JObject? && NodeOf(items[j]).Some?) ==>
            calls[0].status.code == FAILED_PRECONDITION && calls[0].nodes == [] && calls[0].index == -1)
  {
    var items := GetArray(GetObject(body, "node").value, "nodes").value;
    DecodeEntriesValue(items, |items|);
    if !(forall j :: 0 <= j < |items| ==> items[j].JObject? && NodeOf(items[j]).Some?) {
      var bad :| 0 <= bad < |items| && !(items[bad].JObject? && NodeOf(items[bad]).Some?);
      assert DecodeEntry(items, bad).Error?;
      DecodeEntriesError(items, |items|);
      var j :| 0 <= j < |items| && DecodeEntry(items, j) == Error(DecodeEntries(items, |items|).status);
      assert DecodeEntry(items, j).Error?;
    }
  }

  // ---------------------------------------------------------------- writes

  /** The callback arguments of create, update, force-set and delete. */
  datatype IndexReply = IndexReply(status: Status, index: int)

  /** The callback arguments of create-in-queue. */
  datatype KeyIndexReply = KeyIndexReply(status: Status, key: string, index: int)

  /** The client CHECK-fails unless a creation reports equal created and modified indices. */
  predicate CreationConsistent(status: Status, body: Json)
  {
    status.IsOk() && NodeInt(body, "createdIndex").Some? && NodeInt(body, "modifiedIndex").Some?
    ==> NodeInt(body, "createdIndex") == NodeInt(body, "modifiedIndex")
  }

  function CreateRequestDone(status: Status, body: Json): (r: IndexReply)
    requires CreationConsistent(status, body)
    ensures !status.IsOk() ==> r == IndexReply(status, -1)
    ensures status.IsOk() ==>
      (r.status.IsOk() <==> NodeInt(body, "createdIndex").Some? && NodeInt(body, "modifiedIndex").Some?)
    ensures r.status.IsOk() ==> NodeInt(body, "modifiedIndex") == NodeInt(body, "createdIndex") == Some(r.index)
    ensures status.IsOk() && !r.status.IsOk() ==> r.status.code == FAILED_PRECONDITION && r.index == 0
  {
    if !status.IsOk() then IndexReply(status, -1)
    else match GetObject(body, "node")
      case None => IndexReply(Missing("node"), 0)
      case Some(node) =>
        match GetInt(node, "createdIndex")
        case None => IndexReply(Missing("createdIndex"), 0)
        case Some(createdIndex) =>
          match GetInt(node, "modifiedIndex")
          case None => IndexReply(Missing("modifiedIndex"), 0)
          case Some(modifiedIndex) => IndexReply(OkStatus, modifiedIndex)
  }

  /**
   * Create-in-queue reads the `key` before its CHECK, so only a reply that
   * also carries a key can CHECK-fail.
   */
  predicate QueueCreationConsistent(status: Status, body: Json)
  {
    status.IsOk() && NodeInt(body, "createdIndex").Some? && NodeInt(body, "modifiedIndex").Some?
      && NodeString(body, "key").Some?
    ==> NodeInt(body, "createdIndex") == NodeInt(body, "modifiedIndex")
  }

  function CreateInQueueRequestDone(status: Status, body: Json): (r: KeyIndexReply)
    requires QueueCreationConsistent(status, body)
    ensures !status.IsOk() ==> r == KeyIndexReply(status, "", -1)
    ensures status.IsOk() ==>
      (r.status.IsOk() <==> NodeInt(body, "createdIndex").Some? && NodeInt(body, "modifiedIndex").Some?
                            && NodeString(body, "key").Some?)
    ensures r.status.IsOk() ==> NodeInt(body, "modifiedIndex") == NodeInt(body, "createdIndex") == Some(r.index)
    ensures r.status.IsOk() ==> NodeString(body, "key") == Some(r.key)
    ensures status.IsOk() && !r.status.IsOk() ==> r.status.code == FAILED_PRECONDITION && r.key == "" && r.index == 0
  {
    if !status.IsOk() then KeyIndexReply(status, "", -1)
    else match GetObject(body, "node")
      case None => KeyIndexReply(Missing("node"), "", 0)
      case Some(node) =>
        match GetInt(node, "createdIndex")
        case None => KeyIndexReply(Missing("createdIndex"), "", 0)
        case Some(createdIndex) =>
          match GetInt(node, "modifiedIndex")
          case None => KeyIndexReply(Missing("modifiedIndex"), "", 0)
          case Some(modifiedIndex) =>
            match GetString(node, "key")
            case None => KeyIndexReply(Missing("key"), "", 0)
            case Some(key) => KeyIndexReply(OkStatus, key, modifiedIndex)
  }

  /** Update and force-set read only the new modified index. */
  function ModifiedIndexReply(status: Status, body: Json): (r: IndexReply)
    ensures !status.IsOk() ==> r == IndexReply(status, -1)
    ensures status.IsOk() ==> (r.status.IsOk() <==> NodeInt(body, "modifiedIndex").Some?)
    ensures r.status.IsOk() ==> NodeInt(body, "modifiedIndex") == Some(r.index)
    ensures status.IsOk() && !r.status.IsOk() ==> r.status.code == FAILED_PRECONDITION && r.index == 0
  {
    if !status.IsOk() then IndexReply(status, -1)
    else match GetObject(body, "node")
      case None => IndexReply(Missing("node"), 0)
      case Some(node) =>
        match GetInt(node, "modifiedIndex")
        case None => IndexReply(Missing("modifiedIndex"), 0)
        case Some(modifiedIndex) => IndexReply(OkStatus, modifiedIndex)
  }

  function UpdateRequestDone(status: Status, body: Json): (r: IndexReply)
    ensures r == ModifiedIndexReply(status, body)
  {
    ModifiedIndexReply(status, body)
  }

  function ForceSetRequestDone(status: Status, body: Json): (r: IndexReply)
    ensures r == ModifiedIndexReply(status, body)
  {
    ModifiedIndexReply(status, body)
  }

  function DeleteRequestDone(status: Status, etcdIndex: int): (r: IndexReply)
    ensures r.status == if status.IsOk() then OkStatus else status
    ensures r.index == if status.IsOk() then etcdIndex else -1
  {
    if !status.IsOk() then IndexReply(status, -1) else IndexReply(OkStatus, etcdIndex)
  }

  // ---------------------------------------------------------------- watch nodes

  /** One node of a watch response; a node without `value` reports a deletion or expiry. */
  function UpdateForNode(node: Json): (r: StatusOr<WatchUpdate>)
    ensures r.Value? <==> GetInt(node, "createdIndex").Some? && GetInt(node, "modifiedIndex").Some?
                          && GetString(node, "key").Some?
    ensures r.Value? ==> r.value.keyExists == GetString(node, "value").Some?
    ensures r.Value? ==> r.value.node == MakeNode(GetInt(node, "createdIndex").value,
      GetInt(node, "modifiedIndex").value, GetString(node, "key").value, GetString(node, "value").GetOr(""))
    ensures r.Error? ==> r.status.code == FAILED_PRECONDITION
  {
    match GetInt(node, "createdIndex")
    case None => Error(Missing("createdIndex"))
    case Some(createdIndex) =>
      match GetInt(node, "modifiedIndex")
      case None => Error(Missing("modifiedIndex"))
      case Some(modifiedIndex) =>
        match GetString(node, "key")
        case None => Error(Missing("key"))
        case Some(key) =>
          match GetString(node, "value")
          case Some(value) => Value(WatchUpdate(MakeNode(createdIndex, modifiedIndex, key, value), true))
          case None => Value(WatchUpdate(MakeNode(createdIndex, modifiedIndex, key, ""), false))
  }

  // ---------------------------------------------------------------- the store's side

  /** How the store describes a node: its indices, its key and, unless it is gone, its value. */
  function NodeJson(n: Node, withValue: bool): Json
  {
    var fields := map["createdIndex" := JInt(n.createdIndex), "modifiedIndex" := JInt(n.modifiedIndex),
                      "key" := JString(n.key)];
    JObject(if withValue then fields["value" := JString(n.value)] else fields)
  }

  /** A response about one node. */
  function NodeResponse(n: Node, withValue: bool): Json
  {
    JObject(map["node" := NodeJson(n, withValue)])
  }

  /** A response listing a directory. */
  function DirectoryResponse(children: seq<Node>): Json
  {
    JObject(map["node" := JObject(map["dir" := JBool(true),
      "nodes" := JArray(seq(|children|, i requires 0 <= i < |children| => NodeJson(children[i], true)))])])
  }

  /** The description of a plain node with its value decodes to that node. */
  lemma NodeJsonDecodes(n: Node)
    requires IsPlain(n)
    ensures NodeJson(n, true).JObject? && NodeOf(NodeJson(n, true)) == Some(n)
  {
  }

  lemma GetRoundTrip(n: Node, etcdIndex: int)
    requires IsPlain(n)
    ensures GetRequestDone(OkStatus, NodeResponse(n, true), etcdIndex) == GetReply(OkStatus, n, etcdIndex)
  {
    var node := NodeJson(n, true);
    assert GetObject(NodeResponse(n, true), "node") == Some(node);
    NodeJsonDecodes(n);
  }

  lemma GetAllRoundTrip(children: seq<Node>, etcdIndex: int)
    requires forall i :: 0 <= i < |children| ==> IsPlain(children[i])
    ensures GetAllReplies(OkStatus, DirectoryResponse(children), etcdIndex)
         == [GetAllReply(OkStatus, children, etcdIndex)]
  {
    var body := DirectoryResponse(children);
    var node := GetObject(body, "node").value;
    var items := GetArray(node, "nodes").value;
    assert |items| == |children|;
    forall j | 0 <= j < |items|
      ensures DecodeEntry(items, j) == Value(children[j])
    {
      assert items[j] == NodeJson(children[j], true);
      NodeJsonDecodes(children[j]);
    }
    DecodeEntriesValue(items, |items|);
    assert DecodeEntries(items, |items|).value == children;
    assert ListingReply(node, etcdIndex) == GetAllReply(OkStatus, children, etcdIndex);
    assert GetBool(node, "dir") == Some(true);
  }

  lemma CreateRoundTrip(n: Node)
    requires n.createdIndex == n.modifiedIndex
    ensures CreateRequestDone(OkStatus, NodeResponse(n, true)) == IndexReply(OkStatus, n.modifiedIndex)
    ensures CreateInQueueRequestDone(OkStatus, NodeResponse(n, true)) == KeyIndexReply(OkStatus, n.key, n.modifiedIndex)
  {
    assert GetObject(NodeResponse(n, true), "node") == Some(NodeJson(n, true));
  }

  /**
   * A queue reply whose node has no `key` fails before the CHECK: even with
   * unequal indices it is accepted and reported as FAILED_PRECONDITION.
   */
  lemma QueueReplyWithoutKey(createdIndex: int, modifiedIndex: int)
    ensures var body := JObject(map["node" := JObject(map["createdIndex" := JInt(createdIndex),
                                                          "modifiedIndex" := JInt(modifiedIndex)])]);
      && QueueCreationConsistent(OkStatus, body)
      && CreateInQueueRequestDone(OkStatus, body) == KeyIndexReply(Missing("key"), "", 0)
  {
    var node := JObject(map["createdIndex" := JInt(createdIndex), "modifiedIndex" := JInt(modifiedIndex)]);
    var body := JObject(map["node" := node]);
    assert GetObject(body, "node") == Some(node);
    assert "key" !in node.fields;
    assert NodeString(body, "key") == None;
  }

  lemma ModifiedIndexRoundTrip(n: Node, withValue: bool)
    ensures UpdateRequestDone(OkStatus, NodeResponse(n, withValue)) == IndexReply(OkStatus, n.modifiedIndex)
    ensures ForceSetRequestDone(OkStatus, NodeResponse(n, withValue)) == IndexReply(OkStatus, n.modifiedIndex)
  {
    assert GetObject(NodeResponse(n, withValue), "node") == Some(NodeJson(n, withValue));
  }

  /** A watch update the store describes decodes to itself. */
  lemma UpdateRoundTrip(u: WatchUpdate)
    requires IsPlain(u.node) && (!u.keyExists ==> u.node.value == "")
    ensures UpdateForNode(NodeJson(u.node, u.keyExists)) == Value(u)
  {
  }
}

/**
 * The watch engine: one state machine per watched key. Each handler is
 * one event of the original (the initial read completing, a long poll
 * completing, a batch being delivered, the next poll starting) and
 * returns the actions it schedules, in order.
 */
module Watch {
  import opened Wrappers
  import opened Json
  import opened Decimal
  import opened EtcdStatus
  import opened Nodes
  import opened Decoders
  import opened Requests
  import opened Client

  /** A key ending in '/' names a directory. */
  function KeyIsDirectory(key: string): (r: bool)
    ensures r <==> exists dir: string :: dir + "/" == key
  {
    var r := |key| > 0 && key[|key| - 1] == '/';
    assert r ==> key[..|key| - 1] + "/" == key;
    r
  }

  /** The read a new watch issues before it starts polling. */
  function InitialRead(key: string): (op: Operation)
    ensures op.GetAll? <==> KeyIsDirectory(key)
    ensures op.GetAll? ==> op.dir == key
    ensures op.Get? ==> op.key == key
  {
    if KeyIsDirectory(key) then GetAll(key) else Get(key)
  }

  datatype Action =
    /** The executor will call the watch callback with the batch. */
    | DeliverLater(updates: seq<WatchUpdate>)
    /** The executor will run `SendUpdates` with the batch. */
    | SendUpdatesLater(updates: seq<WatchUpdate>)
    /** The watch callback is called with the batch, now. */
    | Deliver(updates: seq<WatchUpdate>)
    /** `Generic` is asked for a request. */
    | Issue(verb: Verb, key: string, params: map<string, string>, separateConn: bool)
    /** `StartRequest` will run again after the delay. */
    | RetryAfter(seconds: int)
    /** The watch's task finishes as CANCELLED. */
    | ReturnCancelled

  /** The long poll for changes after `highest`. */
  function PollParams(highest: int): (p: map<string, string>)
    ensures p.Keys == {"wait", "waitIndex", "recursive"}
    ensures p["wait"] == "true" && p["recursive"] == "true"
    ensures p["waitIndex"] == ToDecimal(highest + 1)
  {
    map["wait" := "true", "waitIndex" := ToDecimal(highest + 1), "recursive" := "true"]
  }

  /** The store reads the poll's `waitIndex` as the index after `highest`. */
  lemma WaitIndexReadBack(highest: int)
    ensures Atoll(PollParams(highest)["waitIndex"]) == highest + 1
  {
    AtollToDecimal(highest + 1);
  }

  /** A poll never asks for a quorum read, so it can wait. */
  lemma PollOmitsQuorum(highest: int, consistent: bool, quorum: bool)
    ensures var p := ConsistencyParams(PollParams(highest), consistent, quorum);
      "quorum" !in p && p["wait"] == "true" && p["waitIndex"] == PollParams(highest)["waitIndex"]
  {
    var poll := PollParams(highest);
    WaitExcludesQuorum(poll, consistent, quorum);
    var p := ConsistencyParams(poll, consistent, quorum);
    assert "wait" in poll && "wait" != "consistent" && "wait" != "quorum";
    assert "waitIndex" in poll && "waitIndex" != "consistent" && "waitIndex" != "quorum";
    assert p["wait"] == poll["wait"] && p["waitIndex"] == poll["waitIndex"];
  }

  /** `StartRequest`: stop if cancelled, else poll on a connection of its own. */
  function StartActions(key: string, highest: int, cancelled: bool): (a: seq<Action>)
    ensures cancelled ==> a == [ReturnCancelled]
    ensures !cancelled ==> a == [Issue(GET, key, PollParams(highest), true)]
  {
    if cancelled then [ReturnCancelled] else [Issue(GET, key, PollParams(highest), true)]
  }

  /** The initial batch: every node read, as existing. */
  function ExistingUpdates(nodes: seq<Node>): (u: seq<WatchUpdate>)
    ensures |u| == |nodes|
    ensures forall i :: 0 <= i < |nodes| ==> u[i].node == nodes[i] && u[i].keyExists
  {
    seq(|nodes|, i requires 0 <= i < |nodes| => WatchUpdate(nodes[i], true))
  }

  /**
   * What a completed poll yields: the update of its `node`, or None when
   * the poll failed, has no `node` or the node does not decode.
   */
  function PollUpdate(status: Status, body: Json): (r: Option<WatchUpdate>)
    ensures r.Some? <==> status.IsOk() && GetObject(body, "node").Some?
                         && UpdateForNode(GetObject(body, "node").value).Value?
    ensures r.Some? ==> r.value == UpdateForNode(GetObject(body, "node").value).value
  {
    if !status.IsOk() then None
    else
      match GetObject(body, "node")
      case None => None
      case Some(node) =>
        match UpdateForNode(node)
        case Error(_) => None
        case Value(u) => Some(u)
  }

  /** A completed poll: stop if cancelled, deliver its update later, or retry after the delay. */
  function PollActions(status: Status, body: Json, cancelled: bool, retryDelay: int): (a: seq<Action>)
    ensures cancelled ==> a == [ReturnCancelled]
    ensures !cancelled && PollUpdate(status, body).Some? ==> a == [SendUpdatesLater([PollUpdate(status, body).value])]
    ensures !cancelled && PollUpdate(status, body).None? ==> a == [RetryAfter(retryDelay)]
  {
    if cancelled then [ReturnCancelled]
    else
      match PollUpdate(status, body)
      case Some(u) => [SendUpdatesLater([u])]
      case None => [RetryAfter(retryDelay)]
  }

  predicate IsIssue(a: Action) {
    a.Issue?
  }

  /** The CHECK a completed poll makes first: the store's index never goes back. */
  predicate IndexCheckHolds(highest: int, response: GenericResponse) {
    highest <= response.etcdIndex
  }

  /** The state of one `Watch` call. */
  class WatchState {
    const key: string
    const retryDelay: int
    /** The read the constructor issues. */
    const initialRead: Operation
    /** The highest store index seen so far. */
    var highest: int

    constructor (key: string, config: Config)
      requires ValidKey(key)
      ensures this.key == key && retryDelay == config.watchRetryDelaySeconds
      ensures initialRead == InitialRead(key)
      ensures highest == -1
    {
      this.key := key;
      retryDelay := config.watchRetryDelaySeconds;
      initialRead := InitialRead(key);
      highest := -1;
    }

    /** The initial `Get` completed; a single node is a batch of one. */
    method InitialGetDone(status: Status, node: Node, etcdIndex: int, cancelled: bool, cancelledAtPoll: bool)
      returns (actions: seq<Action>)
      requires cancelled || status.IsOk()
      modifies this
      ensures cancelled ==> actions == [ReturnCancelled] && highest == old(highest)
      ensures !cancelled ==> (highest == etcdIndex
        && actions == [DeliverLater([WatchUpdate(node, true)])] + StartActions(key, etcdIndex, cancelledAtPoll))
    {
      assert ExistingUpdates([node]) == [WatchUpdate(node, true)];
      actions := InitialGetAllDone(status, [node], etcdIndex, cancelled, cancelledAtPoll);
    }

    /**
     * The initial read completed: record its index, hand every node to the
     * callback as existing, and start polling after that index. Cancellation
     * is read twice: `cancelled` on entry, `cancelledAtPoll` when
     * `StartRequest` checks it again.
     */
    method InitialGetAllDone(status: Status, nodes: seq<Node>, etcdIndex: int, cancelled: bool, cancelledAtPoll: bool)
      returns (actions: seq<Action>)
      requires cancelled || status.IsOk()
      modifies this
      ensures cancelled ==> actions == [ReturnCancelled] && highest == old(highest)
      ensures !cancelled ==> (highest == etcdIndex
        && actions == [DeliverLater(ExistingUpdates(nodes))] + StartActions(key, etcdIndex, cancelledAtPoll))
    {
      if cancelled {
        return [ReturnCancelled];
      }
      highest := etcdIndex;
      var updates: seq<WatchUpdate> := [];
      var i := 0;
      while i < |nodes|
        invariant 0 <= i <= |nodes|
        invariant updates == ExistingUpdates(nodes[..i])
      {
        updates := updates + [WatchUpdate(nodes[i], true)];
        i := i + 1;
      }
      assert nodes[..i] == nodes;
      var next := StartRequest(cancelledAtPoll);
      actions := [DeliverLater(updates)] + next;
    }

    /**
     * A poll completed with `response` and task status `status`. The index
     * is recorded before anything else, then cancellation is checked.
     */
    method RequestDone(response: GenericResponse, status: Status, cancelled: bool) returns (actions: seq<Action>)
      requires IndexCheckHolds(highest, response)
      modifies this
      ensures highest == response.etcdIndex
      ensures actions == PollActions(status, response.body, cancelled, retryDelay)
    {
      highest := response.etcdIndex;
      if cancelled {
        return [ReturnCancelled];
      }
      if !status.IsOk() {
        return [RetryAfter(retryDelay)];
      }
      var node := GetObject(response.body, "node");
      if node.None? {
        return [RetryAfter(retryDelay)];
      }
      var update := UpdateForNode(node.value);
      if update.Error? {
        return [RetryAfter(retryDelay)];
      }
      actions := [SendUpdatesLater([update.value])];
    }

    /**
     * One round of the long poll, not cancelled: `RequestDone`, then the
     * follow-up it schedules, `SendUpdates` or the delayed `StartRequest`.
     */
    method FollowPoll(c: PollCompletion) returns (actions: seq<Action>)
      requires IndexCheckHolds(highest, c.response)
      modifies this
      ensures highest == c.response.etcdIndex
      ensures actions == PollRound(key, c, retryDelay)
    {
      var a := RequestDone(c.response, c.status, false);
      var more: seq<Action>;
      if a[0].SendUpdatesLater? {
        more := SendUpdates(a[0].updates, false);
      } else {
        more := StartRequest(false);
      }
      assert more == FollowUp(key, c.response.etcdIndex, a[0]);
      actions := a + more;
    }

    /** The rounds of a run of poll completions, none cancelled, in order. */
    method FollowPolls(cs: seq<PollCompletion>) returns (actions: seq<Action>)
      requires IndicesChecked(highest, cs)
      modifies this
      ensures actions == PollRun(key, cs, retryDelay)
      ensures |cs| == 0 ==> highest == old(highest)
      ensures |cs| > 0 ==> highest == cs[|cs| - 1].response.etcdIndex
      ensures |Issued(actions)| == |cs|
      ensures forall i :: 0 <= i < |cs| ==>
        Issued(actions)[i] == Issue(GET, key, PollParams(cs[i].response.etcdIndex), true)
    {
      actions := [];
      var i := 0;
      while i < |cs|
        invariant 0 <= i <= |cs|
        invariant actions == PollRun(key, cs[..i], retryDelay)
        invariant i == 0 ==> highest == old(highest)
        invariant i > 0 ==> highest == cs[i - 1].response.etcdIndex
      {
        var round := FollowPoll(cs[i]);
        PollRunSnoc(key, cs, i, retryDelay);
        actions := actions + round;
        i := i + 1;
      }
      assert cs[..i] == cs;
      PollRunIssues(key, cs, retryDelay);
    }

    /** Calls the callback with the batch, and only then starts the next poll. */
    method SendUpdates(updates: seq<WatchUpdate>, cancelled: bool) returns (actions: seq<Action>)
      ensures actions == [Deliver(updates)] + StartActions(key, highest, cancelled)
    {
      var next := StartRequest(cancelled);
      actions := [Deliver(updates)] + next;
    }

    method StartRequest(cancelled: bool) returns (actions: seq<Action>)
      ensures actions == StartActions(key, highest, cancelled)
    {
      if cancelled {
        return [ReturnCancelled];
      }
      var params := map[];
      params := params["wait" := "true"];
      params := params["waitIndex" := ToDecimal(highest + 1)];
      params := params["recursive" := "true"];
      actions := [Issue(GET, key, params, true)];
    }
  }

  /**
   * Once cancellation is requested, a completed poll and a poll about to
   * start only finish the task: nothing more is issued, scheduled or
   * retried. A batch already handed to `SendUpdates` is still delivered,
   * because `SendUpdates` reads cancellation only when it starts the next poll.
   */
  lemma CancelledStops(key: string, highest: int, status: Status, body: Json, retryDelay: int,
                       updates: seq<WatchUpdate>)
    ensures StartActions(key, highest, true) == [ReturnCancelled]
    ensures PollActions(status, body, true, retryDelay) == [ReturnCancelled]
    ensures Issued(StartActions(key, highest, true)) == []
    ensures Issued(PollActions(status, body, true, retryDelay)) == []
    ensures [Deliver(updates)] + StartActions(key, highest, true) == [Deliver(updates), ReturnCancelled]
    ensures Issued([Deliver(updates)] + StartActions(key, highest, true)) == []
  {
    var a := [Deliver(updates), ReturnCancelled];
    IssuedNone(a);
    IssuedNone([ReturnCancelled]);
  }

  /** A failed or malformed poll delivers nothing and only schedules a retry. */
  lemma FailedPollRetries(status: Status, body: Json, retryDelay: int)
    requires !status.IsOk() || GetObject(body, "node").None?
             || UpdateForNode(GetObject(body, "node").value).Error?
    ensures PollActions(status, body, false, retryDelay) == [RetryAfter(retryDelay)]
  {
  }

  /**
   * A successful poll yields exactly one update: existing exactly when the
   * node carries a value, a tombstone with an empty value otherwise.
   */
  lemma PollYieldsOneUpdate(status: Status, body: Json, retryDelay: int)
    requires status.IsOk() && GetObject(body, "node").Some?
    requires UpdateForNode(GetObject(body, "node").value).Value?
    ensures var node := GetObject(body, "node").value;
      var a := PollActions(status, body, false, retryDelay);
      && |a| == 1 && a[0].SendUpdatesLater? && |a[0].updates| == 1
      && (a[0].updates[0].keyExists <==> GetString(node, "value").Some?)
      && (!a[0].updates[0].keyExists ==> a[0].updates[0].node.value == "")
      && a[0].updates[0].node.key == GetString(node, "key").value
  {
  }

  /**
   * Ordering: a completed poll never issues the next poll itself; the next
   * poll is issued only by `SendUpdates`, after the callback has been called.
   */
  lemma NextPollFollowsDelivery(key: string, highest: int, status: Status, body: Json,
                                updates: seq<WatchUpdate>, retryDelay: int)
    ensures forall i :: 0 <= i < |PollActions(status, body, false, retryDelay)| ==>
              !IsIssue(PollActions(status, body, false, retryDelay)[i])
    ensures var a := [Deliver(updates)] + StartActions(key, highest, false);
      a[0] == Deliver(updates) && forall i :: 0 <= i < |a| && IsIssue(a[i]) ==> 0 < i
  {
  }

  /** A completed poll as the watch's `RequestDone` receives it. */
  datatype PollCompletion = PollCompletion(response: GenericResponse, status: Status)

  /** Each completion passes the index check against the index recorded before it. */
  predicate IndicesChecked(h0: int, cs: seq<PollCompletion>) {
    && (|cs| > 0 ==> IndexCheckHolds(h0, cs[0].response))
    && forall i :: 0 < i < |cs| ==> IndexCheckHolds(cs[i - 1].response.etcdIndex, cs[i].response)
  }

  /**
   * What the follow-up a completed poll schedules does once it runs, the
   * watch not being cancelled: `SendUpdates` delivers and polls again, the
   * delayed `StartRequest` polls again.
   */
  function FollowUp(key: string, highest: int, a: Action): seq<Action> {
    match a
    case SendUpdatesLater(updates) => [Deliver(updates)] + StartActions(key, highest, false)
    case RetryAfter(_) => StartActions(key, highest, false)
    case _ => []
  }

  /**
   * One round of the long poll: the completion's actions, then what its
   * follow-up does. The round ends with the next poll and issues nothing
   * before it.
   */
  function PollRound(key: string, c: PollCompletion, retryDelay: int): (r: seq<Action>)
    ensures 0 < |r| && r[|r| - 1] == Issue(GET, key, PollParams(c.response.etcdIndex), true)
    ensures forall i :: 0 <= i < |r| - 1 ==> !r[i].Issue?
  {
    var a := PollActions(c.status, c.response.body, false, retryDelay);
    a + FollowUp(key, c.response.etcdIndex, a[0])
  }

  /** The actions of a run of poll completions, none of them cancelled, in order. */
  function PollRun(key: string, cs: seq<PollCompletion>, retryDelay: int): seq<Action>
    decreases |cs|
  {
    if cs == [] then []
    else PollRun(key, cs[..|cs| - 1], retryDelay) + PollRound(key, cs[|cs| - 1], retryDelay)
  }

  lemma PollRunSnoc(key: string, cs: seq<PollCompletion>, i: nat, retryDelay: int)
    requires i < |cs|
    ensures PollRun(key, cs[..i + 1], retryDelay) == PollRun(key, cs[..i], retryDelay) + PollRound(key, cs[i], retryDelay)
  {
    assert cs[..i + 1][..i] == cs[..i];
  }

  /** The requests issued among `actions`, in order. */
  function Issued(actions: seq<Action>): seq<Action>
    decreases |actions|
  {
    if actions == [] then []
    else (if actions[0].Issue? then [actions[0]] else []) + Issued(actions[1..])
  }

  lemma {:induction false} IssuedConcat(a: seq<Action>, b: seq<Action>)
    ensures Issued(a + b) == Issued(a) + Issued(b)
    decreases |a|
  {
    if a == [] {
      assert a + b == b;
    } else {
      assert (a + b)[0] == a[0] && (a + b)[1..] == a[1..] + b;
      IssuedConcat(a[1..], b);
    }
  }

  /** A round issues exactly one request: the poll past the completion's index. */
  lemma IssuedRound(key: string, c: PollCompletion, retryDelay: int)
    ensures Issued(PollRound(key, c, retryDelay)) == [Issue(GET, key, PollParams(c.response.etcdIndex), true)]
  {
    var r := PollRound(key, c, retryDelay);
    var last := r[|r| - 1];
    assert r == r[..|r| - 1] + [last];
    IssuedConcat(r[..|r| - 1], [last]);
    IssuedNone(r[..|r| - 1]);
    assert Issued([last]) == [last] + Issued([]);
  }

  lemma {:induction false} IssuedNone(a: seq<Action>)
    requires forall i :: 0 <= i < |a| ==> !a[i].Issue?
    ensures Issued(a) == []
    decreases |a|
  {
    if a != [] {
      IssuedNone(a[1..]);
    }
  }

  lemma IssuedSnoc(key: string, cs: seq<PollCompletion>, retryDelay: int)
    requires cs != []
    ensures Issued(PollRun(key, cs, retryDelay))
      == Issued(PollRun(key, cs[..|cs| - 1], retryDelay))
         + [Issue(GET, key, PollParams(cs[|cs| - 1].response.etcdIndex), true)]
  {
    IssuedConcat(PollRun(key, cs[..|cs| - 1], retryDelay), PollRound(key, cs[|cs| - 1], retryDelay));
    IssuedRound(key, cs[|cs| - 1], retryDelay);
  }

  /**
   * The i-th request a run of completions issues is the poll that waits
   * past the i-th completion's index.
   */
  lemma {:induction false} PollRunIssues(key: string, cs: seq<PollCompletion>, retryDelay: int)
    ensures var polls := Issued(PollRun(key, cs, retryDelay));
      && |polls| == |cs|
      && forall i :: 0 <= i < |cs| ==> polls[i] == Issue(GET, key, PollParams(cs[i].response.etcdIndex), true)
    decreases |cs|
  {
    if cs != [] {
      var init := cs[..|cs| - 1];
      var c := cs[|cs| - 1];
      PollRunIssues(key, init, retryDelay);
      var before := Issued(PollRun(key, init, retryDelay));
      var poll := Issue(GET, key, PollParams(c.response.etcdIndex), true);
      IssuedSnoc(key, cs, retryDelay);
      var polls := before + [poll];
      forall i | 0 <= i < |cs|
        ensures polls[i] == Issue(GET, key, PollParams(cs[i].response.etcdIndex), true)
      {
        if i < |init| {
          assert init[i] == cs[i];
          assert polls[i] == before[i];
        } else {
          assert i == |init| && cs[i] == c;
          assert polls[i] == poll;
        }
      }
    }
  }

  /** Indices that pass the index check never decrease, and none is below the first recorded one. */
  lemma {:induction false} CheckedIndicesIncrease(h0: int, cs: seq<PollCompletion>)
    requires IndicesChecked(h0, cs)
    ensures forall i :: 0 <= i < |cs| ==> h0 <= cs[i].response.etcdIndex
    ensures forall i, j :: 0 <= i < j < |cs| ==> cs[i].response.etcdIndex <= cs[j].response.etcdIndex
    decreases |cs|
  {
    if cs != [] {
      var init := cs[..|cs| - 1];
      assert IndicesChecked(h0, init) by {
        assert forall i :: 0 <= i < |init| ==> init[i] == cs[i];
      }
      CheckedIndicesIncrease(h0, init);
      var n := |cs| - 1;
      assert forall i :: 0 <= i < n ==> cs[i].response.etcdIndex == init[i].response.etcdIndex;
      if n > 0 {
        assert cs[n - 1].response.etcdIndex <= cs[n].response.etcdIndex;
        assert forall i :: 0 <= i < n ==> cs[i].response.etcdIndex <= cs[n - 1].response.etcdIndex;
      }
    }
  }

  /**
   * Along a run of completions that pass the index check from `h0`, the
   * store reads the i-th poll's waitIndex as the i-th completion's index
   * plus one: every poll waits past the index it follows, beyond `h0`,
   * and the polls never wait for an earlier index than the poll before.
   */
  lemma WaitIndicesAdvance(key: string, h0: int, cs: seq<PollCompletion>, retryDelay: int)
    requires IndicesChecked(h0, cs)
    ensures var polls := Issued(PollRun(key, cs, retryDelay));
      && |polls| == |cs|
      && (forall i :: 0 <= i < |cs| ==> polls[i].Issue? && polls[i].verb == GET && polls[i].key == key
                                         && polls[i].separateConn && "waitIndex" in polls[i].params)
      && (forall i :: 0 <= i < |cs| ==> Atoll(polls[i].params["waitIndex"]) == cs[i].response.etcdIndex + 1)
      && (forall i :: 0 <= i < |cs| ==> h0 < Atoll(polls[i].params["waitIndex"]))
      && (forall i, j :: 0 <= i < j < |cs| ==>
            Atoll(polls[i].params["waitIndex"]) <= Atoll(polls[j].params["waitIndex"]))
  {
    PollRunIssues(key, cs, retryDelay);
    CheckedIndicesIncrease(h0, cs);
    forall i | 0 <= i < |cs|
      ensures Atoll(PollParams(cs[i].response.etcdIndex)["waitIndex"]) == cs[i].response.etcdIndex + 1
    {
      WaitIndexReadBack(cs[i].response.etcdIndex);
    }
  }

  /**
   * A transport failure completes with index -1, which passes the index
   * check only while the watch has seen no index: once it has recorded an
   * index of 0 or more, a timed-out poll cannot take the retry path that
   * its comment intends.
   */
  lemma TimeoutViolatesIndexCheck(highest: int)
    ensures IndexCheckHolds(highest, NullCompletion.response) <==> highest < 0
  {
  }

  /**
   * The directory watch of two keys, one of which is later deleted, as
   * the handlers' contracts describe it: the first batch holds both keys
   * as existing, the completed poll hands on the tombstone of the deleted
   * one, and delivering it comes before the poll that waits past the
   * deletion's index.
   */
  lemma DirectoryDeletionScenario(dir: string, a: Node, b: Node, deletionIndex: int, retryDelay: int)
    requires KeyIsDirectory(dir)
    ensures InitialRead(dir) == GetAll(dir)
    ensures ExistingUpdates([a, b]) == [WatchUpdate(a, true), WatchUpdate(b, true)]
    ensures var gone := MakeNode(a.createdIndex, deletionIndex, a.key, "");
      PollActions(OkStatus, NodeResponse(gone, false), false, retryDelay)
        == [SendUpdatesLater([WatchUpdate(gone, false)])]
    ensures var gone := MakeNode(a.createdIndex, deletionIndex, a.key, "");
      [Deliver([WatchUpdate(gone, false)])] + StartActions(dir, deletionIndex, false)
        == [Deliver([WatchUpdate(gone, false)]), Issue(GET, dir, PollParams(deletionIndex), true)]
  {
    var listed := ExistingUpdates([a, b]);
    assert listed == [listed[0], listed[1]];
    var gone := MakeNode(a.createdIndex, deletionIndex, a.key, "");
    assert GetObject(NodeResponse(gone, false), "node") == Some(NodeJson(gone, false));
    UpdateRoundTrip(WatchUpdate(gone, false));
  }
}

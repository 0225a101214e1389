# etcd v2 client — a verified model

This project models the protocol logic of the etcd v2 HTTP key/value client
in `cpp/util/etcd.cc` of certificate-transparency:

- how an HTTP status code and response body become a `util::Status`;
- how a request is built: the `consistent`/`quorum` parameters `Generic`
  adds, the `key=value&…` string `UrlEscapeAndJoinParams` builds in map key
  order, the `/v2/keys` path, and whether the parameters go in the URI or
  in the form body;
- the typed decoders (`GetRequestDone`, `GetAllRequestDone`,
  `CreateRequestDone`, `CreateInQueueRequestDone`, `UpdateRequestDone`,
  `ForceSetRequestDone`, `DeleteRequestDone`, `UpdateForNode`);
- the client object's connection cache and leader (`GetConnection`,
  `GetLeader`, `UpdateLeader`), issuing a request, and `RequestDone` with
  its handling of the leader's 307 redirect;
- the watch engine `WatchState`, whose event handlers return the actions
  they schedule: deliver a batch, run `SendUpdates` later, issue a long
  poll, retry after the configured delay, or finish as cancelled.

Modules, one file each: `Wrappers` (Option), `Json` (parsed JSON values and
the typed lookups of the JSON wrapper), `Decimal` (`std::to_string` and
`atoll`), `EtcdStatus`, `Nodes` (`Node`, `WatchUpdate`), `Params`
(`std::map` key order, joining and parsing of parameters), `Decoders`,
`Requests` (`Request`, the consistency parameters and the per-operation
parameters), `Client` (`EtcdClient`), `Watch` (`WatchState`).

Modelling choices:

- A JSON document is a `Json` value. A lookup such as `JsonInt(node,
  "createdIndex")` is `GetInt(node, "createdIndex")`. It is `Some` exactly
  when the member exists with that JSON type. The model assumes that
  `JsonBoolean::Value()` of a missing member is `false`. The JSON wrapper
  is not part of this model, and how many times `GetAllRequestDone` calls
  its callback when `dir` is missing rests on this assumption.
- `DebugString()` of the body is an input string, `bodyText`.
- `evhttp_uriencode` is a function parameter `escape`. The parse-back
  lemma `Params.ParseJoinedParams` needs it never to emit '&' or '='.
- The order in which a `std::map` iterates is the lexicographic order
  `Params.Less`. `Params.SortedKeys` is the unique strictly sorted listing
  of a key set.
- Each CHECK becomes a precondition of the member that performs it:
  - the key checks of `Request`'s constructor;
  - `CHECK_EQ(createdIndex, modifiedIndex)` in the create decoders;
  - `CHECK(status.ok())` of the initial watch read;
  - `CHECK_LE(highest_index_seen_, etcd_index)` of a completed poll;
  - `CHECK_NOTNULL` of the redirect's `Location`;
  - `Run`'s `CHECK(!req_)` and `CHECK(!conn_)`.
- `Client.EtcdClient.Generic` requires a leader. `Generic` passes the
  leader to `Run` (`cpp/util/etcd.cc:1052`), and `Run` dereferences it
  (`cpp/util/etcd.cc:474-476`). A client built without a host therefore
  crashes on its first request.
- A callback invocation is a value that the decoder returns.
  `GetAllRequestDone` does not return after reporting a missing or false
  `dir`, so it can call its callback more than once. It therefore returns
  the list of its invocations.
- Whether cancellation was requested is a boolean parameter of the watch
  handlers, one for each place where the code checks it.
  `InitialGetAllDone` checks on entry (`cpp/util/etcd.cc:591`) and again
  in the `StartRequest` it calls (`cpp/util/etcd.cc:735`), so it takes
  `cancelled` and `cancelledAtPoll`. `RequestDone` and `SendUpdates` take
  one each.
- The transport's `Clone` is `Client.EtcdClient.Clone`. It returns a
  connection with a new identity to the same endpoint, outside the cache.
- The port in the redirect's `Location` is converted to 16 bits the way
  the code converts it (`Client.ToPort`). So a `Location` without a port,
  for which the parser reports -1, redirects to port 65535.

Behaviour of the code that the model keeps:

- **Retry after a failed poll.** A failed poll's retry waits after the
  index that the failed response reported. The code records `etcd_index`
  before it checks for failure (`cpp/util/etcd.cc:679-680`).
- **Cancellation and delivery.** `SendUpdates` calls the callback without
  checking for cancellation (`cpp/util/etcd.cc:725-731`). A batch already
  scheduled is still delivered after cancellation; only the next poll is
  suppressed. `Watch.CancelledStops` states this.
- **Timeout during a poll.** A transport failure reports `etcd_index == -1`
  (`cpp/util/etcd.cc:840`). Once the watch has seen an index of 0 or more,
  the `CHECK_LE` at line 679 fails, so the retry path that the comment at
  line 691 intends to take is never reached. `Watch.TimeoutViolatesIndexCheck`
  states this. `WatchState.RequestDone` keeps the check as its precondition.
- **A '?' in a key.** The path is `"/v2/keys"` followed by the key,
  unescaped (`cpp/util/etcd.cc:460`). A '?' in the key therefore ends the
  path the store reads. `Requests.QueryMarkInKeyCutsPath` states this.

## Model

| member | source | states |
|---|---|---|
| Json.Member | cpp/util/etcd.cc:127-128 | a member lookup succeeds exactly when the value is an object that has the member, and yields that member |
| Decimal.ToDecimal | cpp/util/etcd.cc:742 | the decimal text of an integer is non-empty and starts with '-' exactly when the integer is negative |
| Decimal.Atoll | cpp/util/etcd.cc:855 | text that starts with neither white space, a sign nor a digit reads as 0; after a '-' the value is 0 or less, after a '+' or a digit it is 0 or more; a lone leading digit reads as itself |
| Decimal.AtollToDecimal | cpp/util/etcd.cc:855 | `atoll` reads back every integer that `to_string` writes |
| Decimal.ToDecimalInjective | cpp/util/etcd.cc:957 | different indices are written as different parameter values |
| EtcdStatus.ErrorCodeForHttpResponseCode | cpp/util/etcd.cc:71-87 | 200 and 201 map to OK, 403 to PERMISSION_DENIED, 404 to NOT_FOUND, 412 to FAILED_PRECONDITION, 500 to UNAVAILABLE, each as an if-and-only-if; every other code maps to UNKNOWN |
| EtcdStatus.MessageFromJsonStatus | cpp/util/etcd.cc:57-68 | the message is the body's string `message` when present, else the body's debug rendering |
| EtcdStatus.StatusFromResponseCode | cpp/util/etcd.cc:95-102 | the status code is the mapped code; the message is empty exactly when that code is OK, otherwise it is the message of the body |
| EtcdStatus.OkStatusIgnoresBody | cpp/util/etcd.cc:97-100 | a success response yields the plain OK status whatever its body |
| Nodes.HasExpiry | cpp/util/etcd.cc:782-784 | a node has an expiry exactly when its expiry time is set rather than "never"; `MakeNode` and `InvalidNode` build nodes without one |
| Nodes.MakeNode | cpp/util/etcd.cc:752-760 | the constructor keeps both indices, the key and the value; the node never expires and is not deleted |
| Nodes.InvalidNode | cpp/util/etcd.cc:448 | the sentinel node is (-1, -1, "", "") and is a plain node |
| Nodes.DefaultWatchUpdate | cpp/util/etcd.cc:577-579 | the default update carries the sentinel node and says the key does not exist |
| Nodes.PlainIffConstructed | cpp/util/etcd.cc:782-784 | a node has no expiry and is not deleted exactly when it is what the four-argument constructor builds |
| Params.LessIrreflexive | cpp/util/etcd.cc:427-428 | no key precedes itself in the map's order |
| Params.LessAsymmetric | cpp/util/etcd.cc:427-428 | of two keys, at most one precedes the other |
| Params.LessTransitive | cpp/util/etcd.cc:427-428 | the map's order is transitive |
| Params.LessTotal | cpp/util/etcd.cc:427-428 | any two different keys are ordered one way or the other |
| Params.SortedKeys | cpp/util/etcd.cc:427-428 | the iteration order of a key set: strictly increasing, with exactly the set's keys |
| Params.SortedUnique | cpp/util/etcd.cc:427-428 | two strictly sorted listings of the same keys are equal, so the iteration order is unique |
| Params.UrlEscapeAndJoinParams | cpp/util/etcd.cc:423-445 | the loop with its `first` flag yields the escaped `key=value` pairs in key order, joined by '&' |
| Params.SplitJoin | cpp/util/etcd.cc:429-432 | splitting the joined text at the separator gives back the parts when no part contains the separator |
| Params.ParseJoinedParams | cpp/util/etcd.cc:423-445 | parsing the joined string yields each pair (escaped key, escaped value) once, in key order |
| Params.JoinedParamsEmpty | cpp/util/etcd.cc:490-492 | the joined string is empty exactly when there are no parameters |
| Decoders.GetRequestDone | cpp/util/etcd.cc:117-170 | a failed status passes through with the sentinel node and index -1; a missing or mistyped `node`, `createdIndex`, `modifiedIndex`, `key` or `value` gives FAILED_PRECONDITION with the sentinel and -1; otherwise OK with the decoded node and the response's index |
| Decoders.DecodeEntry | cpp/util/etcd.cc:212-255 | a directory entry decodes exactly when it is an object with all four typed members, and then to the node they describe; otherwise FAILED_PRECONDITION |
| Decoders.DecodeEntriesValue | cpp/util/etcd.cc:210-256 | the first n entries decode exactly when each of them does, and then in array order |
| Decoders.DecodeEntriesError | cpp/util/etcd.cc:210-251 | a failed listing carries the error of one of its entries |
| Decoders.DecodeErrorPersists | cpp/util/etcd.cc:210-251 | once an entry fails, the later entries do not change the outcome |
| Decoders.GetAllRequestDone | cpp/util/etcd.cc:173-259 | the decoding loop produces exactly the list of callback invocations of the listing, including the fall-through after a missing or false `dir` |
| Decoders.GetAllCallbackCount | cpp/util/etcd.cc:191-201 | a listing calls its callback one to three times, and exactly once unless `dir` is missing or false |
| Decoders.GetAllNotDirectory | cpp/util/etcd.cc:198-201 | listing a non-directory first reports INVALID_ARGUMENT "Not a directory", then the listing's own outcome |
| Decoders.GetAllEmptyDirectory | cpp/util/etcd.cc:203-208 | a directory without `nodes` yields OK, no nodes and index -1 |
| Decoders.GetAllListing | cpp/util/etcd.cc:210-258 | a directory yields one node per child in array order with the response's index when every child decodes, and otherwise FAILED_PRECONDITION, no nodes and -1 |
| Decoders.CreateRequestDone | cpp/util/etcd.cc:262-298 | a failed status gives index -1; a missing node or index gives FAILED_PRECONDITION with 0; otherwise OK with the modified index, which equals the created index |
| Decoders.CreateInQueueRequestDone | cpp/util/etcd.cc:301-346 | as for create, and on success also the created key; the error paths give the empty key; the CHECK on the indices is required only of a reply that also carries a `key`, since a missing key is reported first |
| Decoders.QueueReplyWithoutKey | cpp/util/etcd.cc:336-342 | a queue reply without `key` is accepted even with unequal indices, and gives FAILED_PRECONDITION, the empty key and index 0 |
| Decoders.ModifiedIndexReply | cpp/util/etcd.cc:349-376 | a failed status gives -1; success exactly when the node has a `modifiedIndex`, which is returned; otherwise FAILED_PRECONDITION with 0 |
| Decoders.UpdateRequestDone | cpp/util/etcd.cc:349-376 | an update replies as the modified-index decoder |
| Decoders.ForceSetRequestDone | cpp/util/etcd.cc:379-406 | a forced set replies as the modified-index decoder |
| Decoders.DeleteRequestDone | cpp/util/etcd.cc:409-420 | a failed status passes through with -1; success gives OK with the response's index |
| Decoders.UpdateForNode | cpp/util/etcd.cc:614-648 | decodes exactly when `createdIndex`, `modifiedIndex` and `key` are present; the key exists exactly when `value` is present, and otherwise the value is empty; errors are FAILED_PRECONDITION |
| Decoders.GetRoundTrip | cpp/util/etcd.cc:117-170 | the store's description of a node decodes back to that node and the response's index |
| Decoders.GetAllRoundTrip | cpp/util/etcd.cc:173-259 | the store's listing of a directory decodes back to its children, in order |
| Decoders.CreateRoundTrip | cpp/util/etcd.cc:262-346 | the description of a created node decodes to its index, and for a queue entry to its key as well |
| Decoders.ModifiedIndexRoundTrip | cpp/util/etcd.cc:349-406 | an update or forced set decodes to the node's modified index, with or without a value |
| Decoders.UpdateRoundTrip | cpp/util/etcd.cc:614-648 | the description of an update, a tombstone included, decodes back to that update |
| Requests.ConsistencyParams | cpp/util/etcd.cc:1029-1042 | adds consistent=true when that flag is on; adds quorum=true only when that flag is on and `wait` is absent; leaves every other caller parameter as it was |
| Requests.InjectConsistencyParams | cpp/util/etcd.cc:1029-1042 | the in-place updates of the copied map produce exactly those parameters |
| Requests.WaitExcludesQuorum | cpp/util/etcd.cc:1036-1039 | a long poll never asks for a quorum read |
| Requests.StoreReadsRequest | cpp/util/etcd.cc:482-493 | for every verb and every key without '?', the store recovers the path and reads back every escaped parameter once, in key order, from the query or the form body |
| Requests.QueryMarkInKeyCutsPath | cpp/util/etcd.cc:460-493 | for a key holding '?', the path the store reads is shorter than, and so different from, the path the client built |
| Requests.Request.constructor | cpp/util/etcd.cc:455-467 | the path is "/v2/keys" followed by the key, which must be non-empty and start with '/'; the parameters are joined once |
| Requests.Request.Run | cpp/util/etcd.cc:469-501 | a clone or the given connection is used according to `separate_conn`; the handle is recorded; PUT and POST send the parameters as a form body, other verbs after '?' only when non-empty |
| Requests.Request.Reset | cpp/util/etcd.cc:503-507 | the attempt's handle and connection are forgotten |
| Requests.TtlParams | cpp/util/etcd.cc:927-937 | the `...WithTTL` operations add exactly a `ttl` parameter, and only when a TTL is given |
| Requests.CreateParams | cpp/util/etcd.cc:915-937 | a create sends its value and prevExist=false, plus the TTL when given, and nothing else |
| Requests.UpdateParams | cpp/util/etcd.cc:952-977 | an update sends its value and the previous index as prevIndex, plus the TTL when given, and nothing else |
| Requests.ForceSetParams | cpp/util/etcd.cc:980-1001 | a forced set sends only its value, plus the TTL when given |
| Requests.DeleteParams | cpp/util/etcd.cc:1004-1012 | a delete sends only the current index as prevIndex |
| Requests.OperationVerb | cpp/util/etcd.cc:897-1012 | the reads use GET, create-in-queue exactly POST, delete exactly DELETE; exactly the operations that write a value send a form body |
| Requests.IndicesReadBack | cpp/util/etcd.cc:957 | the store's `atoll` reads back every prevIndex and ttl the operations write with `to_string` |
| Requests.OperationParams | cpp/util/etcd.cc:897-1012 | each operation sends only value, prevExist, prevIndex and ttl parameters; the reads send none |
| Requests.OperationsDoNotWait | cpp/util/etcd.cc:897-1012 | no operation other than a watch sends `wait`, and none sets `consistent` or `quorum` itself |
| Requests.OperationsAskForQuorum | cpp/util/etcd.cc:897-1042 | with both flags on, every operation other than a watch asks for consistent, quorum reads and keeps its own parameters |
| Client.ToPort | cpp/util/etcd.cc:824-825 | a port in range is kept; the parser's -1 for "no port" becomes 65535 |
| Client.ResponseOutcome | cpp/util/etcd.cc:851-859 | the index is the `atoll` of the `X-Etcd-Index` header, or -1 without one; the status is the one the response code maps to, OK exactly for 200 and 201, and otherwise carries the body's message |
| Client.GetThroughTransport | cpp/util/etcd.cc:851-859 | a success response about a node, with its index header, reaches the `Get` callback as that node and index |
| Client.FailureThroughTransport | cpp/util/etcd.cc:851-859 | a failed response reaches every decoder (get, listing, create, create-in-queue, update, forced set, delete) as its own status, with no value and index -1 |
| Client.EtcdClient.constructor | cpp/util/etcd.cc:787-792 | a client made with a host and port caches one connection to it and makes that connection the leader |
| Client.EtcdClient.WithoutLeader | cpp/util/etcd.cc:795-798 | a client made without a host has no connections and no leader |
| Client.EtcdClient.GetConnection | cpp/util/etcd.cc:863-880 | a repeated host and port gets the same cached connection and nothing changes; a first use inserts one new connection and changes no other entry |
| Client.EtcdClient.GetLeader | cpp/util/etcd.cc:883-886 | the leader, when there is one, is a cached connection |
| Client.EtcdClient.UpdateLeader | cpp/util/etcd.cc:889-894 | the leader becomes the cached connection to host and port, which is returned; no other entry changes |
| Client.EtcdClient.Clone | cpp/util/etcd.cc:473-475 | the clone is a new connection to the same endpoint, different from every cached one |
| Client.EtcdClient.Generic | cpp/util/etcd.cc:1026-1053 | the request carries the verb, the path and the joined consistency parameters, and is run on the leader known when it is issued |
| Client.EtcdClient.Start | cpp/util/etcd.cc:469-501 | the scheduled `Run`: a separate request gets a fresh clone of the leader, and the attempt is sent with the connection timeout |
| Client.EtcdClient.RequestDone | cpp/util/etcd.cc:831-860 | a null response completes as `NullCompletion`, UNKNOWN with index -1; a 307 makes its location the leader and re-issues the same request there, with the same verb, URI, content type and body and the connection timeout; anything else is decoded as `ResponseOutcome` says; the cache keeps its invariant |
| Watch.InitialRead | cpp/util/etcd.cc:558-563 | a watch first reads a listing exactly when the key ends in '/', and otherwise reads the single key |
| Watch.KeyIsDirectory | cpp/util/etcd.cc:90-92 | a key names a directory exactly when it is some text followed by '/' |
| Watch.PollParams | cpp/util/etcd.cc:740-743 | a poll sends exactly wait=true, recursive=true and the decimal text of the highest index plus one as waitIndex |
| Watch.WaitIndexReadBack | cpp/util/etcd.cc:742 | the store reads the poll's waitIndex as the highest index seen plus one |
| Watch.PollOmitsQuorum | cpp/util/etcd.cc:740-746 | the parameters a poll sends never include quorum, whatever the flags, and keep its wait and waitIndex |
| Watch.StartActions | cpp/util/etcd.cc:734-749 | a cancelled watch only returns CANCELLED; otherwise it issues one GET poll on a connection of its own |
| Watch.ExistingUpdates | cpp/util/etcd.cc:603-606 | one update per node read, in order, each saying the key exists |
| Watch.PollUpdate | cpp/util/etcd.cc:692-712 | a poll yields an update exactly when its status is OK, the body has a `node` and that node decodes |
| Watch.PollActions | cpp/util/etcd.cc:682-721 | a cancelled watch only returns CANCELLED; a decoded update is handed to `SendUpdates` later; anything else only schedules a retry after the delay |
| Watch.WatchState.constructor | cpp/util/etcd.cc:550-564 | a new watch has seen no index (-1) and issues the read `InitialRead` chooses |
| Watch.WatchState.InitialGetDone | cpp/util/etcd.cc:582-585 | a single node read is a batch of one, handled as `InitialGetAllDone` handles a listing |
| Watch.WatchState.InitialGetAllDone | cpp/util/etcd.cc:588-611 | when cancelled on entry, only CANCELLED and no state change; otherwise the read's index is recorded, the batch of existing updates is handed to the executor, and `StartRequest` acts on the second cancellation check: the poll after that index, or CANCELLED |
| Watch.WatchState.RequestDone | cpp/util/etcd.cc:663-722 | requires the index not to decrease, records it before the cancellation check, and then acts as `PollActions` says |
| Watch.WatchState.SendUpdates | cpp/util/etcd.cc:725-731 | the callback is called with the batch first, and only then is the next poll started |
| Watch.WatchState.StartRequest | cpp/util/etcd.cc:734-749 | builds the poll parameters step by step and acts as `StartActions` says |
| Watch.WatchState.FollowPoll | cpp/util/etcd.cc:663-749 | `RequestDone` followed by the follow-up it schedules records the completion's index and yields the round's actions |
| Watch.WatchState.FollowPolls | cpp/util/etcd.cc:663-749 | running the handlers over completions that pass the index check yields the run's actions; its i-th request is the poll past the i-th completion's index |
| Watch.CancelledStops | cpp/util/etcd.cc:682-685 | once cancellation is requested, a completed poll and a starting poll only return CANCELLED and issue nothing; a batch already handed to `SendUpdates` is still delivered, and nothing is issued after it |
| Watch.FailedPollRetries | cpp/util/etcd.cc:692-721 | a failed or malformed poll delivers nothing and only schedules the retry |
| Watch.PollYieldsOneUpdate | cpp/util/etcd.cc:706-714 | a successful poll yields exactly one update, existing exactly when the node has a value, and otherwise a tombstone with an empty value |
| Watch.NextPollFollowsDelivery | cpp/util/etcd.cc:713-731 | a completed poll never issues the next poll; the next poll comes only after the callback is called |
| Watch.PollRound | cpp/util/etcd.cc:682-749 | a round of the long poll, whether it delivers or retries, ends with the poll past the completion's index and issues nothing before it |
| Watch.IssuedRound | cpp/util/etcd.cc:682-749 | each round issues exactly one request |
| Watch.PollRunIssues | cpp/util/etcd.cc:679-749 | the i-th request of a run of completions is the GET poll, on a connection of its own, past the i-th completion's index |
| Watch.CheckedIndicesIncrease | cpp/util/etcd.cc:679-680 | indices that pass the index check never decrease and stay at or above the first recorded index |
| Watch.WaitIndicesAdvance | cpp/util/etcd.cc:679-742 | along completions that pass the index check, the store reads the i-th poll's waitIndex as the i-th index plus one; every waitIndex lies beyond the starting index, and none is earlier than the one before |
| Watch.TimeoutViolatesIndexCheck | cpp/util/etcd.cc:679 | the completion of a transport failure passes the index check exactly while the watch has recorded no index of 0 or more |
| Watch.DirectoryDeletionScenario | cpp/util/etcd.cc:588-731 | watching a directory of two keys, one later deleted: the watch reads a listing, the first batch holds both keys as existing, the completed poll hands on the tombstone, and its delivery precedes the poll that waits past the deletion's index |

## Left out

- The libevent transport is not modelled: `HttpConnection`, `HttpRequest`, `MakeRequest`, evbuffers and headers. A response is an `HttpResponse` record. The `Location` header arrives already parsed into a host and a port.
- `UriFromHostPort` (`cpp/util/etcd.cc:105-114`) and the `SetTimeout` call in `GetConnection` are not modelled. A connection is an identity and an endpoint, and the timeout travels with each attempt (`Outgoing.timeoutSeconds`).
- Percent-encoding is not modelled. `evhttp_uriencode` belongs to a library outside the model and is a parameter.
- The JSON parser is not modelled: documents arrive parsed as `Json` values. `DebugString` is an input.
- `Task`, the executor, `Delay`, `AddChild` and `DeleteWhenDone` are not modelled. Their effects are the returned `Watch.Action`s and `Client.Completion`s. Ownership and deletion of the `Request`s and the `WatchState` are not modelled.
- The mutexes on the leader and on `Request::req_` are not modelled, because the model is sequential.
- Logging, gflags and `Node::ToString` (`cpp/util/etcd.cc:769-779`) are not modelled. The flags are passed as a `Requests.Config`.
- `system_clock` expiry times are not modelled. `Node.expires` is `None` for "never"; only `HasExpiry` reads it.
- `WatchState::req_` (`cpp/util/etcd.cc:546`) is not modelled. It is only ever null.
- `Watch` (`cpp/util/etcd.cc:1015-1023`) is modelled only as the `WatchState` constructor. Its task hold and `DeleteWhenDone` belong to the task machinery.
- Decimal.Atoll: models `atoll` on unbounded integers; the 64-bit overflow of very long digit strings is not modelled.
- Decimal.ToDecimal: indices and TTLs are unbounded integers, so the width of `int64_t` is not modelled.
- Decoders.DecodeEntry: the loop counter `int i` of `GetAllRequestDone` is unbounded, so its 32-bit width is not modelled.
- Client.EtcdClient.RequestDone: on a redirect of a request with its own connection, states only that the clone talks to the new leader; the clone's identity comes from `Clone`.
- Requests.StoreReadsRequest: stated only for keys without '?'. The path is the key unescaped, so a '?' in a key ends the path early; `Requests.QueryMarkInKeyCutsPath` states what happens then.
- Watch.WatchState.FollowPolls: drives a run of completions in which cancellation is never requested; a cancelled run is covered by `Watch.CancelledStops`.

# ekglue: a verified model of its xDS manager and its endpoint index

ekglue watches Kubernetes services and endpoint slices, turns them into Envoy clusters and
cluster load assignments, and serves both to Envoy over the state-of-the-world variant of the
xDS protocol ("xDS REST and gRPC protocol", section "ACK and NACK semantics summary"). This
project models the two parts that are hard to get right, and proves what they promise:

* **The manager** (`pkg/xds/xds.go`) keeps a versioned map of resources. Any number of `Add`,
  `Replace` and `Delete` calls change it, any number of client streams are told. The map is
  changed, the version is bumped and the sessions are notified in separate critical sections,
  so every interleaving of these steps has to be considered.
* **The index and the translation** (`pkg/glue/glue.go`) keep endpoint slices per service,
  recompute one service per event, and pass the difference on to the manager. Clusters come
  from services the same way, after a list of override rules.

The two meet in `EndToEnd`: whatever happened before, once the system can do nothing more by
itself, every remaining client that has said who it is holds the translation of the slices and of the
services the cluster has.

## How the project is laid out

| files | what they hold |
|---|---|
| `Text`, `Options`, `Sequences` | strings in Go's order, decimal numbers, optional values, permutations and sorting |
| `Naming`, `Slices`, `Translation`, `TranslationLaws` | cluster names; slices and what they place where; the nested loops and sorts of the translation as methods; order independence, conservation |
| `Registry`, `Manager` | the resource map as a value; the manager as a class whose methods change it in place |
| `StreamCore`, `StreamLedger`, `StreamReports`, `StreamLoop` | one client stream as a function of its events; its laws over whole runs; what it reports, keeps open and ends for; the select loop as a class |
| `Protocol`, `ProtocolSafety`, `ProtocolHistory`, `ProtocolConvergence`, `ProtocolProgress`, `ProtocolRuns`, `ProtocolStreams`, `ProtocolTelling`, `ProtocolLocks`, `ProtocolExamples` | the manager with all calls and streams as a transition system, one step for each critical section and each channel rendezvous; its invariants; its guarantees over all runs; its streams as runs of the select loop; what is announced, and to whom; the same with resourcesMu as a lock; runs that show what it does not guarantee |
| `EndpointIndex`, `EndpointRuns`, `EndpointStore` | the index as a relation between states; any sequence of events; the store as a class |
| `Overrides`, `Services`, `ClusterConfig`, `ClusterRuns`, `ClusterStore` | override rules; services into clusters; the configuration as objects; any sequence of service events; the store as a class |
| `Meeting`, `EndToEnd` | where CDS and EDS meet; index, manager and clients together |

Code that changes things step by step is a class or a method with loops, tied by its contract to a
function or relation on values; what the program promises is then proved about that function or
relation. What map iteration, `sort.Slice`, the clock, the network and the scheduler decide is left
open: a translation is a relation, and the protocol takes any enabled step.

## Conditions

Results carry these conditions where they need them, and only there.

* **No `:` in identifiers.** Without it two services can share a cluster name (`Naming.ColonsCollide`).
* **No widened subscription since the last response.** A client without a node id may subscribe anew on
  every request (`StreamLedger.AnonymousClientResubscribes`); if it does so in an acknowledgement and asks for
  more, it is left behind (`ProtocolExamples.AnonymousClientLeftBehind`). A client that gives its node id with
  its first request never widens (`ProtocolConvergence.OnlyTheUnknownWiden`), and a response mends it.
* **No lost news.** A notifier that times out, or an `Add` that meets an invalid resource, leaves clients
  without an update; callers are not told. In `Protocol` each stream remembers the names it lost;
  `ProtocolRuns.Lossless` says that a run loses none. `ProtocolExamples.TimeoutLeavesBehind` and
  `ProtocolExamples.InvalidResourceLeavesBehind` show that both are needed.
* **Assignments validate.** An update keeps the index right exactly if it reports success
  (`EndpointRuns.FaithfulIffReportedOk`).
* **Service labels do not change.** The index keeps up with the cluster exactly if a changed slice keeps
  its service (`EndpointIndex.KeepsUpIffLabelStable`); otherwise the old service's clusters stay published
  until the old copy is deleted (`EndpointRuns.RelabelledSliceLingers`, `EndpointRuns.DeletingOldCopyMends`).
* **Cluster names apart.** What `ClusterRuns` promises takes the cluster names of different live services to be
  different, and those within one service to be distinct, however they come about; overrides may set names.
  Where they do not, colon-free identifiers and distinct ports are enough (`ClusterRuns.ProperRunsAreOrderly`).
  One step keeps every live translation published exactly if clusters of one name are one cluster
  (`ClusterRuns.AddKeepsShownIff`, `ClusterRuns.DeleteKeepsShownIff`, `ClusterRuns.ReplaceIsExactIff`);
  `ClusterRuns.SharedNameLosesOne` shows a rule that names two services' clusters alike.
* **Names set by overrides.** The rule loop applies the very rules that accept a cluster's original name
  exactly if no rule judges a name set on the way otherwise (`Overrides.JudgesByOriginalNameIff`).
* **No harmful duplicates in a `Replace`.** The index collapses slices of one service and name, the
  translation does not; the two agree exactly if the overwritten slices place no endpoint and name no
  cluster of their own (`EndpointIndex.ReplacePublishesIff`).
* **No dropped ports.** Updating a service never removes a cluster; what is published is exact exactly if
  the new translation still names every cluster of the old one (`ClusterRuns.AddIsExactIff`).
* **Fresh nonces.** The random part of a nonce is not analysed; the transaction ledger takes nonces to be
  distinct within a stream.

Found on the way: when a response cannot be built, `Stream` returns without finishing the span it started
for that push (`pkg/xds/xds.go:437-446`), so "every span is finished once" holds exactly if no response
failed to build (`StreamLedger.SpansFinishedUnlessBuildFailed`, `StreamLedger.LeakedSpan`). Two responses of one stream may carry the
same version and different contents (`ProtocolExamples.SameVersionDifferentContents`); they were built
at one moment exactly if no write lies between them that the version does not count
(`ProtocolRuns.OneVersionOneMoment`). One version does mean one map for a response built when no call stands
between its first write and its version bump and no refused `Add` has written
(`ProtocolRuns.SameVersionSameMap`). Merging durations adds up where one
would expect the last to win: a quarter of a second over the default second makes a second and a quarter
(`Overrides.QuarterSecondAdds`, with the exact condition in `Overrides.LastTimeoutWinsIff`). A comment in
`pkg/xds/xds.go:543-546` expects Envoy not to change its subscription; the code ends the stream if it
does, and the model follows the code.

## Model

| member | source | states |
|---|---|---|
| `ManagerObject.Manager.Notify` | pkg/xds/xds.go:182-224 | the version goes up by one; every registered session receives the update exactly once, except those reported as missed, which receive nothing; with no changed name nothing happens |
| `ManagerObject.Manager.AwaitBlocked` | pkg/xds/xds.go:209-223 | the second pass ends; the sessions served and the sessions missed partition the blocked ones |
| `ManagerObject.Manager.Add` | pkg/xds/xds.go:227-247 | success exactly if all resources validate; an invalid one keeps the earlier ones filed, unannounced and without a new version; the map goes through every prefix; on success exactly the names filed are announced, once |
| `ManagerObject.Manager.File` | pkg/xds/xds.go:229-244 | files resource by resource up to the first that does not validate; the names changed are those filed |
| `ManagerObject.Manager.Replace` | pkg/xds/xds.go:251-279 | all or nothing in one change of the map; on success the announced set is exactly old names and new names together |
| `ManagerObject.Manager.Refile` | pkg/xds/xds.go:257-276 | the fresh map and the names that were on file before or are now |
| `ManagerObject.Manager.Delete` | pkg/xds/xds.go:282-292 | removes and announces a name that is on file, and does nothing at all otherwise |
| `ManagerObject.Manager.Snapshot` | pkg/xds/xds.go:137-179 | a snapshot of the wanted names; fails exactly if a wanted resource cannot be marshalled |
| `ManagerObject.Manager.BuildDiscoveryResponse` | pkg/xds/xds.go:375-393 | a snapshot of the wanted names that a response can be made of, under the current version and a nonce made of it; fails only if a snapshot cannot be marshalled or makes a response that does not validate |
| `Registry.LastWins` | pkg/xds/xds.go:229-244 | filing adds exactly the names given, of several resources with one name the last stays, other names keep what they had |
| `Registry.SnapshotShows` | pkg/xds/xds.go:152-179 | a snapshot tells the truth about every wanted name: its value, or its absence |
| `Registry.PickInOrder` | pkg/xds/xds.go:158-175 | a snapshot of given names has those on file, in the order given and as often as given |
| `StreamLoop.Stream.Cleanup` | pkg/xds/xds.go:410-427 | finishes the span of every transaction still open, once |
| `StreamLoop.Stream.SendUpdate` | pkg/xds/xds.go:436-475 | the push ends as the manager lets it: a response built of a snapshot of the subscription, with the manager's version and a nonce made of it, is taken and opens a transaction, or times out; or none could be built |
| `StreamLoop.Stream.Account` | pkg/xds/xds.go:442-474 | what each of the three ends of a push leaves behind |
| `StreamLoop.Stream.HandleTx` | pkg/xds/xds.go:478-509 | one OnAck call with the client's version and verdict; the transaction is closed |
| `StreamLoop.Stream.HandleRequest` | pkg/xds/xds.go:530-573 | node and subscription, the two refusals, acknowledgement of an open nonce, or a push of what the manager holds then |
| `StreamLoop.Stream.HandleUpdate` | pkg/xds/xds.go:574-589 | pushes exactly if the update is relevant, and then what the manager holds |
| `StreamLoop.Stream.HandleTick` | pkg/xds/xds.go:521-529 | drops exactly the stale transactions and finishes their spans |
| `StreamLoop.Stream.Serve` | pkg/xds/xds.go:515-592 | whatever others do to the manager between its turns, the loop does what the function of its events says, to which the laws below apply; and every push among the events ends as the manager of that moment lets it |
| `StreamLedger.RunKeepsLedger` | pkg/xds/xds.go:406-427 | over any run with distinct nonces: the responses sent are the acknowledged, the stale and the open ones, each in one place; OnAck is called at most once for each; each span is finished once |
| `StreamLedger.LedgerFromTheStart` | pkg/xds/xds.go:436-509 | the ledger balances after any run of a new stream |
| `StreamLedger.SpansFinishedUnlessBuildFailed` | pkg/xds/xds.go:436-446 | a stream that has returned has finished every span it started exactly once if and only if no response failed to build |
| `StreamLedger.LeakedSpan` | pkg/xds/xds.go:442-446 | a run of one event after which a span is started and never finished |
| `StreamLedger.SubscriptionFrozen` | pkg/xds/xds.go:534-549 | once the node is known, node and subscription never change, over any run |
| `StreamLedger.ResubscribingEnds` | pkg/xds/xds.go:542-549 | and any run with a request that names other resources has ended the stream |
| `StreamLedger.AnonymousClientResubscribes` | pkg/xds/xds.go:535-541 | without a node id the subscription can change on a running stream |
| `StreamLedger.PushDiscipline` | pkg/xds/xds.go:556-590 | responses are as many as accepted requests with an unrecognised nonce plus relevant updates, from any state of a stream whose node is known; acknowledging an open response never causes a push |
| `StreamLedger.PushDisciplineFromTheStart` | pkg/xds/xds.go:530-590 | the same for a whole stream, in terms of what its first request asked for |
| `StreamReports.OnAckIsTold` | pkg/xds/xds.go:478-507 | over any run: OnAck is called for exactly the accepted requests with an open nonce, once each and in order; it hears of that nonce, accepted exactly if the request carries no error, with the request's version and the first node id given |
| `StreamReports.KnowsItsClient` | pkg/xds/xds.go:534-541 | while it runs, a stream's node is the first id given, and its subscription what was asked for until then |
| `StreamReports.OpenIff` | pkg/xds/xds.go:465-529 | a transaction is open exactly if its response was handed out under this version and since then neither acknowledged nor found stale nor handed out anew |
| `StreamReports.EndedIff` | pkg/xds/xds.go:515-590 | a stream has ended for a reason exactly if an event gave it: another subscription before another type before a failing push, whose two ways to fail are told apart |
| `ProtocolSafety.StepKeepsSessions` | pkg/xds/xds.go:198-223 | every step keeps: no send on a closed channel, the registered sessions are the streams that have not left, one notifier at a time holds sessionsMu and waits only for registered sessions |
| `ProtocolRuns.NeverPanics` | pkg/xds/xds.go:400-427 | no reachable state has sent on a closed session channel, and whoever is waited for is still registered |
| `ProtocolRuns.WaitingEnds` | pkg/xds/xds.go:210-222 | in every reachable state, a session that a notifier waits for takes the update, or is in a push that ends without anybody's help |
| `ProtocolRuns.NeverWedged` | pkg/xds/xds.go:406-427 | in every reachable state that is not at rest something can move, without any notifier timing out; an exiting stream cannot wedge a notifier |
| `ProtocolLocks.ErasedRuns` | pkg/xds/xds.go:109-114 | with resourcesMu as a lock that is taken in a step of its own, the system does nothing the protocol does not allow, so all its guarantees hold |
| `ProtocolLocks.RunsAreLocked` | pkg/xds/xds.go:109-114 | and it can do all that the protocol allows |
| `ProtocolLocks.NeverNested` | pkg/xds/xds.go:182-292 | in every reachable state nobody who holds or waits for one mutex holds or waits for the other |
| `ProtocolLocks.LocksNeverWedge` | pkg/xds/xds.go:182-292 | the holder of resourcesMu can always finish and give it back; while it is free something can move or take it, unless everything is at rest |
| `ProtocolLocks.LockedRunsAreBounded` | pkg/xds/xds.go:198-223 | left to itself the system with both mutexes stops, in whatever order they are taken |
| `ProtocolStreams.StreamsAreLoops` | pkg/xds/xds.go:515-592 | over every run of the system, each stream is what the select loop makes of the events it got, up to a push under way; it has left exactly if the loop has ended |
| `ProtocolStreams.ResubscribedStreamLeaves` | pkg/xds/xds.go:542-549 | a stream that knows its client and is asked for other names leaves its loop at once, for that reason, and is never in it again, whatever happens |
| `ProtocolStreams.StreamsKeepTheirLedger` | pkg/xds/xds.go:406-427 | so every stream's ledger balances, in whatever company |
| `ProtocolStreams.ResponsesAreMoments` | pkg/xds/xds.go:375-393 | every response of a run was built in one of its states, and tells the version and the wanted contents of that one state |
| `ProtocolStreams.VersionsAreHandedOn` | pkg/xds/xds.go:455-466 | the transactions of a stream are the responses built for it, in order, under the versions they were built with |
| `ProtocolTelling.ToldOnce` | pkg/xds/xds.go:196-223 | from taking sessionsMu on: a notifier passes its names to registered sessions only, to none twice, and to each of them by the time it returns, unless it gives up; whom it has not served it still waits for |
| `ProtocolTelling.AnnouncesExactly` | pkg/xds/xds.go:227-292 | in every reachable state a call announces exactly the names that its own writes have filed, replaced or removed |
| `ProtocolRuns.StuckIffAtRest` | pkg/xds/xds.go:198-223 | in every reachable state: nothing can go on by itself, time-outs of notifiers aside, exactly if every call has returned and every stream waits in its select or is gone |
| `ProtocolProgress.InternalStepsWork` | pkg/xds/xds.go:198-223 | every step the system makes by itself uses up work, so notification terminates under every scheduler |
| `ProtocolHistory.StepKeepsTimeline` | pkg/xds/xds.go:182-188 | every step keeps: the map is what the writes made it, the version counts the bumps, nobody bumps twice or before its last write |
| `ProtocolHistory.VersionCountsMutations` | pkg/xds/xds.go:186-188 | the version plus the completed mutations still to be counted is the number of completed mutations that changed something |
| `ProtocolHistory.StepKeepsResponses` | pkg/xds/xds.go:375-393 | every step keeps: each response shows the map as it was at one moment and contains every write of the mutations behind its version; versions on a stream never decrease |
| `ProtocolRuns.VersionCausality` | pkg/xds/xds.go:182-188 | both of the above in every reachable state |
| `ProtocolConvergence.StepKeepsConverging` | pkg/xds/xds.go:182-292 | every step keeps the convergence invariant |
| `ProtocolConvergence.StepKeepsAnswered` | pkg/xds/xds.go:561-573 | every step keeps: a stream whose client gave a node id has been answered unless it is just being answered |
| `ProtocolConvergence.OnlyTheUnknownWiden` | pkg/xds/xds.go:534-549 | only a client that has asked for something by name and not said who it is can widen its subscription |
| `ProtocolRuns.Convergence` | pkg/xds/xds.go:397-592 | in every reachable state, for every live stream and wanted name: a client that gave a node id has been or is being answered; and once answered, the last response is right about the name, or a mutator still has to tell the stream, or the stream is answering such an update, or the news was lost |
| `ProtocolRuns.LosslessRun` | pkg/xds/xds.go:217-219 | no stream loses a name in a run without timed-out notifications and without Adds of invalid resources |
| `ProtocolRuns.ComesToAgreement` | pkg/xds/xds.go:198-223 | left to itself the system stops after a bounded number of steps, with every call returned, every exiting stream gone, and every remaining client that has said who it is, or been answered without, and has not widened its subscription since its last response, agreeing with the map on what it wants and did not lose |
| `ProtocolRuns.OneWriterEffects` | pkg/xds/xds.go:226-292 | with calls made one after the other, the map at rest is what the calls do in sequence, whatever the streams do meanwhile |
| `ProtocolExamples.SameVersionDifferentContents` | pkg/xds/xds.go:243-247 | a run in which one stream gets two different responses of one version |
| `ProtocolRuns.OneVersionOneMoment` | pkg/xds/xds.go:182-188 | two responses of one version, on whatever streams, show the same moment exactly if every write between them belongs to a mutation the version counts |
| `ProtocolRuns.QuietIffCounted` | pkg/xds/xds.go:227-247 | the version counts the author of every write exactly if no call stands between its first write and its bump and no refused Add has written |
| `ProtocolRuns.QuietVersionIsContents` | pkg/xds/xds.go:182-188 | in such a state, every response of its version built by then, on any stream and in any continuation, shows its map |
| `ProtocolRuns.SameVersionSameMap` | pkg/xds/xds.go:375-393 | a response built in such a state shows what every earlier response of its version shows, on every name both were asked for |
| `ProtocolExamples.ClientServed` | pkg/xds/xds.go:574-589 | a run in which a resource filed after the client's first request reaches it, lossless and at rest |
| `ProtocolExamples.TimeoutLeavesBehind` | pkg/xds/xds.go:217-219 | a run in which a timed-out notification leaves a live client without a resource, at rest |
| `ProtocolExamples.InvalidResourceLeavesBehind` | pkg/xds/xds.go:231-233 | a run in which an invalid resource leaves an earlier one unannounced, at rest |
| `ProtocolExamples.AnonymousClientLeftBehind` | pkg/xds/xds.go:535-541 | a run in which nothing is lost and a client without node id, having widened its subscription in an acknowledgement, is left behind |
| `Naming.NameSpelled` | pkg/glue/glue.go:301-322 | TCP, also by default: namespace, service and port key with colons between; UDP: the same and `:udp`; any other protocol: no name; the key is the port's name, or a text whose value in decimal is its number |
| `Naming.NamesAgree` | pkg/glue/glue.go:301-322 | two supported ports get one cluster name exactly if namespace, service, port key and protocol agree |
| `Naming.EmptyNameIffUnsupported` | pkg/glue/glue.go:311-317 | the name is empty exactly for protocols Envoy does not speak |
| `Naming.UnnamedPortsAgree` | pkg/glue/glue.go:318-321 | unnamed ports share a name only if they share a number |
| `Naming.ColonsCollide` | pkg/glue/glue.go:321 | with colons, two services of different namespaces can share a name |
| `Text.ItoaInjective` | pkg/glue/glue.go:319 | different numbers read differently in decimal |
| `Text.ItoaWrites` | pkg/glue/glue.go:318-320 | a text is the decimal of a number exactly if it consists of digits, without a leading zero, that read as its value, after a minus sign if that is negative |
| `Text.LessIff` | pkg/glue/glue.go:488-511 | one text is less than another exactly if it is a proper prefix or has the smaller character at the first difference |
| `Slices.BagCountsSites` | pkg/glue/glue.go:451-485 | an endpoint is placed under a cluster and a node as often as slices, nameable ports, admitted endpoints and addresses lead to it |
| `Translation.FileEndpoints` | pkg/glue/glue.go:471-483 | health by readiness, unready endpoints skipped unless configured, each address appended to the list of its node |
| `Translation.FileSlice` | pkg/glue/glue.go:453-484 | every nameable port of the slice adds its endpoints to its cluster, and nothing is added elsewhere |
| `Translation.BuildGroups` | pkg/glue/glue.go:489-501 | one sorted group for each node with endpoints, sorted by locality, none empty |
| `Translation.LoadAssignments` | pkg/glue/glue.go:445-511 | the nested loops and the three sorts yield a translation: strictly sorted by cluster, one assignment for each nameable port's cluster, each holding exactly what the slices place there |
| `Translation.ClusterNames` | pkg/glue/glue.go:513-531 | exactly the clusters the slices have nameable ports for |
| `EndpointStoreObject.NamePasses` | pkg/glue/glue.go:732-734 | run over one map, the pass that looks at no endpoints finds exactly the clusters of the full translation, including those whose every endpoint is filtered out, and no others are empty |
| `TranslationLaws.EmptyIffNothingLeads` | pkg/glue/glue.go:466-483 | a cluster's assignment has no groups exactly if no admitted address under a nameable port leads to it |
| `TranslationLaws.Conservation` | pkg/glue/glue.go:450-506 | across its groups a cluster holds an endpoint exactly as often as there are ways to it; no group is empty |
| `TranslationLaws.OrderIndependence` | pkg/glue/glue.go:487-510 | permuted slices, any map iteration, any sort: the same clusters in the same order, the same groups up to the order of those whose localities read the same; identical if localities of different nodes read differently |
| `TranslationLaws.ListsTheAddresses` | pkg/glue/glue.go:453-483 | an assignment lists exactly the addresses of endpoints under ports that go by its name, each in the one group of its node: healthy if ready or if that is not said, degraded if not ready and to be included, otherwise not at all; with the port's number as 32 bits and its protocol |
| `TranslationLaws.AssignsTheNames` | pkg/glue/glue.go:453-470 | there is an assignment for exactly the names that ports with a number and a supported protocol go by |
| `EndpointStoreObject.Values` | pkg/glue/glue.go:734 | every slice of the map once, in some order |
| `EndpointStoreObject.EndpointStore.Add` | pkg/glue/glue.go:695-699 | the event is one step of the index, and every map seen meanwhile is in between |
| `EndpointStoreObject.EndpointStore.Update` | pkg/glue/glue.go:701-705 | the same for an update |
| `EndpointStoreObject.EndpointStore.Delete` | pkg/glue/glue.go:707-711 | the same for a deletion |
| `EndpointStoreObject.EndpointStore.Edit` | pkg/glue/glue.go:726-733 | the service's inner map is made if missing and changed in place; all other inner maps are as before, and no two services share one |
| `EndpointStoreObject.EndpointStore.ChangeSlice` | pkg/glue/glue.go:726-752 | index, published map and calls after one update, the failing case included; every map the manager goes through keeps what stays |
| `EndpointStoreObject.EndpointStore.PassOn` | pkg/glue/glue.go:736-751 | clusters that disappeared are deleted one by one, the service is forgotten if empty, the rest is added |
| `EndpointStoreObject.EndpointStore.Replace` | pkg/glue/glue.go:775-806 | refused or invalid, neither index nor map nor version changes; otherwise both are rebuilt, the map in one change, and exactly old names and new names together are announced |
| `EndpointStoreObject.MakeBeforeBreak` | pkg/glue/glue.go:732-748 | at every moment of an update a cluster published before and after it stays published, what is missing is in old minus new, and other services' clusters are untouched |
| `EndpointIndex.OneOwner` | pkg/glue/glue.go:453-465 | a cluster name belongs to one service |
| `EndpointIndex.UpdateKeepsPublished` | pkg/glue/glue.go:713-753 | recomputing one service is as good as translating all slices |
| `EndpointIndex.ReplacePublishesIff` | pkg/glue/glue.go:782-804 | Replace publishes the translation of what it stores exactly if the overwritten duplicates place nothing and name no cluster of their own |
| `EndpointIndex.ApartIsHarmless` | pkg/glue/glue.go:790-797 | listings without duplicates are stored and published in full |
| `EndpointIndex.DuplicatesBreakReplace` | pkg/glue/glue.go:796-797 | two slices of one service and name after which a cluster is published that no stored slice names |
| `EndpointIndex.KeepsUpIffLabelStable` | pkg/glue/glue.go:726-733 | the stored slices are those of the cluster after an event exactly if the slice was unknown or keeps its service |
| `EndpointRuns.RelabelledSliceLingers` | pkg/glue/glue.go:726-733 | after a slice has changed its service the old copy is still stored and every cluster it names still published |
| `EndpointRuns.DeletingOldCopyMends` | pkg/glue/glue.go:707-711 | deleting the old copy makes index and published map right again |
| `EndpointRuns.RelabelledRun` | pkg/glue/glue.go:726-733 | a run in which a slice is first of one service, then of another, after which a cluster is published that nothing in the cluster names |
| `EndpointIndex.FileAllFiles` | pkg/glue/glue.go:783-798 | the rebuilt index files each slice under its own service and name, the last of each, with no empty inner map |
| `EndpointRuns.ReplaceAllOrNothing` | pkg/glue/glue.go:775-806 | a failing Replace changes neither index nor map; a successful one stores the last slice of each service and name and publishes exactly the clusters of its argument |
| `EndpointRuns.FaithfulIffReportedOk` | pkg/glue/glue.go:747-751 | an update keeps the index equal to the full translation exactly if it reports success |
| `EndpointRuns.RunIsFaithful` | pkg/glue/glue.go:713-806 | after any run the index is filed properly and the map is the translation of all stored slices |
| `EndpointRuns.RefinesFullRebuild` | pkg/glue/glue.go:713-806 | the same against any from-scratch translation, in any order: same clusters, same assignments up to the order of groups whose localities read the same |
| `EndpointRuns.PublishesWhatLives` | pkg/glue/glue.go:713-806 | after any orderly run the map is the translation of the slices the cluster has |
| `EndpointRuns.RunIsItsCalls` | pkg/glue/glue.go:740-748 | the published map is what the calls made to the manager do to an empty map |
| `Overrides.FilterThenMerge` | pkg/glue/glue.go:235-255 | unless a rule compares names after another has set one, the rule loop suppresses exactly if a suppressing rule accepts the original name, and otherwise merges, in order, exactly the overrides that do |
| `Overrides.JudgesByOriginalNameIff` | pkg/glue/glue.go:235-255 | the loop lets exactly the rules take effect that accept the original name, up to the first that suppresses it, if and only if no rule up to there judges the name set by the overrides before it otherwise |
| `Overrides.UndeceivedFilters` | pkg/glue/glue.go:235-255 | and then the loop is a filter and a merge |
| `Overrides.RenamingDeceives` | pkg/glue/glue.go:245-251 | otherwise a cluster can be suppressed that no suppressing rule accepts by its original name |
| `Overrides.MergedInOrder` | pkg/glue/glue.go:244-248 | what merging a list of overrides amounts to, field by field: repeated fields appended in order; the last name that is set; of the timeout's seconds the last that are not zero, and of its nanoseconds likewise; the last discovery type, or a custom one under the last name since then; the load assignments' groups in order under their last name |
| `Overrides.AcceptsIff` | pkg/glue/glue.go:69-83 | a rule accepts a port exactly if one of its matchers gives the cluster's name, or no cluster name and the port's |
| `Overrides.LastTimeoutWinsIff` | pkg/glue/glue.go:246 | the last timeout wins as a whole exactly if each of its fields that is zero was zero in the cluster and in every override before |
| `Overrides.QuarterSecondAdds` | pkg/glue/glue.go:189-192 | 0.25s over the default of 1s makes 1.25s |
| `Overrides.FoldKeepsName` | pkg/glue/glue.go:244-248 | overrides that set no name keep the cluster's name |
| `ClusterConfigObject.Message.MergeFrom` | pkg/glue/glue.go:246 | merging in place, field by field, as the sort of the field demands; a duration by its seconds and nanoseconds |
| `ClusterConfigObject.ClusterConfig.GetBaseConfig` | pkg/glue/glue.go:224-231 | a new message, equal to the base |
| `ClusterConfigObject.ClusterConfig.ApplyOverride` | pkg/glue/glue.go:235-255 | changes the message passed and nothing else, to what the rules make of it, or reports it suppressed |
| `ClusterConfigObject.ClusterConfig.ClustersFromService` | pkg/glue/glue.go:326-354 | new messages with the clusters of the service's ports, in order; base configuration and overrides are as before |
| `Services.ServicePortMeetsSlicePort` | pkg/glue/glue.go:331-337 | a service port and a slice port name one cluster exactly if the slice is the service's and port key and protocol agree |
| `Services.ServicesApart` | pkg/glue/glue.go:331-351 | different services have no cluster name in common |
| `Services.NameTellsCluster` | pkg/glue/glue.go:331-351 | within a service, ports of different key or protocol make clusters of different names |
| `Services.EveryClusterHasEndpoints` | pkg/glue/glue.go:343-350 | a cluster has EDS discovery, or some discovery type and one endpoint: the service's host name in the cluster's DNS, at the port |
| `Services.PortBecomes` | pkg/glue/glue.go:329-352 | a port makes no cluster exactly if its protocol is not spoken or a rule suppresses it; otherwise the rules get the base under the port's name, and their result is left alone if EDS, and else keeps its discovery type or gets strict DNS, with the service as its endpoint |
| `Services.PortsInOrder` | pkg/glue/glue.go:331-352 | a service's clusters are those of its ports, one each and in order |
| `Services.EdsIffLastToSay` | pkg/glue/glue.go:244-248 | unless names set by overrides deceive the rules, a cluster gets its endpoints by EDS exactly if that is the last discovery type that the base or a matching override sets |
| `Meeting.ServiceReachesEndpoints` | pkg/glue/glue.go:296-300 | the cluster a service's port makes finds under its name every address of every slice that backs the port, in a group at its node's locality, with the right port and protocol: degraded if it is not ready and such endpoints are included, healthy if it is ready or does not say |
| `ClusterRuns.AddKeepsShownIff` | pkg/glue/glue.go:574-602 | after Add or Update every live service's current translation is published exactly if no other live service has a different cluster of one of its names |
| `ClusterRuns.AddKeepsShown` | pkg/glue/glue.go:574-602 | so it is if the names of live services are apart, whether or not overrides set them |
| `ClusterRuns.AddIsExactIff` | pkg/glue/glue.go:589-602 | and nothing else is published exactly if the service lost no cluster name |
| `ClusterRuns.DeleteKeepsShownIff` | pkg/glue/glue.go:604-617 | deleting leaves other services' clusters exactly if they share no name with the object passed |
| `ClusterRuns.DeleteIsExactIff` | pkg/glue/glue.go:604-617 | and leaves nothing else exactly if the object passed still names every cluster the service had |
| `ClusterRuns.ReplaceIsExactIff` | pkg/glue/glue.go:649-666 | after Replace exactly the cluster names of the services listed are published, and every listed translation exactly if clusters of one name are one cluster |
| `ClusterRuns.ReplaceIsExact` | pkg/glue/glue.go:649-666 | so it is for listings whose services' names are apart |
| `ClusterRuns.PublishesLiveServices` | pkg/glue/glue.go:574-666 | after any run in which clusters validate and live services' names are apart, every live service's current translation is published, and nothing else if no event dropped a cluster name |
| `ClusterRuns.PublishesProperServices` | pkg/glue/glue.go:326-354 | the same from what the ports alone decide: overrides that set no names, colon-free identifiers, distinct ports |
| `ClusterRuns.SharedNameLosesOne` | pkg/glue/glue.go:244-248 | a rule that names two services' clusters alike: the one added last is published, the other's translation is not |
| `ClusterRuns.RunIsItsCalls` | pkg/glue/glue.go:582-616 | the published map is what the calls made to the manager do to an empty one |
| `ClusterRuns.DroppedPortStays` | pkg/glue/glue.go:597 | a run in which a service loses its port and its cluster stays published |
| `ClusterStoreObject.ClusterStore.Add` | pkg/glue/glue.go:574-587 | the map, the calls and the report after the event are those of the run above; other objects are refused |
| `ClusterStoreObject.ClusterStore.Update` | pkg/glue/glue.go:589-602 | the same for an update |
| `ClusterStoreObject.ClusterStore.Delete` | pkg/glue/glue.go:604-617 | the same for a deletion |
| `ClusterStoreObject.ClusterStore.Replace` | pkg/glue/glue.go:649-666 | the same for a listing; all or nothing, and exactly the names published before or after are announced |
| `EndToEnd.ManagerHoldsCalls` | pkg/xds/xds.go:226-292 | where nothing can go on by itself, a manager holds what the calls of its one writer make of an empty map |
| `EndToEnd.ManagerHoldsIndex` | pkg/glue/glue.go:723-751 | the index being the endpoints manager's only writer, the manager at rest holds what the index published |
| `EndToEnd.ClientsHoldTheTranslation` | pkg/xds/xds.go:574-589 | at rest every remaining client that has said who it is, or been answered without, and has not widened its subscription since its last response, holds, on every cluster it asked for, the translation of the slices the cluster has |
| `EndToEnd.TellsWhatIsTranslated` | pkg/glue/glue.go:445-511 | such a client has a cluster exactly if a translation from scratch has it, with the same assignment up to the order of groups whose localities read the same |
| `EndToEnd.ClientsHoldTheClusters` | pkg/glue/glue.go:574-666 | at rest every such client holds, on every name it asked for, the current translations of the services that exist, and nothing else if no event dropped a cluster name |

## Left out

- Overrides.FilterThenMerge: a sufficient condition on the rules alone; the exact one for a given cluster is that of JudgesByOriginalNameIff.
- Overrides.UndeceivedFilters: one direction for the resulting cluster, since a loop that applies other rules can end up with the same cluster; which rules are applied is exact in JudgesByOriginalNameIff.
- EndpointRuns.FaithfulIffReportedOk: takes validation not to depend on the order of groups, and the String() texts that are sorted by to tell endpoints apart.
- ClusterStoreObject.ClusterStore.Add: hands the manager the values of the finished messages, so the sharing of messages between store and manager is not modelled.
- Changes to the node store: localities are a fixed function of the node name, since node events do not recompute assignments.
- Real time: tickers, deadlines, cancellation and the choices of select are free choices of the environment.
- Protobuf: validation, marshalling and the texts of messages are parameters; clusters are reduced to one field of each sort that merging treats differently; a missing locality and an empty one are not told apart.
- Callbacks: OnAck is recorded, and taken to return without calling the manager.
- Subscriptions: cmp.Diff tells a nil list from an empty one; the model does not.
- sort.Slice: known to callers as some sorted permutation; the sort written here is one of many.
- gRPC plumbing, `pkg/cds/cds.go` (which only forwards to the managers), HTTP handlers, reflectors, configuration loading, metrics, tracing other than the spans of transactions, and logs, among them the one at `pkg/xds/xds.go:196`, which reads the version without holding resourcesMu.
- `List`, `ListKeys`, `Get`, `GetByKey`, `Resync`, and the label rules of LocalityFromHost: easy members.

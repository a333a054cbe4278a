# Balemoh verification

A Dafny model of the parts of Balemoh whose correctness spans several functions or a whole run, with
proofs of what they promise. `dafny verify dfyconfig.toml` checks everything.

## What is modelled

- **Notification authority** (`NotificationAuthority`, `AuthorityInvariant`, `AuthorityTheorems`,
  `AuthorityOrder`, `AuthorityClose`, `AuthorityProgress`, `NotificationChild`, `ConnectionPublisher`). Host and plugin child as one step system:
  Configure that is accepted, refused, rejected or whose reply is lost, CloseConnection, Shutdown,
  revocation, and publications that hold read locks. Theorems hold for every interleaving.
  `NotificationChild` is the child's server as imperative code and shows that each of its methods is
  a run of the steps. Requests on the wire carry their connection, kind and outcome; a callback is live or
  stopped and a session open or closed. Agreement of the two sides is proved for every run in which a
  connection's calls are handled in the order sent, however many are outstanding.
- **Notification inbox** (`NotificationInbox`, `InboxRuns`, `NotificationCursor`, `NotificationRequests`):
  the store's transactions, paging under concurrent writes, and the cursor text.
- **Supervisor** (`Supervisor`): the restart loop with its sliding budget, back-off and child ownership.
- **Fonts** (`Base128`, `FontTables`, `FontLayout`, `FontOrder`, `Woff2Directory`, `Woff2File`): SFNT, WOFF 1.0 and WOFF 2.0
  containers over arbitrary bytes, with 64-bit sums taken as words. `FontWriter`, `WoffWriter` and `Woff2Writer` put files
  together as the W3C formats describe them, and the readers give back what was put in.
- **Catalog** (`Catalog`, `CatalogRuns`), **telemetry** (`Telemetry`, `TelemetryRuns`), **plugin
  connections** (`PluginConnections`, `PluginRuns`, `PluginDeployment`) and **dashboard layout** (`DashboardLayout`): SQLite
  stores as classes whose methods are transactions, and runs over them.
- **Package digest** (`PackageDigest`), **routes** (`Routes`, `PathEscape`, `PageRequests`) and
  **federation settings** (`Federation`).

`Records`, `Numerals`, `Strings`, `Sets` and `Wrappers` are shared.

## Assumptions

- One database connection: a transaction is one step, and an error rolls it back. A database fault, a lock
  that is not obtained, the clock, fresh identifiers, decompression (the whole output of a stream, or failure),
  the layout codec and the change a client makes are parameters.
- Pruning and registration of telemetry run several statements without a transaction, and a list or a detail
  several queries; each is taken as one step.
- Pruning deletes exactly the rows received before the cutoff second, listing is descending by sequence below
  the cursor, and a sequence number is never used twice (the AUTOINCREMENT counter).
- IDs made by hashing identify what they hash: a candidate by source and resource, a host by source and node.
- Decompressing no bytes fails, as zlib does without its header.

## Where the code and its description differ

- `PageURL` builds URLs that no page is found for: it accepts a value such as `a..b`, and values of any length,
  while the router refuses a path with two dots in a row or more than 2048 bytes.
  `PageRequests.BuiltUrlFindsItsPage` states exactly when a built URL finds its page.
- The visible rows of a catalog source converge to the latest snapshot in any delivery order. The content of a row
  does in every order if and only if no earlier snapshot says something else about the resource with as new a
  candidate time (`CatalogRuns.ContentsConvergeIffUnrivalled`, with `CatalogRuns.StaleCandidateDependsOnOrder`).
- `Reconcile` keeps its desired set under `plugin + "/" + key`. It enables exactly the desired places if and only if
  no stored place is mistaken for another one, which holds for loaded deployments, whose plugin names have no slash.
- A telemetry sample is from the newest stored batch of its minute if and only if that batch reports its host
  (`TelemetryRuns.SampleIsFromNewestIffReported`); otherwise a newer batch leaves an older sample
  (`TelemetryRuns.NewerBatchLeavesOlderSample`), which is from the newest one that did report the host.
- The supervisor's window is half open. A closed five-minute interval holds a sixth restart if and only if one restart is
  at its start and the fifth after it exactly five minutes later (`Supervisor.SixthInClosedWindow`), and a run can
  have that (`Supervisor.SixInFiveMinutes`).
- The comparison in `extraBlocks` answers "after" for equal offsets both ways, so its sort promises no order. Two sorts by
  offset disagree about a WOFF file if and only if it is otherwise in order and an empty table starts where another
  range does (`FontOrder.WoffVerdictIsTheSorts`, with a file in `FontOrder.OneFileTwoVerdicts`). The layout of what is
  accepted is safe for any permutation.
- Close revokes every callback, but a Configure that was in flight then can still be acknowledged and register its own on
  the closed host. Its cancelled context lets nothing through, and exactly such callbacks stay live
  (`AuthorityClose.LiveAfterRevokeAll`, `AuthorityClose.OnlyLateAcknowledgementsSurviveClose`, with
  `AuthorityClose.LateAcknowledgementSurvivesClose`).
- The check for ambiguous routes refuses the root beside a route of one parameter, although no path fits both; otherwise it
  refuses exactly the pairs that share a path (`PageRequests.OverlapIffShared`, `PageRequests.RootIsRefusedBesideParameter`).
- Calls on one connection that overlap can be acknowledged in another order than they were handled. Then host and
  child end on different callbacks: with calls handled in the order sent, the sides agree if and only if no later request on
  the connection has taken effect since the last shutdown (`AuthorityOrder.OrderedAcknowledgementAgrees`, with
  `AuthorityOrder.ReorderedAcknowledgementsPart`).

## Model

| member | source | states |
|---|---|---|
| AuthorityInvariant.StepKeeps | plugin-sdk/runtime/notifications.go:33-109 | Every step of host, child or publication keeps the protocol invariant: callbacks have one owner, publishers own distinct open sessions, nothing unrevoked is lost |
| AuthorityTheorems.SessionOutlivesItsCalls | plugin-sdk/runtime/notifications.go:39-69 | In every reachable state a running call is on an open session and the child cannot close that session |
| AuthorityTheorems.RebindNeverRefused | plugin-sdk/runtime/backend.go:197-203 | No binding in the map is revoked, so the refused-rebind branch is unreachable |
| AuthorityTheorems.RevokedNeverSends | plugin-sdk/runtime/notifications.go:39-63 | A revoked publisher stays revoked through any run, has no call running and starts none |
| AuthorityTheorems.UnrevokedIsHeld | plugin-sdk/runtime/notifications.go:341-372 | A publisher can send if and only if its binding is in the map or held by the operation in progress |
| AuthorityProgress.HeldPublisherSends | plugin-sdk/runtime/notifications.go:48-63 | In every reachable state a call can begin exactly on a publisher with a session; it is on an open one, and dials what its connection dials |
| AuthorityProgress.GrantedPublisherSends | plugin-sdk/runtime/notifications.go:39-63 | A connection in the map can publish exactly when the Configure last in effect on it was granted publishing |
| AuthorityProgress.PendingCanBeAnswered | plugin-sdk/runtime/backend.go:150-217 | No reachable state is stuck: by steps of the child and the returns of running calls alone, every Configure it has not decided can be accepted and can be rejected |
| AuthorityTheorems.DialedCallbackIsAccounted | plugin-sdk/runtime/backend.go:77-108 | The callback a binding dials is live exactly when it is registered, owned by a Configure in flight, or about to be stopped, and only one of these |
| AuthorityTheorems.NoCallbackLeaks | plugin-sdk/runtime/notifications.go:434-460 | With no host call in progress the live callbacks are exactly the registered ones |
| AuthorityClose.LiveAfterRevokeAll | plugin-sdk/runtime/notifications.go:434-460 | After everything was revoked, once no call is in progress, exactly the callbacks are live whose Configure was acknowledged since, last of the calls on its connection |
| AuthorityClose.NothingLiveAfterRevokeAll | plugin-sdk/runtime/notifications.go:452-460 | Then nothing is live if and only if no such acknowledgement came |
| AuthorityClose.OnlyLateAcknowledgementsSurviveClose | plugin-sdk/runtime/backend.go:50-64 | A callback that outlives Close belongs to a Configure that was in flight when everything was revoked |
| AuthorityClose.LateAcknowledgementSurvivesClose | plugin-sdk/runtime/backend.go:77-108 | A concrete run that leaves one live callback on a closed host |
| AuthorityTheorems.RejectedConfigureChangesNothing | plugin-sdk/runtime/backend.go:190-197 | A Configure the handler rejects leaves the child's bindings as found, whatever ran meanwhile, and revokes what it made |
| AuthorityTheorems.GivingUpTouchesOnlyItsCallback | plugin-sdk/runtime/backend.go:93-104 | A rejected, malformed or lost reply stops the callback of that request alone and moves no registration |
| AuthorityTheorems.KeptPublisherFollows | plugin-sdk/runtime/backend.go:178-215 | A publisher kept from an earlier Configure of the same revision sends through the new callback; any other accepted Configure revokes it |
| AuthorityTheorems.AcknowledgedSidesAgree | plugin-sdk/runtime/backend.go:105-107 | An acknowledged Configure registers its live callback, and the child dials it if and only if no other call on the connection took effect since |
| AuthorityOrder.OrderedAcknowledgementAgrees | internal/adapters/plugins/runtime.go:109-147 | In every run that handles one connection's calls in the order sent, an acknowledged Configure is registered, and both sides are on its live callback if and only if no later request on the connection has taken effect and no shutdown came since |
| AuthorityOrder.DialsLastEffect | plugin-sdk/runtime/backend.go:150-217 | In every such run the child dials, for each connection, exactly the callback of the request that last took effect on it since the last shutdown |
| AuthorityOrder.ReorderedAcknowledgementsPart | plugin-sdk/runtime/notifications.go:434-446 | A concrete run, handled in the order sent and acknowledged in the other, that leaves the sides on different callbacks |
| NotificationChild.ChildServer.Configure | plugin-sdk/runtime/backend.go:150-217 | The child's Configure, with any publications running, is a run of the protocol's steps that answers its request. On a reachable heap it accepts exactly when the handler did not reject: then the connection's binding is unrevoked, has the revision asked for and dials the request's callback exactly when publishing was granted, and every other binding is as found; a refusal keeps the map and every binding. Publications through a publisher it rebinds or revokes end first |
| NotificationChild.ChildServer.CloseConnection | plugin-sdk/runtime/backend.go:225-234 | CloseConnection is such a run, answers its request, and retires exactly the connection's binding and its session |
| NotificationChild.ChildServer.Shutdown | plugin-sdk/runtime/notifications.go:364-373 | Closing all sessions is such a run, empties the map and retires exactly the bindings that were in it |
| NotificationChild.ChildServer.RevokeAndClose | plugin-sdk/runtime/notifications.go:90-109 | The publications through a binding end, it is revoked, and then its session is closed, as protocol steps |
| NotificationChild.TakeLock | plugin-sdk/runtime/notifications.go:48-63 | Waiting for the lock of a publisher ends exactly the publications through it and changes nothing else |
| NotificationChild.ReachableIsSound | plugin-sdk/runtime/notifications.go:341-372 | The heap the child's methods rely on is what every reachable state has |
| ConnectionPublisher.NothingStoredAfterRevoke | internal/adapters/plugins/notifications.go:35-69 | Nothing is stored through a connection publisher, and no call is past its check, at any time after a revoke returns |
| ConnectionPublisher.RevokeWaitsForCallsInside | internal/adapters/plugins/notifications.go:35-69 | Before a revoke can return, every publication or service binding that was past the check has released the read lock |
| ConnectionPublisher.RevokeGoesThrough | internal/adapters/plugins/notifications.go:95-119 | A waiting revoke goes through once no call holds the lock |
| ConnectionPublisher.InsidePassedItsCheck | internal/adapters/plugins/notifications.go:35-69 | A call past the check has passed it at a moment at which the connection had its authority and was not cancelled, and has held the lock since |
| ConnectionPublisher.GrantedCallStores | internal/adapters/plugins/notifications.go:35-69 | While no revocation asks, a call with authority that is not cancelled goes through and stores |
| NotificationInbox.NotificationStore.Publish | internal/adapters/sqlite/notifications.go:25-120 | On the fields of the rows: a stored row with the key is a replay, answered with its ID and time, filled or refused as a conflict; otherwise expired rows go when the table is full and the message is stored unread behind the last sequence; every error leaves the table as it was |
| NotificationInbox.NotificationStore.BindService | internal/adapters/sqlite/notifications.go:267-300 | Fills the empty reference of a row received since the cutoff, accepts the one it has, and otherwise fails without a change; no other field or row moves |
| NotificationInbox.NotificationStore.List | internal/adapters/sqlite/notifications.go:122-169 | A row is on the page or below its end exactly when it is stored, below the cursor, received since the cutoff and, for an unread-only request, has no read time; the page has exactly the limit when a next cursor is given, in descending order; unread counts the retained rows without a read time |
| NotificationInbox.NotificationStore.MarkOneRead | internal/adapters/sqlite/notifications.go:182-203 | Sets the read time of one row that has none, keeps a time already set, and fails without a change for a row that is not there |
| NotificationInbox.NotificationStore.MarkEveryRead | internal/adapters/sqlite/notifications.go:212-214 | Sets the read time of exactly the retained rows that have none |
| NotificationInbox.NotificationStore.PruneExpired | internal/adapters/sqlite/notifications.go:215-217 | Deletes exactly the rows before the cutoff and counts them |
| NotificationInbox.NotificationStore.ClearAll | internal/adapters/sqlite/notifications.go:205-210 | Deletes the rows and keeps the sequence counter |
| InboxRuns.ReachableInboxIsValid | internal/adapters/sqlite/notifications.go:25-120 | In every reachable inbox rows are unique by source, connection and event, within capacity, ascending and below the counter |
| InboxRuns.FailedCallsLeaveNoTrace | internal/adapters/sqlite/notifications.go:25-120 | Every run ends as it would have without its failed calls, and without them no other call fails |
| InboxRuns.StoredRowsOnlyEvolve | internal/adapters/sqlite/notifications.go:267-300 | Over any run a row keeps its identity, content and time, a filled service reference and a set read time |
| InboxRuns.ReplayReturnsOriginal | internal/adapters/sqlite/notifications.go:36-67 | A retained replay adds no row and gets the original ID and time exactly when its service reference is empty, fills an empty one or is the stored one; an identical replay always does |
| InboxRuns.PagesDescend | internal/adapters/sqlite/notifications.go:122-169 | Over a whole reading the sequence descends strictly and stays below what existed at the first page |
| InboxRuns.PagingListsExactlyOnce | internal/adapters/sqlite/notifications.go:122-169 | A complete reading with any transactions between pages lists every message that stays stored, received since the cutoff and, where asked, unread exactly once, and nothing stored after the first page |
| NotificationCursor.Base64RoundTrip | internal/adapters/http/notifications.go:274-276 | Unpadded base64url (section 5 of RFC 4648) decodes back to the bytes |
| NotificationCursor.CursorRoundTrip | internal/adapters/http/notifications.go:274-288 | A cursor decodes back to its sequence exactly for 1 to 2^63-1 |
| NotificationCursor.CursorsDiffer | internal/adapters/http/notifications.go:274-276 | Different sequences have different cursors |
| NotificationRequests.NotificationListOptions | internal/adapters/http/notifications.go:252-272 | A request is accepted exactly when limit and cursor are readable, and read as given |
| NotificationRequests.CursorContinuesThePage | internal/adapters/http/notifications.go:48-48 | The cursor sent with a page is accepted and asks for exactly what lies below that page |
| Supervisor.Supervise | plugin-sdk/runtime/supervisor.go:23-112 | For every script: the log is the story of the turns taken; each turn taken starts its child unless cancelled, and a child that starts is published, withdrawn and closed exactly once and in that order. At most one child is out, every start but the first follows a back-off of its own, each delay doubles once for every restart inside the window, and a child that cannot start is given up after exactly six starts with waits of 1, 2, 4, 8 and 16 seconds |
| Supervisor.EveryChildIsServed | plugin-sdk/runtime/supervisor.go:38-71 | In the story of any turns taken, the events of each turn are exactly those of a child that starts, is published, withdrawn and closed, or of one that does not start |
| Supervisor.FiveInEveryWindow | plugin-sdk/runtime/supervisor.go:87-100 | Every half-open five-minute window, wherever it starts, holds at most five restarts |
| Supervisor.SixthInClosedWindow | plugin-sdk/runtime/supervisor.go:87-100 | A closed window holds a sixth restart if and only if one restart is at its start and the fifth after it exactly five minutes later |
| Supervisor.SixInFiveMinutes | plugin-sdk/runtime/supervisor.go:87-100 | Six restarts that the budget allows, the last exactly five minutes after the first |
| Supervisor.StableChildClears | plugin-sdk/runtime/supervisor.go:78-81 | Clearing after five stable minutes forgets no attempt that is still inside the window |
| Supervisor.KeepRecent | plugin-sdk/runtime/supervisor.go:88-94 | The filter in place leaves exactly the attempts of the last five minutes, in order |
| Supervisor.Schedule | plugin-sdk/runtime/supervisor.go:87-102 | A restart is scheduled exactly when fewer than five are recent, after a delay that doubles with their number |
| Supervisor.Watch | plugin-sdk/runtime/supervisor.go:43-68 | A child is stopped by cancellation, exit or the third health failure in a row, and by nothing else |
| Supervisor.RecentIsSuffix | plugin-sdk/runtime/supervisor.go:87-94 | On a clock that never goes back the recent attempts are a suffix of all attempts |
| Base128.Read | internal/adapters/fontvalidate/font.go:208-225 | The loop reads what the recursive reader reads and moves the position as far |
| Base128.ReadsExactlyEncodings | internal/adapters/fontvalidate/font.go:208-225 | A value is read, and the position advanced, exactly where the encoding of a value below 2^32 stands |
| Base128.EncodingIsUnique | internal/adapters/fontvalidate/font.go:208-225 | Every value below 2^32 has exactly one accepted encoding, of one to five bytes |
| Base128.EncodingIsPositional | internal/adapters/fontvalidate/font.go:208-225 | An encoding is the value in base 128, highest digit first and without a leading zero, every byte but the last marked |
| FontTables.Region | internal/adapters/fontvalidate/font.go:40-45 | A range is given exactly when it lies inside the bytes |
| FontTables.TableBounds | internal/adapters/fontvalidate/font.go:49-69 | Accepted exactly when count, tags, each size and the exact sum are within limits, for any 64-bit sizes |
| FontTables.Extract | internal/adapters/fontvalidate/font.go:88-138 | Whatever permutation the sort returns, accepted tables lie aligned behind the directory, decode to their size and are pairwise disjoint; for a sort by offset exactly those are accepted |
| FontTables.PlacedFit | internal/adapters/fontvalidate/font.go:99-136 | Tables the walk accepts, in whatever order it takes them, fit and are pairwise disjoint |
| FontTables.PlacedIffFit | internal/adapters/fontvalidate/font.go:89-136 | For any sort by offset the walk accepts exactly the tables that fit and are pairwise disjoint |
| FontTables.CollectedAreTables | internal/adapters/fontvalidate/font.go:100-137 | The result names every table and holds the bytes of the metadata tables only |
| FontOrder.BothSort | internal/adapters/fontvalidate/font.go:190-195 | Sorts by offset exist that put equal offsets one way and the other |
| FontLayout.ExtraBlocks | internal/adapters/fontvalidate/font.go:175-204 | Metadata and private blocks are accepted exactly when each is well formed and all ranges chain |
| FontLayout.ChainIffApart | internal/adapters/fontvalidate/font.go:196-202 | The chain holds exactly when ranges are apart, behind the directory, and empty ones come first |
| FontOrder.SortsDisagreeIffTied | internal/adapters/fontvalidate/font.go:190-203 | Two sorts by offset disagree about a chain if and only if an empty range starts where a non-empty one does and the ranges are otherwise apart and behind the directory |
| FontOrder.WoffVerdictIsTheSorts | internal/adapters/fontvalidate/font.go:139-204 | The same for whole WOFF files: exactly the files in order but for such a pair get their verdict from the sort |
| FontOrder.OneFileTwoVerdicts | internal/adapters/fontvalidate/font.go:139-204 | A WOFF file of 88 bytes that one sort by offset accepts and another refuses |
| FontLayout.Sfnt | internal/adapters/fontvalidate/font.go:70-87 | An accepted SFNT file has a directory, limits and tables that fit, whatever permutation the sort returns; a sort by offset accepts exactly those |
| FontLayout.SfntLayoutIsSafe | internal/adapters/fontvalidate/font.go:70-138 | The directory and non-empty tables of an accepted SFNT are pairwise disjoint and inside the file |
| FontWriter.ReadSfntBack | internal/adapters/fontvalidate/font.go:70-87 | Round trip: an SFNT file put together from any tables is accepted exactly when it is within the limits, and gives back every tag and the bytes of every metadata table that is not empty |
| FontLayout.Woff | internal/adapters/fontvalidate/font.go:139-172 | A WOFF file is accepted exactly when header, unpacked size, limits and blocks fit and both walks accept what their own sort gives them; the flavour alone is unsupported |
| FontLayout.WoffSorted | internal/adapters/fontvalidate/font.go:139-204 | For a sort by offset the walk over the tables accepts exactly the tables that fit and are disjoint |
| FontLayout.ReadWoffEntries | internal/adapters/fontvalidate/font.go:154-161 | The unpacked size is the exact padded sum: no 64-bit sum wraps |
| FontLayout.WoffLayoutIsSafe | internal/adapters/fontvalidate/font.go:139-204 | Directory, non-empty tables and both blocks of an accepted WOFF are pairwise disjoint and inside the file, whatever permutations the two sorts return |
| WoffWriter.ReadWoffBack | internal/adapters/fontvalidate/font.go:139-173 | Round trip: a WOFF file put together from any tables, stored as they are or compressed, with any blocks, gives back tags and the original bytes of non-empty metadata tables when accepted; for every sort by offset it is accepted when within the limits and no stored table is empty, and in general exactly when also the sort puts empty ranges first |
| WoffWriter.SfntSizeIsLength | internal/adapters/fontvalidate/font.go:154-163 | The unpacked size announced is the length of the SFNT file of the original tables |
| Woff2Directory.RowStands | internal/adapters/fontvalidate/font.go:245-276 | A directory row is read exactly where its bytes stand |
| Woff2Directory.SizesByTable | internal/adapters/fontvalidate/font.go:259-275 | Which version bits and stream sizes a row may have, table by table |
| Woff2Directory.RowsStand | internal/adapters/fontvalidate/font.go:244-283 | A directory has exactly one reading, and ends where its bytes end |
| Woff2Directory.ReadDirectory | internal/adapters/fontvalidate/font.go:241-283 | The loop accepts exactly the directories whose whole sums are within limits, with offsets and sums exact |
| Woff2Directory.TablesPartitionStream | internal/adapters/fontvalidate/font.go:277-278 | The table slices, in directory order, give back the decoded stream |
| Woff2Directory.TablesFollowEachOther | internal/adapters/fontvalidate/font.go:277-278 | No two tables overlap and none passes the end of the stream |
| Woff2File.CheckOutlines | internal/adapters/fontvalidate/font.go:318-335 | A transformed glyf table is accepted exactly when its header is valid and its streams and bitmap fit |
| Woff2File.ReadTables | internal/adapters/fontvalidate/font.go:300-337 | Tables are sliced exactly, and glyf and loca come together, both transformed or neither |
| Woff2File.Woff2 | internal/adapters/fontvalidate/font.go:226-338 | A WOFF2 file is accepted exactly when some directory stands behind the header that the rest of the file bears out |
| Woff2File.Woff2LayoutIsSafe | internal/adapters/fontvalidate/font.go:226-314 | Directory, stream and blocks are disjoint and inside the file, whatever permutation the sort returns, and the tables partition the decoded stream |
| Woff2File.Woff2VerdictIgnoresTheSort | internal/adapters/fontvalidate/font.go:292-294 | No range of a WOFF2 file is empty, so every sort by offset gives the same verdict |
| Woff2Writer.ReadWoff2Back | internal/adapters/fontvalidate/font.go:226-338 | Round trip: a WOFF2 file put together from any rows and parts is accepted exactly when within the limits and its outlines are paired and in order, and gives back every tag and metadata table |
| Woff2Writer.WrittenOutlinesFit | internal/adapters/fontvalidate/font.go:318-335 | A transformed glyf table put together from seven streams is in order exactly when its index format is known and an announced bitmap has room |
| Catalog.Validate | internal/application/catalog/model.go:81-115 | A snapshot is valid exactly when source, times, candidates and distinct IDs are as required |
| Catalog.CatalogStore.UpsertCandidate | internal/adapters/sqlite/catalog.go:120-179 | One row changes, and only for a newer observation |
| Catalog.CatalogStore.ReplaceSourceSnapshot | internal/adapters/sqlite/catalog.go:181-253 | A valid snapshot newer than the watermark: each candidate's row is present, takes over content and time only when they are newer, and keeps pin and hiding; the source's other rows are missing and all others as they were. Any other snapshot changes nothing |
| Catalog.UpsertedRow | internal/adapters/sqlite/catalog.go:212-222 | What the loop over candidates leaves in each row |
| Catalog.CatalogStore.SetPinned | internal/adapters/sqlite/catalog.go:304-361 | All named rows end pinned, each with the time of its first pin, or all unpinned, and nothing else in them changes; the first row that is not there, or is missing or hidden when pinning, says why nothing changed |
| CatalogRuns.LatestSnapshotWins | internal/adapters/sqlite/catalog.go:181-253 | For any order and repetition of deliveries with distinct times the rows not missing are the candidates of the latest snapshot |
| CatalogRuns.DeliveryOrderIsInvisible | internal/adapters/sqlite/catalog.go:181-253 | Two runs that deliver the same snapshots agree on the rows not missing |
| CatalogRuns.RowsEvolve | internal/adapters/sqlite/catalog.go:120-135 | Over any run no row is lost and its observation time never decreases; new content only comes with a newer time |
| CatalogRuns.PinSurvives | internal/adapters/sqlite/catalog.go:212-215 | A pin stays through any run in which nobody sets it |
| CatalogRuns.ContentsConvergeIffUnrivalled | internal/adapters/sqlite/catalog.go:120-253 | Every run that delivers a set of snapshots ends with the latest one's content in a row if and only if every earlier candidate for it is older or says the same |
| CatalogRuns.LatestContentsWin | internal/adapters/sqlite/catalog.go:120-253 | Where no earlier candidate rivals it, the row holds what the latest snapshot said after any run, and its time where all are older |
| CatalogRuns.RivalWins | internal/adapters/sqlite/catalog.go:128-130 | Where one does, some order of the same deliveries leaves other content in the row |
| CatalogRuns.StaleCandidateDependsOnOrder | internal/adapters/sqlite/catalog.go:128-130 | Otherwise the order of delivery shows in the contents |
| Telemetry.Validate | internal/application/telemetry/model.go:105-151 | A batch is valid exactly when kind, time window, host count, unique nodes and root are as required |
| Telemetry.TelemetryStore.Register | internal/adapters/sqlite/telemetry.go:17-26 | Adds a row with nothing in it for exactly the missing roots |
| Telemetry.TelemetryStore.Prune | internal/adapters/sqlite/telemetry.go:27-34 | Deletes exactly the samples older than a day and the nodes not received for a day with their samples |
| Telemetry.TelemetryStore.Ingest | internal/adapters/sqlite/telemetry.go:35-83 | A valid batch newer than its root and within 128 hosts leaves each reported host with its observation and times and a sample of its minute, every other row and sample as it was unless expired; an older batch is passed over, and an invalid or too large one refused, without a trace |
| Telemetry.TelemetryStore.List | internal/adapters/sqlite/telemetry.go:86-149 | Exactly the stored hosts not expired, each shown as its row is and fresh only within three minutes, and bare roots of other discovered sources |
| Telemetry.StoredIsShown | internal/adapters/sqlite/telemetry.go:35-149 | After a stored batch a list shows each reported host with its observation and times until it expires |
| Telemetry.TelemetryStore.Detail | internal/adapters/sqlite/telemetry.go:150-200 | One listed host, for a root all listed nodes of its source, and the window; unknown hosts and windows are told apart |
| TelemetryRuns.ReachableStoreKeeps | internal/adapters/sqlite/telemetry.go:17-83 | In every reachable store a source has at most 128 hosts, a root whenever it has a node, and a root at least as new as every node |
| TelemetryRuns.SampleIsFromNewestIffReported | internal/adapters/sqlite/telemetry.go:56-71 | A kept sample is from the newest stored batch of its minute if and only if that batch reports its host |
| TelemetryRuns.SampleIsFromNewestBatch | internal/adapters/sqlite/telemetry.go:56-71 | In any case it is from the newest stored batch of its minute among those that reported its host |
| TelemetryRuns.NewerBatchLeavesOlderSample | internal/adapters/sqlite/telemetry.go:56-71 | A run in which a newer batch of the same minute, without the host, leaves the older sample |
| TelemetryRuns.PruneIsInvisible | internal/adapters/sqlite/telemetry.go:27-34 | Pruning at a time changes no list or detail given from then on, whatever is stored in between |
| TelemetryRuns.AlikeAnswers | internal/adapters/sqlite/telemetry.go:86-200 | Stores that agree on what pruning leaves answer every later question alike |
| TelemetryRuns.DetailIsComplete | internal/adapters/sqlite/telemetry.go:167-198 | A detail has exactly 60 or 1440 consecutive minute slots up to now, each agreeing with the stored samples and none left out |
| PluginConnections.PluginStore.Reconcile | internal/adapters/sqlite/plugins.go:51-108 | For a valid list every place asked for holds the name, digest, manifest and version of its provision, under its old ID one revision up, with a fresh ID, or untouched when name and digest were those already and it was enabled; enabled rows nobody asked for are disabled one revision up. An invalid list changes nothing |
| PluginConnections.PluginStore.DisableOmitted | internal/adapters/sqlite/plugins.go:79-103 | Exactly the enabled rows with an undesired key are disabled, one revision up |
| PluginRuns.ReconcileRow | internal/adapters/sqlite/plugins.go:64-74 | A row keeps its ID, its revision rises by one exactly when name, digest or enabled changes, and otherwise nothing changes |
| PluginRuns.EnabledIsDesired | internal/adapters/sqlite/plugins.go:79-103 | The enabled set equals the desired one if and only if no stored place is mistaken for another |
| PluginRuns.SlashMistakesPlaces | internal/adapters/sqlite/plugins.go:60-64 | An example in which a slash makes that happen |
| PluginRuns.LoadedEnabledIsDesired | internal/adapters/sqlite/plugins.go:79-103 | After any run of valid lists whose plugin names have no slash the enabled set is the desired one |
| PluginDeployment.Load | internal/adapters/plugins/deployment.go:60-127 | Refuses more than 16 installations; otherwise gives exactly the provisions of ready connections, first with their well-formed key, of acceptable installations, first of their plugin |
| PluginDeployment.LoadedIsValid | internal/adapters/plugins/deployment.go:84-129 | The provisions of a loaded file are a list Reconcile accepts, with plugin names without a slash |
| PluginDeployment.DeploymentIsReconciled | internal/adapters/plugins/deployment.go:199-208 | After any sequence of loaded files every call succeeds and the enabled places are those of the last file |
| PluginRuns.RepeatChangesNothing | internal/adapters/sqlite/plugins.go:51-108 | Repeating a list changes nothing |
| PluginRuns.RevisionIdentifiesConfiguration | plugin-sdk/runtime/notifications.go:79-81 | Rows with one ID and revision at any two moments are the same configuration, so the child's revision-only test never joins two |
| DashboardLayout.LayoutStore.Update | internal/adapters/sqlite/dashboard_layout.go:160-214 | The row changes exactly when it can be reached and read, the client names the revision shown and its change writes another text below the last revision; it then holds that text one revision up. Each other case has its own answer |
| DashboardLayout.EveryRequestExtendsTheChain | internal/adapters/sqlite/dashboard_layout.go:160-214 | Each request commits exactly when it can reach the row, names its revision and asks for another text; what is committed is its change of the document just before and one revision newer, and every other request changes nothing |
| DashboardLayout.RevisionCountsChanges | internal/adapters/sqlite/dashboard_layout.go:191-213 | The revision counts the changed documents and never returns to an earlier one |
| DashboardLayout.StaleRevisionNeverOverwrites | internal/adapters/sqlite/dashboard_layout.go:172-174 | A client that names a revision read before another commit changes nothing and is told so |
| DashboardLayout.OneCommitPerRevision | internal/adapters/sqlite/dashboard_layout.go:160-214 | Of clients that name the same revision at most one commits |
| DashboardLayout.NextCommitStartsFromTheAnswer | internal/adapters/sqlite/dashboard_layout.go:26-49 | Every reader up to the next commit is shown what a commit answered, and the next commit is a change of exactly that answer |
| PackageDigest.ContentStream | plugin-sdk/manifest/digest.go:15-56 | Accepted exactly when every entry is a directory or an unchanged regular file, at most 128 positions hold regular files and their sizes sum to at most 256 MiB; the running total never passes that |
| PackageDigest.RecordUnique | plugin-sdk/manifest/digest.go:40-46 | No file record is the beginning of a different one |
| PackageDigest.StreamsDiffer | plugin-sdk/manifest/digest.go:24-51 | Different ordered lists of files never give the same stream |
| PackageDigest.PackageIsPinned | plugin-sdk/manifest/digest.go:15-56 | Two accepted packages are given one stream if and only if their regular entries, empty files among them, agree one by one in order, whatever directories stand between |
| PackageDigest.EmptyFileIsRecorded | plugin-sdk/manifest/digest.go:33-46 | An empty file has a record of its own in the stream |
| Routes.ValidRoute | plugin-sdk/manifest/manifest.go:441-461 | A route is accepted exactly when its parts are valid and its parameters distinct |
| Routes.Overlap | plugin-sdk/manifest/manifest.go:462-473 | Routes overlap exactly when they agree part by part up to parameters |
| Routes.ValidatePages | plugin-sdk/manifest/manifest.go:192-210 | Pages are accepted exactly when each is valid and no two share an ID or overlap |
| PageRequests.OverlapIffShared | plugin-sdk/manifest/manifest.go:462-473 | Two accepted routes overlap, and are neither the root beside a parameter, if and only if some path fits both and is refused at most for its length |
| PageRequests.RootIsRefusedBesideParameter | plugin-sdk/manifest/manifest.go:462-473 | The root and a route of one parameter overlap, though no path fits both |
| PathEscape.EscapeRoundTrip | plugin-sdk/ui/ui.go:112-112 | Escaping a value is undone by decoding |
| PathEscape.EscapeHasNoSlash | plugin-sdk/ui/ui.go:112-112 | An escaped value has no slash, so it stays one path segment |
| PathEscape.EscapeIsSafe | plugin-sdk/ui/ui.go:112-112 | An escaped value has no delimiter but the percent sign, and a value is left as it is exactly when it has none |
| PageRequests.Match | ui/internal/plugins/registry.go:570-590 | A path matches exactly when it is not refused and fits part by part, and binds the parameters |
| PageRequests.NoPathMatchesTwoPages | plugin-sdk/manifest/manifest.go:192-210 | No path matches two pages of an accepted manifest |
| PageRequests.PageURL | plugin-sdk/ui/ui.go:98-120 | A URL is built exactly when the page is known and every parameter, and no other, is given a usable value |
| PageRequests.BuiltUrlFindsItsPage | plugin-sdk/ui/ui.go:98-120 | A built URL decodes to the filled route and finds its own page with exactly the parameters given if and only if no value holds two dots in a row and the path is within the limit; it finds no other page |
| PageRequests.DotsAreBuiltButNotFound | ui/internal/plugins/registry.go:571-573 | A manifest and parameters for which a URL is built and decodes, and no page matches it |
| Federation.Validate | internal/config/options.go:177-237 | Accepted exactly when sources and tokens are readable and distinct, tokens match allowed sources in number and membership, and none is local |
| Federation.TokensCoverAllowed | internal/config/options.go:188-214 | Tokens name exactly the allowed sources |
| Federation.ConfiguredTokens | cmd/balemoh/main.go:232-250 | Succeeds exactly when every token is readable and no source is repeated |
| Federation.SourceIsWritten | internal/config/options.go:230-237 | A text is accepted exactly when a source is written there, with blanks around it at most |
| Federation.TokenIsWritten | internal/config/options.go:188-214 | A token is accepted exactly when a source, an equals sign and a secret are written there, and both parsers read that source and secret |
| Federation.AcceptedTokensAreConfigured | cmd/balemoh/main.go:232-250 | Whatever Validate accepts is configured, with keys exactly the allowed sources and none an enabled local source |
| Federation.SecretsAreConfigured | cmd/balemoh/main.go:232-250 | Each source of accepted settings is configured with the secret written after it |

## Left out

- Concurrency as code: the authority protocol's interleavings are steps on values, with a lock whose section touches only fields as one step; `NotificationChild` is the code of one side run without other interruption, so aliasing between goroutines is not modelled there.
- NotificationChild.ChildServer.Shutdown: closes bindings in any order; the map iteration order of the source is not modelled.
- ConnectionPublisher.NothingStoredAfterRevoke: one revoke at a time asks for the lock, as the mutex lines writers up; the service behind the publisher is modelled only by what it commits while a call is inside.
- NotificationChild.ChildServer.Configure: steps of others between its own are in the step system only; among the method's steps are just the ends of publications it waits for.
- Supervisor.Supervise: timers are given as a script of times that never goes back, which may end while a child is watched; the observation callbacks are events in the log.
- Supervisor.FiveInEveryWindow: windows are half open, as the source's comparison makes them.
- Telemetry.TelemetryStore.List: the sort order of the result, which is for display, is not modelled; hosts are a map.
- Catalog.CatalogStore.SetPinned: one clock reading stands for the reading each row takes; trimming of the ID is left out.
- Catalog: endpoints, metadata and images are one content value; single upserts, hiding and deleting missing rows are not part of the runs.
- Telemetry.Validate: text lengths, metric ranges and workload checks are one flag of the batch.
- PluginDeployment.Load: reading files, digests, secrets, schemas and grants are flags of an installation and a connection; the reports on what is left out are not part of this model.
- Routes.ValidatePages: title, description, methods and capabilities of a page are one flag.
- PageRequests.PageURL: the base path, plugin and connection in front of the page part are left out.
- DashboardLayout.LayoutStore.Update: the retry timer that waits for the write lock is a flag for whether it was obtained; layout validation is part of the codec.
- PluginConnections.PluginStore.Reconcile: deleting rows, and manifest digest and version changes alone, which do not touch a row, are not studied further.
- WoffWriter.ReadWoffBack: padding is zeros, offsets follow directory order and blocks stand behind the tables; for files laid out otherwise see FontLayout.Woff.
- FontLayout.Woff: zlib, Brotli, naming tables and font variations are not modelled beyond their decoded bytes.
- PackageDigest.ContentStream: SHA-256 and the walk order are outside; the stream given to the hash is the result.
- gRPC, the go-plugin broker, processes, HTTP handlers apart from list requests, placements, bearer checks, Web Push, discovery and rendering: plumbing without the state studied here.

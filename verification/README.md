# Verified model of the demedia-nostr relay

The relay is a Nostr hub with peers. Clients talk NIP-01 to the hub over websockets; the hub
rewrites their events, stores them in the Postgres table of a peer over an RPC bridge, fetches
them back for subscriptions, and pushes new events to live listeners. This project models the
four parts that hold algorithms and state, and proves what they promise:

- **Event store.** `PostgresQuery` builds the WHERE text and the parameter list with the source's
  loops and early returns. Its contract parses that text with the grammar of `SqlText`, evaluates
  it with the three-valued logic, LIKE patterns, NULLs, order and limit of `SqlMeaning`, and finds
  the newest rows of the predicate `Wanted`, which is said without SQL. `PostgresStore` holds the
  statements on the table, the OFFSET-100 retention rule and the newest-first answers. `StoreRuns`
  interleaves the statements of any number of goroutines.
- **Subscriptions.** `Listener` is the registry, a map of maps, as a refinement of a flat map;
  `Subscriptions` interleaves REQ, CLOSE, disconnect and notification goroutines; `LiveRuns` runs
  them beside the saves, so that live messages are counted against the events that came in;
  `Locks` has the lock programs of all goroutines and shows freedom from deadlock.
- **Event identity.** `HashUtil` has the unescaped printer that is hashed, and a parser for it.
  `EventIdentity` has the hub's rewriting of an EVENT and the verification on the way out.
- **Network.** `Requests` answers a REQ on the hub from the peers' tables; `Network` puts a save, a
  notification and a deletion together into the EVENT branch, on a peer's own port and on the hub;
  `PeerDirectory` has the map of peers over time; `ElasticDsl` the query tree of the other back end,
  compared with the WHERE clause.

`Prelude`, `Decimal`, `Hex` and `Nostr` hold the shared vocabulary. `dafny verify dfyconfig.toml`
verifies everything.

## Reading the model

- Cryptography, go-nostr's filter matching and its `FilterEqual` are function-valued parameters.
  Lemmas assume of them only what they name: that verification accepts what signing produced,
  that `FilterEqual` is an equivalence, and in one lemma each that the hash has no collisions and
  that a signature is accepted for no other digest than its own.
- Anything the outside decides is a parameter: whether a database statement or a call fails, the
  random number of the peer lookup, the clock, the URL a media store answers, the size test of
  `AcceptEvent`. Go's map iteration order is an arbitrary choice, so contracts hold for every order.
- Tags in memory are arrays in `DeliverEvent`, because the copies of an event share them.

The code does not do what its comments or the standards say in these places; the model follows
the code.

- `relayer/storage/postgresql/save.go:50` says that all but the 100 most recent events of a key go.
  The statement counts the pubkey's rows of all kinds and takes the 101st as its limit, so rows
  among the 100 can be lost to other kinds (`PostgresStore.OnlyRowIsLost`) and 101 can stay
  (`PostgresStore.HundredAndOneStay`). `PostgresStore.WhenHundredAreKept` says when the comment holds.
  The row just saved and acknowledged may itself be pruned at once (`Network.AcknowledgedStays`).
- NIP-16 replaces by `created_at`. The code replaces by order of arrival, so an older event takes
  the place of a newer one (`PostgresStore.OlderReplacesNewer`); `PostgresStore.WhenNewestStays` says
  when the newest stays. At most one row is left only when saves do not overlap and the DELETE,
  whose error is not looked at, does not fail (`StoreRuns.AtMostOneWithoutOverlap`,
  `StoreRuns.OverlapLeavesAll`).
- `since` and `until` are strict in Postgres. The index maps `created_at` as a plain date, which
  reads the event's seconds as milliseconds, while a bound is sent as a date
  (`relayer/storage/elasticsearch/elasticsearch.go:45`, `relayer/storage/elasticsearch/query.go:77`).
  For bounds after April 1970 a query with `since` finds nothing there, and `until` makes no
  difference (`ElasticDsl.IndexMisreadsTimes`, `ElasticDsl.SinceHidesNewer`).
- NIP-01 wants, for each tag name of a filter, one of its values behind that name. Postgres wants one
  of all the values behind any one-character name (`SqlMeaning.OverlapKeepsTagValues`), which is the
  same on all rows only for a filter without tags (`PostgresQuery.TagsReadAsNamed`,
  `PostgresQuery.ForeignNameIsKept`). The index matches names as well, so any event with a tag of an
  asked-for name passes (`ElasticDsl.TagNameIsEnough`).
- The text that `StringifyEvent` prints, and with it the id, does not identify an event. Every event
  with a tag of two or more elements shares its text with another one (`HashUtil.MergedSharesText`),
  and so every id that the hub recomputes belongs to another event as well
  (`EventIdentity.RecomputedIdIsShared`). `HashUtil.TextIdentifies` has the exact condition. Among
  the events without a double quote in the pubkey or a tag element and without an empty tag the
  text does identify (`HashUtil.StringifyInjective`).
- A deletion event that succeeds gets no OK reply (`Network.HubEvent`, `Network.PeerEvent`).
- A deletion event is carried out whatever the signature test says (`relayer/handlers.go:171`): it
  leaves the tables as they are only if it reaches no tag that names a row
  (`Network.UnsignedIsHarmless`), and each row can be named (`Network.NamedRowGoes`). No other
  message that fails the test changes a table.
- Peers set their timer to five seconds only after the reply to a ping (`peer/main.go:98-116`), and
  the hub drops them after five seconds, so they are absent for the time the reply takes
  (`PeerDirectory.LatePeerIsAbsentBriefly`, `PeerDirectory.LatePeerIsAbsent`).
- An index out of range in a tag is a panic in the goroutine of a message
  (`relayer/handlers.go:125`). Nothing recovers it, so it ends the whole process; the models of the
  loops report it and stop there (`EventIdentity.DeliverEvent`, `Requests.HandleReq`).
- Saves over the bridge are not followed by retention, so with them alone a pubkey can have any
  number of rows of one kind, unless the kind is replaced (`StoreRuns.BridgeIsUnbounded`).
- A subscription can outlive its client (`Subscriptions.RegistrationAfterDisconnect`), exactly when a
  REQ registers after the disconnect (`Subscriptions.OutlivesClient`).

## Model

| member | source | states |
|---|---|---|
| Hex.DecodeThenEncode | relayer/storage/postgresql/query.go:34-38 | decoding accepts exactly even-length hex text, and printing the bytes with %x gives its lower case |
| Hex.EncodeThenDecode | relayer/storage/postgresql/query.go:34-38 | what %x prints decodes to the same bytes |
| Decimal.ParseIntInverts | relayer/storage/postgresql/query.go:81-85 | a printed kind is read back, sign included, whatever non-digit follows |
| SqlText.ParseInvertsPrint | relayer/storage/postgresql/query.go:137-141 | the text of a statement parses to exactly the conditions it was printed from, the seven columns of the event table, and created_at descending |
| SqlText.CountPrint | relayer/storage/postgresql/query.go:104-141 | one question mark for each parameter of the conditions, and one for the limit |
| SqlMeaning.LiteralThenPercentIsPrefix | relayer/storage/postgresql/query.go:38 | a LIKE pattern of plain text and a percent sign matches exactly what starts with the text |
| SqlMeaning.OverlapKeepsTagValues | relayer/storage/postgresql/init.go:25-40 | the overlap test on the generated column keeps a row exactly when a wanted value sits behind a one-character tag name, NULLs included |
| SqlMeaning.EvalAppend | relayer/storage/postgresql/query.go:113-124 | a condition and its parameters added at the end are one more conjunct |
| PostgresQuery.LikeAny | relayer/storage/postgresql/query.go:30-44 | the LIKE terms select exactly what starts with one of the valid 32-byte hex values in lower case; no term exactly when none is valid |
| PostgresQuery.TagQuery | relayer/storage/postgresql/query.go:88-102 | for every order of the tag map: refused exactly on an empty value list or more than ten values in all, otherwise the same set of values |
| PostgresQuery.ArrayBuild | relayer/storage/postgresql/query.go:104-109 | one question mark and one parameter for each value, in order |
| PostgresQuery.AddHex | relayer/storage/postgresql/query.go:24-68 | refused exactly when too many or none valid; otherwise one conjunct for the prefix test |
| PostgresQuery.AddKinds | relayer/storage/postgresql/query.go:70-86 | refused exactly when more than ten or none; otherwise one conjunct for membership |
| PostgresQuery.AddTags | relayer/storage/postgresql/query.go:88-115 | the tag section as one conjunct, whatever the map order |
| PostgresQuery.BuildConditions | relayer/storage/postgresql/query.go:24-129 | refused exactly when Refused says so; otherwise the conditions mean Wanted for every row |
| PostgresQuery.BuildQuery | relayer/storage/postgresql/query.go:15-141 | for every filter and table: what the text, parsed and bound to its parameters, answers is exactly the lists of the wanted rows, newest first, cut at the limit clamped to 1 to 100; question marks and parameters correspond |
| PostgresQuery.StatementAnswers | relayer/storage/postgresql/query.go:137-141 | the direction and the limit are read from the text and the parameters, and agree with the newest first |
| PostgresQuery.TagsReadAsNamed | relayer/storage/postgresql/query.go:88-115 | a filter that is not refused reads its tags as NIP-01 does, on all rows, if and only if it has none |
| PostgresQuery.ForeignNameIsKept | relayer/storage/postgresql/query.go:88-115 | input for every filter with tags: a row with a wanted value behind a name that was not asked for is kept |
| PostgresStore.SelectNewest | relayer/storage/postgresql/query.go:137-162 | ORDER BY created_at DESC LIMIT n, ties in any order |
| PostgresStore.RankOfOffset | relayer/storage/postgresql/save.go:51-54 | at most k rows are newer than the row at OFFSET k, and more than k at least as new |
| PostgresStore.OlderThanRank | relayer/storage/postgresql/save.go:51-54 | older than the row at OFFSET k exactly when more than k rows are newer |
| PostgresStore.PruneIsIdempotent | relayer/storage/postgresql/save.go:49-55 | pruning twice is pruning once |
| PostgresStore.PruneKeepsRank | relayer/storage/postgresql/save.go:49-55 | the pubkey's 101st newest timestamp is the same before and after; with at most a hundred rows nothing goes |
| PostgresStore.PruneRemovesOnlyStale | relayer/storage/postgresql/save.go:49-55 | a removed row belongs to the one pubkey and kind and leaves more than a hundred newer rows of the pubkey behind |
| PostgresStore.WhenHundredAreKept | relayer/storage/postgresql/save.go:49-55 | for every table, with ties: exactly the rows with fewer than a hundred newer ones of their key stay if and only if at most a hundred rows of the pubkey are newer than the key's last place among the hundred, and a row of the key after it has a newer row of another kind |
| PostgresStore.WhenHundredAreKeptDistinct | relayer/storage/postgresql/save.go:49-55 | the same with distinct times, by the number of newer rows of other kinds alone |
| PostgresStore.OnlyRowIsLost | relayer/storage/postgresql/save.go:51-54 | input for one failure: the only row of its key goes, because of 101 newer rows of another kind |
| PostgresStore.HundredAndOneStay | relayer/storage/postgresql/save.go:51-54 | input for the other: 101 rows of one kind all stay |
| PostgresStore.SupersededIsSameKey | relayer/storage/postgresql/save.go:13-21 | the DELETE in front of a save removes exactly the rows with the event's replacement key |
| PostgresStore.WhatIsReplaced | relayer/storage/postgresql/save.go:13-21 | by kind: 0, 3 and 10000 to 19999 replace the rows of the pubkey and kind, 2 those with the same content too, all others none |
| PostgresStore.LastArrivalWins | relayer/storage/postgresql/save.go:11-43 | after a save that runs alone the event is the only row of its key, whatever the timestamps; none is left if its id is taken by another key |
| PostgresStore.WhenNewestStays | relayer/storage/postgresql/save.go:11-43 | among an event and the rows of its key the newest is there after a save that runs alone if and only if no old row of the key is newer and no other key has the id |
| PostgresStore.OlderReplacesNewer | relayer/storage/postgresql/save.go:11-43 | input for the failure: an older event that arrives later takes the place of a newer one |
| PostgresStore.PostgresBackend.SaveEvent | relayer/storage/postgresql/save.go:11-43 | the table and the outcome after the two statements, for each pattern of failures |
| PostgresStore.PostgresBackend.AfterSave | relayer/storage/postgresql/save.go:49-55 | the OFFSET statement removes exactly the rows of the pubkey and kind that have more than a hundred newer rows of the pubkey |
| PostgresStore.PostgresBackend.DeleteEvent | relayer/storage/postgresql/delete.go:3-6 | the row with that id and pubkey goes, and no other |
| PostgresStore.PostgresBackend.PurgeOld | hub/main.go:73-81 | exactly the rows older than the cutoff go |
| PostgresStore.PostgresBackend.QueryEvents | relayer/storage/postgresql/query.go:15-163 | an answer of the statement sent: newest first, min(matches, clamped limit) many, all wanted, none left out that is newer than one included; the error and empty answers |
| PostgresStore.PostgresBackend.GetPeer | relayer/storage/postgresql/get.go:9-28 | the pubkey's own address, else the address of some entry, else the empty text only for an empty map; the walk ends at an entry for every random number in range |
| StoreRuns.IdsStayUnique | relayer/storage/postgresql/init.go:43 | ids are unique in every state of every interleaving |
| StoreRuns.ReplaceableBound | relayer/storage/postgresql/save.go:11-43 | with at most c saves of a key between their statements, rows and such saves together stay within c, plus one for each failed DELETE |
| StoreRuns.AtMostOneWithoutOverlap | relayer/storage/postgresql/save.go:11-43 | at most one row of a replaceable key when its saves do not overlap and no DELETE fails |
| StoreRuns.OverlapLeavesAll | relayer/storage/postgresql/save.go:11-43 | for any number of overlapping saves of one key all their rows can stay, so the bound is reached |
| StoreRuns.RetentionHolds | relayer/add-event.go:20-36 | in every interleaving at most a hundred settled rows of a pubkey and kind are newer than any one of its settled rows |
| StoreRuns.AtMost101 | relayer/add-event.go:20-36 | with distinct timestamps among its settled rows a pubkey and kind has at most 101 rows besides its own unsettled ones |
| StoreRuns.BridgeKeepsAll | peer/bridge/bridge.go:38-48 | saves over the bridge of events that replace nothing all keep their rows, in any number |
| StoreRuns.BridgeIsUnbounded | peer/bridge/bridge.go:38-48 | for every n and every kind that is not replaced some run leaves n rows of one pubkey and kind |
| StoreRuns.RowsWereSaved | relayer/storage/postgresql/save.go:24-30 | every row of every reachable table was handed to a save |
| HashUtil.StringifyEvent | relayer/hashutil/hashutil.go:52-64 | the loop and the join give the printed text |
| HashUtil.ParseInvertsPlain | relayer/hashutil/hashutil.go:52-64 | the parser reads back every event without quotes in pubkey and tags and without empty tags |
| HashUtil.StringifyInvertible | relayer/hashutil/hashutil.go:52-64 | the parser, which ends an element at the first quote, reads back exactly those events |
| HashUtil.StringifyInjective | relayer/hashutil/hashutil.go:52-64 | two such events with one text show the same |
| HashUtil.MergedSharesText | relayer/hashutil/hashutil.go:52-64 | for every event and every tag of two or more elements there is another event with the same text: that with the first two elements merged |
| HashUtil.EmptyTagSharesText | relayer/hashutil/hashutil.go:52-64 | an empty tag prints like a tag with one empty element, in every event |
| HashUtil.TextsCollide | relayer/hashutil/hashutil.go:52-64 | two events with quote-free pubkeys have one text exactly when pubkey, time and kind are the same and tags and content run together to the same string |
| HashUtil.TextIdentifies | relayer/hashutil/hashutil.go:52-64 | the text belongs to one event with a quote-free pubkey exactly when there are no tags, or one tag of one non-empty element that holds no border and the end of the tags occurs only where it belongs |
| HashUtil.SignedIsAccepted | relayer/hashutil/hashutil.go:15-44 | what GetSing encodes GetVerification decodes and accepts for the same content |
| HashUtil.SameIdShowsSame | relayer/handlers.go:291-300 | under a collision-free hash the id determines all that is shown |
| EventIdentity.RewriteEvent | relayer/handlers.go:215-300 | the loops and flags of the EVENT branch give the event that RewrittenIsAs describes |
| EventIdentity.RewrittenIsAs | relayer/handlers.go:215-300 | an audio tag has the uploaded URL exactly when there is an upload; the hub's hash tag is at the end exactly when a text note on a hub with a key has no tags, names someone or had an upload, signing works, and no tag begins with hash and that signature; the id is computed anew exactly when the event names someone, had an upload or is tagged |
| EventIdentity.RewrittenIsConsistent | relayer/handlers.go:215-300 | the event leaves unchanged or with the hash of what it shows as its id; nothing but tags and id changes |
| EventIdentity.RewrittenTags | relayer/handlers.go:215-289 | position by position which tag may change or be added, and when an event goes through as it came |
| EventIdentity.RecomputedIdIsShared | relayer/handlers.go:280-300 | every id the hub computes is also the id of an event with other tags |
| EventIdentity.VerifyTag | relayer/handlers.go:396-408 | one verdict written through the shared array, and the id of all tags as they then are |
| EventIdentity.VerifyTags | relayer/handlers.go:396-409 | the loop keeps id and tags together |
| EventIdentity.DeliverEvent | relayer/handlers.go:394-413 | for any number and mix of hash tags each flag is true exactly when the crypto accepts the tag's signature for the content, the id sent is the hash of the tags sent if there was a verdict, else the stored id; exactly when there is a panic |
| EventIdentity.DeliveredIsSentAs | relayer/handlers.go:394-413 | tag by tag: what verification writes, what it leaves, and which id goes out |
| EventIdentity.ChangedIsFlagged | relayer/hashutil/hashutil.go:29-44 | a note whose content is not the one that was tagged is sent with the flag false |
| EventIdentity.DeliveredAsStored | relayer/handlers.go:394-413 | delivered unchanged exactly when every verdict is already in its tag and the stored id is the hash |
| EventIdentity.IdentityRoundTrip | relayer/handlers.go:280-413 | an event tagged by the hub is delivered with flag true and the id it was acknowledged with |
| Listener.WithListenerRefines | relayer/listener.go:49-64 | registering is one update of the flat map |
| Listener.WithoutIdRefines | relayer/listener.go:67-80 | CLOSE removes one pair of the flat map, and no socket keeps an empty inner map |
| Listener.WithoutSocketRefines | relayer/listener.go:83-91 | a disconnect removes exactly the pairs of the socket |
| Listener.OneEachCount | relayer/listener.go:93-107 | a notification writes as many messages as there are matching pairs |
| Listener.RepresentativesAgree | relayer/listener.go:16-47 | the number of distinct filters does not depend on the order of the maps |
| Listener.Registry.SetListener | relayer/listener.go:49-64 | the nested map after a registration |
| Listener.Registry.RemoveListenerId | relayer/listener.go:67-80 | the nested map after a CLOSE |
| Listener.Registry.RemoveListener | relayer/listener.go:83-91 | the nested map after a disconnect |
| Listener.Registry.NotifyListeners | relayer/listener.go:93-107 | one message to each matching pair and no other, in any order of the maps |
| Listener.Registry.AddDistinct | relayer/listener.go:27-41 | the two inner loops add no filter equal to one already there and cover all |
| Listener.Registry.GetListeningFilters | relayer/listener.go:16-47 | one registered filter of each equivalence class |
| Subscriptions.LiveNeedsOpenSubscription | relayer/handlers.go:418-429 | a live EVENT matches the filters of the REQ that registered its pair last, with no CLOSE or disconnect since, and that registration follows the REQ's EOSE |
| Subscriptions.RegisteredFilters | relayer/listener.go:49-64 | in every interleaving a pair has the filters of the REQ that registered it last |
| Subscriptions.TargetsListen | relayer/listener.go:93-107 | a notification goes to exactly the pairs that are open and whose last REQ's filters match |
| Subscriptions.RegisteredIsOpen | relayer/listener.go:49-91 | in every interleaving a pair is registered if and only if a registration of it is followed by no CLOSE and no disconnect |
| Subscriptions.EoseFollowsAnswers | relayer/handlers.go:394-419 | when the EOSE of a REQ goes out, exactly its answers have gone out, in order, on its socket under its id |
| Subscriptions.NothingAfterEose | relayer/handlers.go:394-420 | after its EOSE a REQ sends no stored event and no EOSE |
| Subscriptions.PushedExactlyOnce | relayer/listener.go:93-107 | in every interleaving a notification writes once to each pair that matched and to no other |
| Subscriptions.TotalsAgree | relayer/listener.go:93-107 | over a run the messages of an event to a pair are as many as the notifications of it that found the pair registered and matching |
| Subscriptions.RegistrationAfterDisconnect | relayer/handlers.go:80-89 | a REQ under way can register after its client is gone |
| Subscriptions.OutlivesClient | relayer/handlers.go:80-89 | after a last disconnect a pair is there if and only if a REQ registered it later and no CLOSE came after that |
| LiveRuns.PushedAsReceived | relayer/add-event.go:10-42 | over any run, saves, deletions, purges and client goroutines interleaved: the live messages of an event to a pair are as many as its accepted receipts, duplicates not counted, at whose notification the pair was open and its last REQ's filters matched |
| LiveRuns.ReceiptsCameIn | relayer/handlers.go:280-310 | every receipt is what the EVENT branch made of a message, and is refused, for good, exactly when the relay did not accept it |
| LiveRuns.HubIsHeard | relayer/send-event.go:20-33 | on the hub a new event is passed over only if the peer's reply got lost |
| LiveRuns.AtMostOnePush | relayer/add-event.go:10-42 | an id whose row its table never loses is pushed at most once to each pair, whatever arrives under it |
| LiveRuns.HeardWasNew | relayer/add-event.go:18-40 | a live message is of an ephemeral event, or of one whose own INSERT put it into a table that had no row of the id |
| LiveRuns.AloneIsSave | relayer/storage/postgresql/save.go:11-43 | nobody in between, the two statements of a save leave the table and the outcome that Network states for it |
| LiveRuns.AloneIsAddEvent | relayer/add-event.go:10-42 | nobody in between, the machine's save is AddEvent: the same table, and listeners to be told in the same cases |
| LiveRuns.AloneIsSendEvent | relayer/send-event.go:13-33 | nobody in between, the machine's save over the bridge is SendEvent: the table without retention, and listeners to be told exactly of a new row whose reply comes back |
| LiveRuns.TablesStayRegular | relayer/add-event.go:18-28 | in every interleaving of the statements no table holds an ephemeral or a deletion row |
| Locks.EveryRoleIsOrderly | relayer/websocket.go:18-28 | every goroutine takes locks in one order and returns them all |
| Locks.LocksAreTakenInOrder | relayer/handlers.go:80-89 | in every reachable state who takes a lock holds only locks before it |
| Locks.DeadlockFree | relayer/listener.go:93-107 | who is not finished can step or waits through at most three locks for one who can |
| Locks.EveryoneCanFinish | relayer/start.go:204-212 | from every reachable state all goroutines there can run to their end |
| ElasticDsl.PrefixFilter | relayer/storage/elasticsearch/query.go:39-52 | prefix or term for each value by its byte length |
| ElasticDsl.PlainPrefixedBy | relayer/storage/elasticsearch/query.go:39-52 | for plain values: fewer than 64 characters is a prefix test, any other the value itself |
| ElasticDsl.PlainByteLen | relayer/storage/elasticsearch/query.go:45 | the length is the number of characters exactly for plain text |
| ElasticDsl.TagShould | relayer/storage/elasticsearch/query.go:66-73 | one clause for each tag name, which goes in with its values, in any map order |
| ElasticDsl.BuildDsl | relayer/storage/elasticsearch/query.go:36-91 | the tree selects exactly the documents asked for, for every document and map order, the index reading an event's seconds as milliseconds |
| ElasticDsl.IsGetByID | relayer/storage/elasticsearch/query.go:192-209 | only ids, all of 64 bytes |
| ElasticDsl.BackendsAgree | relayer/storage/elasticsearch/query.go:54-83 | the cases without bounds, and with one positive bound and no tags, spelled out: without bounds the index finds what Postgres finds, and more exactly when only names or misplaced values match |
| ElasticDsl.BackendsAgreeExactly | relayer/storage/elasticsearch/query.go:54-83 | with any bounds and tags: the back ends agree on an event if and only if, wanted by its tags, it is in time for both or neither, and, only mentioned, it is out of time for the index |
| ElasticDsl.TimesAgree | relayer/storage/elasticsearch/query.go:76-83 | for bounds of any sign: the times on which the two readings of a bound differ, and of both together |
| ElasticDsl.TagsAndTimesDiffer | relayer/storage/elasticsearch/query.go:54-83 | ids, authors and kinds are read alike by both back ends; what each makes of tags and times |
| ElasticDsl.IndexMisreadsTimes | relayer/storage/elasticsearch/elasticsearch.go:45 | for bounds after April 1970 and events before 2286, since finds nothing and until changes nothing |
| ElasticDsl.SinceHidesNewer | relayer/storage/elasticsearch/query.go:76-78 | a concrete pair of bound and event: Postgres finds it, the index does not |
| Network.AddEvent | relayer/add-event.go:10-42 | table, reply and notifications for each case; listeners hear exactly of new or ephemeral accepted events |
| Network.QlSaveEvent | peer/bridge/bridge.go:38-48 | a save without retention, the duplicate an error |
| Network.SendEvent | relayer/send-event.go:13-33 | the event goes to the one peer the directory names and no other table changes; listeners hear of it only when that peer has a new row |
| Network.AcknowledgedIsThere | relayer/storage/postgresql/save.go:24-42 | an acknowledged save has put its event into the table, ids still unique |
| Network.OutcomeMeans | relayer/storage/postgresql/save.go:11-43 | a failure exactly when the INSERT fails, else a duplicate exactly when a row of the id is not among those replaced; neither brings a row |
| Network.AcknowledgedStays | relayer/add-event.go:20-36 | on a peer's own port the row just stored is still there after AfterSave if and only if that failed or at most a hundred rows of the pubkey are newer |
| Network.DeleteTagged | relayer/handlers.go:176-213 | the tags up to the first that stops the loop take away exactly the rows they name |
| Network.DeleteThroughHub | relayer/delete-event.go:13-21 | no table loses a row the event does not name; a known reachable peer alone loses rows, exactly those the handled tags name |
| Network.DeletionIsComplete | relayer/handlers.go:176-213 | non-empty tags, none audio, and no failing call are handled to the end |
| Network.HubEvent | relayer/handlers.go:160-310 | the id in OK, the event stored and the events pushed are those of the rewritten event; a deletion event is neither stored nor pushed, and when the author's peer is known has the outcome of the handled tags, no reply exactly when all are; every table changes only as the event's action allows |
| Network.PeerEvent | relayer/handlers.go:160-310 | the same branch on a peer's own port: the table, the reply and the events pushed; a deletion takes away exactly what the tags up to the first that stops it name |
| Network.ActionByKind | relayer/handlers.go:174-310 | by the client's kind: 5 deletes, 20000 to 29999 only notifies, all others save the rewritten event |
| Network.UnstoppedIsComplete | relayer/handlers.go:176-213 | with non-empty tags, none audio, and no failing call a deletion gets no reply and the named rows are gone |
| Network.OnlyNamedRowsGo | relayer/handlers.go:176-213 | a row that goes is of the event's pubkey and its id stands in an e tag |
| Network.UnsignedIsHarmless | relayer/handlers.go:168-213 | a deletion event leaves every table as it is if and only if it reaches no tag that names a row, the signature test playing no part |
| Network.NamedRowGoes | relayer/handlers.go:171-213 | for each row of a table a deletion event with its pubkey and id takes it away and nothing else |
| Network.RowsWereRewritten | relayer/handlers.go:215-310 | every row is what the EVENT branch made of a message that arrived earlier |
| Network.NoEphemeralNoDeletionRows | relayer/handlers.go:172-310 | in every sequence of messages handled as HubEvent and PeerEvent guarantee, no table holds an ephemeral or a deletion row, and the id of a row is the client's or the hash of what it shows |
| Requests.FetchEvent | relayer/fetch-event.go:13-29 | what the peer the directory names finds, newest first and within the limit; nothing on a failed call or a refused filter |
| Requests.NamedPeerAnswers | relayer/handlers.go:361-376 | a filter that names a first author, or without authors a first p value, whose peer is known and reachable, is answered from that peer's table |
| Requests.SendStored | relayer/handlers.go:394-414 | every event of the answer as the verification leaves it, or a panic exactly when one of them has a tag that cannot be indexed |
| Requests.HandleReq | relayer/handlers.go:312-420 | an answer to each filter in turn, as the verification leaves its events, then one EOSE, then the registration with all filters; a panic registers nothing |
| Requests.TranscriptInOrder | relayer/handlers.go:394-419 | one message for each event, the answers in the order of the filters and the events in the order of their answer, each as verified, and EOSE last |
| Requests.AcknowledgedThenSent | relayer/handlers.go:280-418 | a tagged note to which the hub replied OK true is in the peer's table, and a later REQ that names its author, with the author still at that peer, that wants it and does not cut it by the limit sends it as it was acknowledged and pushed, with that id and the flag true |
| PeerDirectory.Sweep | hub/main.go:83-94 | exactly the entries older than five seconds go |
| PeerDirectory.EntryIsLatestPing | relayer/storage/postgresql/save.go:57-62 | an entry is the latest ping of its peer, and is missing only after a sweep more than five seconds later |
| PeerDirectory.PunctualPeerIsFound | relayer/storage/postgresql/get.go:9-28 | a peer whose latest ping is at most five seconds old is found at that ping's address |
| PeerDirectory.LatePeerIsAbsentBriefly | peer/main.go:98-116 | with gaps of up to five seconds and d a peer is absent only when its next ping is less than d away |
| PeerDirectory.LatePeerIsAbsent | hub/main.go:83-94 | that absence occurs, for every d |
| PeerDirectory.Take | hub/ping/ping.go:20-36 | the Ping service and the sweep on the backend are the steps of the timed runs |
| PeerDirectory.NoEntryOlderThanTen | hub/main.go:83-94 | with sweeps at most five seconds apart no entry is more than ten seconds old |
| PeerDirectory.TenIsReached | hub/main.go:83-94 | the ten seconds are reached |
| PeerDirectory.LookupAnswersAnEntry | relayer/storage/postgresql/get.go:9-28 | with non-empty addresses the answer is an entry's address, and the empty text exactly for an empty map |

## Left out

- Transport: websockets, HTTP, libp2p, RPC, DNS and multiaddresses; a call is one step that succeeds or fails, a socket write one entry of a log, and its error is not looked at, as in the source.
- JSON encoding of messages and events, logging, tracing, configuration, the gin pages, IPFS and blob storage.
- NIP-42 AUTH and the kind-4 restriction: no relay of the repository implements the interface that turns them on.
- AppendUnique, Filters.Match, FilterEqual and the kind constants come from go-nostr, which is not part of this repository; AppendUnique is modelled as deciding by the first two elements, the second by prefix, the others as parameters.
- Elasticsearch storage other than buildDsl and isGetByID: its effect rests on a remote engine and a bulk indexer.
- ElasticDsl.BuildDsl: times are whole seconds, and a number out of the range of a date, which the index refuses, is not modelled.
- PostgresQuery.BuildQuery: sqlx's Rebind, which numbers the question marks in order, is taken as the binding of the k-th mark to the k-th parameter; the width of Postgres integers is not modelled and a value out of range is a failing statement.
- StoreRuns.RetentionHolds: rows whose AfterSave failed or never ran, as on the bridge, are counted apart as unsettled until the next AfterSave of their pubkey and kind.
- EventIdentity.RewriteEvent: fetching and uploading a file is one optional URL for each tag.
- Requests.HandleReq: the filters are already decoded; a filter that does not decode is a step of `Subscriptions`.
- Subscriptions.EoseFollowsAnswers: the answers of all filters of a REQ are given when it starts, and a REQ that stops at a filter it cannot decode ends without EOSE.
- Subscriptions.LiveNeedsOpenSubscription: registration comes after the query, so no claim is made that nothing is missed in between.
- Locks.DeadlockFree: a socket write is a step that always ends; the write timeout of the server stands behind that.
- Injected events: no relay of the repository implements the interface from which `relayer/start.go:162-168` would notify listeners without a save.
- HashUtil.TextIdentifies: pubkeys with a quote are left out; the signature check, which comes first, decodes the pubkey as hex and stops the others.
- PeerDirectory.Sweep: one reading of the clock for a whole sweep; map operations are atomic, although the source does not guard them.
- PeerDirectory.Take: the text `pubkey;address` of a ping arrives already split.
- Network.DeleteThroughHub: for an author the directory does not know each deletion may go to another peer, so only the bounds for every table are stated.

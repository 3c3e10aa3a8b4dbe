# A verified model of the messaging stack

The system is a messaging stack over an ordered byte-key store: direct messages, groups and an
inbox index live in column families scanned in lexicographic key order, outgoing sectors wait in
a bounded outbox and are retried with backoff, inbound sectors are deduplicated, and messages
carry authenticated metadata in CBOR. This project models the logic of its core and proves what
the operations promise, over all inputs, all runs and all reachable states.

How the pieces fit together:

- `ByteStrings`, `OrderedStore`, `StableSorting`, `Paging` and `Seek` hold what the services share:
  the lexicographic order, a column family as an ordered map of byte strings, the stable sort,
  paging by a cursor id, and the incremented prefix from which reverse scans start.
- `ScopedChains`, `InboxIndex`, `Inbox` and `InboxService`, `Dm` and `DmService`, `Outbox` are the
  indexes over that store. Each scan is proved to agree with a plain map and a sort.
- `GroupPermissions`, `GroupManifest`, `GroupState`, `GroupFounders`, `GroupMessages` and
  `GroupService` are the group state machine, what its safety asks of the founders, the merges and
  the group messages. `StatusLattice` is shared by both receipt paths.
- `Dedupe`, `Receive`, `Backoff`, `Retry`, `RetrySchedule`, `RetryEnqueue`, `RetryDrain` and
  `RetryPump` are the delivery machinery: the cache, the receive loop, and the retry pump as a state
  machine, with when its attempts come, what enqueueing during a publish does to it, how fast it
  drains, and its loop.
- `Postcard`, `Utf8Forms`, `SectorCodec`, `Cbor`, `CborForms`, `Aad` and `Envelope` are the codecs and
  the signed transcript.

Operations that change a store, a cache or a queue are methods of classes over mutable fields, each
proved equal to a function of the old state; the theorems are about those functions and their runs.

Conventions. Bytes are integers below 256 and integer widths are explicit: a `U64` never overflows
except the manifest epoch, which wraps as in a release build. Strings are their UTF-8 bytes.
Clock readings, fresh ids, jitter and publish outcomes are inputs, so every theorem holds for any
of them. The AAD is modelled for any six distinct entry names; `Aad.SourceKeys` gives the ones used.

Where the code and its comments differ, the code is modelled:

- Both merges are called commutative; on equal stamps each keeps its first argument
  (`GroupManifest.MergeCommutesIff` says exactly when they commute).
- The paginator calls its incremented prefix the smallest key above the prefix range; that holds
  only when the last byte does not carry (`Seek.LeastAboveIff`).
- Direct-message history is documented as descending in creation time; it descends in message id
  (`Dm.HistoryByTimeIff` says exactly when that is the same).
- A limit of 0 acts as 1 in `history`, while `paginate_messages` returns nothing.
- The backoff comment includes the full delay in the jitter range, and multiplies once per attempt;
  the code excludes it, and multiplies once less (`Backoff.BackoffRange`, `Backoff.CeilingValues`).
- The AAD comment calls its key order canonical. The entries are written in the order of their
  names as text, which is not the order of section 4.2.1 of RFC 8949 (`Aad.KeysNotInCoreOrder`).

Other promises turned out to hold only under a condition, and the exact condition is proved:

- Scopes of stored sectors are isolated while ids stay below 65536 bytes. `ScopedChains.ScopeIsolationIff`
  has the condition for all ids, `ScopedChains.AsciiIsolationIff` the plain one for ASCII ids, and
  `ScopedChains.LongIdIsMet` an id that fails.
- Paging a group's messages is complete if and only if creation times follow ids
  (`GroupMessages.ListPagingCompleteIff`; `GroupMessages.SkewedListing` fails it).
- A group is safe from escalation if and only if no founder was given twice, or one identity fills it
  (`GroupFounders.FoundersNeverEscalateIff`).
- Whatever is enqueued when, the retry pump loses nothing, counts every publish and announces every
  entry it gives up (`Retry.Conservation`). Two promises about single entries depend on what is in
  flight when a topic is enqueued again (`RetryEnqueue.EnqueueIff`): giving up takes five publishes
  and four waits if and only if no handle of the topic is on its last attempt, and what is
  acknowledged has been published if and only if every handle of it carries the same payload.
  `RetryEnqueue.EarlyGiveUp` and `RetryEnqueue.UnsentAcked` are runs that break them.
- An inbound message stays stored if and only if the last arrival naming its two ids, which the
  sender chooses, brings the same message (`Receive.OwnMessageStaysIff`, `Receive.StoredStaysIff`;
  `Receive.NamesakeReplaces` shows one lost).

## Model

| member | source | states |
|---|---|---|
| `ByteStrings.PrefixConvex` | crates/zero-storage/src/db.rs:114-130 | keys with a common prefix are contiguous in key order, which is why a scan may stop at the first mismatch |
| `ByteStrings.LexIsNumeric` | crates/zero-messaging/src/inbox/index.rs:29-53 | on equal lengths the byte order of big-endian numbers is their numeric order |
| `OrderedStore.ScanIsExact` | crates/zero-storage/src/db.rs:114-130 | the keys met before the first one without the prefix are exactly the stored keys with the prefix, ascending |
| `OrderedStore.ColumnFamily.PrefixScan` | crates/zero-storage/src/db.rs:114-130 | the scan loop with its early stop returns exactly those pairs |
| `Seek.IncrementBytes` | crates/zero-messaging/src/dm/service.rs:346-356 | the in-place carry loop computes the increment, with the two treatments of a carry out of the front |
| `Seek.CarriedAddsOne` | crates/zero-messaging/src/dm/paginate.rs:30-40 | unless all bytes are 0xFF the result is the same length and one more as a big-endian number |
| `Seek.OverflowForms` | crates/zero-messaging/src/dm/service.rs:346-356 | when all bytes are 0xFF they turn to 0 and a 1 is put in front by one of the two source functions, behind by the other |
| `Seek.AboveExtensionsIff` | crates/zero-messaging/src/dm/service.rs:346-356 | the increment lies above every extension of the prefix if and only if some byte is below 0xFF |
| `Seek.LeastAboveIff` | crates/zero-messaging/src/dm/paginate.rs:28-40 | for a prefix with some byte below 0xFF it is the smallest key above the range, as the comment says, if and only if the last byte is below 0xFF |
| `Seek.SeekGap` | crates/zero-messaging/src/dm/service.rs:146-150 | nothing lies between the prefix's extensions and its increment but cut-off forms of the increment |
| `Paging.PagingCompleteIff` | crates/zero-messaging/src/dm/service.rs:129-178 | paging any listing by the id of the last element shows everything once, for every page size, if and only if the listing descends in those ids |
| `Paging.ChainIsSplit` | crates/zero-messaging/src/dm/service.rs:129-178 | in a descending listing the chain of pages is the rest of the listing cut into pages |
| `Paging.SplitIsPages` | crates/zero-messaging/src/dm/service.rs:129-178 | that cut has ceil(n / k) pages, all full but perhaps the last, none empty |
| `StableSorting.SortFixesSorted` | crates/zero-messaging/src/group/manifest.rs:20-24 | sorting a sorted list changes nothing, ties included |
| `StableSorting.SortedUnique` | crates/zero-storage/src/outbox.rs:65-74 | where no two different elements tie, sortedness and contents determine the list |
| `ScopedChains.ScopeMatchesIff` | crates/zero-storage/src/db.rs:14-36 | the prefix of a scope of any length matches a key with ids below 65536 bytes if and only if identity and machine are the scope's |
| `ScopedChains.ShortReadsOnce` | crates/zero-storage/src/db.rs:14-36 | a key with ids below 65536 bytes reads in one way: any other identity field would take in a header byte 0xFF, which is no UTF-8 |
| `ScopedChains.ScopeIsolationIff` | crates/zero-storage/src/db.rs:14-36 | for all string ids: a key is met by no other scope's scan, of whatever length, if and only if its bytes read in one way as two length-prefixed texts |
| `ScopedChains.AsciiIsolationIff` | crates/zero-storage/src/db.rs:14-36 | for ASCII ids: if and only if identity and machine are shorter than 65536 bytes |
| `ScopedChains.LongIdIsMet` | crates/zero-storage/src/db.rs:14-36 | an identity of 65536 letters is met by the scan of another scope |
| `ScopedChains.LongIdCanBeIsolated` | crates/zero-storage/src/db.rs:14-36 | an identity of 32768 accented letters, as long, is not, so the ASCII condition does not extend to all text |
| `ScopedChains.KeyInjective` | crates/zero-storage/src/db.rs:14-25 | two sector keys, one with ids below 65536 bytes, are equal exactly when all three parts are |
| `ScopedChains.SectorStore.PutSector` | crates/zero-storage/src/db.rs:133-141 | stores the sector under its own key and changes nothing else |
| `ScopedChains.SectorStore.GetSector` | crates/zero-storage/src/db.rs:143-156 | finds the stored sector if and only if its key is present |
| `ScopedChains.SectorStore.DeleteSector` | crates/zero-storage/src/db.rs:158-170 | removes that key only |
| `ScopedChains.SectorStore.IterChain` | crates/zero-storage/src/db.rs:172-189 | the loop that stops at the first foreign key returns the whole prefix range |
| `ScopedChains.RunHolds` | crates/zero-storage/src/db.rs:133-189 | after any puts and deletes whose keys, when not the scope's own, lack its prefix, the scope's part of the store is its own last-write map |
| `ScopedChains.IterChainIsScope` | crates/zero-storage/src/db.rs:172-189 | its listing after such a run is exactly that map's sectors, strictly ascending in id |
| `ScopedChains.ShortRunsListExactly` | crates/zero-storage/src/db.rs:172-189 | runs that store and delete under ids below 65536 bytes are such runs, for scanned scopes of any length |
| `ScopedChains.ListingExactIff` | crates/zero-storage/src/db.rs:172-189 | for any set of writing scopes: a scope is listed exactly after all their runs if and only if no key of another of them has its prefix |
| `SectorCodec.DecodeInvertsEncode` | crates/zero-storage/src/sector.rs:73-80 | decoding gives back every sector: all strings, payloads, 64-bit times and both cases of `prev` |
| `SectorCodec.EncodingPrefixFree` | crates/zero-storage/src/sector.rs:73-80 | no encoding is the beginning of another, hence encoding is injective |
| `SectorCodec.TruncationRejected` | crates/zero-storage/src/sector.rs:78-80 | every proper prefix of an encoding is an error |
| `SectorCodec.TakeExtends` | crates/zero-storage/src/sector.rs:78-80 | bytes after any readable record change neither it nor the remainder |
| `SectorCodec.KnownAnswer` | crates/zero-storage/tests/kat/sector_kat.json:1-13 | the byte layout of the first pinned vector |
| `Utf8Forms.ValidIff` | crates/zero-storage/src/sector.rs:78-80 | the texts accepted are exactly those that encode Unicode scalar values one after the other (section 3 of RFC 3629) |
| `Postcard.U64RoundTrip` | crates/zero-storage/src/sector.rs:62-80 | every 64-bit number survives the ten-byte varint form |
| `InboxIndex.EncodeKey` | crates/zero-messaging/src/inbox/index.rs:29-53 | filling the fixed array slice by slice yields owner, inverted time and conversation |
| `InboxIndex.KeyOrder` | crates/zero-messaging/src/inbox/index.rs:24-53 | within an owner, key order is latest time first, then conversation ascending |
| `InboxIndex.KeyParts` | crates/zero-messaging/src/inbox/index.rs:5-53 | identity in bytes 0 to 15, machine to 31, 2^64 - 1 minus the time to 39, conversation to 71 |
| `InboxIndex.OwnerMatchesIff` | crates/zero-messaging/src/inbox/index.rs:56-61 | an owner's prefix matches a key if and only if the key is that owner's |
| `InboxIndex.DecodeInvertsEncode` | crates/zero-messaging/src/inbox/index.rs:66-88 | decoding a key gives back owner, time and conversation |
| `InboxIndex.EncodeInvertsDecode` | crates/zero-messaging/src/inbox/index.rs:66-88 | every key of 72 bytes decodes and encodes back to itself, and no other length does |
| `Inbox.RunRefinesMaps` | crates/zero-messaging/src/inbox/service.rs:34-169 | after any interleaving of all owners' operations each owner's keys represent its last-write-wins map, one key per conversation |
| `Inbox.UpsertRepresents` | crates/zero-messaging/src/inbox/service.rs:34-55 | delete-and-rewrite is a map update |
| `Inbox.MarkReadRepresents` | crates/zero-messaging/src/inbox/service.rs:128-150 | marking read zeroes one conversation's count and touches nothing else |
| `Inbox.OthersUntouched` | crates/zero-messaging/src/inbox/service.rs:34-150 | one owner's writes leave every other owner's map as it was |
| `Inbox.ListedNewestFirst` | crates/zero-messaging/src/inbox/service.rs:66-87 | key order lists the map's values by time descending, then conversation ascending |
| `Inbox.NewestFirstUnique` | crates/zero-messaging/src/inbox/service.rs:66-87 | there is only one such list, so a listing is determined by the map |
| `Inbox.SumIsTotal` | crates/zero-messaging/src/inbox/service.rs:89-103 | adding along the listing gives the map's total, bounded by entries times the 32-bit maximum |
| `InboxService.InboxService.FindRawEntry` | crates/zero-messaging/src/inbox/service.rs:152-169 | the linear search finds a conversation's key and entry if and only if it has one |
| `InboxService.InboxService.Upsert` | crates/zero-messaging/src/inbox/service.rs:34-55 | the stored map gains exactly this entry |
| `InboxService.InboxService.MarkRead` | crates/zero-messaging/src/inbox/service.rs:128-150 | zeroes the count; absent or already read conversations leave the store identical |
| `InboxService.InboxService.ListInbox` | crates/zero-messaging/src/inbox/service.rs:66-87 | the first `limit` (50 by default) of the newest-first listing |
| `InboxService.InboxService.UnreadTotal` | crates/zero-messaging/src/inbox/service.rs:89-103 | the loop adds up the map's unread counts |
| `InboxService.InboxService.Stats` | crates/zero-messaging/src/inbox/service.rs:105-125 | the same total, and the number of conversations |
| `Dm.SeekIsSound` | crates/zero-messaging/src/dm/service.rs:142-150 | above the conversation's keys and at or below the seek key nothing is stored, for every conversation id, those ending in 0xFF included |
| `Dm.MessagePrefixIff` | crates/zero-messaging/src/dm/service.rs:20-35 | a record lies under a conversation's message prefix if and only if it is a message of that conversation |
| `Dm.BackwardScanIsExact` | crates/zero-messaging/src/dm/service.rs:150-178 | from a seek key with no gap, stopping at the first foreign key misses nothing |
| `Dm.RangeIsBelow` | crates/zero-messaging/src/dm/service.rs:129-178 | the keys below the cursor, read backward, are the conversation's earlier messages by descending id |
| `Dm.HistoryComplete` | crates/zero-messaging/src/dm/service.rs:129-178 | chaining pages of any size lists every message once, strictly descending in id, in ceil(n / k) non-empty pages |
| `Dm.HistoryByTimeIff` | crates/zero-messaging/src/dm/service.rs:119-178 | the pages descend in creation time, as documented, if and only if creation times follow ids |
| `Dm.SkewedHistory` | crates/zero-messaging/src/dm/service.rs:119-178 | two messages whose pages do not |
| `Dm.ReceiptsJoin` | crates/zero-messaging/src/dm/service.rs:201-234 | after any receipts a message has the greatest rank of its own status and theirs; no other field changes but the time of the change |
| `Dm.ReceiptsFurthest` | crates/zero-messaging/src/dm/types.rs:75-88 | in the order Queued, Sent, Delivered, Read: no status among the start and the receipts lies beyond the final one, which, if new, came with a receipt at the time the message then carries |
| `Dm.ReadIsFinal` | crates/zero-messaging/src/dm/types.rs:75-88 | exactly which receipts make a message end as Read, as Delivered and as Sent |
| `Dm.ReceiptOrderIrrelevant` | crates/zero-messaging/src/dm/service.rs:201-234 | reordering and repeating receipts leaves the same statuses |
| `StatusLattice.AdvanceAllIsMax` | crates/zero-messaging/src/dm/types.rs:75-88 | forward-only advancing computes the maximum |
| `StatusLattice.OrderIrrelevant` | crates/zero-messaging/src/dm/types.rs:75-88 | equal sets of statuses advance to the same result |
| `DmService.SeekPosition` | crates/zero-messaging/src/dm/service.rs:136-150 | both ways of choosing the start give a sound backward scan |
| `DmService.ReadBackward` | crates/zero-messaging/src/dm/service.rs:152-178 | the loop with its skip, its break and its late limit check returns the first max(limit, 1) messages of its source |
| `DmService.CollectBackward` | crates/zero-messaging/src/dm/paginate.rs:65-96 | scan and filter give the page of the sorted listing below the cursor |
| `DmService.PaginateMessages` | crates/zero-messaging/src/dm/paginate.rs:47-96 | the same pages as `History`, and none at limit 0 |
| `DmService.DmService.History` | crates/zero-messaging/src/dm/service.rs:129-178 | one page of the sorted listing below the cursor |
| `DmService.DmService.OpenConversation` | crates/zero-messaging/src/dm/service.rs:62-87 | an unknown peer fails and stores nothing; an existing conversation is returned unchanged; else exactly one record is added |
| `DmService.DmService.StoreMessage` | crates/zero-messaging/src/dm/service.rs:112-119 | writes one message under its key and keeps the layout invariant |
| `DmService.DmService.GetMessage` | crates/zero-messaging/src/dm/service.rs:181-198 | finds a message if and only if its key is stored, and it has the ids asked for |
| `DmService.DmService.UpdateStatus` | crates/zero-messaging/src/dm/service.rs:201-229 | succeeds if and only if the message is stored and the step is one of the six forward ones between Queued, Sent, Delivered and Read; it then takes the status and the time and keeps all else; each refusal is named and changes nothing |
| `DmService.DmService.ProcessReceipt` | crates/zero-messaging/src/dm/service.rs:232-234 | the same for a receipt, as one step of the receipt run |
| `GroupManifest.MergeAlgebra` | crates/zero-messaging/src/group/manifest.rs:36-88 | the two merges agree up to normal form; both associate, ties included; merging with itself only normalizes |
| `GroupManifest.MergeCommutesIff` | crates/zero-messaging/src/group/manifest.rs:36-88 | either merge commutes if and only if the stamps differ or the two sides agree anyway |
| `GroupManifest.MergeAllIsFirstGreatest` | crates/zero-messaging/src/group/manifest.rs:71-88 | folding a list gives its first manifest that no other exceeds |
| `GroupManifest.MergeOrderIrrelevant` | crates/zero-messaging/src/group/manifest.rs:71-88 | where equal stamps mean equal manifests, order and repetition of the fold do not matter |
| `GroupManifest.MergeAllNormalizes` | crates/zero-messaging/src/group/manifest.rs:36-50 | the normalizing fold is the normal form of the plain one |
| `GroupState.AuthorityIff` | crates/zero-messaging/src/group/mod.rs:76-340 | who may change a manifest, by the roles of caller and target and the size |
| `GroupState.UnchangedIff` | crates/zero-messaging/src/group/mod.rs:251-253 | a call succeeds without a change if and only if an owner or admin adds somebody who is found already |
| `GroupState.FailedIff` | crates/zero-messaging/src/group/mod.rs:94-340 | every other call fails, and exactly which of the errors comes of which roles, target and size |
| `GroupState.PermissionValues` | crates/zero-messaging/src/group/permissions.rs:9-60 | the permission table by role |
| `GroupState.ApplyEffect` | crates/zero-messaging/src/group/mod.rs:94-340 | what an accepted call does: members as the action says, sorted and unique; epoch and time advanced; nothing else |
| `GroupState.CreatedSound` | crates/zero-messaging/src/group/mod.rs:33-71 | distinct founders become the owners, sorted, once each, at epoch 0 |
| `GroupState.CreatedStrictIff` | crates/zero-messaging/src/group/mod.rs:33-71 | a created group lists nobody twice if and only if no founder was given twice |
| `GroupState.RunKeeps` | crates/zero-messaging/src/group/mod.rs:94-340 | what every call keeps, every run keeps |
| `GroupState.RunSound` | crates/zero-messaging/src/group/mod.rs:33-340 | in every run members stay strictly ascending and at most max(256, founders) |
| `GroupState.EpochCounts` | crates/zero-messaging/src/group/mod.rs:94-340 | the epoch counts exactly the changing calls, modulo 2^64 |
| `GroupState.NoEscalation` | crates/zero-messaging/src/group/permissions.rs:9-56 | a non-owner's call changes no owner or admin, and all it touches rank strictly below the caller before and after |
| `GroupState.RunNeverEscalates` | crates/zero-messaging/src/group/mod.rs:94-340 | over any run without owner calls the set of owners and admins is constant |
| `GroupState.OwnerlessIsFrozen` | crates/zero-messaging/src/group/mod.rs:94-340 | once without an owner a group stays so, and its admins are fixed for all later runs |
| `GroupState.SnapshotsConverge` | crates/zero-messaging/src/group/manifest.rs:36-88 | merging any snapshots of one run, any order, any repetition, either merge, gives exactly the latest of them |
| `GroupFounders.DuplicateFoundersEscalate` | crates/zero-messaging/src/group/mod.rs:33-71 | for every founder list with `x` twice and another `y`: two steps down leave `y` an admin who can remove `x`, an owner entry included |
| `GroupFounders.FoundersNeverEscalateIff` | crates/zero-messaging/src/group/mod.rs:33-340 | no reachable state of a new group lets non-owners change its owners and admins if and only if its founders are distinct, or one identity given 256 times or more |
| `GroupFounders.CrowdNeverEscalates` | crates/zero-messaging/src/group/mod.rs:229-278 | in that exception nobody can be added and a caller judged not to be an owner changes nothing |
| `GroupMessages.MessagesDistinct` | crates/zero-messaging/src/group/mod.rs:365-380 | a group's listing holds exactly its stored messages, one per id |
| `GroupMessages.DescendingIff` | crates/zero-messaging/src/group/mod.rs:482-516 | the listing by creation time descends in id if and only if creation times follow ids |
| `GroupMessages.ListPagingCompleteIff` | crates/zero-messaging/src/group/mod.rs:482-516 | paging a group shows every message once for every page size if and only if creation times follow ids |
| `GroupMessages.SkewedListing` | crates/zero-messaging/src/group/mod.rs:482-516 | two messages for which some page size does not |
| `GroupMessages.EventsJoin` | crates/zero-messaging/src/group/mod.rs:433-549 | under any receives and receipts a stored message only has its status advanced, to the furthest receipt |
| `GroupMessages.FurthestStatus` | crates/zero-messaging/src/group/mod.rs:527-549 | exactly which receipts make a message end as Read, as Delivered and as Sent |
| `GroupService.GroupStore.CreateGroup` | crates/zero-messaging/src/group/mod.rs:33-71 | an over-long name is refused; else the stored manifest has the id, the name, the first founder as creator, one time, epoch 0 and an owner entry for every founder listed |
| `GroupService.GroupStore.Promote` | crates/zero-messaging/src/group/mod.rs:94-148 | commits the outcome; succeeds and fails, with which error, exactly as caller, target and new role say; every failure leaves the store identical |
| `GroupService.GroupStore.Demote` | crates/zero-messaging/src/group/mod.rs:158-210 | the same for demotion, judged by the role the target has |
| `GroupService.GroupStore.AddMember` | crates/zero-messaging/src/group/mod.rs:229-278 | the same for adding: it succeeds if and only if an owner or admin asks and the target is found already, which changes nothing, or there is room |
| `GroupService.GroupStore.RemoveMember` | crates/zero-messaging/src/group/mod.rs:291-340 | the same for removal |
| `GroupService.GroupStore.SendMessage` | crates/zero-messaging/src/group/mod.rs:390-430 | only members send; the message is stored as sent, stamped with the manifest's epoch |
| `GroupService.GroupStore.ReceiveMessage` | crates/zero-messaging/src/group/mod.rs:433-455 | stores the message as it came if its id is new, says whether it did, and fails without the group |
| `GroupService.GroupStore.ListMessages` | crates/zero-messaging/src/group/mod.rs:482-516 | filter by id, sort by creation time, cut: one page of the listing |
| `GroupService.GroupStore.ProcessReceipt` | crates/zero-messaging/src/group/mod.rs:527-549 | changes a stored message, and only its status, if and only if the step is forward in the order Sent, Delivered, Read |
| `Outbox.RunBounded` | crates/zero-storage/src/outbox.rs:46-94 | no run exceeds the capacity, and every entry stays under its own id |
| `Outbox.SortDue` | crates/zero-storage/src/outbox.rs:65-74 | sorting by time alone orders by time and then id, since the scan is in id order |
| `Outbox.DueListUnique` | crates/zero-storage/src/outbox.rs:65-74 | contents and that order determine the due list |
| `Outbox.DueIsPrefix` | crates/zero-storage/src/outbox.rs:65-74 | what is due at an earlier time is a prefix of what is due later |
| `Outbox.Outbox.Enqueue` | crates/zero-storage/src/outbox.rs:46-62 | a present id succeeds and changes nothing, even at capacity; a new entry is stored as given or refused as full |
| `Outbox.Outbox.ScanAll` | crates/zero-storage/src/outbox.rs:111-125 | the loop returns all entries in id order |
| `Outbox.Outbox.DequeueDue` | crates/zero-storage/src/outbox.rs:65-74 | exactly the due entries, by time and then id |
| `Outbox.Outbox.MarkAttempted` | crates/zero-storage/src/outbox.rs:76-89 | one entry counts one attempt more, 255 at most, and is due at the given time, all else unchanged; or the missing id is reported |
| `Outbox.Outbox.Remove` | crates/zero-storage/src/outbox.rs:91-94 | removes one id only |
| `Outbox.Outbox.Count` | crates/zero-storage/src/outbox.rs:96-109 | the counting loop gives the number of entries |
| `Dedupe.WindowIff` | crates/zero-storage/src/dedupe.rs:38-48 | an id is among the `capacity` most recent distinct ones if and only if fewer than `capacity` others were marked since |
| `Dedupe.MarkIsRecent` | crates/zero-storage/src/dedupe.rs:45-48 | promote-or-evict on the bounded list is recency on the whole history, cut to capacity |
| `Dedupe.DedupeCache.Seen` | crates/zero-storage/src/dedupe.rs:38-42 | answers by that window and changes nothing, so lookups never affect later answers |
| `Dedupe.DedupeCache.Mark` | crates/zero-storage/src/dedupe.rs:45-48 | appends to the history; the bounded list keeps representing its window |
| `Dedupe.DedupeCache.Len` | crates/zero-storage/src/dedupe.rs:51-54 | never above capacity |
| `Dedupe.ReprocessedOnlyAfterWindow` | crates/zero-messaging/src/dm/receive.rs:138-157 | between a processing of an id and the last mark of it, by this loop or before it, at least `capacity` distinct other ids were marked |
| `Dedupe.SmallStreamsExactlyOnce` | crates/zero-messaging/src/dm/receive.rs:138-157 | where at most `capacity` distinct ids are marked before or in a stream, each not marked before is processed exactly once, however repeated or reordered, and no other |
| `Dedupe.WindowIsTight` | crates/zero-messaging/src/dm/receive.rs:138-157 | with one more distinct id, and an unused cache, the first is processed again |
| `Receive.DmReceiver.ProcessInboundDm` | crates/zero-messaging/src/dm/receive.rs:77-119 | the payload's ids, sender, machine, text and creation time are stored as Delivered at the clock's time; the conversation of a known sender is opened; one receipt, due at once, is queued; a full outbox is reported after the store; no other key changes |
| `Receive.DmReceiver.ReceiveLoop` | crates/zero-messaging/src/dm/receive.rs:123-161 | from any cache, also a used one, cache, store and outbox after any stream are those of its accepted arrivals |
| `Receive.AcceptedIds` | crates/zero-messaging/src/dm/receive.rs:138-157 | the accepted arrivals are exactly those the window analysis accepts |
| `Receive.LastNamingWins` | crates/zero-messaging/src/dm/receive.rs:77-106 | each message key holds the message of the last accepted arrival that names it, field by field, as Delivered at its clock; or else what it held before |
| `Receive.OwnMessageStaysIff` | crates/zero-messaging/src/dm/receive.rs:77-106 | the key an accepted arrival names is there at the end, and holds its message if and only if the last arrival naming that key brought the same |
| `Receive.StoredStaysIff` | crates/zero-messaging/src/dm/receive.rs:77-106 | a message stored before is unchanged if and only if no accepted arrival names its key or the last one that does brought the same |
| `Receive.NamesakeReplaces` | crates/zero-messaging/src/dm/receive.rs:77-106 | of two arrivals with the same ids and different messages the first's is nowhere in the store afterwards |
| `Receive.StoredGrows` | crates/zero-messaging/src/dm/receive.rs:77-106 | no key is lost, and an open conversation keeps its record |
| `Receive.OneReceiptEach` | crates/zero-messaging/src/dm/receive.rs:107-116 | one receipt per accepted decodable arrival, until the outbox is full |
| `Backoff.BackoffRange` | crates/zero-network/src/retry.rs:131-147 | for every attempt count and clock the saturating computation lies in the upper half below the unsaturated ceiling |
| `Backoff.CeilingValues` | crates/zero-network/src/retry.rs:131-139 | the delay before jitter is 500, 1000, 2000, 4000, 8000, 16000 and from attempt 7 on 30000 ms |
| `Backoff.GrowthIff` | crates/zero-network/src/retry.rs:131-147 | delays grow whatever the jitter if and only if stepping up from attempts 1 to 5 |
| `Backoff.FourWaits` | crates/zero-network/src/retry.rs:131-184 | an always-failing entry waits between 3750 and 7496 ms in all |
| `Retry.StepKeeps` | crates/zero-network/src/retry.rs:152-184 | every enqueue, at any time and under any topic, every poll and every publish keeps the pump's invariant |
| `Retry.RunKeeps` | crates/zero-network/src/retry.rs:152-184 | so does every run |
| `Retry.Conservation` | crates/zero-network/src/retry.rs:152-184 | in all runs, topics enqueued again while in flight included: entries enqueued = pending + acked + given up + replaced; attempts count the publishes for an entry, at most five; one event for each entry given up if a channel is attached, none otherwise |
| `Retry.PublishDecreases` | crates/zero-network/src/retry.rs:160-184 | each publish lowers the sum of open attempts |
| `Retry.PublishesBounded` | crates/zero-network/src/retry.rs:152-184 | in any run publishes never exceed the attempts open at its start and five for every new entry |
| `RetrySchedule.GivenUpOnSchedule` | crates/zero-network/src/retry.rs:152-184 | in every run an entry given up, unless overtaken by a handle taken before it was enqueued, was published five times; its four scheduled waits lie in 250 to 499, 500 to 999, 1000 to 1999 and 2000 to 3999 ms, sum to between 3750 and 7496 ms, and no attempt came before it was due |
| `RetrySchedule.PendingOnSchedule` | crates/zero-network/src/retry.rs:152-184 | the same of what is pending, which is due when its last failure said |
| `RetrySchedule.SparedAreOnSchedule` | crates/zero-network/src/retry.rs:152-184 | so for all entries given up in runs whose enqueues find no retry of their topic in flight |
| `RetryEnqueue.RespectfulRunsPromise` | crates/zero-network/src/retry.rs:152-184 | in runs whose enqueues never overtake a last attempt, giving up comes at the fifth publish and at least 3750 ms after the first failure; in runs whose enqueues find only handles of the same payload in flight, what is acknowledged has been published |
| `RetryEnqueue.EnqueueIff` | crates/zero-network/src/retry.rs:152-184 | after any such run: an enqueue leaves the promise true in every further such run if and only if no handle of its topic in flight is on its last attempt, or all carry the payload enqueued, respectively |
| `RetryEnqueue.UnsentAcked` | crates/zero-network/src/retry.rs:160-164 | a run from the start that acknowledges an entry whose payload was never published |
| `RetryEnqueue.EarlyGiveUp` | crates/zero-network/src/retry.rs:165-179 | a run from the start that gives an entry up after a single publish |
| `RetryDrain.FiveMarksDrain` | crates/zero-network/src/retry.rs:152-184 | among turns of any spacing, with enqueues of other topics anywhere, five that each poll 4000 ms after the end of the one before leave nothing pending under a topic, whatever the outcomes |
| `RetryDrain.DrainedInTime` | crates/zero-network/src/retry.rs:30-31 | with polls 250 ms and at most `slack` after each turn, and turns of at most `busy`, nothing is pending under a topic after `DrainTime` |
| `RetryDrain.DrainTimeValue` | crates/zero-network/src/retry.rs:30-31 | that is 21 seconds, four times `slack` and nine times `busy` |
| `RetryPump.InMemoryOutbox.DueEntries` | crates/zero-network/src/retry.rs:247-259 | the due entries, each once, in whatever order the table yields |
| `RetryPump.InMemoryOutbox.RecordFailure` | crates/zero-network/src/retry.rs:265-270 | counts and reschedules a present entry only |
| `RetryPump.RetryPump.PublishOne` | crates/zero-network/src/retry.rs:160-184 | success acks; the fifth failure removes and announces; any earlier one counts the attempt and schedules the next after 250 to 499 ms, doubled for each attempt before; all else is unchanged; and each is one publish step of the state machine |
| `RetryPump.RetryPump.PollOnce` | crates/zero-network/src/retry.rs:152-184 | a round is exactly one run of the state machine: a poll, then the publish of each entry it took, in turn, after whatever other tasks enqueue while it is awaited |
| `RetryPump.RetryPump.Enqueue` | crates/zero-network/src/retry.rs:223-234 | writes the entry to the outbox and is one enqueue step of the state machine, between rounds and within them |
| `RetryPump.RetryPump.Turn` | crates/zero-network/src/retry.rs:152-184 | a round and what is enqueued while the loop then sleeps is one turn of the state machine |
| `RetryPump.RetryPump.PumpLoop` | crates/zero-network/src/retry.rs:152-184 | the loop with its sleeps is a chain of such turns |
| `RetryPump.LoopDrains` | crates/zero-network/src/retry.rs:152-184 | those turns leave nothing pending under a topic `DrainTime` after its last enqueue, whatever else is enqueued and whatever the outcomes |
| `Cbor.HeadRoundTrip` | crates/zero-crypto/src/aad.rs:63-99 | shortest heads are read back for every major type and 64-bit argument (sections 3 and 4.1 of RFC 8949) |
| `CborForms.ShortForms` | crates/zero-crypto/src/aad.rs:63-99 | the initial byte of every kind of item (section 3.1 of RFC 8949) |
| `CborForms.LongForms` | crates/zero-crypto/src/aad.rs:63-99 | longer arguments take as few of 1, 2, 4 or 8 bytes as hold them (section 4.1 of RFC 8949) |
| `CborForms.OpenForms` | crates/zero-crypto/src/aad.rs:102-107 | arrays and maps of indefinite length read as the same items in their order (section 3.2.2 of RFC 8949) |
| `CborForms.OpenStrings` | crates/zero-crypto/src/aad.rs:102-107 | strings of indefinite length read as their chunks joined, texts when each chunk is one (section 3.2.3 of RFC 8949) |
| `Cbor.TakeInvertsPut` | crates/zero-crypto/src/aad.rs:63-107 | reading gets back every nested value, whatever follows it |
| `Cbor.BignumReads` | crates/zero-crypto/src/aad.rs:102-107 | an integer may come as a bignum of any width (section 3.4.3 of RFC 8949) |
| `Cbor.PutPrefixFree` | crates/zero-crypto/src/aad.rs:63-99 | no written value is the beginning of another |
| `Cbor.TextOrder` | crates/zero-crypto/src/aad.rs:63-99 | written texts are ordered by length first, then as text (the order of section 4.2.1 of RFC 8949) |
| `Aad.Decode` | crates/zero-crypto/src/aad.rs:102-174 | the loop over the entries with its six locals and its early errors equals the fold over the entries; bytes that do not read, and items that are no map, are errors |
| `Aad.DecodeOkIff` | crates/zero-crypto/src/aad.rs:102-174 | decoding succeeds if and only if the bytes read as a map in which all six names occur among the text keys and every value under one of them is of its field's kind |
| `Aad.DecodeTakesLast` | crates/zero-crypto/src/aad.rs:120-156 | each field then comes from the last entry under its name, a schema tag cut to 32 bits |
| `Aad.DecodeBadField` | crates/zero-crypto/src/aad.rs:120-156 | the first value of a wrong kind is the one reported |
| `Aad.DecodeMissing` | crates/zero-crypto/src/aad.rs:158-174 | otherwise the first absent name is, asked for in the order of the struct's fields |
| `Aad.DecodeInvertsEncode` | crates/zero-crypto/src/aad.rs:63-174 | decoding gives back every AAD, also with bytes behind it |
| `Aad.DecodeTolerant` | crates/zero-crypto/src/aad.rs:102-174 | whatever bytes read as a map with the six entries in any order, repeated, or among unknown keys with any values give that AAD, also with tags, bignums, floats and indefinite lengths |
| `Aad.DecodeWritten` | crates/zero-crypto/src/aad.rs:102-174 | so do all such entries written as a map |
| `Aad.KeysNotInCoreOrder` | crates/zero-crypto/src/aad.rs:59-99 | the third key written would come before the second in the order of section 4.2.1 of RFC 8949 |
| `Aad.Layout` | crates/zero-crypto/tests/kat/aad_kat.json:4-28 | the bytes of every encoded AAD, name by name and value by value in the written order, those of the pinned vectors included |
| `Aad.EncodingPrefixFree` | crates/zero-crypto/src/aad.rs:63-99 | equal streams starting with encoded AADs start with the same AAD |
| `Envelope.TranscriptUnambiguous` | crates/zero-crypto/src/envelope.rs:31-37 | equal transcripts of encoded AADs have equal AAD, KEM output and nonce although nothing is framed |
| `Envelope.TranscriptParts` | crates/zero-crypto/src/envelope.rs:31-37 | the AAD stands first, the nonce in the last 12 bytes, the KEM output between |
| `Envelope.UnambiguousIff` | crates/zero-crypto/src/envelope.rs:31-37 | over any set of byte strings in place of the AAD, transcripts determine all three parts if and only if none of the strings is a proper beginning of another |
| `Envelope.RawTranscriptAmbiguous` | crates/zero-crypto/src/envelope.rs:31-37 | bytes moved from the end of the AAD to the start of the KEM output leave the transcript as it was |
| `Envelope.SealEnvelope` | crates/zero-crypto/src/envelope.rs:45-63 | the sealed AAD decodes without a key, and with matching keys the signature verifies and opening gives back exactly the plaintext and the AAD |
| `Envelope.OpenEnvelope` | crates/zero-crypto/src/envelope.rs:69-81 | nothing comes back unless the signature verified and decryption under that AAD succeeded, each failure being reported as such if and only if it is the first; an encoded AAD comes back exactly |
| `Envelope.OpenInvertsSeal` | crates/zero-crypto/src/envelope.rs:45-81 | with matching keys opening gives back the plaintext and every AAD field |

## Left out

- Storage engine: durability, handles and I/O errors; a column family is an ordered map of byte strings.
- Stored values: kept decoded. The postcard layout is proved for sectors only, and values are taken to decode.
- Cryptography: encryption, signatures, hashes, key derivation, secret sharing and the group key library are foreign; `Envelope` takes them as functions and assumes only that matching keys work.
- Clocks, jitter and id generation: inputs. That generated ids are fresh is a condition where it is needed.
- Times far beyond 64 bits: the pump's sum of clock and delay is not cut to 64 bits.
- Networking and tasks: subscriptions, async streams, channels and cancellation; the receive loop takes the delivered sequence as input.
- Concurrent writers to one column family: every operation runs alone.
- Debug-only assertions on group ids in the merges.
- Status after re-storing: receiving a direct message again stores it as delivered, so the receipt theorems are about runs of receipts and status updates.
- Aad.Decode: the CBOR reader is foreign and is taken to follow RFC 8949, with undefined read as null; bignums beyond 64 bits stay tagged byte strings, and its nesting limit and its error kinds are not modelled.
- The wording of error texts is not modelled.
- `send_text`, `mark_read` and `acknowledge_sent` of direct messages, `mark_delivered` and `mark_read` of groups: wrappers around the modelled operations.
- Contacts, preview capping, the SDK facade and the manifest's opaque key state: no logic of their own.
- Envelope.OpenInvertsSeal: says nothing about envelopes that were tampered with, because that rests on the foreign primitives.
- Receive.OneReceiptEach: counts receipts under fresh receipt ids, as the generator gives them.

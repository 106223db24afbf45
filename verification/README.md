# Messaging client core

This project models the client core of a messaging SDK and proves what its parts promise
each other. Its subject is not any one function but what holds over whole runs: replicas that
keep up with a server through any stream of deltas, sessions that survive failing adapters and
resources that refuse to close, one socket shared by waiting requests and pushes, uploads that
stop and start again.

Objects whose methods change their fields are classes here too. Each of their methods is tied
to a function from the old value to the new one, loops included, and the theorems are about
those functions, about runs of them, or relate them to an independent definition. Whatever the
outside decides (adapters, sockets, storage requests, clocks, the upload service) is an
argument that may be anything, so a theorem over all arguments is a theorem over every
behaviour of the outside.

- `SyncDiff`, `ScopeSync`: planning and applying a synchronisation of one scope of a keyed map.
  Planning and applying is compared with simply replacing the scope. The two agree exactly when
  the server list has no *stale repeat* (a key whose last item equals what was stored, after a
  different item of the same key); lists with distinct keys never have one.
- `VersionSync`, `Replica`: version deltas, and a replica fed duplicated, stale, gapped and
  reordered deltas by a server whose history is a list of snapshots.
- `Relation`, `Group`, `Message`, `Conversation`, `Paging`, `HashMaps`, `Sorting`: the domain services.
- `ConversationFold`, `FoldOrder`, `Dispatch`: folding batches of messages into conversations,
  exactly when it does not depend on the order they arrive in, and what listeners are told.
- `Tasks`, `SessionResources`, `SessionEvents`, `SessionSteps`, `SessionRuns`, `SessionCalls`, `SessionHandles`, `SessionTheorems`,
  `ClientSession`, `SessionDriver`: the session. `SessionSteps` gives each call as a function of
  session and answers, `ClientSession` proves the object does that, `SessionRuns` proves the
  invariant over all runs, `SessionDriver` carries it over to the object, `SessionCalls` writes out
  what the lifecycle calls answer and leave and when a login succeeds, `SessionTheorems` says
  what the message calls promise, and `SessionHandles` what becomes of resources over whole runs.
- `Transport`, `WsClient`, `Backoff`, `Worker`: one connection, its reconnecting, and the worker
  thread that reads it for the session.
- `PartPlan`, `Upload`: cutting a file into parts and uploading them in several tries.
- `IndexedDb`: the doubly stored lists of the browser storage, with operations that stop midway.
- `Replay`: checking a transcript of events against a scenario.

Machine integers are 32 or 64 bits wide where the code computes with them. Where such a
computation can leave its range the model wraps around, as the code does when it is built
without overflow checks, and a theorem says exactly when that shows.

Several promises one might expect are false of the code. Each comes with a concrete input that
breaks it and with the exact condition under which it holds:

- a synchronisation is "last item wins": `ScopeSync.StaleRepeatExample`, `ScopeSync.SyncReplacesScopeIff`;
- the latest message of a conversation, and so its record, does not depend on the order of
  arrival: `ConversationFold.MixedSequenceExample`, `FoldOrder.OrderFreeIff` (and
  `RecordOrderFreeIff`, `BatchOrderFreeIff` for records and whole batches);
- a conversation id determines its users: `Message.IdsCollideExample`, `Message.IdsDistinguish`;
- a message a user may see is filed under that user's own conversation:
  `Dispatch.FiledElsewhereExample`, `Dispatch.FiledElsewhereIff`;
- a failed batch of pushes changes nothing: `SessionTheorems.FailedPushExample`,
  `SessionTheorems.FailedPushUnchangedIff`;
- a logout tells of the closing of every resource: `SessionTheorems.LostCloseExample`,
  `SessionTheorems.LogoutTellsAllIff`, and over whole runs `SessionHandles.EndTellsAllIff`;
- whenever nobody is logged in, all resources the adapter handed over have been closed:
  `SessionHandles.RefusedLoginExample`, `SessionHandles.OfferedClosedIff`;
- deltas that arrive in order never call for a full resynchronisation:
  `Replica.EmptyDeltaExample`, `Replica.NeverFullIff`;
- a request that fails is forgotten: `WsClient.LeftPendingExample`, `WsClient.RequestSucceedsIff`;
- an unread total that moved is announced: `Dispatch.LostTotalExample`, `Dispatch.TotalAnnouncedIff`;
- the parts of a plan are numbered one after the other: `PartPlan.UnnumberedExample`,
  `PartPlan.PlanNumberedIff`.

## Model

| member | source | states |
|---|---|---|
| SyncDiff.DiffBy | crates/openim-sync/src/lib.rs:63-122 | the two loops produce, for any key and equality, the plan: per server item an insert, an update or (if asked for) an unchanged notice against the last local item with its key, then a deletion of each local item whose key no server item has |
| SyncDiff.SyncEntry | crates/openim-sync/src/lib.rs:63-122 | applying a plan, entry by entry and with repeated keys: an entry ends as the last server item of its key that differs from what was stored, is deleted if in scope and unlisted, and is otherwise untouched |
| SyncDiff.LastDifferingIsListed | crates/openim-sync/src/lib.rs:84-106 | the value an entry ends with is a server item of that key; if there is none every server item of the key equals the stored one |
| ScopeSync.PlanIsSync | crates/openim-sync/src/lib.rs:63-122 | planning against any listing of the scope and applying gives the synced map and its summary whatever the order of the listing, and entries stay under the keys of their own fields |
| ScopeSync.PlanSummarized | crates/openim-domain/src/lib.rs:10-35 | the counters recorded while applying equal what a reader of the map before the sync would count |
| ScopeSync.SyncReplacesScopeIff | crates/openim-domain/src/relation.rs:91-126 | synchronising is exactly replacing the scope by the server list, all else untouched, if and only if the server list has no stale repeat |
| ScopeSync.SyncOverlaysIff | crates/openim-domain/src/message.rs:418-442 | without deletions synchronising is laying the server list over the map, if and only if there is no stale repeat |
| ScopeSync.StaleRepeatExample | crates/openim-sync/src/lib.rs:84-106 | a server list with a repeated key for which the earlier item stays, so last-item-wins is false of the code |
| ScopeSync.DistinctIsConsistent | crates/openim-sync/src/lib.rs:63-122 | server lists with distinct keys have no stale repeat and no key with two values |
| ScopeSync.SecondSyncUnchangedIff | crates/openim-sync/src/lib.rs:63-122 | a second run with the same list finds everything unchanged if and only if the list gives no key two values, and then it changes nothing |
| ScopeSync.SyncConservesCounts | crates/openim-domain/src/lib.rs:10-35 | inserted + updated + unchanged is the length of the server list; with distinct keys deleted + updated + unchanged is the old size of the scope, the scope ends as large as the list and the map grows by inserted minus deleted |
| ScopeSync.ScopeListsServer | crates/openim-domain/src/relation.rs:79-126 | with distinct keys any listing of the scope after a sync is a rearrangement of the server list |
| VersionSync.PlanVersionSync | crates/openim-sync/src/lib.rs:155-231 | the decision loop against its specification: full on an explicit full, another version id or a version that is not the next one; unchanged for an empty delta; else one increment with deletions, merged ids, an optional refreshed id list and the items in its order |
| VersionSync.MergedIdsElems | crates/openim-sync/src/lib.rs:184-212 | merging keeps the id list free of repeats and listing exactly the ids of the patched items |
| VersionSync.VersionPlanIff | crates/openim-sync/src/lib.rs:155-231 | when the decision is to do nothing, to fetch everything or to take one step, and the state after the step, written out |
| VersionSync.PatchedEntry | crates/openim-sync/src/lib.rs:188-200 | what a delta makes of one item: the last change of it decides, then its deletion |
| VersionSync.MergedIdsInOrder | crates/openim-sync/src/lib.rs:184-231 | the surviving ids keep their order and the new ids follow at the end, in the order in which they first arrive |
| VersionSync.CollectPlaces | crates/openim-sync/src/lib.rs:208-212 | laying items out along ids skips exactly the ids without an item and keeps the order |
| VersionSync.LayoutRoundTrip | crates/openim-sync/src/lib.rs:184-212 | a map laid out as a list along a complete id list is recovered whole by indexing it again |
| Replica.SyncedIsSnapshot | crates/openim-sync/src/lib.rs:155-219 | a synced replica's items, looked up by id, are the server snapshot at the replica's version, one per listed id and in that order |
| Replica.IncrementalStepIff | crates/openim-sync/src/lib.rs:172-219 | an incremental step raises the version by exactly one and reaches the next snapshot if and only if the refreshed id list, when used, rearranges the merged one |
| Replica.RunKeepsSynced | crates/openim-sync/src/lib.rs:155-231 | for every run of honest deltas in any order, repeated, stale or with gaps, with full decisions adopting a snapshot, the replica always equals the snapshot at its own version |
| Replica.ReplicasAgree | crates/openim-sync/src/lib.rs:155-231 | two replicas at the same version hold the same items and the same ids up to order |
| Replica.NeverFullIff | crates/openim-sync/src/lib.rs:155-182 | for any events at all: no decision along the run asks for a full resync if and only if no delta that carries a change is full, of another version id, or skips past the version after the newest such delta; deltas without changes count for nothing |
| Replica.CatchesUp | crates/openim-sync/src/lib.rs:155-219 | then duplicates and stale deltas in any arrangement leave the replica at the newest version delivered with a change |
| Replica.EmptyDeltaExample | crates/openim-sync/src/lib.rs:155-182 | a literal history whose two deltas arrive in order: the first changes nothing, so the replica stays behind and the second asks for a full resync |
| Replica.DeliverNeverRegresses | crates/openim-sync/src/lib.rs:165-182 | unless a snapshot is adopted the version moves by zero or one, and if it does not move nothing does |
| Relation.RelationService.SyncFriends | crates/openim-domain/src/relation.rs:91-126 | succeeds exactly for a non-empty owner and items of that owner with friend ids; then the owner's scope is synced and counted; an error and the blacklist change nothing |
| Relation.RelationService.SyncBlacklist | crates/openim-domain/src/relation.rs:153-188 | the same for blocked users |
| Relation.RelationService.AllFriends | crates/openim-domain/src/relation.rs:79-89 | lists exactly the owner's friends, each once, sorted by friend id |
| Relation.RelationService.AllBlacklist | crates/openim-domain/src/relation.rs:141-151 | lists exactly the owner's blocked users, each once, sorted |
| Relation.RelationService.ApplyFriends | crates/openim-domain/src/relation.rs:100-125 | the apply loop is the map function of the actions and counts them |
| Relation.RelationService.DeleteFriend | crates/openim-domain/src/relation.rs:60-65 | removes exactly that pair, or nothing on an empty id |
| Relation.SyncThenList | crates/openim-domain/src/relation.rs:79-126 | synchronising distinct friends and then listing gives the server list sorted; no other owner's entry moves |
| Group.GroupService.SyncGroups | crates/openim-domain/src/group.rs:80-109 | syncs all groups and removes exactly the members of groups that were known and are no longer listed; an empty group id refuses everything |
| Group.GroupService.ApplyGroups | crates/openim-domain/src/group.rs:85-108 | the apply loop with its cascading deletions never fails on stored groups and removes the members of exactly the deleted groups |
| Group.GroupService.DeleteGroup | crates/openim-domain/src/group.rs:66-72 | removes the group and exactly its members |
| Group.GroupService.SyncGroupMembers | crates/openim-domain/src/group.rs:136-173 | syncs the members of one group, no other group's members and no group |
| Group.GroupService.JoinedGroups | crates/openim-domain/src/group.rs:74-78 | lists every group once, sorted |
| Group.GroupService.GroupMembers | crates/openim-domain/src/group.rs:124-134 | lists exactly the group's members, sorted |
| Group.PlanDeletesGroups | crates/openim-domain/src/group.rs:80-109 | the groups a plan deletes are exactly those stored and not listed by the server |
| Group.NoOrphansOfDeletedGroups | crates/openim-domain/src/group.rs:66-109 | after a group sync no member is left of a group that was known and is gone, and every other member is as it was |
| Message.BothEndsAgree | crates/openim-domain/src/message.rs:488-510 | sender and receiver of a one-to-one conversation compute the same conversation id |
| Message.IdsDistinguish | crates/openim-domain/src/message.rs:488-510 | for all non-empty ids: two conversation ids are equal if and only if the kinds are and it is the same group, the same unordered pair of users, or two pairs one of which straddles the other (one id of each reaches past a separator in the joined text) |
| Message.SeparatorFreeIds | crates/openim-domain/src/message.rs:488-510 | so as long as the ids of one of the two pairs contain no separator equal ids mean the same kind and the same users or group |
| Message.IdsCollideExample | crates/openim-domain/src/message.rs:488-510 | two different pairs of users, one with a separator in an id, that share a conversation id |
| Message.MessageOrder | crates/openim-domain/src/message.rs:570-575 | the message order is total and transitive |
| Message.ConversationHasNoTies | crates/openim-domain/src/message.rs:570-575 | within one conversation two stored messages never tie, so the order is strict there |
| Message.ValidMessageIff | crates/openim-domain/src/message.rs:540-568 | which messages are valid, written out with the conversation id each kind must have |
| Message.OldestFirstIff | crates/openim-domain/src/message.rs:570-575 | the order of a conversation written out |
| Message.RangeAcceptableIff | crates/openim-domain/src/message.rs:406-416 | which ranges are accepted, written out |
| Message.SendOutcomeIs | crates/openim-domain/src/message.rs:273-324 | status, server id, sequence number and time of the stored message and the reply, for each answer of the sender; nothing else of the message changes but that it is read |
| Message.MessageService.SendMessage | crates/openim-domain/src/message.rs:273-290 | an invalid message changes nothing; otherwise it is the only one that moves, and its status, server id, sequence number, time and the reply are as each answer demands: sent with the data of the acknowledgement, failed, or left sending when the acknowledgement has no server id |
| Message.MessageService.AckSendSuccess | crates/openim-domain/src/message.rs:301-314 | needs a server id and a stored message; sets that message's server id, number, time and status and changes nothing else |
| Message.MessageService.MarkSendFailed | crates/openim-domain/src/message.rs:316-324 | needs a stored message; changes its status only |
| Message.MessageService.ReceiveMessage | crates/openim-domain/src/message.rs:292-299 | stores exactly the valid messages, as they are but for a sending status, which becomes sent |
| Message.MessageService.AllMessages | crates/openim-domain/src/message.rs:356-366 | lists exactly the conversation's messages in order |
| Message.MessageService.History | crates/openim-domain/src/message.rs:368-376 | the page depends only on the stored messages, not on how the map is iterated |
| Message.MessageService.SyncMessageRange | crates/openim-domain/src/message.rs:406-443 | accepts exactly valid messages of that conversation, then overlays them and counts; an error changes nothing |
| Message.RangeOverlays | crates/openim-domain/src/message.rs:406-443 | a range sync forgets no message, touches no other conversation, and with distinct ids is the old map plus the server's |
| Paging.PaginateIsPage | crates/openim-domain/src/message.rs:577-585 | the saturating index arithmetic gives the true page on 32-bit and 64-bit platforms |
| Paging.PaginateCuts | crates/openim-types/src/lib.rs:141-151 | a page number from 0 up and a size from 1 up are kept, others become 0 and 200; the page is then cut out item by item |
| Paging.PaginatedIsPrefix | crates/openim-domain/src/message.rs:577-585 | the answers to asking for one page after the other are a prefix of the list |
| Paging.PagesArePrefix | crates/openim-domain/src/message.rs:577-585 | the first pages of a size, one after the other, are a prefix of the list: nothing skipped, repeated or moved |
| Paging.PagesCover | crates/openim-domain/src/message.rs:577-585 | enough pages give the whole list |
| Conversation.OpensOwnConversationIff | crates/openim-domain/src/conversation.rs:34-57 | the conversation a valid message opens is itself valid; it has the id its owner computes from the peer or group it shows if and only if it is of a group, the owner is one of its two ends, or the ids involved join to the same text |
| Conversation.OpenSameIff | crates/openim-domain/src/conversation.rs:306-329 | two valid messages under one id open the same record if and only if they are of a group or show the owner the same peer: between the same two users that means the owner is one of them or the sender is the same; if the owner is an end of both it means the same two users; different users under one id take ids that join to the same text |
| Conversation.OpenedRecord | crates/openim-domain/src/conversation.rs:34-57 | the record a message opens, field by field, and when there is none |
| Conversation.FoldExact | crates/openim-domain/src/conversation.rs:141-152 | what one message makes of a conversation, field by field: highest sequence number, latest message and its snapshot, send time and saturated unread count |
| Conversation.ListedOrderIff | crates/openim-domain/src/conversation.rs:366-372 | the list order written out: pinned first, then later latest message, then id |
| Conversation.ValidConversationIff | crates/openim-domain/src/conversation.rs:353-364 | which conversations are valid, written out |
| Conversation.TotalUnreadIs | crates/openim-domain/src/conversation.rs:204-212 | the total adds up the counts of exactly the conversations stored for the owner, along any list of their keys |
| Conversation.ConversationService.ApplyMessage | crates/openim-domain/src/conversation.rs:125-155 | moves exactly the conversation of the message, or the record it opens, as the fold does whose every field FoldExact gives; fails exactly without owner or target, changing nothing |
| Conversation.ConversationService.MarkConversationRead | crates/openim-domain/src/conversation.rs:157-166 | returns what the total loses, clears that conversation's count and changes no other |
| Conversation.ConversationService.TotalUnreadCount | crates/openim-domain/src/conversation.rs:204-212 | the sum over exactly the owner's conversations, in the 32-bit arithmetic of the code |
| Conversation.ConversationService.AllConversations | crates/openim-domain/src/conversation.rs:105-115 | lists exactly the owner's conversations, pinned first, newest first, then by id |
| Conversation.ConversationService.SyncConversations | crates/openim-domain/src/conversation.rs:231-270 | syncs exactly the owner's conversations; an error changes nothing |
| Conversation.ConversationOrder | crates/openim-domain/src/conversation.rs:366-372 | the list order is total and transitive |
| Conversation.TotalUnreadUpdate | crates/openim-domain/src/conversation.rs:204-212 | storing a conversation moves the owner's total by the change of its own count |
| ConversationFold.FoldAllByConversation | crates/openim-domain/src/conversation.rs:125-155 | after any batch each conversation is what its own messages alone make of it, and no other owner's moved |
| ConversationFold.FoldCounts | crates/openim-domain/src/conversation.rs:125-155 | the unread count is the smaller of the 32-bit maximum and base plus unread inbound messages; the highest sequence number is the maximum |
| ConversationFold.UnreadCountExact | crates/openim-domain/src/conversation.rs:150-152 | the unread count after a batch is the smaller of the 32-bit maximum and the count before plus the number of messages that others sent and that are neither read nor revoked |
| ConversationFold.LatestIsLastNewest | crates/openim-domain/src/conversation.rs:331-340 | where all competitors have a sequence number, or none has, the latest message is the newest one, by number and time or by time alone, and among equally new ones the last to arrive |
| ConversationFold.FoldSendTime | crates/openim-domain/src/conversation.rs:141-149 | the stored send time keeps following the latest message |
| ConversationFold.CountsOrderIndependent | crates/openim-domain/src/conversation.rs:125-155 | every permutation of a conversation's messages gives the same saturated unread count and highest sequence number |
| FoldOrder.OrderFreeIff | crates/openim-domain/src/conversation.rs:331-340 | every permutation of the messages leaves the same one latest if and only if there is a winner: a candidate that displaces the old latest message and that no other message of the batch displaces; the latest is then the winner |
| FoldOrder.UniformOrderFree | crates/openim-domain/src/conversation.rs:331-340 | in particular when all candidates or none carry a sequence number and no two of them displace each other |
| ConversationFold.LatestIsLexicographicMaximum | crates/openim-domain/src/conversation.rs:331-340 | with sequence numbers the latest message has the lexicographically greatest (sequence, time) in every permutation, and is the same message unless candidates tie at the top |
| FoldOrder.RecordOrderFreeIff | crates/openim-domain/src/conversation.rs:34-155 | every permutation leaves the same whole record if and only if there is a winner and, for a conversation the batch opens, all messages open the same record |
| FoldOrder.SameOpeningIff | crates/openim-domain/src/conversation.rs:306-329 | valid messages under one id open the same record if and only if they are of a group or all show the owner the same peer |
| FoldOrder.RecordOrderIndependent | crates/openim-domain/src/conversation.rs:125-155 | with sequence numbers and no tie at the top the whole record, stored before or opened by the batch, is the same in every permutation |
| ConversationFold.MixedSequenceExample | crates/openim-domain/src/conversation.rs:331-340 | three messages, one without a sequence number, that leave different latest messages in different orders |
| FoldOrder.BatchOrderFreeIff | crates/openim-session/src/lib.rs:907-950 | a batch over any conversations leaves them all the same in every permutation if and only if, for each conversation it touches, that conversation's own messages have a winner and open the same record if they open it |
| ConversationFold.BatchOrderIndependent | crates/openim-domain/src/conversation.rs:125-155 | rearranging a batch over many conversations leaves every conversation with the same count, highest sequence number and place of the latest message |
| Dispatch.BatchFolds | crates/openim-session/src/lib.rs:907-950 | the batch loop leaves the conversations as folding the messages one by one does |
| Dispatch.BatchPartition | crates/openim-session/src/lib.rs:916-940 | after any batch the two lists hold exactly the touched conversations: new ones that were absent before, changed ones that were present, each with its final stored value |
| Dispatch.AnnouncementExact | crates/openim-session/src/lib.rs:907-950 | what is announced: each touched conversation once in exactly one list, and a total exactly when the owner's unread total moved |
| Dispatch.OwnMessagesKeepTotal | crates/openim-session/src/lib.rs:907-950 | a batch of the owner's own messages never moves the owner's unread total |
| Dispatch.QuietMessagesKeepTotal | crates/openim-domain/src/conversation.rs:150-152 | messages that are the owner's own, read already or revoked move neither the total nor the count of any conversation, and open new ones with a count of zero |
| Dispatch.TotalGrows | crates/openim-session/src/lib.rs:907-950 | a batch never lowers the unread total and raises it by one a message at most |
| Dispatch.TotalAnnouncedIff | crates/openim-session/src/lib.rs:912-950 | for every batch: a total is announced if and only if it grew by no multiple of two to the 32, so the announcement is true if and only if the growth is zero or no such multiple, as for all smaller batches; the number announced is the true total if and only if that fits in 32 bits |
| Dispatch.LostTotalExample | crates/openim-session/src/lib.rs:912-950 | a literal batch of two to the 32 messages that moves the total from 0 and announces nothing |
| Dispatch.FiledElsewhereIff | crates/openim-session/src/lib.rs:1049-1057 | a message its owner may see is filed under a conversation that is not the owner's if and only if it is one-to-one between two others, hence carries a group, and the ids do not join to the same text |
| Dispatch.FiledElsewhereExample | crates/openim-session/src/lib.rs:1049-1057 | a literal message between two others that its owner files under their conversation id |
| Dispatch.OpenDifferentExample | crates/openim-domain/src/conversation.rs:306-329 | two literal messages between the same two others, one each way, that open different records |
| Dispatch.ApplyMessagesToConversations | crates/openim-session/src/lib.rs:907-950 | the imperative loop does the fold and returns the announcement; for valid messages none of its calls fails |
| Tasks.RunningNamesExact | crates/openim-session/src/lib.rs:435-443 | stopping all names exactly the running tasks, each once |
| Tasks.RunningNamesAscend | crates/openim-session/src/lib.rs:435-443 | ... and in the order of their names |
| Tasks.TaskSupervisor.Start | crates/openim-session/src/lib.rs:418-423 | reports whether the task was not running; afterwards it runs and no other task changed |
| Tasks.TaskSupervisor.Stop | crates/openim-session/src/lib.rs:425-433 | reports whether the task was running; afterwards it does not and no other task changed |
| Tasks.TaskSupervisor.StopAll | crates/openim-session/src/lib.rs:435-443 | returns the running tasks and forgets all |
| SessionResources.SessionRuntimeResources.CloseAll | crates/openim-session/src/lib.rs:350-376 | one pass tries every resource once, newest first; what refuses stays in its original order; success exactly when nothing is left, listing what was closed newest first |
| SessionResources.PassesConserve | crates/openim-session/src/lib.rs:350-376 | over any passes closed and open handles together are the handles there were |
| SessionResources.ClosedExactlyOnce | crates/openim-session/src/lib.rs:350-376 | over any passes no handle is closed twice or closed while open; when nothing is left every handle was closed exactly once |
| SessionResources.OpenKeepsOrder | crates/openim-session/src/lib.rs:350-376 | what is open after any passes is, in original order, what every pass refused |
| SessionResources.AnnouncedAllIff | crates/openim-session/src/lib.rs:350-376 | the list the last pass returns holds every resource if and only if no failed pass before it closed anything |
| SessionEvents.EventsOnlyWhileIn | crates/openim-session/src/lib.rs:603-742 | in a log the login automaton accepts, message, conversation and unread events come after a login and before the end of it |
| SessionEvents.StopBetweenStarts | crates/openim-session/src/lib.rs:693-709 | in a log the start-stop automaton accepts, two starts of a task have a stop between them |
| SessionEvents.StartBeforeStop | crates/openim-session/src/lib.rs:693-709 | and every stop has a start before it with no other stop between |
| SessionEvents.AllStopped | crates/openim-session/src/lib.rs:871-875 | telling of the stop of all running tasks leaves each of them stopped once |
| SessionSteps.AdmittedRuntime | crates/openim-session/src/lib.rs:603-622 | the resources admitted are the adapter's, of that user, token and storage target; LoginSucceedsIff says when there are any |
| SessionCalls.LoginSucceedsIff | crates/openim-session/src/lib.rs:603-622 | a login succeeds if and only if the session is initialized or logged out, user id and token are given, the storage target was found, and the adapter answers with that user, the transport of the configuration field by field, and that storage; otherwise the first thing wrong gives the error and nothing changes |
| SessionCalls.LoginEnters | crates/openim-session/src/lib.rs:615-636 | a login that succeeds leaves that user, the resources of the adapter, empty domain services, both tasks running besides the earlier ones, and in the log the starts of those that did not run, each opened resource, and the login |
| SessionCalls.InitOutcome | crates/openim-session/src/lib.rs:591-601 | only a new or uninitialized session asks the adapter; its answer decides, an error changes nothing, and any other session succeeds without a change |
| SessionCalls.LogoutOutcome | crates/openim-session/src/lib.rs:638-657 | with nobody logged in nothing happens; an adapter error changes nothing; otherwise it succeeds if and only if every resource closes, and then stops the running tasks, closes newest first, forgets user and data, and tells of it in that order; if one refuses, those that closed are gone, the others stay in order, and nothing else changes |
| SessionCalls.UninitOutcome | crates/openim-session/src/lib.rs:659-674 | the same for uninit, from any state and with nobody logged in as well |
| SessionCalls.TaskOutcome | crates/openim-session/src/lib.rs:693-709 | starting and stopping a task: reply, effect on every task name, and the event told only if the task did not or did run |
| SessionCalls.StateTold | crates/openim-session/src/lib.rs:591-674 | in every run the state is the one the last initialized, logged-in, logged-out or uninitialized event of the log tells of |
| SessionCalls.LoginAdmittedIff | crates/openim-session/src/lib.rs:603-622 | in every run a right login succeeds if and only if the last such event told of the session being initialized or logged out |
| SessionCalls.LoginAfterLogout | crates/openim-session/src/lib.rs:603-657 | whatever was called before, and after as long as it is no login or uninit: once somebody was logged out successfully, a right login of anybody succeeds |
| SessionCalls.LoginAfterUninit | crates/openim-session/src/lib.rs:591-674 | the same after an uninit and an init that succeeded |
| SessionCalls.LogoutMatchesLogin | crates/openim-session/src/lib.rs:603-657 | in every run the user a logout is told of is the one whose login was told of last, with no end of it in between |
| SessionCalls.LoginsTakeTurns | crates/openim-session/src/lib.rs:603-674 | in every run two logins have the end of a login between them |
| SessionSteps.AcceptedCount | crates/openim-session/src/lib.rs:881-890 | pushes are taken up to the first that is not visible and valid |
| SessionRuns.LoginKeeps | crates/openim-session/src/lib.rs:603-636 | a login, admitted or refused for any reason, keeps the session invariant |
| SessionRuns.EndKeeps | crates/openim-session/src/lib.rs:638-674 | logout and uninit keep it, also when the adapter fails or resources refuse to close |
| SessionRuns.PullKeeps | crates/openim-session/src/lib.rs:759-782 | a pull keeps it |
| SessionRuns.ReceiveKeeps | crates/openim-session/src/lib.rs:784-795 | receiving pushes keeps it, also when a batch stops midway |
| SessionRuns.SendKeeps | crates/openim-session/src/lib.rs:744-757 | a send keeps it |
| SessionRuns.Run | crates/openim-session/src/lib.rs:575-757 | after any calls with any answers: logged in exactly while a user and that user's resources are held; otherwise no domain data; the event log alone tells who is logged in and which tasks run; every handle a login brought is open or closed |
| SessionRuns.HandlesClosedOnce | crates/openim-session/src/lib.rs:638-674 | in every run no handle is closed twice or closed while open, and whenever nobody is logged in all handles of admitted logins have been closed |
| SessionHandles.OfferedClosedIff | crates/openim-session/src/lib.rs:603-674 | whenever nobody is logged in, all handles the adapter ever offered have been closed if and only if every login whose adapter answered was admitted or its answer held no resources |
| SessionHandles.RefusedLoginExample | crates/openim-session/src/lib.rs:615-620 | a literal login refused for a mismatch whose offered socket is never closed |
| SessionHandles.EndTellsRefused | crates/openim-session/src/lib.rs:638-674 | in any run, the logout or uninit that closes the last resources tells of exactly those that every earlier attempt since the login had refused, newest first |
| SessionHandles.EndTellsAllIff | crates/openim-session/src/lib.rs:638-674 | so listeners hear of the closing of all a login brought if and only if no earlier attempt since, by logout or uninit and with any calls in between, had closed any |
| SessionRuns.LogOfAnyRun | crates/openim-session/src/lib.rs:711-742 | in every run message, conversation and unread events lie between a login and its end |
| SessionRuns.TasksTakeTurns | crates/openim-session/src/lib.rs:693-709 | in every run starts of a task are separated by stops |
| SessionRuns.RunningIffStarted | crates/openim-session/src/lib.rs:445-447 | in every run a task runs if and only if the log holds a start of it with no stop since |
| SessionTheorems.PullExact | crates/openim-session/src/lib.rs:759-782 | a successful pull forgets no message, touches no other conversation or owner, stores the pulled messages, tells of them first and then exactly of the conversations it created and changed and of the total if it moved |
| SessionTheorems.PullFailsIff | crates/openim-session/src/lib.rs:759-782 | a pull fails if and only if nobody is logged in, the id is empty, the transport failed, or some message is invalid, of another conversation, or neither sent nor received by the user nor of a group; then nothing at all has changed |
| SessionTheorems.PullSucceeds | crates/openim-session/src/lib.rs:759-782 | a pull of valid messages of one conversation succeeds if each was sent or received by the user or carries a group |
| SessionTheorems.SendExact | crates/openim-session/src/lib.rs:744-757 | what sending comes to for every answer: the stored message and the reply field by field, no other message moved, and on success the fold and exactly what is told |
| SessionTheorems.SendKeepsTotal | crates/openim-session/src/lib.rs:744-757 | sending never moves or announces the sender's unread total |
| SessionTheorems.FailedPushUnchangedIff | crates/openim-session/src/lib.rs:881-896 | a push batch fails if and only if it has a bad message; the session is then unchanged if and only if what came before that message was stored already; listeners hear nothing either way |
| SessionTheorems.ReceiveExact | crates/openim-session/src/lib.rs:881-896 | what a batch of pushes comes to: the messages before the first bad one stored as received; only if there is none are all folded and told of, in order |
| SessionTheorems.ReceiveNothing | crates/openim-session/src/lib.rs:784-795 | without a user, on a transport error or with nothing received the session does not change |
| SessionTheorems.FailedPushKeepsGood | crates/openim-session/src/lib.rs:881-896 | any good message followed by a bad one: the error leaves the good one stored and unannounced |
| SessionTheorems.FailedPushExample | crates/openim-session/src/lib.rs:881-896 | a literal pair of such messages |
| SessionTheorems.FailedLogouts | crates/openim-session/src/lib.rs:638-657 | over any number of logouts failing on resources, login, tasks, data and log stay as they were and only the open resources shrink |
| SessionTheorems.LogoutTells | crates/openim-session/src/lib.rs:638-657 | the logout that succeeds after failed ones adds to the log the stopped tasks, the closing of exactly what every failed pass had refused, newest first, and the logout |
| SessionTheorems.LogoutTellsAllIff | crates/openim-session/src/lib.rs:638-657 | that log holds the closing of every resource if and only if no failed pass closed any |
| SessionTheorems.LostCloseExample | crates/openim-session/src/lib.rs:638-657 | two literal resources closed by two logouts, of which listeners hear one |
| ClientSession.OpenImSession.constructor | crates/openim-session/src/lib.rs:575-589 | a new session is valid and empty |
| ClientSession.OpenImSession.Init | crates/openim-session/src/lib.rs:591-601 | the object does the init step; an adapter error changes nothing |
| ClientSession.OpenImSession.Login | crates/openim-session/src/lib.rs:603-636 | the object does the login step, with fresh domain services, keeping the lifecycle; it succeeds exactly from the initialized or logged-out state with a right login |
| ClientSession.OpenImSession.CloseRuntimeResources | crates/openim-session/src/lib.rs:861-869 | a failed pass keeps what is left, a full one drops the resources; nothing else changes |
| ClientSession.OpenImSession.Logout | crates/openim-session/src/lib.rs:638-657 | the object does the logout step, keeping the lifecycle on every path |
| ClientSession.OpenImSession.Uninit | crates/openim-session/src/lib.rs:659-674 | the object does the uninit step from any state |
| ClientSession.OpenImSession.StartTask | crates/openim-session/src/lib.rs:693-700 | starts a task and tells of it only if it was not running |
| ClientSession.OpenImSession.StopTask | crates/openim-session/src/lib.rs:702-709 | stops a task and tells of it only if it was running |
| ClientSession.OpenImSession.DispatchConversationEvents | crates/openim-session/src/lib.rs:898-905 | tells of new conversations, then changed ones, then the total, and of nothing that is empty |
| ClientSession.OpenImSession.SendMessage | crates/openim-session/src/lib.rs:744-757 | the object does the send step |
| ClientSession.OpenImSession.PullMessages | crates/openim-session/src/lib.rs:759-782 | the object does the pull step; after acceptance no call in it can fail, so an error leaves the whole session as it was |
| ClientSession.OpenImSession.ReceiveTransportPushes | crates/openim-session/src/lib.rs:784-795 | the object does the receive step |
| ClientSession.OpenImSession.ApplyTransportMessages | crates/openim-session/src/lib.rs:881-896 | the shared part of receiving, message by message |
| ClientSession.StoreReceived | crates/openim-session/src/lib.rs:886-890 | the storing loop keeps exactly the messages before the first bad one |
| SessionDriver.Perform | crates/openim-session/src/lib.rs:575-757 | any call on the object is the corresponding step and keeps the whole invariant of runs |
| Transport.PendingRequests.RegisterAt | crates/openim-transport-core/src/lib.rs:165-170 | registers or re-registers one request |
| Transport.PendingRequests.Resolve | crates/openim-transport-core/src/lib.rs:176-178 | true exactly for a registered request, which it removes |
| Transport.PendingRequests.ExpireAt | crates/openim-transport-core/src/lib.rs:180-198 | removes and lists, each once, exactly the requests that waited long enough |
| Transport.ExpiredIff | crates/openim-transport-core/src/lib.rs:180-198 | a request is forgotten if and only if its age has reached the timeout; one registered now or later survives any positive timeout |
| Transport.RouteEnvelope | crates/openim-transport-core/src/lib.rs:401-411 | a response to a registered request uses the registration up; pushes and unknown responses leave it |
| WsClient.NativeWsClient.SendRequest | crates/openim-transport-native/src/lib.rs:125-131 | registers exactly when the socket took the request |
| WsClient.NativeWsClient.SendRequestWaitResponse | crates/openim-transport-native/src/lib.rs:133-181 | the waiting loop is the step function: other events are buffered in order, its own response ends it, and of the failures only a timeout forgets the registration; it succeeds exactly if the request is sent, has an id, and the response to it is the first frame to end the wait |
| WsClient.AwaitEndsIff | crates/openim-transport-native/src/lib.rs:146-180 | read off the frames alone: a wait for a registered id succeeds if and only if its response is the first frame to end it, returns that response, and leaves the id registered if and only if reading failed |
| WsClient.RequestSucceedsIff | crates/openim-transport-native/src/lib.rs:133-181 | the same for the whole request, with any id and with sending that may fail |
| WsClient.LeftPendingExample | crates/openim-transport-native/src/lib.rs:150-166 | a literal broken frame: the request fails and stays registered |
| WsClient.NativeWsClient.RecvEvent | crates/openim-transport-native/src/lib.rs:190-196 | hands out the oldest buffered event before reading the socket |
| WsClient.NativeWsClient.RecvFromStream | crates/openim-transport-native/src/lib.rs:198-237 | reads to the next event; each ping is answered and ends the read with its event |
| WsClient.FromStreamIs | crates/openim-transport-native/src/lib.rs:198-237 | reading consumes the frames up to the first that is not passed over and reports that one, or a disconnection at the end; frame by frame |
| WsClient.NativeWsClient.RecvEventWithTimeout | crates/openim-transport-native/src/lib.rs:239-254 | on a timeout forgets exactly the requests whose age reached the limit and reports one of them; otherwise forgets none |
| WsClient.NativeWsClient.Reconnect | crates/openim-transport-native/src/lib.rs:85-117 | watched for any number of attempts: none goes past the first not refused, a new connection starts empty, and until there is one the client stays as it was; it gives up exactly after the allowed number, if that is not the largest |
| WsClient.NativeWsClient.ConnectWithRetries | crates/openim-transport-native/src/lib.rs:49-75 | the first connection: the same, but a failed handshake is retried as well |
| WsClient.AwaitKeeps | crates/openim-transport-native/src/lib.rs:133-181 | a wait that succeeds takes exactly one arrival, the response to its own id; one that fails takes none |
| WsClient.PerformKeeps | crates/openim-transport-native/src/lib.rs:125-254 | every operation keeps the record of arrivals and takes exactly the response it returns, if it is a request that succeeds |
| WsClient.FifoWithoutLoss | crates/openim-transport-native/src/lib.rs:125-254 | over any mix of operations what was handed out followed by what is buffered is everything that arrived, in order, minus the responses waits took; those are, one for one and in order, what the successful requests returned; each registration classifies at most one response |
| Backoff.DelayIsNominal | crates/openim-transport-core/src/lib.rs:131-146 | a delay exists exactly for allowed attempts and is initial times two to the min(attempt-1, 31), capped by the maximum (and the 64-bit range) |
| Backoff.ProductFits | crates/openim-transport-core/src/lib.rs:136-145 | the 128-bit product never saturates |
| Backoff.DelaysNeverShrink | crates/openim-transport-core/src/lib.rs:131-146 | delays are nondecreasing in the attempt |
| Backoff.RetryLoop | crates/openim-transport-native/src/lib.rs:49-75 | for every limit, watched for any number of attempts: settled by the last attempt, or given up after exactly the allowed number with the last error, or still trying; it has slept once per failure; without a limit, or with the largest, failures alone never end it |
| Backoff.ExhaustedRetry | crates/openim-transport-native/src/lib.rs:49-75 | when every connect fails exactly the allowed number is made, sleeping at most that many maximal delays and, up to 32, at most the geometric sum |
| Backoff.SleptAtMost | crates/openim-transport-native/src/lib.rs:49-75 | n failures sleep at most n maximal delays |
| Backoff.SleptGeometric | crates/openim-transport-native/src/lib.rs:49-75 | up to 32 failures sleep at most initial times (two to the n, minus one) |
| Worker.ChannelIsFaithful | crates/openim-session-native/src/lib.rs:241-343 | in every interleaving of worker, drains and close, what was drained followed by what is in the channel is what the worker received, heartbeats aside, in order |
| Worker.NextKeepsShuttingDown | crates/openim-session-native/src/lib.rs:280-347 | every step keeps the shutdown bounds |
| Worker.ShutdownIsBounded | crates/openim-session-native/src/lib.rs:280-347 | once shutdown is asked for the worker receives at most once more, connects at most as often as one reconnect loop and stops within a bounded number of its steps |
| Worker.JoinReturns | crates/openim-session-native/src/lib.rs:226-239 | after that the worker can always move towards its end, and once stopped the join can return |
| Worker.WorkerGoesRound | crates/openim-session-native/src/lib.rs:306-341 | what each outcome makes of the worker: nothing to read or an event leads round the loop, a disconnection to connecting again, an established connection back to the loop, a refused one to the next allowed attempt |
| Worker.UnharmedKeepsGoing | crates/openim-session-native/src/lib.rs:306-341 | in every interleaving: without a shutdown and without a failed receive, a failed handshake or a last refused connect, the worker is at a check, a receive or a connect |
| Worker.StopsOnlyWhenHarmed | crates/openim-session-native/src/lib.rs:306-341 | if it has stopped without a shutdown, the last step it took was one of those and its result is an error |
| Worker.AttemptsCount | crates/openim-session-native/src/lib.rs:314-325 | the attempt the worker is at counts the refused connects since the disconnection that started the loop |
| Worker.ReceivedReaches | crates/openim-session-native/src/lib.rs:314-335 | in every interleaving the events drained or in the channel are exactly those received that are no heartbeat |
| Worker.SentAndJoinedOnce | crates/openim-session-native/src/lib.rs:226-239 | in every interleaving the shutdown is sent at most once and the thread joined at most once |
| Worker.NativeTransportTaskResource.Close | crates/openim-session-native/src/lib.rs:226-239 | on the shared system, whatever the network decides: the first close sends the shutdown, the worker stops, the join returns what it stopped with; later closes change nothing |
| Worker.NativeTransportTaskResource.DrainTransportEvents | crates/openim-session-native/src/lib.rs:241-247 | with the worker running on between looks: the channel ends empty and all drains together gave exactly what the worker received, heartbeats aside, in order |
| PartPlan.PartSizeIsLeast | crates/openim-domain/src/file.rs:85-119 | the chosen size is the least one from the minimum up with which the file fits the allowed number of parts, and within the maximum when the limits are in order |
| PartPlan.PartSizeRefusedIff | crates/openim-domain/src/file.rs:85-119 | a size is refused exactly for a zero limit, an empty or too large file, or a product of limits beyond 64 bits |
| PartPlan.PlanMultipart | crates/openim-domain/src/file.rs:422-451 | for every file and part size the loop cuts the file into the plan: full parts and one last rest, counted in 32 bits; fails exactly without a name or a part size |
| PartPlan.PlanNumberedIff | crates/openim-domain/src/file.rs:429-443 | the parts are numbered one after the other if and only if their number fits in 32 bits |
| PartPlan.UnnumberedExample | crates/openim-domain/src/file.rs:429-443 | a literal file and part size whose last part is numbered 0 |
| PartPlan.PlanFitsLimit | crates/openim-domain/src/file.rs:418-451 | with the chosen size the parts are within the allowed number and numbered one after the other |
| PartPlan.PlanTiles | crates/openim-domain/src/file.rs:422-451 | the parts tile the file: none empty, each starts where the one before ends, together exactly its size |
| Upload.SignedMultipartUploadClient.SignPart | crates/openim-domain/src/file.rs:325-354 | uses a held signature or asks for the block starting at the part |
| Upload.SignedMultipartUploadClient.UploadPart | crates/openim-domain/src/file.rs:400-412 | one part: sign, then put; succeeds exactly if it can be signed and the put is acknowledged under its own number |
| Upload.MultipartUploadPlan.Resume | crates/openim-domain/src/file.rs:515-524 | sets each flag to whether the part is already uploaded |
| Upload.MultipartUploadPlan.UploadMissingParts | crates/openim-domain/src/file.rs:540-566 | the pass skips marked parts, marks each accepted one at once and ends at the first failure |
| Upload.PassMarksPrefix | crates/openim-domain/src/file.rs:540-566 | a pass marks exactly the parts before the one it stops at, and what was accepted is exactly the missing ones among them, in order |
| Upload.TriesAcceptOnce | crates/openim-domain/src/file.rs:526-566 | over any tries flags only go up and the accepted parts are those missing before some position, each once |
| Upload.FinishedUpload | crates/openim-domain/src/file.rs:540-566 | once a try succeeds every part that was missing has been accepted exactly once |
| Upload.UploadOneKeepsGrants | crates/openim-domain/src/file.rs:325-354 | the grants needed so far stay a batch apart, and a new request starts at the needed part |
| Upload.SigningExact | crates/openim-domain/src/file.rs:325-354 | what signing asks for: nothing if the signature is held, or else one block of consecutive numbers from the part on, as long as a batch or the parts left; the answer replaces the held signatures |
| Upload.UploadOneIff | crates/openim-domain/src/file.rs:400-412 | a part goes through if and only if it can be signed and its put is acknowledged under its own number; there is a put exactly if it can be signed |
| Upload.PassIsAcknowledged | crates/openim-domain/src/file.rs:540-566 | every number a pass accepts was put in turn and acknowledged under that number; the pass fails if and only if the first part left missing cannot be signed or its put was answered otherwise |
| Upload.TriesAreAcknowledged | crates/openim-domain/src/file.rs:540-566 | over any tries every accepted number has a put of its own that was acknowledged under it |
| Upload.MarkedWasAcknowledged | crates/openim-domain/src/file.rs:540-566 | so every part newly marked as uploaded was acknowledged under its own number |
| Upload.SigningIsAmortised | crates/openim-domain/src/file.rs:325-354 | from any initial signatures and flags, over any tries, at most ceil(n / batch) signing requests are granted, each for a block of consecutive existing parts |
| Upload.PreparedSessionGrants | crates/openim-domain/src/file.rs:602-606 | a prepared session needs at most one grant for every twenty parts |
| Upload.Progress | crates/openim-domain/src/file.rs:568-583 | the loop adds up the marked parts without 64-bit overflow on a planned file |
| Upload.CompleteIffAllMarked | crates/openim-domain/src/file.rs:57-59 | uploaded bytes equal the file size, and progress is complete, exactly when all parts are marked |
| IndexedDb.IndexedDbStorage.SaveMessage | crates/openim-storage-indexeddb/src/wasm.rs:48-64 | writes the primary record and then the list of the conversation, stopping where a request fails; it succeeds exactly if none does, and then the message is in both |
| IndexedDb.IndexedDbStorage.LoadHistory | crates/openim-storage-indexeddb/src/wasm.rs:70-80 | the page does not depend on the arrangement of the stored list; once the list agrees with the primary store it is the page of any newest-first listing of the primary store's messages of that conversation |
| IndexedDb.IndexedDbStorage.SaveConversation | crates/openim-storage-indexeddb/src/wasm.rs:82-101 | the same for conversations of an owner |
| IndexedDb.IndexedDbStorage.RemoveConversation | crates/openim-storage-indexeddb/src/wasm.rs:103-123 | removes from both, stopping where a request fails |
| IndexedDb.UpsertInto | crates/openim-storage-indexeddb/src/wasm.rs:283-303 | overwrites the first entry with the id or appends |
| IndexedDb.SavedIsStored | crates/openim-storage-indexeddb/src/wasm.rs:48-101 | after a completed save the item is under its key in the primary store and in the list of its group; every other key, list and list entry is as before |
| IndexedDb.RemovedIsGone | crates/openim-storage-indexeddb/src/wasm.rs:103-123 | after a completed removal the key is in neither copy, and every other key and list is as before |
| IndexedDb.StoppedHalfway | crates/openim-storage-indexeddb/src/wasm.rs:48-123 | a stopped operation has written nothing, or the primary store alone as the completed one does |
| IndexedDb.LastOperationDecides | crates/openim-storage-indexeddb/src/wasm.rs:48-123 | over any completed operations the last one on a key decides: the item it saved is there, or nothing if it removed |
| IndexedDb.UntouchedKeyStays | crates/openim-storage-indexeddb/src/wasm.rs:48-123 | and a key no operation names keeps its entry |
| IndexedDb.NewestFirstIff | crates/openim-storage-indexeddb/src/wasm.rs:305-335 | the order of a history page written out: sequence number, time and id, all downwards |
| IndexedDb.AgreesIffNoneDirty | crates/openim-storage-indexeddb/src/wasm.rs:48-123 | agreement key by key is the same as: each list is a listing, without repeats, of the primary store restricted to its group |
| IndexedDb.SaveKeepsAgreement | crates/openim-storage-indexeddb/src/wasm.rs:48-101 | a save, stopped anywhere, makes at most its own key disagree, and a completed one mends it |
| IndexedDb.RemoveKeepsAgreement | crates/openim-storage-indexeddb/src/wasm.rs:103-123 | the same for a removal |
| IndexedDb.RunKeepsAgreement | crates/openim-storage-indexeddb/src/wasm.rs:48-123 | over any operations only keys of stopped ones not yet completed can disagree |
| IndexedDb.RetryRestores | crates/openim-storage-indexeddb/src/wasm.rs:48-123 | an operation stopped anywhere and carried out again restores full agreement, whatever completed in between |
| IndexedDb.StoppedSaveDisagreesIff | crates/openim-storage-indexeddb/src/wasm.rs:48-64 | a save stopped between its writes leaves the copies apart if and only if it saves something new |
| IndexedDb.StoppedRemovalDisagreesIff | crates/openim-storage-indexeddb/src/wasm.rs:103-123 | a removal stopped between its writes does so if and only if there was something to remove |
| IndexedDb.HistoriesAgree | crates/openim-storage-indexeddb/src/wasm.rs:305-335 | for the same messages the browser storage's descending page equals the memory service's ascending sort reversed and paged |
| Replay.InOrder | crates/openim-compat-tests/src/lib.rs:298-310 | the greedy cursor finds the required events exactly when some strictly increasing choice of positions does |
| Replay.EventNameIs | crates/openim-compat-tests/src/lib.rs:341-349 | the name of an event written out |
| Replay.NamesOfScenario | crates/openim-compat-tests/src/lib.rs:333-339 | exactly the events of the scenario are named, in order |
| Replay.ValidateReplayScenario | crates/openim-compat-tests/src/lib.rs:261-313 | sound and complete: accepts exactly a known scenario with events, all allowed, containing the required order as a subsequence |
| Replay.ValidateReplayTranscript | crates/openim-compat-tests/src/lib.rs:251-259 | accepts exactly when every required scenario passes |
| Replay.CompareReplayScenario | crates/openim-compat-tests/src/lib.rs:315-340 | equal exactly for the same non-empty names, and then both transcripts pass for the same fixtures |

## Left out

- Builds with overflow checks: they stop where the model wraps around, which the conditions of PlanNumberedIff, TotalAnnouncedIff and RetryLoop's Endless locate (the part counter one part earlier, as it runs one ahead).
- Worker.NativeTransportTaskResource.Close: a worker thread that panics is not modelled.
- Replica.RunKeepsSynced: the server's history only grows, deltas are true of it, and a refreshed id list rearranges the merged one; IncrementalStepIff shows the last is needed.
- IndexedDb.RunKeepsAgreement: operations do not overlap; overlapping saves read and write lists in separate transactions and can lose updates.
- SessionRuns.Run: direct work on the domain services is one step that keeps every entry under its own key and no group without an id, as the services' own methods do.
- SessionTheorems.FailedLogouts: handles are plain numbers; what closing one does is its own affair.
- ClientSession.OpenImSession.Login: the adapter's resources arrive as a value that the session wraps, and the path of the database file is an answer of the outside.
- Draining a session's resource handles and decoding the drained pushes (pump_transport_events): the decoded messages are the argument of the receive step.
- The listener registry, its ids and callbacks: a log of events stands for every listener.
- WsClient.NativeWsClient.RecvFromStream: a timeout that strikes while a pong is being sent loses that pong only, which is not modelled.
- The order of conversations in the browser storage, which differs from the memory service's.
- User profiles, drafts and pins, marking single messages read, revoking, searching and summaries that depend on letter case.
- JSON, protobuf, gzip, base64, URLs, HTTP token validation, signed put requests and their headers: decoded values are arguments.
- SQLite, the Go source extractor, the foreign function and browser bindings, error codes and texts (an error keeps its class only).
- Clocks, generated operation ids and message ids are arguments; sequence numbers and times are unbounded integers, as they are only compared.
- Keys written as JSON pairs are pairs.

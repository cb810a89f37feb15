# Signal Desktop: stores, contacts, challenges and keys

This project models the parts of Signal Desktop where state is shared between
interleaving calls, and proves what those parts promise over whole runs.

One step of a model is the code between two `await`s, or one task of a queue that runs
its tasks one at a time. A component that changes state is there twice: as functions on
values (a transition system, about which the lemmas are), and as a class whose methods
change the same fields as the TypeScript or JavaScript class. The contract of a method that
is a step says that it does exactly the step of the functions, and keeps the invariant;
methods that are parts of a step say the same of their part.

| files | component |
|---|---|
| ZoneLock, PendingChanges, StoreRefinement, Leftovers, SignalProtocolStore | `withZone`: a re-entrant lock with a queue, over a write-behind buffer with commit and revert |
| ContactIdentity, ContactOutcome, Lookups, Conversations, ConversationController | `maybeMergeContacts`: which conversation an ACI, a phone number and a PNI lead to |
| Combining, GroupConflicts, ConversationCombiner, ContactRuns | combining conversations, resolving group conflicts, and both together with identity resolution over time |
| ChallengeStarts, CaptchaSolves, Challenge, ChallengeHandler | registrations that wait for a retry, their timers, and captchas being solved |
| IdentityKeys, IdentityKeyStore | the identity key of a contact and its verification status |
| SqlKey, UserConfig | the database key over any number of application starts |
| AxisLabels, Graph | label layout on a graph axis |
| WavFormat, Recorder | recording and WAV export |
| Resampling, DataSeries | resampling a series of points |
| CryptoFraming, CryptoLoops | how ciphertexts, MACs and padding are put together and taken apart |

## What the proofs found

Each of these is a theorem. Where a promise fails there is the exact condition under which
it holds, for all inputs, and an input where it fails.

- A caller that enters a zone while the only other holder awaits its commit can return
  normally and leave its write buffered when the zone is released; the next failure at
  depth one in any zone discards it (`ReleasedDirtyExactlyWhen`,
  `OverlappingCallLeavesItsWrite`, `NextFailureRevertsLeftovers`). The comment above
  `withZone` says that a transaction that ends successfully is written. Released without
  buffered changes, the zone leaves nothing behind: all that was written is in the database
  (`ReleasedCleanIsCommitted`).
- A rejected commit keeps its zone for ever (`StuckCallerBlocksForever`,
  `RejectedCommitSticks`), and the writes it drops are exactly those of keys in its batch
  that nothing later has written (`RejectedCommitDropsItsBatch`).
- A read can miss the newest write exactly while that write is in flight (`ReadSeesLatest`);
  the first write of all is missed in this way (`FirstWriteIsMissed`).
- `maybeMergeContacts` loses the PNI it is given exactly when an ACI without a match is given
  with it, the match of the PNI has it in the `serviceId` slot and another one in its PNI
  slot, and no phone number is given or it leads to the same match (`PniLost` in
  `MergeContactsIsRight`). No collection in which nobody has two PNIs comes to that, but two
  calls can (`TwoPnisHappen`, `PniIsLost`). It is the only identifier a call can lose, and
  the only reason why a second call with the same identifiers changes anything
  (`MergeContactsIsIdempotent`).
- A phone number that nobody has replaces the one of the match of the ACI, and of the match
  of the PNI if an ACI that nobody has fits there; where no ACI is given, the match of the PNI
  keeps its number and a new contact is made (`NumbersChangeExactlyWhen`). What a call leaves,
  slot by slot, is `MergeContactsExactly`.
- One match can be handed to the merge twice, exactly when it is the match of the phone
  number and of the PNI, the ACI has another match, and it has no ACI, nor a third PNI in
  the `serviceId` slot (`PassedTwiceExactlyWhen`, `HandedOverTwice`); the second combine then
  does nothing.
- From collections in which a PNI may sit in the `serviceId` slot alone, a conversation can
  end up with two PNIs, or without the PNI in its own slot (`CoherenceKeptExactlyWhen`,
  `TwoPnisHappen`, `PniSlotExactlyWhen`, `PniSlotStaysEmpty`). Neither happens from a
  well-formed collection (`MergeContactsKeepsWellFormed`).
- A single combine strands messages exactly when the conversation to keep is no longer in
  the collection or is the obsolete one (`MessagesLiveExactlyWhen`, `StrandedMessage`); in
  runs of `maybeMergeContacts` that never happens (`QueueKeepsPresent`).
- Of several conversations of one group the least recently active one is kept, with V2 groups
  before V1 groups; it is the most recently active one exactly when all of them were active at
  the same time (`LeastActiveIsKept`, `OlderOneStays`). The comment in `#doCheckForConflicts`
  says that the most recently active one is kept; the collection is sorted latest first, the
  loop runs from its end, and the conversation met first stays. Its activity becomes the
  latest of all.
- A `register` that resumes after its conversation was unregistered leaves a timer or a
  put-off start, or starts a queue, for a conversation that is not registered: the one step
  that breaks what is promised of that conversation, and exactly when
  (`ResumedRegisterIsRightExactlyWhen`, `LateRegisterLeavesTimer`). One registration then
  causes two starts; in every run the surplus is exactly the number of starts made while not
  registered (`OneStartPerRegistration`, `LateRegisterStartsTwice`).
- A start put off until the app is online is forgotten unless the challenge itself has a retry
  time that has passed (`PutOffStartHappensExactlyWhen`, `SolvedOfflineIsForgotten`), although
  `onOnline` logs it as started.
- The cached values of a data series can be stale after points were added; exactly when they
  are not is `CachedValuesRightExactlyWhen`, and `StaleValues` is a sequence of calls in which
  they are.
- An attachment digest is compared over its own length only (`AcceptedDigests`,
  `CutDigestAccepted`).
- Empty profile data cannot be decrypted again, and a family name without a given name comes
  back as the given name (`ProfileRoundTripExactlyWhen`, `NameComesBackExactlyWhen`).
- A graph can have one label more than its maximum, exactly when rounding both ends outwards
  costs a step that there is no room for (`AllowedCountExactlyWhen`, `OneTooMany`); never when
  the values start or end at zero.

## Model

| member | source | states |
|---|---|---|
| ZoneLock.StepKeepsInv | ts/SignalProtocolStore.ts:1108-1289 | every step of every caller keeps: all callers inside share the current zone, depth is their number, the zone is unset exactly at depth zero, a non-empty queue means its head wants another zone, and queue order and contents match the callers that wait |
| ZoneLock.StepKeepsOneFinisher | ts/SignalProtocolStore.ts:1141-1155 | at most one caller at a time awaits the commit or revert of the outermost level |
| ZoneLock.EveryRunKeepsInv | ts/SignalProtocolStore.ts:1108-1289 | both of the above hold in every state of every interleaving |
| ZoneLock.ReleaseWakesPrefix | ts/SignalProtocolStore.ts:1246-1288 | when the last holder leaves, exactly the maximal prefix of the queue with the head's zone enters it, in order, and nobody else moves |
| ZoneLock.CallEntersExactlyWhen | ts/SignalProtocolStore.ts:1115-1141 | a call enters at once exactly when the zone is free or its own, at every depth and with whatever queue; otherwise it is the last to wait; nobody else moves |
| ZoneLock.NestedCallEnters | ts/SignalProtocolStore.ts:1115-1141 | a call from inside a body for the same zone never waits |
| ZoneLock.OnlyTheLastSettles | ts/SignalProtocolStore.ts:1141-1158 | a caller that ends while others are inside leaves alone; only the last one commits or reverts first, and stays inside for ever if its commit is rejected |
| ZoneLock.RunCallbacksEnter | ts/SignalProtocolStore.ts:1118-1131 | running callbacks that want one zone lets each enter it, in order, and queues none again, when the store is free or already in that zone |
| ZoneLock.FinishingStepDecreases | ts/SignalProtocolStore.ts:1141-1155 | each step that ends a body or a commit decreases (queue length, depth, running bodies) lexicographically, and with it a bound on the steps still to come |
| ZoneLock.FinishingRunsServeEveryone | ts/SignalProtocolStore.ts:1108-1289 | such runs are bounded, and when none can go on every callback was called exactly once in queue order and every caller has left |
| ZoneLock.QuiescentIsFree | ts/SignalProtocolStore.ts:1234-1289 | when no step is left the zone is free and nobody waits |
| ZoneLock.StuckCallerBlocksForever | ts/SignalProtocolStore.ts:1152-1155 | after a rejected commit the zone stays current and no waiter is ever called, whatever follows |
| ZoneLock.RejectedCommitSticks | ts/SignalProtocolStore.ts:1152-1155 | a run of three steps that gets there |
| PendingChanges.EveryStoreRunKeepsInv | ts/SignalProtocolStore.ts:1108-1289 | over every run the caches hold the committed rows, commits in flight belong to callers inside the zone, one each, and in a buffering zone only to one that has finished its body |
| StoreRefinement.EveryCallerCanGoOn | ts/SignalProtocolStore.ts:1108-1158 | whoever is inside and not stuck can go on: its body, the answer to the oldest write call, or leaving |
| StoreRefinement.PutStep | ts/SignalProtocolStore.ts:1351-1407 | a row of a kind the zone buffers is pending; any other starts one commit of all that is pending, for which its caller waits |
| StoreRefinement.PutIsLatest | ts/SignalProtocolStore.ts:1351-1407 | after a put the latest value of its key is the one written, and of every other key the one before |
| StoreRefinement.GetStep | ts/SignalProtocolStore.ts:1291-1334 | a get hydrates the cached entry it answers from, and changes nothing else |
| StoreRefinement.BodyEndsExactly | ts/SignalProtocolStore.ts:1141-1228 | the end of the last body moves all that is pending to the database, or drops it; entering, nested ends and leaving do not touch it |
| StoreRefinement.AnswerExactly | ts/SignalProtocolStore.ts:1160-1215 | an answered write call changes just the rows and cached entries of its batch; a caller past its body then leaves, or is stuck if it was rejected |
| StoreRefinement.StepRefinesSimple | ts/SignalProtocolStore.ts:1160-1228 | every step but a rejected commit is a step of one map with write, publish and rollback: hydration and commits change no answer, a nested failure reverts nothing, a failure at depth one discards exactly what was written since the last commit |
| StoreRefinement.RunRefinesSimple | ts/SignalProtocolStore.ts:1160-1228 | the refinement over whole runs |
| StoreRefinement.RejectedCommitDropsItsBatch | ts/SignalProtocolStore.ts:1160-1215 | after a rejected commit the latest value of each key is what it was if it is pending, written again by a later commit, or not in the batch, and the committed row otherwise; no read changes its answer |
| StoreRefinement.ReadSeesLatest | ts/SignalProtocolStore.ts:1291-1334 | a session read gives the latest write if and only if that write is buffered, or none of its key is in flight, or the one in flight equals the row; always when nothing is in flight |
| StoreRefinement.ReadSenderKeySeesLatest | ts/SignalProtocolStore.ts:922-970 | the same for sender keys |
| StoreRefinement.FlushedWriteIsMissed | ts/SignalProtocolStore.ts:1395-1400 | a put that its zone does not buffer is read as the committed row until the database has answered |
| StoreRefinement.FirstWriteIsMissed | ts/SignalProtocolStore.ts:1395-1400 | a run of two steps that reaches such a read |
| StoreRefinement.GetAnswersLatest | ts/SignalProtocolStore.ts:1291-1334 | what a get returns is what the store holds after the get has hydrated the entry |
| StoreRefinement.BufferedZoneOneCommit | ts/SignalProtocolStore.ts:1152-1215 | in a zone that buffers everything at most one commit is in flight, and it is that of a caller whose body has returned |
| StoreRefinement.BufferedZoneCommitsWhole | ts/SignalProtocolStore.ts:1160-1215 | there rows and cached values change only by whole commits of a caller whose body has returned |
| StoreRefinement.CommitPublishesAllWrites | ts/SignalProtocolStore.ts:1152-1215 | the commit of the last holder, in any zone, publishes all that was written when its body returned |
| Leftovers.LeftoversAfterSettling | ts/SignalProtocolStore.ts:1152-1155 | while a caller awaits its commit others never commit for it; changes are left exactly when the last put was one the zone buffers |
| Leftovers.ReleasedDirtyExactlyWhen | ts/SignalProtocolStore.ts:1246-1261 | the zone is released with buffered changes if and only if the last put made during the final await was one the zone buffers |
| Leftovers.ReleasedCleanIsCommitted | ts/SignalProtocolStore.ts:1152-1261 | a zone released without buffered changes leaves nothing in flight either: the database holds the latest value of every key, and, but for rejected writes, that is every put made before the final await or during it, by whatever caller |
| Leftovers.NextFailureRevertsLeftovers | ts/SignalProtocolStore.ts:1217-1228 | such changes are lost when the next caller fails at depth one |
| Leftovers.OverlappingCallLeavesItsWrite | ts/SignalProtocolStore.ts:1108-1158 | from every state in which one caller alone is inside and awaits its commit, an overlapping call can write anything the zone buffers, return normally, and leave its write uncommitted when the zone is released |
| SignalProtocolStores.SignalProtocolStore.WithZone | ts/SignalProtocolStore.ts:1108-1139 | a call either queues its callback or enters, as the lock step says |
| SignalProtocolStores.SignalProtocolStore.EnterZone | ts/SignalProtocolStore.ts:1234-1244 | the lock after entering |
| SignalProtocolStores.SignalProtocolStore.LeaveZone | ts/SignalProtocolStore.ts:1246-1289 | the loops that drain the queue and run the callbacks compute the release of the maximal same-zone prefix |
| SignalProtocolStores.SignalProtocolStore.CommitZoneChanges | ts/SignalProtocolStore.ts:1160-1215 | the pending maps are swapped out and become one write in flight, or nothing if they are empty |
| SignalProtocolStores.SignalProtocolStore.RevertZoneChanges | ts/SignalProtocolStore.ts:1217-1228 | all pending maps are emptied, the rest stays |
| SignalProtocolStores.SignalProtocolStore.FinishBody | ts/SignalProtocolStore.ts:1141-1154 | a body that ends takes the step of the transition system and keeps its invariant |
| SignalProtocolStores.SignalProtocolStore.BodyCommitCompleted | ts/SignalProtocolStore.ts:1397-1400 | the write of a put that its zone does not buffer completes: rows and caches get the batch |
| SignalProtocolStores.SignalProtocolStore.ZoneCommitCompleted | ts/SignalProtocolStore.ts:1152-1155 | the commit of a zone completes and the caller leaves |
| SignalProtocolStores.SignalProtocolStore.StoreSession | ts/SignalProtocolStore.ts:1351-1407 | the put step for sessions |
| SignalProtocolStores.SignalProtocolStore.SaveSenderKey | ts/SignalProtocolStore.ts:879-920 | the put step for sender keys |
| SignalProtocolStores.SignalProtocolStore.AddUnprocessed | ts/SignalProtocolStore.ts:2427-2439 | the put step for unprocessed messages |
| SignalProtocolStores.SignalProtocolStore.LoadSession | ts/SignalProtocolStore.ts:1291-1334 | returns the buffered or cached value, hydrates the cached entry, and answers with the latest write when nothing is in flight |
| SignalProtocolStores.SignalProtocolStore.GetSenderKey | ts/SignalProtocolStore.ts:922-970 | the same for sender keys |
| SignalProtocolStores.SignalProtocolStore.GetAllSessions | ts/SignalProtocolStore.ts:2696-2707 | the union of cached and buffered sessions is the latest state when nothing is in flight |
| ContactIdentity.MergeContactsIsRight | ts/ConversationController.ts:476-766 | from every collection in which no ACI, phone number or PNI is shared, for all inputs and matches: the result holds the ACI and the phone number passed in, and the PNI if and only if it is not lost (never where nobody has two PNIs); no identifier is shared, no ACI is dropped or moved, only matches without identifiers left are handed over as obsolete and all that lost their last one are, and nobody else changes |
| ContactOutcome.MergeContactsExactly | ts/ConversationController.ts:476-766 | for every collection, without any invariant: which conversation is the result or that a new one is, each slot it then has, what is left of the other matches, that nobody else changes, and which merges are asked for in which order |
| ContactOutcome.NumbersChangeExactlyWhen | ts/ConversationController.ts:580-702 | exactly whose phone number is replaced, lost, or added |
| ContactIdentity.PniIsLost | ts/ConversationController.ts:57-103 | the contact that the input of `TwoPnisHappen` ends as, and inputs with which its PNI is lost |
| ContactIdentity.MergeContactsKeepsWellFormed | ts/ConversationController.ts:476-766 | well-formedness is kept, and each identifier sits in its own slot of the result |
| ContactIdentity.MergeContactsIsIdempotent | ts/ConversationController.ts:533-766 | from every collection without shared identifiers, a second call with the same identifiers returns the same conversation, changes no field and asks for no merge, if and only if the first call did not lose the PNI |
| ContactIdentity.PassedTwiceExactlyWhen | ts/ConversationController.ts:580-702 | from every collection without shared identifiers: exactly when one match is handed over as obsolete twice |
| ContactIdentity.PniSlotExactlyWhen | ts/ConversationController.ts:641-712 | from every collection without shared identifiers: exactly when the PNI slot of the result stays empty, and exactly when another PNI stays in it |
| ContactIdentity.CoherenceKeptExactlyWhen | ts/ConversationController.ts:57-103 | exactly when a conversation ends up with two different PNIs |
| ContactIdentity.HandedOverTwice | ts/ConversationController.ts:580-702 | a well-formed collection and inputs with which a match is handed over twice |
| ContactIdentity.TwoPnisHappen | ts/ConversationController.ts:57-103 | a contact made from a PNI and given a phone number, inputs that leave it with two PNIs, and what it then is |
| ContactIdentity.PniSlotStaysEmpty | ts/ConversationController.ts:714-723 | a contact made from a PNI whose PNI slot a call with that PNI leaves empty |
| ContactIdentity.StageAfterTurns | ts/ConversationController.ts:556-724 | the invariant between the turns of the loop over the matches |
| Lookups.FindIsMatch | ts/models/conversations.ts:6008-6017 | with exact tables a lookup finds the holder of an identifier, in whichever slot, or nothing if there is none |
| Lookups.UpdatedIsExact | ts/models/conversations.ts:5862-5899 | the handler of an identifier change keeps the tables exact as long as no identifier is shared |
| Lookups.AddedIsExact | ts/models/conversations.ts:5906-5948 | so does adding a conversation |
| Lookups.ChangeInSteps | ts/ConversationController.ts:92-100 | a change is made field by field, and every state on the way is free of shared identifiers too |
| Conversations.ConversationCollection.Get | ts/models/conversations.ts:6008-6017 | returns the holder, or nothing exactly when there is none |
| Conversations.ConversationCollection.UpdateServiceId | ts/models/conversations.ts:2092-2114 | the new service id and tables, whatever it is; they are exact, and no identifier is shared, if nobody else holds it |
| Conversations.ConversationCollection.UpdateE164 | ts/models/conversations.ts:2074-2090 | the same for the phone number |
| Conversations.ConversationCollection.UpdatePni | ts/models/conversations.ts:2140-2215 | the same for the PNI |
| ConversationControllers.ConversationController.ApplyChangeToConversation | ts/ConversationController.ts:57-103 | the rules that clear or move the PNI along, as a function of the identity and the change; the collection stays valid if nobody else holds the new identifiers |
| ConversationControllers.ConversationController.PlaceUnusedMatches | ts/ConversationController.ts:580-639 | the loop over unused matches computes the placement of all of them |
| ConversationControllers.ConversationController.TakeFrom | ts/ConversationController.ts:641-723 | clearing a match, giving to the target, and the decision to merge |
| ConversationControllers.ConversationController.MergeMatches | ts/ConversationController.ts:556-724 | the loop over the matches, on live objects, computes the state after all turns |
| ConversationControllers.ConversationController.MaybeMergeContacts | ts/ConversationController.ts:476-766 | throws exactly when nothing is provided, and else leaves the collection, result and merges of the function the lemmas are about |
| Combining.MessagesLiveExactlyWhen | ts/ConversationController.ts:1037-1057 | a combine leaves messages with a removed conversation if and only if it goes through, there are messages, and the one to keep is gone or is the obsolete one |
| Combining.CombineExactly | ts/ConversationController.ts:1037-1224 | a combine of two different conversations does nothing exactly when the obsolete one is gone or just one of them is a group; otherwise that one is removed, its messages are moved, the other one has the later activity, the higher timer version, the shorter timer and the missing attributes, and nobody else changes |
| Combining.StrandedMessage | ts/ConversationController.ts:1037-1057 | two combines after which a message is with a removed conversation |
| Combining.CombinesConserveMessages | ts/ConversationController.ts:1037-1224 | over any run no message is lost, none belongs to a removed conversation, each is where its conversation went |
| Combining.SurvivorsCombineTheirMembers | ts/ConversationController.ts:1064-1126 | a survivor has the latest activity, the highest timer version, the smallest timer set, and the copied attributes, over all that became part of it |
| Combining.OrderDoesNotMatter | ts/ConversationController.ts:1064-1090 | two runs that bring the same conversations together agree on those values |
| Combining.RepeatingDoesNothing | ts/ConversationController.ts:1044-1057 | a combine made before changes nothing when made again at any later time |
| GroupConflicts.SurvivorsWithOneMore | ts/ConversationController.ts:980-1024 | what one more conversation in front does to those that stay |
| GroupConflicts.OneConversationPerGroup | ts/ConversationController.ts:848-1027 | after all conflicts one conversation is left per group id, a V2 group whenever any was, holding everything of the others; conversations that are no groups stay |
| GroupConflicts.StaysExactlyWhen | ts/ConversationController.ts:978-1024 | which conversations stay: of the V2 groups of an id the one met first, of the V1 groups likewise if there is no V2 group, and all that are no group |
| GroupConflicts.OneOfEachGroupStays | ts/ConversationController.ts:978-1024 | no two conversations of one group stay, derived ids included; each group keeps one, V2 if it had any |
| GroupConflicts.LeastActiveIsKept | ts/ConversationController.ts:854-865 | in a collection sorted by activity, latest first, the conversation kept is the least recently active of its kind in the group, and the most recently active if and only if all were active at the same time |
| GroupConflicts.OlderOneStays | ts/ConversationController.ts:854-865 | two conversations of a group of which the strictly older one stays |
| ConversationCombiners.ConversationCombiner.DoCombineConversations | ts/ConversationController.ts:1037-1224 | the whole new state of one combine: attributes, collection and messages, for private conversations and groups |
| ConversationCombiners.ConversationCombiner.CopyData | ts/ConversationController.ts:1094-1126 | the loop over the copied keys: existing values win, moved draft attachments leave the obsolete conversation |
| ConversationCombiners.ConversationCombiner.CheckForConflicts | ts/ConversationController.ts:856-1024 | the backward loop, over the array it splices, combines within groups only and ends with exactly the preferred conversation of each group, in order |
| ContactRuns.ResolveKeepsInv | ts/ConversationController.ts:476-766 | a call keeps the collection sound and the queue of combines safe |
| ContactRuns.CombineNextKeepsInv | ts/ConversationController.ts:1029-1224 | so does a turn of the queue, which loses no message |
| ContactRuns.EveryRunKeepsInv | ts/ConversationController.ts:476-1224 | over any interleaving of calls, queued combines and arriving messages, from every collection without shared identifiers: contacts stay unique, and well formed if they were, no message is lost or stranded, no contact with an ACI is ever removed |
| ContactRuns.QueueKeepsPresent | ts/ConversationController.ts:1029-1036 | every queued combine keeps a conversation that is in the collection when its turn comes |
| ContactRuns.DrainedQueueGathersMessages | ts/ConversationController.ts:1029-1224 | when the queue has drained every message is with the contact its own became part of |
| ContactRuns.DrainedQueueDissolves | ts/ConversationController.ts:1029-1224 | and just the conversations that were to be dissolved are gone |
| ContactRuns.EmptiedAreDissolved | ts/ConversationController.ts:476-1224 | a contact that has lost all identifiers is waiting to be dissolved, in every state of every run |
| ContactRuns.QueueCanGoOn | ts/ConversationController.ts:1029-1036 | the next queued combine can always be made |
| CaptchaSolves.StartSolveKeepsInv | ts/challenge.ts:400-405 | starting a solve keeps: the counter is the number of solves in flight, a set token is that of the last solve to start, which still awaits its captcha, an unset one was sent, no assignment is sent twice, no handler resolved twice |
| CaptchaSolves.ResponseKeepsInv | ts/challenge.ts:310-318 | a response keeps it and resolves a handler at most once |
| CaptchaSolves.ResumeKeepsInv | ts/challenge.ts:405-425 | going on with a captcha keeps it: the token is taken, by whichever solve comes first, or the solve ends |
| CaptchaSolves.FinishKeepsInv | ts/challenge.ts:426-462 | ending a solve keeps it |
| CaptchaSolves.StartSolveExactly | ts/challenge.ts:400-405 | a solve that starts replaces the token and asks under a new number |
| CaptchaSolves.ResponseExactly | ts/challenge.ts:310-318 | a response reaches just the one that asked under its number |
| CaptchaSolves.ResumeExactly | ts/challenge.ts:407-425 | the first solve with a captcha sends the token of the last one to start, the others end |
| ChallengeStarts.StartRightExactlyWhen | ts/challenge.ts:384-398 | starting a queue keeps what is promised of every conversation if and only if the one started is registered |
| ChallengeStarts.ScheduleRightExactlyWhen | ts/challenge.ts:214-237 | so does setting a timer |
| ChallengeStarts.ScheduleExactly | ts/challenge.ts:214-237 | the new timer is due at the retry time or at once, the old one is gone, others stay |
| ChallengeStarts.StartExactly | ts/challenge.ts:384-390 | offline the start is put off; online the conversation, its timer and its put-off start are removed, stored, and it is on its way |
| ChallengeStarts.DropExactly | ts/challenge.ts:320-335 | the same removal without a start |
| ChallengeStarts.FiringStarts | ts/challenge.ts:225-231 | a timer that fires is gone, ends the rate limit, and starts or puts off its queue |
| ChallengeStarts.RegisterExactly | ts/challenge.ts:255-268 | a first `register` remembers and stores its challenge; any other does nothing |
| ChallengeStarts.StartEachStarts | ts/challenge.ts:372-382 | starting several: all unregistered and started when online, all put off when offline |
| ChallengeStarts.OnlineStartsMatured | ts/challenge.ts:183-193 | going online starts exactly the registrations with a retry time above zero and not in the future, once each, and removes their timers; no such registration stays |
| ChallengeStarts.PutOffStartHappensExactlyWhen | ts/challenge.ts:183-193 | from any state, exactly which put-off starts happen then |
| ChallengeStarts.AllWaitAfterFailure | ts/challenge.ts:239-253 | after a refused captcha the rate limit and every registration have the new retry time, with a timer that is due then or at once; nothing is put off or started |
| ChallengeStarts.ResumedRegisterIsRightExactlyWhen | ts/challenge.ts:268-308 | a `register` that goes on keeps what is promised of a conversation if and only if it is one of another, or that one is registered, or there is nothing to start or wait for |
| ChallengeStarts.ResumeStartsMatured | ts/challenge.ts:270-275 | a `register` that goes on with a retry time that is set and not in the future starts or puts off its queue |
| ChallengeStarts.ResumeWaitsExactly | ts/challenge.ts:277-287 | any other waits until the end of the rate limit if there is one, else until its own retry time if it has one, else has no timer |
| ChallengeStarts.CaptchaShownExactlyWhen | ts/challenge.ts:289-308 | exactly when it asks for a captcha, and for which token |
| Challenge.StepKeepsTimers | ts/challenge.ts:144-398 | every step, without condition, keeps at most one running timer for each conversation and the stored ids equal to the registered ones |
| Challenge.StepKeepsConversation | ts/challenge.ts:144-398 | a step keeps what is promised of one conversation if and only if it is no `register` of it that resumes too late |
| Challenge.LoadExactly | ts/challenge.ts:144-175 | loading registers exactly the conversations with a challenge that has not expired, each with the first such one |
| Challenge.MaybeSolveExactly | ts/challenge.ts:195-212 | a solve starts exactly when none is in flight, there is no rate limit, and the conversation is registered with a token |
| Challenge.RegisterSolvesExactly | ts/challenge.ts:289-308 | when a `register` that goes on starts a solve |
| Challenge.SendEndsExactly | ts/challenge.ts:417-469 | an accepted captcha starts, or puts off, every registration; a refused one makes all wait; either way the solve ends |
| Challenge.WhatAwaitsCanGoOn | ts/challenge.ts:214-237 | a timer can fire from when it is due, and each call that awaits something can go on once it is there |
| Challenge.OfflineAndStarted | ts/challenge.ts:177-181 | going offline, the end of a start, and loading twice |
| Challenge.EveryRunKeepsTimers | ts/challenge.ts:144-398 | one timer each and the right stored ids in every state of every run, without condition |
| Challenge.EveryRunKeepsSolves | ts/challenge.ts:310-469 | the invariant of solves over every run, without any condition |
| Challenge.EveryRunKeepsStarts | ts/challenge.ts:144-398 | a conversation has timers and put-off starts only while registered, and each of its registrations is accounted for, over every run in which none of its own `register` calls resumes too late, whatever happens to others |
| Challenge.OneStartPerRegistration | ts/challenge.ts:384-398 | over every run, each registration of a conversation is still there, or was dropped, or caused one start, up to exactly the number of starts made while it was not registered; there are none if no `register` of it resumes too late |
| Challenge.LateRegisterStartsTwice | ts/challenge.ts:255-275 | a run in which one registration causes two starts |
| Challenge.LateRegisterLeavesTimer | ts/challenge.ts:255-284 | a run that leaves a timer for a conversation that is not registered |
| Challenge.SolvedOfflineIsForgotten | ts/challenge.ts:183-193 | a run in which going online forgets the start of a solved challenge |
| ChallengeHandlers.ChallengeHandler.ScheduleRetry | ts/challenge.ts:214-237 | the timer it replaces is cleared, and the new one is due at the later of now and the retry time |
| ChallengeHandlers.ChallengeHandler.TimerFires | ts/challenge.ts:225-231 | the timer step: entry and rate limit cleared, queue started or put off |
| ChallengeHandlers.ChallengeHandler.ForceWaitOnAll | ts/challenge.ts:239-253 | the loop over all registrations, in whatever order |
| ChallengeHandlers.ChallengeHandler.RegisterCall | ts/challenge.ts:255-268 | the step of `register` up to its await, and the invariants kept |
| ChallengeHandlers.ChallengeHandler.RegisterResumes | ts/challenge.ts:270-308 | the step of `register` after its await, with the captcha it may show; what is promised of its conversation is kept if it is not too late |
| ChallengeHandlers.ChallengeHandler.Load | ts/challenge.ts:144-175 | registers all stored challenges that have not expired, once |
| ChallengeHandlers.ChallengeHandler.UnregisterCall | ts/challenge.ts:320-335 | the whole new state |
| ChallengeHandlers.ChallengeHandler.StartQueue | ts/challenge.ts:384-390 | put off when offline, else unregistered and on its way |
| ChallengeHandlers.ChallengeHandler.QueueStarts | ts/challenge.ts:390-397 | the step after its await |
| ChallengeHandlers.ChallengeHandler.OnOnline | ts/challenge.ts:183-193 | the step of going online |
| ChallengeHandlers.ChallengeHandler.MaybeSolve | ts/challenge.ts:195-212 | all four guards |
| ChallengeHandlers.ChallengeHandler.OnResponse | ts/challenge.ts:310-318 | the response step, and the invariants kept |
| ChallengeHandlers.ChallengeHandler.CaptchaRequest | ts/challenge.ts:337-351 | a request from outside gets the next number |
| ChallengeHandlers.ChallengeHandler.SolveResumes | ts/challenge.ts:405-425 | the step after the captcha, and the token it sends |
| ChallengeHandlers.ChallengeHandler.SendSucceeds | ts/challenge.ts:460-469 | all registrations are started |
| ChallengeHandlers.ChallengeHandler.SendFails | ts/challenge.ts:426-462 | all registrations wait |
| IdentityKeys.VerifiedKeyWasVerified | ts/SignalProtocolStore.ts:1982-2359 | over any run, with or without failing writes: a VERIFIED record holds a key that some operation verified, unchanged since |
| IdentityKeys.ReplacingKeyUnverifies | ts/SignalProtocolStore.ts:2037-2099 | exactly when a save replaces the key, and that it makes the contact unverified exactly when it was verified or unverified |
| IdentityKeys.VerifiedThenReplaced | ts/SignalProtocolStore.ts:2055-2085 | a run of three operations that gets there |
| IdentityKeys.UnverifiedUntilDecision | ts/SignalProtocolStore.ts:1882-1931 | from then on no key is trusted for sending at any time, until the next setVerified or sync |
| IdentityKeys.ReplacedKeyIsTrustedExactlyWhen | ts/SignalProtocolStore.ts:2115-2121 | which key is trusted after a replacement, and from when |
| IdentityKeys.OwnKeyStays | ts/SignalProtocolStore.ts:2046-2054 | our own key is replaced by no save |
| IdentityKeys.EveryRunKeepsCache | ts/SignalProtocolStore.ts:1967-1979 | cache and database agree over any run, but for an approval whose write failed |
| IdentityKeys.CacheLeftAheadExactlyWhen | ts/SignalProtocolStore.ts:2100-2107 | exactly when an operation leaves the cache ahead of the database |
| IdentityKeys.SyncSettles | ts/SignalProtocolStore.ts:2286-2359 | a sync leaves its key and status, and asks for a notification exactly when it turns VERIFIED on or off |
| IdentityKeys.FirstSaveExactly | ts/SignalProtocolStore.ts:2017-2038 | the record of a first key, and the check against the key the contact had before |
| IdentityKeys.LaterSaveExactly | ts/SignalProtocolStore.ts:2040-2112 | when a later save replaces the key, renews an approval, or does nothing, and the record it leaves |
| IdentityKeys.ApprovalExactly | ts/SignalProtocolStore.ts:2168-2194 | approval changes one flag, in the cache even when the write fails |
| IdentityKeys.VerificationExactly | ts/SignalProtocolStore.ts:2198-2231 | when a verification throws, and what it changes for each status |
| IdentityKeys.SyncExactly | ts/SignalProtocolStore.ts:2286-2359 | when a sync throws, when it writes nothing, the record it leaves otherwise, and its key change events |
| IdentityKeys.TrustedExactlyWhen | ts/SignalProtocolStore.ts:1882-1931 | which keys are trusted for sending, with a record, without one, and without a key |
| IdentityKeyStores.IdentityKeyStore.SaveIdentity | ts/SignalProtocolStore.ts:1982-2112 | the save step and its answer, for one contact, others untouched |
| IdentityKeyStores.IdentityKeyStore.SetApproval | ts/SignalProtocolStore.ts:2168-2194 | the approval step |
| IdentityKeyStores.IdentityKeyStore.SetVerified | ts/SignalProtocolStore.ts:2198-2231 | the verification step, and all its ways to throw |
| IdentityKeyStores.IdentityKeyStore.UpdateIdentityAfterSync | ts/SignalProtocolStore.ts:2286-2359 | the sync step and its answer |
| IdentityKeyStores.IdentityKeyStore.CheckPreviousKey | ts/SignalProtocolStore.ts:2254-2281 | a key change is reported exactly when the saved previous key differs, and the saved key is cleared |
| IdentityKeyStores.IdentityKeyStore.IsTrustedForSending | ts/SignalProtocolStore.ts:1882-1931 | the chain of checks computes the predicate of the lemmas |
| SqlKey.StartKeepsKey | app/main.ts:1650-1739 | wherever a start is cut short between config writes, a key on disk stays, and a key is only returned when it is on disk |
| SqlKey.ThrowsExactlyWhen | app/main.ts:1669-1687 | exactly when a start throws, and that it then writes nothing |
| SqlKey.EncryptionIsAdopted | app/main.ts:1721-1732 | a start that returns where encryption is available leaves the encrypted key and no plain one |
| SqlKey.ReturnedExactly | app/main.ts:1689-1739 | which key a start returns, how many writes it needs, what each of them leaves, and when it saves which backend |
| SqlKey.SameEnvironmentReturnsAgain | app/main.ts:1650-1739 | after a start that returned, a start in the same environment never throws and returns the same key |
| SqlKey.LaterStartThrowsExactlyWhen | app/main.ts:1669-1687 | after the key was encrypted, exactly which environments make a later start throw |
| SqlKey.LaterStartsReturnTheKey | app/main.ts:1650-1739 | once a key is on disk every later start throws, is cut short, or returns it, whatever encryption and backend it finds |
| SqlKey.AllStartsAgree | app/main.ts:1650-1739 | no two starts of any sequence return different keys |
| SqlKey.FirstStartLeavesKey | app/main.ts:1711-1738 | from an empty config a start never throws, and leaves its new key as soon as it makes one write |
| SqlKey.FirstKeyForEver | app/main.ts:1650-1739 | from an empty config every start that returns gives the key of the first start that wrote anything |
| UserConfigs.UserConfig.Set | app/base_config.ts:68-90 | one atomic write of disk and cache, or nothing |
| UserConfigs.UserConfig.GetSQLKey | app/main.ts:1650-1739 | the branches and ordered writes leave the disk and give the outcome of the start function |
| AxisLabels.TenfoldNeedsFewer | js/calling-tools/timeline_graph_view.js:435-462 | why the search for a step ends |
| AxisLabels.MaxLabels | js/calling-tools/timeline_graph_view.js:416-427 | how many labels there is room for, at least two and at most six |
| AxisLabels.AllowedCountExactlyWhen | js/calling-tools/timeline_graph_view.js:416-471 | there are no more labels than allowed if and only if rounding both ends outwards costs no step, or there is room for it; always when the values start or end at zero |
| AxisLabels.OneTooMany | js/calling-tools/timeline_graph_view.js:464-471 | the interval from -2.5 to 2.5 has seven labels where six are allowed |
| Graphs.Graph.PickStep | js/calling-tools/timeline_graph_view.js:429-462 | the search ends with the smallest step of the 1-2-5 sequence that fits, and enough digits for it |
| Graphs.Graph.LayoutLabelsBasic | js/calling-tools/timeline_graph_view.js:407-472 | labels at exact multiples of that step, equally spaced, covering the values with less than a step to spare, their exact number, at most one more than allowed and exactly when, none rounded, with as few digits as the step needs |
| Graphs.Graph.LayoutLabels | js/calling-tools/timeline_graph_view.js:370-400 | the smallest unit for the range, and limits that still cover the values after the conversion back |
| WavFormat.FrameReadsBack | components/recorderjs/recorderWorker.js:69-131 | frame k of the file decodes to the clamped 16-bit values of the k-th left and right samples |
| WavFormat.FilePlays | components/recorderjs/recorderWorker.js:69-131 | so does every frame |
| WavFormat.Pcm16Exactly | components/recorderjs/recorderWorker.js:84-89 | the 16-bit value of a sample, on both sides of zero and beyond full scale |
| WavFormat.ChunkNames | components/recorderjs/recorderWorker.js:101-125 | the four names in the header and the size of the format chunk |
| WavFormat.SizesRightExactlyWhen | components/recorderjs/recorderWorker.js:101-125 | the sizes in the file are right if and only if they fit in 32 bits, and so are the rates; the format fields are always right |
| Recorders.Recorder.Record | components/recorderjs/recorderWorker.js:30-34 | each channel grows by what was recorded in it |
| Recorders.Recorder.Clear | components/recorderjs/recorderWorker.js:53-57 | and are empty afterwards |
| Recorders.Recorder.ExportWAV | components/recorderjs/recorderWorker.js:36-44 | the file reads back, frame by frame, as all samples recorded since the last clear, a short right channel filled up with silence; its sizes and rates are right exactly when they fit; it throws exactly when the right channel is longer |
| Recorders.MergeBuffers | components/recorderjs/recorderWorker.js:59-67 | the loop concatenates the buffers and leaves the rest zero, or throws exactly when they do not fit |
| Recorders.Interleave | components/recorderjs/recorderWorker.js:69-82 | the loop interleaves the channels |
| Recorders.FloatTo16BitPCM | components/recorderjs/recorderWorker.js:84-89 | the loop writes every sample from the offset on and leaves what is before and behind |
| Recorders.EncodeWAV | components/recorderjs/recorderWorker.js:97-131 | the writes by offset give header and data |
| Resampling.ResampledIsLastBefore | js/calling-tools/data_series.js:106-121 | the two-pointer walk gives at index i the value of the last point strictly before its time, or zero |
| Resampling.BufferedChronological | js/calling-tools/data_series.js:54-61 | dropping old points keeps the order |
| Resampling.BufferedExactly | js/calling-tools/data_series.js:54-61 | the buffer has the last points, at most 1000 |
| Resampling.CachedValuesRightExactlyWhen | js/calling-tools/data_series.js:87-101 | values computed before points were added, dropped or not, are those computed after if and only if the new points before each sampled time agree, and some old ones are still buffered |
| Resampling.OnePointMore | js/calling-tools/data_series.js:87-101 | for one point and none dropped: it is at or after each sampled time, or has the value that was there |
| DataSeries.TimelineDataSeries.AddPoint | js/calling-tools/data_series.js:54-61 | the buffer is the last 1000 points added |
| DataSeries.TimelineDataSeries.GetValues | js/calling-tools/data_series.js:87-101 | the values are those of the points buffered when they were computed, the present ones unless the arguments are those of the last call; and exactly when they are right for the present points, after any points added since |
| DataSeries.StaleValues | js/calling-tools/data_series.js:87-101 | a sequence of calls with a stale answer |
| DataSeries.TimelineDataSeries.GetValuesInternal | js/calling-tools/data_series.js:106-121 | the nested loops compute the walk |
| CryptoFraming.SymmetricRoundTrip | ts/Crypto.ts:236-287 | decryption undoes encryption, for any key, text and nonce |
| CryptoFraming.SymmetricAcceptsOnlyMacced | ts/Crypto.ts:255-287 | data is accepted only with the right MAC at its end, however short it is |
| CryptoFraming.SymmetricFormat | ts/Crypto.ts:236-253 | the nonce, the ciphertext and the first 16 bytes of the MAC, and the keys for both |
| CryptoFraming.SymmetricAcceptedExactlyWhen | ts/Crypto.ts:255-287 | which data is accepted, and as which text, exactly, down to data in which MAC and nonce overlap |
| CryptoFraming.AttachmentRoundTrip | ts/Crypto.ts:445-518 | an attachment comes back if and only if the digest given is accepted |
| CryptoFraming.AttachmentAcceptedExactlyWhen | ts/Crypto.ts:445-475 | which data is accepted as an attachment, exactly |
| CryptoFraming.AttachmentFormat | ts/Crypto.ts:477-518 | what is encrypted, and that keys of another length are refused |
| CryptoFraming.AcceptedDigests | ts/Crypto.ts:433-443 | which digests are accepted, exactly |
| CryptoFraming.CutDigestAccepted | ts/Crypto.ts:433-443 | our digest cut short anywhere is accepted |
| CryptoFraming.ProfileRoundTripExactlyWhen | ts/Crypto.ts:546-579 | profile data comes back if and only if it is not empty |
| CryptoFraming.ProfileAcceptedExactlyWhen | ts/Crypto.ts:546-579 | what is encrypted, and which data is accepted, exactly |
| CryptoFraming.FindLengthFits | ts/Crypto.ts:586-591 | a padded length is found exactly when one is long enough |
| CryptoFraming.PaddedExactlyWhen | ts/Crypto.ts:581-602 | an item is followed by zeros up to the first length that is enough, and refused if there is none |
| CryptoFraming.NamesExactly | ts/Crypto.ts:604-625 | the two names in any decrypted bytes |
| CryptoFraming.NameComesBackExactlyWhen | ts/Crypto.ts:604-625 | which names come back after padding, exactly |
| CryptoFraming.ProfileNameRoundTrip | ts/util/encryptProfileData.ts:36-42 | a name joined, padded and encrypted, then decrypted and split, comes back exactly when it has a given name or is empty |
| CryptoLoops.VerifyHmacSha256 | ts/Crypto.ts:298-318 | the OR of XORs accepts exactly the first bytes of our MAC at the required length |
| CryptoLoops.VerifyDigest | ts/Crypto.ts:433-443 | the loop accepts exactly the digests described above |
| CryptoLoops.TrimForDisplay | ts/Crypto.ts:423-431 | the bytes before the first zero |
| CryptoLoops.SplitName | ts/Crypto.ts:604-625 | the two loops compute the two names |
| CryptoLoops.PadItem | ts/Crypto.ts:586-593 | the search and the buffer give the item padded with zeros, or nothing when it is too long |

## Left out

Assumptions:

- The database answers write calls in the order they were made and one at a time, as its worker does, and one commit is one transaction; rows and caches get a batch in one step.
- Ids are never reused, zones are compared by identity, and a wall clock is an input.
- Cryptographic primitives are functions about which only lengths and inversion are assumed; decrypting in another context than the one a key was encrypted in is assumed to throw.
- Arithmetic of labels, samples and points is over real numbers; rounding of floating point is not modelled.

What is simpler than in the program:

- `archiveCurrentState` changes a hydrated session record in place; the stored bytes of a record are its value here, and libsignal records are not looked into.
- `hydrateCaches`, `removeAllData`, and the removal of sessions while a commit is in flight are not steps of the store.
- `getOrCreate` makes its object where it is needed; `maybeMergeContacts` is given one up front, which joins the collection only in the branches that create.
- ConversationControllers.ConversationController.MaybeMergeContacts: does not model `addPhoneNumberDiscoveryIfNeeded`, the titles kept for notifications, and the check that an incoming PNI with a signature belongs to the ACI.
- Conversations.ConversationCollection.Add: appends; the program's collection sorts itself by activity when something is added, which no lookup depends on.
- Conversations.ConversationCollection.Get: does not model lookups by group id, by conversation id, and by a phone number without its plus sign.
- ConversationCombiners.ConversationCombiner.DoCombineConversations: is one step, although it awaits; combines are serialized by a queue of their own, but other code can run in between. Profile keys, pins, V1 group members, sessions, storage service records and UI events are not part of it.
- ConversationCombiners.ConversationCombiner.CheckForConflicts: models the group part only, on a collection without conflicts between private conversations; those branches keep lookup entries of conversations that are already removed. The derived id of a V1 group is given.
- ChallengeHandlers.ChallengeHandler.RegisterCall: does not model the challenge status shown, and takes `load` to have happened.
- ChallengeHandlers.ChallengeHandler.ScheduleRetry: is called by the handler itself only.
- Challenge.EveryRunKeepsStarts: is about conversations none of whose own `register` calls resumes too late, because the invariant fails otherwise; `StepKeepsConversation` gives the condition for each step, and `EveryRunKeepsTimers` and `OneStartPerRegistration` have none.
- IdentityKeyStores.IdentityKeyStore.SaveIdentity: does not model the migration of records keyed by conversation, and the archiving of sibling sessions after a change.
- `removeIdentityKey` is not an operation of the model; after it a contact starts anew.
- UserConfigs.UserConfig.Set: models the config whose file system errors are thrown; a write that fails and a stop of the application are one outcome. `remove` deletes all data and is not a step.
- Recorders.Interleave: takes two channels of equal length; the worker merges both to the same length first.
- Resampling.ResampledIsLastBefore: is about points in chronological order, which `addPoint` takes for granted.
- Prekey stores, sender key distribution, streaming encryption of attachments, group changes, remote configuration, Electron windows, React, networking, SQL and logging.

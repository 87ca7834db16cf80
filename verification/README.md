# A verified model of the chain's client and tooling algorithms

This project models the parts of the repository that carry real algorithmic weight and proves what
they are for. `dafny verify dfyconfig.toml` checks the whole project.

**Subscriptions of the RPC client** (`Subscription*.dfy`). `Connection` keeps one record per topic
(pending, subscribing, subscribed, unsubscribing, unsubscribed), shares callback sets by reference
between a topic table and an index of server ids, counts connection generations and closes an idle
socket by timer. User calls, answers, late errors, socket events and notifications interleave freely.
- `SubscriptionModel` gives each handler as a function on the client's state; callback sets live in a
  small heap, so that sharing is explicit, and `order` keeps JavaScript's key order.
- `SubscriptionConnection` is the object itself. Its `UpdateSubscriptions` recurses from the middle of
  its own scan, as the source does; it is proved to end, and to equal one pass over the table.
- `SubscriptionSystem` adds the environment and the invariant; `SubscriptionFrame` and
  `SubscriptionInvariant` prove it for every run; `SubscriptionGuarantees` and `SubscriptionReconnect`
  draw the conclusions; `SubscriptionLimits` shows exactly where the protocol stops working;
  `SubscriptionEffects` and `SubscriptionIndex` say what each call and each socket event brings about.

**Blockhash cache and confirmation** (`BlockhashCache.dfy`, `Confirmation.dfy`): calls of the legacy
`sendTransaction` interleaved at their awaits, and the races between a status and an expiry watcher.

**Independent algorithms**: the crate publishing order (`CrateOrder.dfy`), the epoch schedule in
TypeScript and in Python (`PowersOfTwo.dfy`, `EpochSchedule.dfy`), the QR matrix (`QrScan.dfy`,
`QrMatrix.dfy`), both rate limiters (`RateLimiter.dfy`), the build table's printer and parser
(`Text.dfy`, `BuildTable.dfy`), public keys and derived addresses (`PublicKey.dfy`) and program
loading (`Loader.dfy`, both over `Bytes.dfy`).

## Assumptions about the environment

Subscriptions (`SubscriptionSystem.Enabled`): a successful answer arrives only on the connection that
sent the request, while an error may arrive at any time, but not after 2^53 - 1 further closes; server
ids are never reused; a socket opens only after it was closed; close code 1000 (section 7.4.1 of RFC
6455) only follows the client's own idle `close()`; a final signature notification concerns an id handed
out on the present connection; live listeners on one topic use distinct callback values; user callbacks
re-enter only by subscribing and disposing, and may throw. What happens without the bound on late
errors, the rule for code 1000 and the distinct callbacks is stated by `ActiveIffPeriodDivides`,
`ReopenRequestsIff` and `DisposeSparesOthersIffDistinct`.

Blockhash cache (`BlockhashCache.Enabled`): polls do not overlap, a signature determines the blockhash
it was made over, and the cluster does not serve a superseded blockhash again. `AnswerRepeatsIff` does
without the first.

Rate limiters: the clock does not go back. Hashing, the curve test, base 58 and the route pattern's
search are parameters, the last tied to the pattern by `BuildTable.Search`; the clock, the network's
replies and read failures are inputs.

## Where a promise fails

- Two listeners with one callback value share a set entry, and disposing of both throws.
- A close with code 1000 that the client did not ask for leaves subscribed topics without a request.
- An error for the unsubscribe of an id that the server has meanwhile disposed of leaves a new
  listener subscribed to a dead id. So does a final signature notification whose user callback throws:
  its listener is not removed. Nothing else strands a listener.
- `nextPowerOfTwo` promises the least power of two for any number, but is right only up to 2^31. The
  slot round trip and the agreement with the Python code fail exactly on the slots beyond, and
  `getEpoch` goes back when the warmup has more than 26 epochs.
- The QR matrix silently drops bits that do not fit: beyond 1658 ASCII characters.
- Failed height reads count as height -1, so a last valid height below -1 expires without any read.
- The status check accepts any level when no commitment is given, while the second look after a nonce
  change then asks for `finalized`.
- Overlapping polls can send one signature twice: when the second one stores a blockhash again that
  the signature was already sent over.
- A build table with a bar in a cell, or a backtick in a route, is not read back as printed.
- A program whose last chunk starts at 2^32 or later cannot be sent.

## Model

| member | source | states |
|---|---|---|
| SubscriptionConnection.Connection.constructor | web3js-sdk/src/connection.ts:3129-3196 | a new client has no topics, no listeners, no calls, and is not connected |
| SubscriptionConnection.Connection.UpdateSubscriptions | web3js-sdk/src/connection.ts:6172-6349 | from every state the recursive scan, which rescans the table from inside itself, terminates and has the effect of a single left-to-right pass |
| SubscriptionConnection.Connection.VisitKey | web3js-sdk/src/connection.ts:6214-6345 | the work for one key: delete and rescan, retire and rescan, send a subscribe, send an unsubscribe, or nothing |
| SubscriptionConnection.Connection.Store | web3js-sdk/src/connection.ts:6125-6142 | storing a record replaces that topic's record only and lists a new topic last |
| SubscriptionConnection.Connection.MakeSubscription | web3js-sdk/src/connection.ts:6425-6456 | hands out the next client id, joins or creates the topic, then sweeps |
| SubscriptionConnection.Connection.RemoveListener | web3js-sdk/src/connection.ts:6441-6453 | removes a live listener and its callback and sweeps, throws exactly when the topic is gone, and ignores an unknown id |
| SubscriptionConnection.Connection.OnOpen | web3js-sdk/src/connection.ts:6066-6078 | marks the socket usable and sweeps |
| SubscriptionConnection.Connection.OnError | web3js-sdk/src/connection.ts:6083-6086 | marks the socket unusable and changes nothing else |
| SubscriptionConnection.Connection.OnClose | web3js-sdk/src/connection.ts:6091-6120 | starts a new generation and stops the idle timer; code 1000 sweeps, any other code empties the index and makes every topic pending |
| SubscriptionConnection.Connection.MarkAllPending | web3js-sdk/src/connection.ts:6112-6119 | the loop makes every topic pending and changes nothing else of it |
| SubscriptionConnection.Connection.OnIdleTimeout | web3js-sdk/src/connection.ts:6176-6188 | the idle timer is forgotten when it fires |
| SubscriptionConnection.Connection.CallSucceeded | web3js-sdk/src/connection.ts:6253-6263 | a granted subscribe stores the record as it was when the call was made, with its id, and indexes its set; a confirmed unsubscribe stores it as unsubscribed; then both sweep |
| SubscriptionConnection.Connection.CallFailed | web3js-sdk/src/connection.ts:6264-6332 | an error is ignored when the generation has changed, and otherwise restores pending or subscribed and sweeps |
| SubscriptionConnection.Connection.OnSignatureNotification | web3js-sdk/src/connection.ts:6793-6852 | a final notification marks the id as disposed of and runs each listener it reaches, which removes itself unless its user callback throws |
| SubscriptionConnection.RescanEndsTheScan | web3js-sdk/src/connection.ts:6214-6243 | a rescan from the middle of a scan ends exactly where going on with the scan would |
| SubscriptionConnection.InterruptedShrinks | web3js-sdk/src/connection.ts:6220-6340 | the termination measure falls at every recursive call |
| SubscriptionConnection.VisitShrinks | web3js-sdk/src/connection.ts:6214-6345 | visiting a key never makes the termination measure grow |
| SubscriptionSweep.ProcessIsLocal | web3js-sdk/src/connection.ts:6214-6345 | processing a key settles that topic and leaves every other topic, all sets, listeners and flags as they were |
| SubscriptionSweep.FoldSettles | web3js-sdk/src/connection.ts:6209-6348 | a pass settles every key it visits |
| SubscriptionSweep.SweepSettles | web3js-sdk/src/connection.ts:6172-6349 | after a sweep of a usable connection no topic is pending or unsubscribed, and none is subscribed without listeners |
| SubscriptionSweep.SweepOfOne | web3js-sdk/src/connection.ts:6172-6349 | when all other topics are settled, a sweep comes down to processing the one that is not |
| SubscriptionSweep.FoldSkipsSettled | web3js-sdk/src/connection.ts:6209-6218 | settled topics in front of a scan change nothing |
| SubscriptionInvariant.SweepEstablishesInv | web3js-sdk/src/connection.ts:6172-6349 | from any state in the middle of an event, a sweep establishes the whole invariant |
| SubscriptionInvariant.ProcessKeepsCore | web3js-sdk/src/connection.ts:6214-6345 | processing a key keeps the agreement of table, sets, index, listeners and outstanding requests |
| SubscriptionInvariant.SubscribeAnswerKeepsCore | web3js-sdk/src/connection.ts:6253-6262 | so does a granted subscribe |
| SubscriptionInvariant.UnsubscribeAnswerKeepsCore | web3js-sdk/src/connection.ts:6316-6340 | so does a confirmed unsubscribe |
| SubscriptionInvariant.FailureKeepsInv | web3js-sdk/src/connection.ts:6264-6332 | an error, current or late, keeps the whole invariant |
| SubscriptionInvariant.StaleIsRecognised | web3js-sdk/src/connection.ts:6204-6207 | within the counter's period, a request of an earlier connection never passes the generation test |
| SubscriptionInvariant.CloseKeepsInv | web3js-sdk/src/connection.ts:6091-6120 | a close keeps the whole invariant |
| SubscriptionInvariant.DisposeKeepsInv | web3js-sdk/src/connection.ts:6441-6453 | disposing of a listener keeps the whole invariant |
| SubscriptionInvariant.NextKeepsInv | web3js-sdk/src/connection.ts:6066-6456 | every event the environment can cause keeps the invariant |
| SubscriptionInvariant.RunKeepsInv | web3js-sdk/src/connection.ts:6066-6456 | the invariant holds after every finite run |
| SubscriptionGuarantees.ConnectedMeansSettled | web3js-sdk/src/connection.ts:6172-6349 | in every reachable state with a usable connection, every topic is in progress or subscribed with a listener; the idle timer runs only while there are no topics |
| SubscriptionGuarantees.QuietMeansSubscribed | web3js-sdk/src/connection.ts:6172-6349 | when no request is outstanding, each live listener's topic is subscribed under an id that the server gave that topic on this connection and has not confirmed to drop; the server has disposed of that id by itself exactly when the topic is stranded |
| SubscriptionGuarantees.DisposeFindsItsTopic | web3js-sdk/src/connection.ts:6425-6453 | over all interleavings an undisposed client id still has its topic in the table and its callback in that topic's set, so the assertion in dispose never fires |
| SubscriptionGuarantees.OneRequestPerTopic | web3js-sdk/src/connection.ts:6220-6346 | on the present connection a topic has exactly one outstanding request, of the right kind, while subscribing or unsubscribing, and none otherwise |
| SubscriptionGuarantees.UnsubscribesCarryGrantedIds | web3js-sdk/src/connection.ts:6290-6318 | every unsubscribe ever sent carried the id given to its topic on the connection it used |
| SubscriptionGuarantees.NoUnsubscribeOfDisposedIds | web3js-sdk/src/connection.ts:6291-6306 | no event sends an unsubscribe for an id known to be disposed of |
| SubscriptionGuarantees.NotificationsReachLiveListeners | web3js-sdk/src/connection.ts:6354-6378 | a notification runs only listeners of the topic its id was issued for, and while the topic holds the id exactly those registered now, also those added after the subscribe |
| SubscriptionEffects.MakeRegisters | web3js-sdk/src/connection.ts:6425-6438 | from every state, subscribing registers exactly the new listener under the id it hands out; a new topic comes last |
| SubscriptionEffects.DisposeRemoves | web3js-sdk/src/connection.ts:6441-6445 | from every state, disposing of an id removes exactly that listener |
| SubscriptionEffects.SubscriberIsHeard | web3js-sdk/src/connection.ts:6425-6456 | in every reachable state a new listener is in its topic's set at once, and a notification for the topic's id runs it |
| SubscriptionEffects.DisposedIsSilent | web3js-sdk/src/connection.ts:6441-6453 | in every reachable state a disposed listener is in no set and run by no notification, and all others stay |
| SubscriptionEffects.SweepConnects | web3js-sdk/src/connection.ts:6199-6202 | from every state, a scan calls `connect()` once if topics wait without a usable socket, and never otherwise |
| SubscriptionEffects.SweepIdleIff | web3js-sdk/src/connection.ts:6173-6197 | from every state, after a scan the idle timer runs exactly when no topic is left on a usable socket, which otherwise stays connected |
| SubscriptionEffects.ResubscribeTakesSocketBack | web3js-sdk/src/connection.ts:6193-6197 | subscribing while the idle timer runs takes the open socket back and puts the request in flight at once |
| SubscriptionEffects.OpenSocketIsUsed | web3js-sdk/src/connection.ts:6066-6202 | in every run, a socket that is open and has met no error since it opened is connected or idle |
| SubscriptionEffects.UnusableSendsNothing | web3js-sdk/src/connection.ts:6199-6202 | without a usable socket no event but an open sends anything or makes it usable |
| SubscriptionEffects.SocketIsGivenUp | web3js-sdk/src/connection.ts:6083-6109 | a close, an idle timeout and an error stop the use of the socket; only a close with code 1000 and topics left connects again at once |
| SubscriptionEffects.LiveIdsAreHeld | web3js-sdk/src/connection.ts:6253-6340 | in every reachable state every id of this connection that the server has neither confirmed to drop nor disposed of is held by the topic it was given to, subscribed or being unsubscribed |
| SubscriptionIndex.DroppedIdLeavesIndexIff | web3js-sdk/src/connection.ts:6236-6243 | dropping a quiet topic takes its id, and no other, out of the index exactly when the topic was not pending |
| SubscriptionIndex.OldIdsReachNobody | web3js-sdk/src/connection.ts:6110-6111 | in every reachable state a notification runs somebody only if its id was handed out on the present connection and the socket is open |
| SubscriptionReconnect.ActiveIffPeriodDivides | web3js-sdk/src/connection.ts:6093-6094 | a failed call passes for current exactly when the closes since it was sent are a multiple of 2^53 - 1 |
| SubscriptionReconnect.FailureIgnoredIffStale | web3js-sdk/src/connection.ts:6272-6280 | an error changes the client exactly when its request belongs to the present connection |
| SubscriptionReconnect.OpenKeepsListenedTopics | web3js-sdk/src/connection.ts:6066-6120 | in every reachable state without a connection, whatever happened since it was lost, an open leaves exactly the topics with listeners, each subscribing |
| SubscriptionReconnect.OpenRequestsOnce | web3js-sdk/src/connection.ts:6066-6120 | each of them has then been requested exactly once on the new connection, and nothing else was sent on it |
| SubscriptionReconnect.ReconnectKeepsListenedTopics | web3js-sdk/src/connection.ts:6110-6119 | the first of these for an open directly after an abnormal close |
| SubscriptionReconnect.ReconnectRequestsOnce | web3js-sdk/src/connection.ts:6066-6120 | the second of these for an open directly after an abnormal close |
| SubscriptionLimits.DisposeSparesOthersIffDistinct | web3js-sdk/src/connection.ts:6432-6451 | disposing of a listener leaves the others on its topic in place exactly when none of them uses the same callback value |
| SubscriptionLimits.SharedCallbackMakesDisposeThrow | web3js-sdk/src/connection.ts:6446-6450 | with one callback value registered twice, disposing of both makes the assertion fire |
| SubscriptionLimits.ReopenRequestsIff | web3js-sdk/src/connection.ts:6105-6119 | after any close and a reopening, a topic with listeners is requested exactly when the code was not 1000 or it was waiting to be requested anyway |
| SubscriptionLimits.FoldRequests | web3js-sdk/src/connection.ts:6209-6270 | a pass requests a topic with listeners exactly when it is pending or unsubscribed |
| SubscriptionLimits.SignatureDoneDropsTopicIff | web3js-sdk/src/connection.ts:6793-6852 | a final signature notification for a subscribed topic sends nothing, and drops the topic exactly when no user callback on it throws; otherwise the topic stays on the dead id |
| SubscriptionLimits.TargetsAreDelivered | web3js-sdk/src/connection.ts:6354-6378 | a final notification runs exactly the listeners any notification for the id is delivered to, each once and in the order of their registration |
| SubscriptionLimits.StrandedIff | web3js-sdk/src/connection.ts:6319-6332 | from a reachable state, an event leaves a listener subscribed to an id known to be dead exactly when it is an error for the unsubscribe of an auto-disposed id whose topic has a listener again, or a final notification on which a user callback of the topic throws |
| SubscriptionLimits.SomeRunStrandsAListener | web3js-sdk/src/connection.ts:6319-6332 | there is a run in which the first of these happens |
| SubscriptionLimits.SomeThrowStrandsAListener | web3js-sdk/src/connection.ts:6841-6853 | there is a run in which the second of these happens |
| BlockhashCache.RecordKeepsDifferent | web3js-sdk/src/connection.ts:5980-5985 | recording a signature the list does not hold keeps all signatures ever sent different |
| BlockhashCache.FetchConsistentIff | web3js-sdk/src/connection.ts:5705-5712 | storing a blockhash and clearing the list keeps the list equal to what was sent over the cached blockhash, except exactly when that blockhash was cached already and its list was not empty |
| BlockhashCache.StepKeepsInv | web3js-sdk/src/connection.ts:5674-5724 | every step of interleaved calls keeps the cache's agreement with everything sent |
| BlockhashCache.SignaturesNeverRepeat | web3js-sdk/src/connection.ts:5966-5994 | over a whole run of interleaved calls no signature is sent twice, every call is in its first or second round, and the second round bypasses the cache |
| BlockhashCache.RetriedOnlyIfDuplicate | web3js-sdk/src/connection.ts:5981-5992 | a call goes round again only when its signature has really been sent over this blockhash |
| BlockhashCache.CacheIsUsedIff | web3js-sdk/src/connection.ts:5674-5690 | a call signs over the cached blockhash exactly when it may, no poll runs and the blockhash was fetched less than 30,000 ms ago; it polls exactly when it must not use the cache, or no poll runs and the cache is empty or older |
| BlockhashCache.DisabledCachePolls | web3js-sdk/src/connection.ts:5969-5972 | a call made with caching switched off polls in any case |
| BlockhashCache.PollingFlagIsRight | web3js-sdk/src/connection.ts:5695-5724 | in every run the polling flag is set exactly while some call polls |
| BlockhashCache.PollOutcomeIff | web3js-sdk/src/connection.ts:5702-5720 | a poll returns the first blockhash other than the cached one among 50 replies, and fails exactly when there is none before a failed request |
| BlockhashCache.AnswerFinishesOrRepeats | web3js-sdk/src/connection.ts:5702-5720 | an answer with a new blockhash always finishes the call that polled, and the fiftieth old one fails it |
| BlockhashCache.AnswerRepeatsIff | web3js-sdk/src/connection.ts:5705-5712 | also with overlapping polls, an answer makes a call repeat a signature exactly when another poll has cached the blockhash already and the signature was sent over it |
| BlockhashCache.OverlappingPollsCanRepeat | web3js-sdk/src/connection.ts:5695-5724 | two overlapping polls send the same signature twice |
| BlockhashCache.BlockhashInfo.constructor | web3js-sdk/src/connection.ts:3145-3156 | the cache starts without a blockhash and without signatures |
| BlockhashCache.BlockhashInfo.PollNewBlockhash | web3js-sdk/src/connection.ts:5695-5724 | returns the first reply among 50 that differs from the cached blockhash and caches it with an empty list, or fails and leaves the cache as it was |
| BlockhashCache.BlockhashInfo.SendTransaction | web3js-sdk/src/connection.ts:5966-5994 | in one or two rounds sends one new signature, over the blockhash then cached, different from all sent before, or fails only because the poll of its last round fails; it keeps the cached blockhash exactly when caching is on, the blockhash is younger than 30,000 ms and the signature is new, and takes a second round only if the young cache held the signature |
| Confirmation.SecondLookIsExact | web3js-sdk/src/connection.ts:4157-4191 | the check after a nonce change passes exactly the levels that meet the commitment, finalized by default |
| Confirmation.StatusCheckExactIff | web3js-sdk/src/connection.ts:3956-3981 | the status check agrees with that exactly when a level is reported and a commitment given, or where the level is finalized anyway |
| Confirmation.ConfirmByBlockHeight | web3js-sdk/src/connection.ts:4009-4060 | the watcher loop returns whichever of status, error, abort and exceeded height comes first |
| Confirmation.ExceededIsShown | web3js-sdk/src/connection.ts:4017-4038 | expiry is reported exactly when a successful read shows a height above the last valid one before anything else decides |
| Confirmation.FailedReadsNeverExpireIff | web3js-sdk/src/connection.ts:4022-4024 | failed reads never make a transaction expire, exactly when the last valid height is at least -1 |
| Confirmation.HeightRaceIff | web3js-sdk/src/connection.ts:3911-3989 | the block height race returns exactly what its first deciding event says: the notified result, a status that is good enough, the error of a status, the abort, or the exceeded height |
| Confirmation.InvalidIsShown | web3js-sdk/src/connection.ts:4080-4117 | a changed nonce is reported exactly when a successful read shows one, with the slot of that very read |
| Confirmation.NonceRaceIff | web3js-sdk/src/connection.ts:4080-4130 | the nonce race returns exactly what its first deciding event says: the notified result, a status that is good enough, the error of a status, the abort, or the changed nonce |
| Confirmation.RaceNonce | web3js-sdk/src/connection.ts:4080-4130 | the nonce watcher's loop returns whichever of status, error, abort and changed nonce comes first |
| Confirmation.ConfirmByDurableNonce | web3js-sdk/src/connection.ts:4062-4204 | after a nonce change the loop takes the first answer at or past the change and judges it by its level; a request that fails is passed on |
| Confirmation.SecondLookIsDecisive | web3js-sdk/src/connection.ts:4141-4156 | the second look is decided by the first answer that is missing or not older than the change, and by no other |
| Confirmation.NonceVerdicts | web3js-sdk/src/connection.ts:4131-4199 | after a nonce change success is returned only from a status at or past the read that saw the change whose level meets the commitment, and expiry only after such a read |
| CrateOrder.LoadWorkspace | validator/ci/order-crates-for-publishing.py:104-108 | the loop fills the dictionaries as `Load` describes, with the same keys |
| CrateOrder.EdgeIff | validator/ci/order-crates-for-publishing.py:84-93 | the edges from a package are exactly its dependencies named solana or agave, except dev-dependencies by path that have no version or are on the package itself for dev-context-only-utils |
| CrateOrder.LoadedEntry | validator/ci/order-crates-for-publishing.py:104-108 | the dictionaries hold the dependencies and the manifest of the last package of each name |
| CrateOrder.LoadedWrong | validator/ci/order-crates-for-publishing.py:50-64 | nothing is reported as wrong exactly when no package depends on itself for dev-context-only-utils with a version |
| CrateOrder.DirectCycles | validator/ci/order-crates-for-publishing.py:111-115 | the reported pairs are exactly the packages that depend on each other directly |
| CrateOrder.DirectCycleIsCycle | validator/ci/order-crates-for-publishing.py:125-126 | refusing a direct cycle never refuses an acyclic workspace |
| CrateOrder.Pass | validator/ci/order-crates-for-publishing.py:139-149 | a pass emits, in order, exactly the packages left whose longest dependency chain has the pass's length, and keeps the others |
| CrateOrder.Order | validator/ci/order-crates-for-publishing.py:128-152 | the ordering succeeds exactly on acyclic graphs, so the budget of n * n passes never cuts one off; otherwise it names exactly the packages from which a cycle can be reached |
| CrateOrder.DeepIffLeadsToCycle | validator/ci/order-crates-for-publishing.py:133-135 | for k >= n, a package has a chain of k dependencies exactly when a cycle can be reached from it |
| CrateOrder.GetPackages | validator/ci/order-crates-for-publishing.py:95-152 | the whole script succeeds exactly if no package has a versioned dependency on itself and the graph is acyclic; then it lists every package once, with its own manifest, after all packages that must precede it; a suspected cycle names exactly the packages that lead to one |
| CrateOrder.MutualPackages | validator/ci/order-crates-for-publishing.py:111-126 | two packages that must precede each other make the graph cyclic, so the script refuses them |
| CrateOrder.AcyclicIffShallow | validator/ci/order-crates-for-publishing.py:130-137 | n packages are acyclic exactly when none has a chain of k dependencies, for any k >= n |
| CrateOrder.LongChainMakesCycle | validator/ci/order-crates-for-publishing.py:133-135 | a chain of n dependencies among n packages closes a cycle |
| CrateOrder.LayersAndRest | validator/ci/order-crates-for-publishing.py:139-149 | what the passes emitted and what is left always add up to the workspace |
| CrateOrder.LayersPutDependenciesFirst | validator/ci/order-crates-for-publishing.py:142-147 | in the emitted list every workspace dependency stands earlier than its dependant |
| CrateOrder.LayersAreAnOrder | validator/ci/order-crates-for-publishing.py:128-152 | in an acyclic workspace n passes list every package exactly once, dependencies first |
| CrateOrder.LayerIsExactDepth | validator/ci/order-crates-for-publishing.py:139-147 | pass k emits exactly the packages whose longest chain has length k |
| EpochSchedule.FillDoubles | web3js-sdk/src/epoch-schedule.ts:17-21 | or-ing with a shifted copy doubles the run of ones at the top |
| EpochSchedule.NextPowerOfTwoValue | web3js-sdk/src/epoch-schedule.ts:14-24 | what the 32-bit computation gives for every positive argument |
| EpochSchedule.NextPowerOfTwoCorrectIff | web3js-sdk/src/epoch-schedule.ts:13-24 | the result is the least power of two not below n exactly when n <= 2^31 |
| EpochSchedule.TrailingZeros | web3js-sdk/src/epoch-schedule.ts:4-11 | the halving loop finds the exponent of the least power of two not below its argument |
| EpochSchedule.WarmupEpochIff | web3js-sdk/src/epoch-schedule.ts:62-70 | the warmup branch finds the epoch whose doubled range contains the slot exactly when nothing overflows |
| EpochSchedule.OverflowEpoch | web3js-sdk/src/epoch-schedule.ts:63-66 | beyond 32 bits the warmup branch answers an epoch of at most 25 |
| EpochSchedule.SlotRoundTripIff | web3js-sdk/src/epoch-schedule.ts:61-101 | first slot plus index gives the slot back, with the index inside the epoch, exactly when nothing overflows |
| EpochSchedule.EpochRoundTripIff | web3js-sdk/src/epoch-schedule.ts:61-101 | an index of an epoch is found again from its slot exactly when nothing overflows |
| EpochSchedule.EpochsAreAdjacent | web3js-sdk/src/epoch-schedule.ts:80-101 | the last slot of an epoch is directly before the first of the next, and no epoch is empty |
| EpochSchedule.EpochIsMonotoneIff | web3js-sdk/src/epoch-schedule.ts:57-59 | `getEpoch` never goes back, also across the end of the warmup, exactly when the warmup has at most 26 epochs |
| EpochSchedule.EpochGoesBack | web3js-sdk/src/epoch-schedule.ts:62-66 | during a longer warmup slot 2^31 - 32 gets epoch -6, before the epoch of slot 0 |
| EpochSchedule.PyNextPowerOfTwoCorrect | explorer/scripts/fetch_mainnet_activations.py:23-24 | the Python function gives the least power of two for every positive number |
| EpochSchedule.PyTrailingZerosOfPower | explorer/scripts/fetch_mainnet_activations.py:19-20 | on powers of two the Python bit trick and the TypeScript loop count the same |
| EpochSchedule.TypeScriptAgreesWithPythonIff | explorer/scripts/fetch_mainnet_activations.py:27-39 | the two implementations give the same epoch exactly when the 32-bit one does not overflow |
| QrScan.ScanVisitsEachOnce | wallet-connect/src/qr-modal.ts:75-95 | the scan visits every module outside the reserved areas exactly once and no other (sections 6.3.3 and 6.3.5 of ISO/IEC 18004:2015) |
| QrScan.ScanIsInOrder | wallet-connect/src/qr-modal.ts:75-79 | the scan goes by pairs of columns from the right, downwards in each, the right module of a row before the left one |
| QrScan.DataCellCount | wallet-connect/src/qr-modal.ts:75-95 | there are size * size - 2 * size - 191 data modules |
| QrMatrix.DrawFinder | wallet-connect/src/qr-modal.ts:42-57 | draws one finder pattern with its separator, cut off at the edges, and nothing else |
| QrMatrix.FinderIsDrawn | wallet-connect/src/qr-modal.ts:48-54 | the finder is the drawn picture of seven by seven modules with a light border |
| QrMatrix.DrawPatterns | wallet-connect/src/qr-modal.ts:59-67 | the matrix then shows the three finders and both timing lines and is empty elsewhere |
| QrMatrix.PatternIsReserved | wallet-connect/src/qr-modal.ts:81-85 | every dark pattern module lies in an area the scan skips |
| QrMatrix.PlaceModule | wallet-connect/src/qr-modal.ts:79-92 | one step paints the next data bit on a free module, and leaves every reserved one |
| QrMatrix.PlaceColumnPair | wallet-connect/src/qr-modal.ts:77-94 | one pair of columns carries the next data bits in order |
| QrMatrix.PlaceData | wallet-connect/src/qr-modal.ts:69-95 | after the loop over the columns the data modules carry the bits in scan order and everything else the pattern |
| QrMatrix.Generate | wallet-connect/src/qr-modal.ts:25-98 | the same of the whole generator, at the size chosen for the length |
| QrMatrix.PaintedShows | wallet-connect/src/qr-modal.ts:59-95 | a finished matrix shows every pattern module untouched and every data module its bit |
| QrMatrix.MatrixShowsByte | wallet-connect/src/qr-modal.ts:87-91 | in a finished matrix every byte that fits is the sum of its eight modules, worth 128 down to 1 in scan order |
| QrMatrix.RecoverableIffFits | wallet-connect/src/qr-modal.ts:71-92 | the data can be read back from the matrix, given its length, exactly when its bits fit |
| QrMatrix.AsciiRecoverableIff | wallet-connect/src/qr-modal.ts:28-36 | an ASCII string is recoverable exactly up to 1658 characters |
| RateLimiter.Limits.IsWithinLimit | faucet/lib/rate-limiter.ts:17-33 | prunes the key's list, and records the request exactly when it accepts it |
| RateLimiter.CheckLimit | faucet/lib/rate-limiter.ts:35-43 | the address is consulted and recorded only when the IP passes |
| RateLimiter.Server.CheckRateLimit | docker/faucet-server.js:63-81 | the same attempt with the cluster's rate |
| RateLimiter.RefusedIffFull | faucet/lib/rate-limiter.ts:27-30 | an attempt is refused exactly when the full history of the last hour reaches the limit, although only a pruned list is kept |
| RateLimiter.PruneTwice | faucet/lib/rate-limiter.ts:12-15 | pruning earlier does not change what a later pruning leaves |
| RateLimiter.PruneKeepsLastHour | faucet/lib/rate-limiter.ts:12-15 | pruning keeps exactly the entries of the last 3,600,000 ms, each as often as it was |
| RateLimiter.AttemptKeepsAgreement | faucet/lib/rate-limiter.ts:17-33 | every attempt keeps the pruned lists in agreement with the full history and every window within the limit |
| RateLimiter.RunRespectsLimits | faucet/lib/rate-limiter.ts:8-43 | in every run and every half-open hour an IP gets at most 10 requests through and an address at most 5 |
| RateLimiter.RunRefusesIffFull | faucet/lib/rate-limiter.ts:35-43 | after every run the next request is refused exactly when the recorded requests of its IP, or else of its address, reach the limit |
| RateLimiter.RunRecordsIff | faucet/lib/rate-limiter.ts:31-41 | after every run an IP's request is recorded whenever the IP passes, also if the address is then refused, an address's only after its IP passed, and the request is accepted exactly when both pass |
| RateLimiter.ServerRespectsRate | docker/faucet-server.js:63-81 | in every run and every half-open hour an IP is served at most the cluster's rate |
| RateLimiter.ServerRefusesIffFull | docker/faucet-server.js:72-80 | after every run the next visit is refused, and not recorded, exactly when the recorded visits of its IP in the last hour reach the rate |
| BuildTable.FormatTableLines | explorer/scripts/update-build-info.js:144-161 | the loop prints the two title lines and one row for each line that matches, in order |
| BuildTable.CaptureIsUnique | explorer/scripts/update-build-info.js:152 | where a reading of the route pattern starts decides everything it captures |
| BuildTable.SearchIsUnique | explorer/scripts/update-build-info.js:152 | searching a line with the pattern has one result, the capture of the leftmost reading or none |
| BuildTable.ReadingIsCaptured | explorer/scripts/update-build-info.js:152-154 | what the route pattern captures from a line can be printed as one row |
| BuildTable.ParseBuildMd | explorer/scripts/update-sitemap.ts:116-132 | the loop returns the rows of exactly the lines with five cells and a known kind, in order |
| BuildTable.TitlesAreIgnored | explorer/scripts/update-sitemap.ts:124-125 | a line whose first cell is no kind is skipped |
| BuildTable.FiveCellsMakeARow | explorer/scripts/update-sitemap.ts:121-128 | any line of five cells whose second names a kind is read as that row, and a line of four is skipped |
| BuildTable.RowRoundTripIff | explorer/scripts/update-sitemap.ts:121-128 | a printed row is always read as some row, and as itself exactly when no cell has a bar and the route no backtick |
| BuildTable.TableRoundTripIff | explorer/scripts/update-sitemap.ts:116-132 | parsing a printed table returns exactly the printed rows in order, title lines ignored, when and only when all rows are clean in that sense |
| BuildTable.BuildRoundTripIff | explorer/scripts/update-build-info.js:144-161 | the same from the lines of the build on: what is printed for the captures of any lines is read back as these captures exactly when they are clean |
| BuildTable.BarredRouteIsMisread | explorer/scripts/update-build-info.js:156 | a route with a bar is not read back |
| BuildTable.SitemapListsStaticPages | explorer/scripts/update-sitemap.ts:144-159 | the sitemap made from the table of a build lists exactly its static pages that are not interfaces, not parametrised and not excluded, in the order of the build and as often as there |
| Text.SplitJoin | explorer/scripts/update-sitemap.ts:117 | splitting joined lines gives the lines back |
| PublicKey.ToBuffer | web3js-sdk/src/publickey.ts:122-131 | the buffer holds the key's 32 bytes, copied behind zeros when the number is shorter; there is none exactly for a number of more than 32 bytes |
| PublicKey.BytesAcceptedIff | web3js-sdk/src/publickey.ts:70-75 | bytes make a key exactly when those in front of the last 32 are all zero, and the key has the last 32 bytes |
| PublicKey.TextAcceptedIff | web3js-sdk/src/publickey.ts:62-68 | text makes a key exactly when it decodes to 32 bytes, which are the key's |
| PublicKey.KeyRoundTrip | web3js-sdk/src/publickey.ts:56-76 | 32 bytes make a key with exactly those bytes |
| PublicKey.BytesRoundTrip | web3js-sdk/src/publickey.ts:122-131 | a key made again from its bytes is the same key |
| PublicKey.EqualsIffSameBytes | web3js-sdk/src/publickey.ts:96-98 | equal keys are exactly those with the same bytes |
| PublicKey.CandidateIsHash | web3js-sdk/src/publickey.ts:172-184 | an address is the hash of the seeds one after the other, the 32 bytes of the program and the text ProgramDerivedAddress |
| PublicKey.CreateProgramAddress | web3js-sdk/src/publickey.ts:168-189 | fails exactly for a seed over 32 bytes, a program number over 32 bytes or a digest on the curve, each with its own error, and otherwise gives the key with the digest's bytes |
| PublicKey.FindProgramAddress | web3js-sdk/src/publickey.ts:212-232 | returns the greatest nonce from 255 to 1 that leads off the curve with its address, and fails exactly when a seed is too long or no nonce does; a bad program number counts as no nonce |
| Loader.MessageRoundTrip | web3js-sdk/src/loader.ts:142-160 | a load message carries exactly its offset and bytes, for a short chunk as for a full one |
| Loader.MessageLayout | web3js-sdk/src/loader.ts:142-179 | every byte of a message: instruction, offset and count in four bytes each, least first, four zeros, the chunk, and zeros to the end |
| Loader.SendChunks | web3js-sdk/src/loader.ts:162-200 | the loop returns the messages of the chunks in order, or nothing when one of them cannot be encoded |
| Loader.Load | web3js-sdk/src/loader.ts:162-200 | one message per chunk, each carrying its chunk; fails exactly for data too long for 32-bit offsets |
| Loader.SourceSizeSendableIff | web3js-sdk/src/loader.ts:20 | with the source's chunk size of 932 that is data of more than 4,294,968,220 bytes |
| Loader.ChunkCount | web3js-sdk/src/loader.ts:42-49 | for every length there are `getMinNumSignatures(length) / 2 - 2` chunks |
| Loader.EachByteInOneChunk | web3js-sdk/src/loader.ts:166-198 | every byte of the data is in exactly one chunk |
| Loader.RebuildsIff | web3js-sdk/src/loader.ts:162-200 | chunks written in any order, with repetitions, rebuild the data whatever the account held, when and only when every chunk was written at least once |

## Left out

- RPC getters, schemas, the HTTP client, keep-alive agents and fetch middleware of `connection.ts`: input and output only.
- Liveness of the socket library: when `connect()` leads to an open socket, and the timing of reconnects.
- The observers of subscription state changes and the heartbeat: they do not touch the topic table.
- `simulateTransaction` and its list of simulated signatures: the same loop once more.
- The legacy confirmation by timeout.
- The arguments of a request and how a topic's hash is computed from them: a topic is its hash.
- Confirmation.ConfirmByDurableNonce: the answers to the second look are a finite list, so a run can also end still waiting.
- QrMatrix.Generate: the UTF-8 encoding is an input, so the length in UTF-16 units and the bytes are independent.
- EpochSchedule.TrailingZeros: numbers are exact, so slots beyond 2^53 are not rounded as JavaScript would.
- Loader.ChunkCount: the quotient is rounded up exactly, not in floating point.
- PublicKey.ToBuffer: that a copy to a negative position throws is the buffer library's behaviour, taken as given.
- The rest of `load`: creating, funding and finalizing the account.
- BuildTable.FormatTableLines: the regular-expression engine is a parameter; `Search` says what it finds, and `SearchIsUnique` that this determines it.
- Picking the table out of the whole build output (`extractTableLines`).
- A `received` signature notification: the listeners it removes are modelled as disposed of by their users.
- Layouts, instructions, vote and nonce accounts, wallets, pages, benchmarks and build scripts: their meaning rests on libraries or they only add easy members.

# A verified model of the web cloner's coordination, frontier and rewriting core

The repository is a browser-driven web archiver written in Go. This project models the
parts of it whose correctness depends on many calls, many goroutines or many bytes at
once, and proves what they promise for every input, every run and every interleaving.

- **Coordination.** The Redis lock (`RedisLock`, with its renewal ticker in `RedisTiming`)
  and the leader lease (`LeaderLease`) are timed step systems: every server command and
  every critical section is one step, steps of all workers and of all goroutines inside a
  worker interleave, requests and replies can be lost. The dispatch loop with its
  semaphores, WaitGroup and page counter (`Dispatcher`) is an interleaved step system too.
- **Resilience.** The circuit breaker is a value with its run laws (`Breaker`); the per-host
  breakers live in a sharded map and are cleaned up (`HostBreakers`, `ShardedMap`).
- **The crawl frontier.** The depth heap of `container/heap` (`HeapOrder`), the queue with
  its seen map and checkpoints (`CrawlQueue`), the LRU law and the linked LRU structures
  (`Recency`, `Lru`), the admission layers (`Admission`), the one-worker crawl they produce
  together, page capture included (`CrawlRun`, `CrawlLoop`), its breadth-first order
  (`CrawlOrder`), why it may miss a page (`CrawlLoss`), how many it takes (`CrawlLimit`),
  that it is a run of admission events (`CrawlEvents`), and how it resumes, any number of times (`CrawlResume`, `CrawlCases`).
- **URL, CSS and path transformations.** `CssTokens`, `CssRewrite`, `CssExtract`,
  `PathNormal`, `DotSegments`, `UrlPath`, `CloneMapping`, `UrlRoundTrip`, `UrlLookup`,
  `Canonical`, `Dedup`, `Pages`, `PageRules`, over `Segments`, `Percent` and `Text`.
- **Scheduling.** The cron next-run search (`Cron`) and what expressions mean (`CronMeaning`).

Code that updates objects in place is modelled by classes (`PriorityQueue`, `Lru`,
`Crawler`, `ShardedMap`, `CircuitBreaker`, `HostCircuitBreaker`) whose methods are proved
against functions on values; loops are methods with invariants; the laws are lemmas about
those functions and about whole runs of them. Clocks, hashes, the calendar, the link graph
and Bloom false positives are parameters.

## Where the code and its promises differ

Each of these has a lemma with a concrete run or input, and a lemma that says exactly when
the promise holds, in terms a caller or an operator can check.

- A lock TTL below one second is renewed with `EXPIRE 0`, which deletes the lock
  (`RedisLock.LongTtlIsNeeded`); a `DEL` still in flight from an earlier release can delete
  a lock taken again by the same worker (`NoOverlapIsNeeded`). `RedisLock.SafeStep` says for
  every single step whether it breaks safety, and `RedisTiming.TickerKeepsLocks` how much
  delay and how many lost renewals the ticker can bear. The renewal goroutine runs on the
  context passed to `AcquireLock`; if that ends before the lock is released, the key stays
  in `lockKeys` while the lock expires (`RedisTiming.ContextMustOutliveLock`).
- The leader lease is not renewed, and `IsLeader` may be true of two workers at once
  (`LeaderLease.TwoLeadersPossible`): exactly when their values come from leases of
  different owners (`SameLeaderIff`), until the older one reads the other's lease
  (`LeadershipEndsIff`).
- `Cleanup` of the host breakers forgets a failure recorded between collecting and deleting
  (`HostBreakers.FailureForgotten`, `RemovalUnobservableIff`); no other call in between can
  tell (`PhasedCleanupUnobservable`).
- The exact set in front of the Bloom filter never changes an answer
  (`Admission.ExactSetIsRedundant`), so a new URL is refused exactly on a false positive
  (`NewUrlRefusedIff`).
- A resumed process seeds again. If a false positive, or a full queue, kept a seed out of
  the process before it, that seed is now crawled after deeper pages, and the two processes
  are together not in breadth-first order (`CrawlCases.ReseedingGoesBack`): exactly when
  something deeper than a seed was crawled before the checkpoint and a seed that the new
  process enqueues is not refused (`CrawlResume.InterruptedSoundIff`), so never when the
  checkpoint has seen every valid seed (`SeenSeedsSound`). No page is crawled twice, and
  each is on a real link path, in any case (`InterruptedGenuine`).
- Page capture records the URLs in stylesheets in the Bloom filter alone, so a page that is
  linked only by pages whose stylesheets name it is never crawled
  (`CrawlCases.AssetHidesPage`): what the filter has recorded and the queue has not seen
  stays out for good (`CrawlLoss.ShutOutStays`), and is a cause in `CrawlLoss.Loss`.
- The half-open window admits one call more than `maxHalfOpenProbes`, because the call that
  enters it is admitted as well; the counter is an int32, and this bound holds exactly until
  it wraps around (`Breaker.ProbeBoundIff`, `ProbeBoundCanFail`).
- The dispatcher pops first and reads `activePages` second, and may leave with a URL queued
  (`Dispatcher.ExitCanLoseWork`, `ExitsEmptyUnlessLatePush`).
- `LoadFromCheckpoint` repairs the `Index` of an item exactly where `heap.Init` moves one
  (`CrawlQueue.LoadTrustsIndex`, `StaleIndexStays`).
- Both CSS scanners step past the end of text on an unclosed `url(` and panic, which the
  model's result `None` stands for: on exactly the texts that are no print of closed tokens
  (`CssRewrite.RewritesIff`, `UnclosedEnds`, `CssExtract.ExtractsIff`). A local path with an
  unbalanced parenthesis changes the token structure (`CssRewrite.TokensPreservedIff`,
  `ParenthesisBreaksToken`).
- `normalizePath` loses the leading slash when `..` climbs above the root
  (`DotSegments.AgreesWithRfcIff`, `ClimbLosesSlash`).
- A URL with `..` or a `.` segment in its path is not a name of the file it is saved in
  (`UrlRoundTrip.OwnNameIff`). A directory URL with a character to escape is known in its
  escaped form only (`CloneMapping.RawKnownIff`); the lookup finds its file nevertheless,
  by the storage rules (`UrlLookup.LookupIff`). A file whose name spells the escaped name
  of another takes that name while it is registered itself, which can depend on the walk
  order (`CloneMapping.OwnUrlIff`, `UrlRoundTrip.PercentNameHides`, `ChainDependsOnOrder`).
- The manifest of `Dedup` lists the kept page as collapsed whenever it was not walked first,
  and so depends on the walk order, unlike the kept pages (`Dedup.ManifestRightIff`). The
  lexical walk does produce this (`Pages.WalkMisreports`).
- The canonical path is its own canonical path for all paths without empty segments only
  when no segment is preserved (`Canonical.IdempotentIffNothingPreserved`), and with empty
  segments not even then (`PathIdempotentIff`, `EmptySegmentUnsettles`).
- `*` as an item of a cron list matches nothing (`Cron.StarInList`), `5/10` matches nothing
  (`CronMeaning.NoStep`), and an item such as `x-y` or `-5` matches 0 (`NoRange`, `SignedRange`,
  `HalfRange`).

## Model

| member | source | states |
|---|---|---|
| `RedisLock.OwnershipStep` | internal/coordinator/redis_coordinator.go:145-204 | In any state a live key keeps its owner through a step, unless the step is that owner's own guarded DEL, time passing its expiry, or an EXPIRE 0 of that owner, and then it loses it; no step hands a live key to someone else |
| `RedisLock.OwnerHandover` | internal/coordinator/redis_coordinator.go:145-204 | In every run, between two different owners of a key there is a step that ended the first one's ownership |
| `RedisLock.GrantedOrigin` | internal/coordinator/redis_coordinator.go:145-174 | A worker starts to believe it holds a key only by its own successful SET NX on a key that was free |
| `RedisLock.GrantedSurvives` | internal/coordinator/redis_coordinator.go:145-204 | A belief survives every step except a release of that very key by that very worker |
| `RedisLock.BeliefEnds` | internal/coordinator/redis_coordinator.go:177-204 | In every run, if a belief was there and is gone, that worker called ReleaseLock for that key in between |
| `RedisLock.HeldIff` | internal/coordinator/redis_coordinator.go:145-188 | In every run lockKeys holds exactly the keys that the worker recorded and has not released since |
| `RedisLock.EntryChangesOnly` | internal/coordinator/redis_coordinator.go:145-204 | A key's entry on the server changes only by a request for that key: a SET NX when it is free, for the TTL asked for, or a guarded DEL or EXPIRE of its owner, which grants whole seconds from now |
| `RedisLock.AcquireGoesOn` | internal/coordinator/redis_coordinator.go:145-174 | AcquireLock asks the server if and only if the key is not recorded, wins exactly a free key, and is over when refused or its reply is lost |
| `RedisLock.ReleaseGoesOn` | internal/coordinator/redis_coordinator.go:177-204 | ReleaseLock sends its DEL if and only if the key is recorded |
| `RedisLock.RenewalGoesOn` | internal/coordinator/redis_coordinator.go:325-356 | A renewal goroutine ends at the first tick that finds its key released; otherwise it sends an EXPIRE and, lost or not, waits for the next tick |
| `RedisLock.OthersUntouched` | internal/coordinator/redis_coordinator.go:145-204 | No step touches another goroutine |
| `RedisLock.TimePasses` | internal/coordinator/redis_coordinator.go:145-204 | Only a tick lets time pass |
| `RedisLock.SafeStep` | internal/coordinator/redis_coordinator.go:145-204 | From a state where every belief is true, a step keeps them all true if and only if it is none of the three breaking steps: an expiry under a holder, a stale DEL, an EXPIRE 0 |
| `RedisLock.OrderlyStep` | internal/coordinator/redis_coordinator.go:145-204 | Callers that follow the discipline never have a release in flight for a key they hold or acquire |
| `RedisLock.RunIsSafe` | internal/coordinator/redis_coordinator.go:145-204 | Every state of a disciplined run is safe |
| `RedisLock.MutualExclusion` | internal/coordinator/redis_coordinator.go:325-356 | With TTLs of a second or more, no overlapping acquire and release inside a worker, and renewals in time, a key in lockKeys is owned by that worker on the server and by no two workers at once, in every reachable state |
| `RedisLock.LongTtlIsNeeded` | internal/coordinator/redis_coordinator.go:325-356 | For every TTL under a second there is a run, otherwise disciplined, after whose first ticker period two workers hold the key |
| `RedisLock.NoOverlapIsNeeded` | internal/coordinator/redis_coordinator.go:177-204 | The same when an acquire starts while the same worker's release is in flight |
| `RedisLock.TimelyRenewalIsNeeded` | internal/coordinator/redis_coordinator.go:325-356 | The same when a renewal comes too late |
| `RedisTiming.ExpiryStep` | internal/coordinator/redis_coordinator.go:325-356 | While a worker believes it holds a key, only an EXPIRE of its own renewal goroutines moves the expiry, and to the full whole-second TTL |
| `RedisTiming.InvStep` | internal/coordinator/redis_coordinator.go:325-356 | If no goroutine or request is more than delay late and the TTL has room for one period and delay more than renewals are lost in a row, every step keeps a renewal goroutine ahead of the expiry of every held key, and is timely |
| `RedisTiming.TickerKeepsLocks` | internal/coordinator/redis_coordinator.go:325-356 | So mutual exclusion follows from the ttl/3 ticker and the bounds on delays and on lost renewals, over all interleavings and goroutines left over from earlier acquisitions |
| `RedisTiming.SecondsFit` | internal/coordinator/redis_coordinator.go:328-328 | Without losses every TTL of a second or more bears delays of up to a twelfth of a second |
| `RedisTiming.OneLossFits` | internal/coordinator/redis_coordinator.go:325-356 | A TTL of whole seconds bears one lost renewal with any delay below a ninth of it |
| `RedisTiming.ThreeLossesDoNotFit` | internal/coordinator/redis_coordinator.go:325-356 | No TTL has room for three lost renewals in a row |
| `RedisTiming.ContextMustOutliveLock` | internal/coordinator/redis_coordinator.go:145-174 | For every TTL with room and any two workers there is a run, prompt but for the end of the renewal goroutine with the caller's context, after which both hold the key |
| `LeaderLease.InvStep` | internal/coordinator/redis_coordinator.go:266-297 | Every election step keeps leases disjoint and every recorded leaderID equal to the key's content at the time it was obtained |
| `LeaderLease.RunInv` | internal/coordinator/redis_coordinator.go:266-297 | So does every run |
| `LeaderLease.GrantedIff` | internal/coordinator/redis_coordinator.go:266-275 | A lease is granted if and only if a SET NX finds none running, to its sender and for the TTL it sent |
| `LeaderLease.LeaseLasts` | internal/coordinator/redis_coordinator.go:266-275 | In every run, from a win until its TTL has passed, no other lease is granted and the key names the winner; then it is free |
| `LeaderLease.RoundGoesOn` | internal/coordinator/redis_coordinator.go:266-297 | An election round goes from SET NX to the recording of a win or to a read, ends there or with a lost reply, and is not touched by other workers |
| `LeaderLease.LeaderIdChangesIff` | internal/coordinator/redis_coordinator.go:277-297 | A worker's leaderID changes only by its own win, to itself, or its own read during a lease, to the owner of that lease |
| `LeaderLease.LeaderAgreement` | internal/coordinator/redis_coordinator.go:266-297 | Two workers whose leaderID was obtained inside the same lease have the same leaderID, the lease's owner, and leases never overlap |
| `LeaderLease.OneCurrentLeader` | internal/coordinator/redis_coordinator.go:120-125 | In particular at most one worker is leader on a value obtained in the running lease |
| `LeaderLease.LeadsByLease` | internal/coordinator/redis_coordinator.go:266-297 | In every run a worker answers IsLeader if and only if the one lease in which its value was obtained is its own |
| `LeaderLease.SameLeaderIff` | internal/coordinator/redis_coordinator.go:120-125 | Two workers that answer IsLeader are the same if and only if the leases their values come from have the same owner; otherwise one value predates the other lease |
| `LeaderLease.LeadershipEndsIff` | internal/coordinator/redis_coordinator.go:284-297 | A leader stops being one in a step if and only if it reads the key during another worker's lease |
| `LeaderLease.LeadershipEnds` | internal/coordinator/redis_coordinator.go:266-297 | So in every run a lost leadership has such a read in between |
| `LeaderLease.TwoLeadersPossible` | internal/coordinator/redis_coordinator.go:120-125 | For any two workers and any TTL there is a run after which both are leader |
| `HeapOrder.SiftUpOrders` | internal/queue/heap.go:7-24 | Sifting up from the one position that may be too shallow restores heap order |
| `HeapOrder.SiftDownOrders` | internal/queue/heap.go:7-34 | Sifting down from a hole restores heap order among the first n items |
| `HeapOrder.HeapifyOrders` | internal/queue/ops.go:125-137 | heap.Init orders any sequence |
| `HeapOrder.RootIsLeast` | internal/queue/heap.go:7-9 | The root of a heap is no deeper than any item |
| `HeapOrder.HeapifyBelowOfHeap` | internal/queue/ops.go:125-137 | heap.Init leaves a heap exactly as it is |
| `HeapOrder.SwapKeeps` | internal/queue/heap.go:12-16 | Swapping keeps the contents and keeps Index equal to position |
| `HeapOrder.SiftUpKeeps` | internal/queue/heap.go:7-24 | So does sifting up |
| `HeapOrder.SiftDownKeeps` | internal/queue/heap.go:7-34 | So does sifting down, which besides leaves everything past n alone |
| `HeapOrder.HeapifyBelowKeeps` | internal/queue/ops.go:125-137 | So does heap.Init |
| `HeapOrder.HeapifyBelowMoves` | internal/queue/ops.go:125-137 | heap.Init changes exactly the positions computed from the depths alone, and leaves a right Index at each of them |
| `HeapOrder.NothingMovedIff` | internal/queue/ops.go:125-137 | It moves nothing if and only if the list is in heap order |
| `CrawlQueue.PushKeeps` | internal/queue/ops.go:36-51 | An admitted push keeps heap order and Index and adds exactly the new item |
| `CrawlQueue.PopKeeps` | internal/queue/ops.go:54-64 | A pop keeps heap order and Index and removes exactly the root |
| `CrawlQueue.PoppedIsLeast` | internal/queue/ops.go:54-64 | The popped item was held, and nothing held was less deep |
| `CrawlQueue.RunStaysValid` | internal/queue/ops.go:36-64 | In every run from a new queue the array is a min-heap by depth, Index equals position, and the cap is respected |
| `CrawlQueue.RunConserves` | internal/queue/ops.go:36-64 | In every run the items pushed are, as multisets, the items popped plus those held, and each URL was enqueued at most once |
| `CrawlQueue.SeenIff` | internal/queue/ops.go:36-85 | In every run a URL is seen if and only if a call marked or enqueued it |
| `CrawlQueue.RunAnswers` | internal/queue/ops.go:36-85 | In every run a push succeeds if and only if its URL was neither marked nor enqueued and fewer items are held than the cap, and a pop gives a least deep one of the items pushed and not yet popped, or nothing if there are none |
| `CrawlQueue.LoadKeeps` | internal/queue/ops.go:125-137 | Loading any list gives a heap with the same contents |
| `CrawlQueue.CheckpointRoundTrip` | internal/queue/ops.go:99-137 | After any run, Snapshot followed by LoadFromCheckpoint gives the same queue, so every later sequence of calls gets the same answers |
| `CrawlQueue.LoadTrustsIndex` | internal/queue/ops.go:125-137 | For every loaded list: Index equals position afterwards if and only if each item at a position that heap.Init does not move came with its position |
| `CrawlQueue.StaleIndexStays` | internal/queue/ops.go:125-137 | A one-item checkpoint with a stale Index keeps it |
| `CrawlQueue.LoadOrderIrrelevant` | internal/queue/ops.go:125-137 | Two checkpoints listing the same items in different orders answer every later sequence of calls alike, up to which of several equally deep URLs is popped |
| `CrawlQueue.PriorityQueue.constructor` | internal/queue/ops.go:11-19 | A new queue is empty, with the given cap |
| `CrawlQueue.PriorityQueue.Up` | internal/queue/heap.go:7-24 | The in-place loop of heap.Push is the sift-up function |
| `CrawlQueue.PriorityQueue.Down` | internal/queue/heap.go:7-34 | The in-place loop of heap.Pop is the sift-down function |
| `CrawlQueue.PriorityQueue.Init` | internal/queue/ops.go:125-137 | The in-place loop of heap.Init is the heapify function |
| `CrawlQueue.PriorityQueue.PushURL` | internal/queue/ops.go:36-51 | Refused when full or seen, otherwise the queue value with the item added; the answer says which |
| `CrawlQueue.PriorityQueue.PopURL` | internal/queue/ops.go:54-64 | The old root with Index -1 and the remaining queue value; false and no change when empty |
| `CrawlQueue.PriorityQueue.MarkSeen` | internal/queue/ops.go:81-85 | Marks one URL and nothing else |
| `CrawlQueue.PriorityQueue.Snapshot` | internal/queue/ops.go:99-111 | The copies made by the two loops restore this very queue when they are loaded |
| `CrawlQueue.PriorityQueue.LoadFromCheckpoint` | internal/queue/ops.go:125-137 | Replaces items and seen and restores heap order |
| `Recency.LruLaw` | internal/util/lru_cache.go:40-113 | After any history of uses exactly those keys are present since whose last use fewer than capacity distinct other keys were used, each at the position given by that number |
| `Recency.EvictsLeastRecent` | internal/util/lru_cache.go:106-113 | The key an insertion pushes out is the one such that every other key present was used since |
| `Recency.RunFollowsHistory` | internal/util/lru_cache.go:40-85 | Every run of Get, Put and PutIfAbsent leaves the sequence determined by its history of uses |
| `Recency.CacheHolds` | internal/util/lru_cache.go:40-85 | So after every run a Get hits if and only if the LRU law says so, and the size is within capacity |
| `Recency.HitReturnsLastWrite` | internal/util/lru_cache.go:40-85 | Every hit in every run returns the value last written under that key |
| `Recency.SetFollowsHistory` | internal/util/lru_set.go:40-84 | The same for runs of Add, AddIfAbsent and Contains |
| `Recency.SetHolds` | internal/util/lru_set.go:40-84 | After every run Contains answers by the LRU law; Contains and a refused AddIfAbsent do not count as uses |
| `Lru.Lru.constructor` | internal/util/lru_cache.go:24-37 | Empty list between the sentinels; capacity 1000 for a non-positive one |
| `Lru.Lru.AddToHead` | internal/util/lru_cache.go:87-92 | The links stay doubly consistent, acyclic and closed by the sentinels, with the node second |
| `Lru.Lru.RemoveNode` | internal/util/lru_cache.go:94-99 | The same with exactly that node taken out |
| `Lru.Lru.MoveToHead` | internal/util/lru_cache.go:101-104 | The same with exactly that node moved behind the head |
| `Lru.Lru.MoveKeyToHead` | internal/util/lru_set.go:116-119 | Moving a key's node is a use of the key in the recency sequence |
| `Lru.Lru.RemoveLRU` | internal/util/lru_set.go:133-140 | Removes the last entry from list and map; nothing when empty |
| `Lru.Lru.InsertNew` | internal/util/lru_cache.go:61-66 | A new key goes in front and the last entry goes when the capacity is exceeded |
| `Lru.Lru.Overwrite` | internal/util/lru_cache.go:56-57 | Changes the value of one entry in place |
| `Lru.Lru.Get` | internal/util/lru_cache.go:40-50 | A hit returns the entry's value and is a use; a miss changes nothing |
| `Lru.Lru.Put` | internal/util/lru_cache.go:53-67 | One use with the new value, list and map consistent, size within capacity |
| `Lru.Lru.PutIfAbsent` | internal/util/lru_cache.go:71-85 | Keeps an existing value, otherwise stores the new one; a use either way |
| `Lru.Lru.Add` | internal/util/lru_set.go:40-56 | A use of the key |
| `Lru.Lru.AddIfAbsent` | internal/util/lru_set.go:59-75 | Inserts an absent key, changes nothing for a present one, and says which |
| `Lru.Lru.Contains` | internal/util/lru_set.go:78-84 | Membership, without a use |
| `Lru.Lru.Len` | internal/util/lru_set.go:87-91 | The number of entries |
| `Lru.Lru.Clear` | internal/util/lru_set.go:94-100 | Empties list and map |
| `Admission.StepAgrees` | internal/crawler/queueing.go:25-56 | Resume, seeding, link discovery, popping and asset recording all keep the queue's seen URLs and the exact set inside the Bloom-added set, which only grows within a process |
| `Admission.RunAgrees` | internal/crawler/queueing.go:25-56 | So does every run |
| `Admission.RehydrateAdds` | internal/crawler/start.go:62-65 | Rehydration in any map order adds exactly the visited URLs to the Bloom layer and leaves the queue alone |
| `Admission.AdmittedAtMostOnce` | internal/crawler/queueing.go:25-56 | In every run, through evictions and resumes from the saved checkpoint, a pushed URL is never admitted again, and an admitted one not in the same process |
| `Admission.YesMeansPushed` | internal/crawler/queueing.go:25-56 | After any run, a yes of shouldQueue is followed by a successful PushURL if and only if the queue's own cap leaves room, which the default cap always does |
| `Admission.ExactSetIsRedundant` | internal/crawler/queueing.go:44-55 | After any run shouldQueue answers as if the exact set were empty |
| `Admission.AddedIff` | internal/crawler/queueing.go:50-54 | The Bloom layer holds exactly what was admitted, recorded as an asset, rehydrated or loaded since the process started |
| `Admission.NewUrlRefusedIff` | internal/crawler/queueing.go:44-55 | After any run an eligible URL that the process neither recorded nor started with, with room and under the limit, is refused if and only if the filter has a false positive, although the exact set is asked first |
| `CrawlRun.PopBase` | internal/crawler/start.go:289-291 | A pop takes a least deep held URL, which was found at that depth at the end of a link path of that length, and keeps the invariant of a process |
| `CrawlRun.LinkAllBase` | internal/crawler/do_crawl.go:495-500 | The link loop keeps it, and found URLs keep their depth |
| `CrawlRun.CaptureAdds` | internal/crawler/capture.go:229-277 | Page capture changes nothing but the Bloom filter, and adds only what the stylesheets name |
| `CrawlRun.CaptureRecords` | internal/crawler/capture.go:229-277 | It records valid URLs only, and every valid one that the filter does not report falsely |
| `CrawlRun.TurnBase` | internal/crawler/start.go:289-311 | A turn of the dispatch loop keeps the invariant: each found URL is held or was popped, never both, none twice |
| `CrawlRun.TurnsBase` | internal/crawler/start.go:266-311 | So does any number of turns, from any state that satisfies it, and pops never go back to a smaller depth |
| `CrawlRun.PagesAreGenuine` | internal/crawler/start.go:289-311 | The pages crawled are distinct, within MaxDepth, and each depth is the length of a real link path from a seed |
| `CrawlRun.TurnShrinks` | internal/crawler/start.go:289-311 | A turn lowers a measure bounded by the site |
| `CrawlLimit.TotalCounts` | internal/crawler/crawl_page.go:13-13 | The total goes up by one for each page crawled |
| `CrawlLimit.LimitHolds` | internal/crawler/start.go:284-287 | With a limit that is not exceeded at the start, the pages crawled never exceed it |
| `CrawlLimit.EndsIff` | internal/crawler/start.go:284-307 | After any number of turns the loop is over if and only if the queue is empty or the pages crawled make up the limit |
| `CrawlLimit.LimitedCrawlIsPrefix` | internal/crawler/start.go:284-311 | A limited crawl takes exactly as many pages as the limit leaves, or all if there are fewer, and they are the first pages of the crawl without a limit |
| `CrawlLimit.AcceptsIff` | internal/crawler/queueing.go:25-56 | shouldQueue says yes if and only if the URL is valid and allowed, the total is below the limit, fewer than 100000 items are held, and the Bloom filter does not report it |
| `CrawlLimit.CapsAgree` | internal/queue/ops.go:9-19 | The limit of shouldQueue and the queue's default cap are both 100000 |
| `CrawlEvents.CrawlIsRun` | internal/crawler/start.go:74-311 | Every crawl is a run of admission events, so the admission laws hold in it |
| `CrawlEvents.TurnIsRun` | internal/crawler/start.go:289-311 | A turn is a pop, and for a crawled page a count, asset records and links, in this order |
| `CrawlOrder.LinkAllFinds` | internal/crawler/do_crawl.go:495-500 | After the link loop every eligible link is found no deeper than one level down, unless something was lost |
| `CrawlOrder.TurnKeeps` | internal/crawler/start.go:289-311 | A turn keeps the breadth-first window and, unless something within MaxDepth was lost, completeness of the expanded pages |
| `CrawlOrder.TurnsKeep` | internal/crawler/start.go:266-311 | So does any number of turns |
| `CrawlOrder.DrainedCoversPaths` | internal/crawler/start.go:289-311 | When the queue is drained and nothing within MaxDepth was lost, the end of every link path within MaxDepth was popped, no deeper than the path is long |
| `CrawlOrder.ResultIsSound` | internal/crawler/start.go:289-311 | Crawled depths never decrease, no page is crawled twice, each depth is the length of a real link path from a seed and within MaxDepth |
| `CrawlOrder.ResultIsExact` | internal/crawler/start.go:289-311 | With nothing within MaxDepth lost every page within MaxDepth hops was crawled at its shortest distance |
| `CrawlLoss.TurnAccounted` | internal/crawler/start.go:289-311 | A turn keeps every drop accounted for by a cause that the layers still show, or by a crowd, there or past: the queue held as many URLs as shouldQueue allows while a page was missing |
| `CrawlLoss.TurnsAccounted` | internal/crawler/start.go:266-311 | After any number of turns every drop is accounted for by a cause in the layers or by a crowd after seeding or at the end of one of these turns |
| `CrawlLoss.CrawlEnds` | internal/crawler/start.go:266-311 | A process that starts afresh ends with a sound crawl, exact unless a cause shows in its layers or a crowd did after seeding or a turn |
| `CrawlLoss.ShutOutStays` | internal/crawler/queueing.go:50-52 | A URL that the Bloom filter has recorded without its being enqueued is never enqueued nor crawled in any number of further turns |
| `CrawlLoss.LosslessHasNoLoss` | internal/crawler/start.go:266-311 | A configuration without total limit, refusals and false positives among the site's own URLs, on a site that fits the queue and whose assets are no pages, shows no cause |
| `CrawlLoss.LosslessRun` | internal/crawler/start.go:266-311 | On such a site no cause and no crowd shows at any time of the run |
| `CrawlLoss.LosslessCrawl` | internal/crawler/start.go:266-311 | So a crawl of such a site is exact |
| `CrawlLoop.Crawler.Remember` | internal/crawler/start.go:82-83 | Both dedup layers record the URL |
| `CrawlLoop.Crawler.ShouldQueue` | internal/crawler/queueing.go:25-56 | The stateful filter over the linked LRU set is the one the admission laws are about; a yes means that the total is below the limit and the queue below its own |
| `CrawlLoop.Crawler.QueueLinks` | internal/crawler/do_crawl.go:495-500 | The link loop over the real queue and LRU set is the loop on values |
| `CrawlLoop.Crawler.SeedURLs` | internal/crawler/start.go:74-98 | The same for the seeding loop |
| `CrawlLoop.Crawler.CaptureAssets` | internal/crawler/capture.go:229-277 | The capture loops record in the Bloom filter exactly what the loop on values does |
| `CrawlLoop.Crawler.DoCrawl` | internal/crawler/do_crawl.go:478-500 | A page is counted, captured and its links queued, in this order |
| `CrawlLoop.Crawler.ResumeFrom` | internal/crawler/start.go:52-71 | Resuming rehydrates both dedup layers in some order; on a new process, with a loaded Bloom filter or an empty one, it is the resume event of the admission laws |
| `CrawlLoop.Crawler.Dispatch` | internal/crawler/start.go:266-311 | From every state that satisfies the invariant of a process, fresh or resumed, the loop over the real queue and LRU set ends, after as many turns as the loop on values, with the same pages and layers, within the total limit, and with a non-empty queue only when the limit is reached |
| `CrawlLoop.Crawler.Crawl` | internal/crawler/start.go:74-311 | A whole run over a finite site: its crawled list is sound whatever is lost or refused, and exact unless a cause shows: the limit reached, an enqueued page within MaxDepth refused, a false positive on a URL within MaxDepth hops, such a URL in the Bloom filter but never enqueued, or a queue as full as shouldQueue allows after seeding or a turn while such a URL was missing; on a lossless configuration it is exact; with a total limit it takes no more pages than that, and leaves the queue non-empty only then |
| `CrawlLoop.Crawler.ResumeCrawl` | internal/crawler/start.go:52-311 | A resumed run, with whatever Bloom filter was loaded, ends with exactly the pages that the laws of resumed crawls are about |
| `CrawlResume.RestartBase` | internal/crawler/start.go:52-98 | Loading a checkpoint, rehydrating and seeding again continue the invariant of the process before, whatever it lost and whichever filter is loaded |
| `CrawlResume.InterruptedGenuine` | internal/crawler/start.go:52-98 | A crawl interrupted and resumed any number of times crawls no page twice, and each within MaxDepth at the length of a real link path, without any condition |
| `CrawlResume.InterruptedSoundIff` | internal/crawler/start.go:52-98 | The pages up to a checkpoint and those of the resumed process are together in breadth-first order if and only if no page below a seed was crawled before or every seed that the new process enqueues is refused |
| `CrawlResume.SeenSeedsSound` | internal/crawler/start.go:52-98 | So they always are when the checkpoint has seen every valid seed, whatever was lost or refused |
| `CrawlResume.ResumedTurning` | internal/crawler/start.go:52-71 | What a new process loads from a checkpoint taken between two turns, with any filter, is in the middle of the same run |
| `CrawlResume.InterruptedExact` | internal/crawler/start.go:52-98 | Together they are exact, unless the layers at the checkpoint or at the end show a cause, or one of the two processes met a crowd |
| `CrawlResume.InterruptedLossless` | internal/crawler/start.go:52-98 | On a lossless site, with a filter no newer than the checkpoint, they are sound and exact |
| `CrawlCases.AssetHidesPage` | internal/crawler/capture.go:229-277 | Page a links to b and its stylesheet names b: the crawl ends without b |
| `CrawlCases.ReseedingGoesBack` | internal/crawler/start.go:74-84 | Two turns crawl a and c; the process resumed without a filter file seeds b, which a false positive had kept out, and crawls it after c |
| `ShardedMap.ShardCountIsLeastPowerIff` | internal/sync/sharded.go:10-23 | For every processor count: the bit smearing yields the least power of two that is at least four shards per processor and 16 in all if and only if there are at most 2^29 processors |
| `ShardedMap.MaskIsRemainder` | internal/sync/sharded.go:74-76 | Masking with a power of two minus one is the remainder, for every hash and every power |
| `ShardedMap.ShardedMap.constructor` | internal/sync/sharded.go:41-57 | An empty map over the computed number of shards, valid for up to 2^29 processors |
| `ShardedMap.ShardedMap.Get` | internal/sync/sharded.go:79-85 | Looks up in the one map the shards represent |
| `ShardedMap.ShardedMap.Set` | internal/sync/sharded.go:88-93 | Updates one key of it |
| `ShardedMap.ShardedMap.Delete` | internal/sync/sharded.go:96-101 | Removes one key of it |
| `ShardedMap.ShardedMap.GetOrSet` | internal/sync/sharded.go:114-124 | Keeps an existing value, otherwise stores the given one, and says which |
| `ShardedMap.ShardedMap.Len` | internal/sync/sharded.go:127-135 | The sum over the shards is the number of keys |
| `ShardedMap.ShardedMap.Keys` | internal/sync/sharded.go:138-149 | Shard by shard every key is met exactly once |
| `ShardedMap.ShardedMap.Range` | internal/sync/sharded.go:138-149 | Calls the function on distinct entries in some order, on all of them unless it says false, and on none after that |
| `Breaker.RunExplained` | internal/resilience/circuitbreaker.go:177-262 | In every run every field of the breaker equals a quantity read off the history of calls |
| `Breaker.TripsAtThreshold` | internal/resilience/circuitbreaker.go:246-262 | A closed breaker opens if and only if a failure makes the failures since the last success reach the threshold |
| `Breaker.OpenAdmitsAfterTimeout` | internal/resilience/circuitbreaker.go:182-199 | An open breaker admits a call if and only if more than the timeout has passed since the last failure or reopening, and then is half-open |
| `Breaker.ClosesAfterEnoughSuccesses` | internal/resilience/circuitbreaker.go:223-243 | A breaker closes only from half-open by a success, after exactly successThreshold successes and no failure in that window |
| `Breaker.Recovers` | internal/resilience/circuitbreaker.go:182-214 | From every reachable state, of two calls in a row each made after waiting more than the timeout one is admitted |
| `Breaker.ProbesLeft` | internal/resilience/circuitbreaker.go:187-243 | In every half-open state of every run the counter is the maximum minus the calls since the breaker was entered or last had a success, in int32 arithmetic |
| `Breaker.HalfOpenAdmitsIff` | internal/resilience/circuitbreaker.go:195-214 | A half-open breaker admits a call if and only if it comes within the timeout since half-open was entered and leaves that counter non-negative |
| `Breaker.HalfOpenLeavesIff` | internal/resilience/circuitbreaker.go:195-262 | It opens if and only if a failure is recorded or a call comes after the timeout, and closes if and only if a success makes up the threshold |
| `Breaker.OpenStays` | internal/resilience/circuitbreaker.go:182-262 | An open breaker stays open but for an admitted call, and only a failure changes what it waits for |
| `Breaker.ProbesAfterSuccess` | internal/resilience/circuitbreaker.go:223-243 | After a success that does not close the breaker the first maxHalfOpenProbes calls pass again, and no more until the counter wraps |
| `Breaker.PassedInWindow` | internal/resilience/circuitbreaker.go:200-214 | Of the calls in the window the first maxHalfOpenProbes pass, none for a negative setting, and none after them until the counter wraps |
| `Breaker.ProbeBoundIff` | internal/resilience/circuitbreaker.go:182-214 | For every setting, negative ones included: between entering half-open and the next outcome or reopening at most the probes plus one calls are admitted if and only if no more than the setting plus 2^31 are made after the entering one; that many are reached |
| `Breaker.ProbeBoundCanFail` | internal/resilience/circuitbreaker.go:182-214 | For every configuration there is a run whose window admits more |
| `HostBreakers.AlikeStep` | internal/resilience/circuitbreaker.go:177-277 | Breakers that agree on the fields their state reads answer every call alike and stay so |
| `HostBreakers.CleanupsInvisible` | internal/resilience/circuitbreaker.go:85-150 | Bisimilar host maps answer alike when one of them is cleaned up at any points |
| `HostBreakers.CleanupUnobservable` | internal/resilience/circuitbreaker.go:135-150 | From any breakers, any sequence of calls with any Cleanups in it gets the same answers as without them |
| `HostBreakers.ForgettableIff` | internal/resilience/circuitbreaker.go:135-150 | Forgetting any breaker goes unnoticed by every sequence of calls if and only if it is closed and as many failures away from tripping as a new one |
| `HostBreakers.ClosedBelowThreshold` | internal/resilience/circuitbreaker.go:177-277 | After any calls, Reset among them, a closed breaker with failures is below the threshold |
| `HostBreakers.CleanupGuardIsExact` | internal/resilience/circuitbreaker.go:135-150 | So forgetting a reachable breaker goes unnoticed if and only if it is closed with zero failures, which is what Cleanup tests |
| `HostBreakers.ResetForgets` | internal/resilience/circuitbreaker.go:270-277 | After a Reset no sequence of calls can tell the breaker from a new one |
| `HostBreakers.HostsAreIndependent` | internal/resilience/circuitbreaker.go:85-130 | The calls on a host get the answers that they would get without the calls on other hosts |
| `HostBreakers.PhasedCleanupUnobservable` | internal/resilience/circuitbreaker.go:135-150 | With collecting and each deletion as steps of their own and any calls in between, Cleanup is unobservable as long as no failure is recorded on a collected host before it is deleted |
| `HostBreakers.RemovalUnobservableIff` | internal/resilience/circuitbreaker.go:147-149 | A deletion is unobservable if and only if the breaker can be forgotten at that moment |
| `HostBreakers.FailureForgotten` | internal/resilience/circuitbreaker.go:135-150 | With a threshold of two, a failure between collecting and deleting is forgotten and the next one does not open the breaker |
| `HostBreakers.CircuitBreaker.constructor` | internal/resilience/circuitbreaker.go:162-174 | A new breaker is closed with zero counters |
| `HostBreakers.CircuitBreaker.Allow` | internal/resilience/circuitbreaker.go:177-218 | The object's new state and verdict are those the run laws are about |
| `HostBreakers.CircuitBreaker.Success` | internal/resilience/circuitbreaker.go:223-243 | The same for a success |
| `HostBreakers.CircuitBreaker.Failure` | internal/resilience/circuitbreaker.go:246-262 | The same for a failure |
| `HostBreakers.CircuitBreaker.Reset` | internal/resilience/circuitbreaker.go:270-277 | The same for a reset |
| `HostBreakers.HostCircuitBreaker.constructor` | internal/resilience/circuitbreaker.go:78-82 | No host has a breaker yet |
| `HostBreakers.HostCircuitBreaker.GetOrCreate` | internal/resilience/circuitbreaker.go:85-100 | The host's breaker, a new one if it had none; no other host's changes, and no breaker serves two hosts |
| `HostBreakers.HostCircuitBreaker.Allow` | internal/resilience/circuitbreaker.go:103-106 | Over the sharded map of objects, one step of the plain map of breaker values |
| `HostBreakers.HostCircuitBreaker.Success` | internal/resilience/circuitbreaker.go:109-112 | The same for a success |
| `HostBreakers.HostCircuitBreaker.Failure` | internal/resilience/circuitbreaker.go:115-118 | The same for a failure |
| `HostBreakers.HostCircuitBreaker.StateOf` | internal/resilience/circuitbreaker.go:121-124 | The same for a state query, which creates a missing breaker |
| `HostBreakers.HostCircuitBreaker.Reset` | internal/resilience/circuitbreaker.go:127-130 | The same for a reset |
| `HostBreakers.HostCircuitBreaker.IdleHosts` | internal/resilience/circuitbreaker.go:135-143 | Collects exactly the hosts whose breaker is closed with zero failures |
| `HostBreakers.HostCircuitBreaker.RemoveHosts` | internal/resilience/circuitbreaker.go:147-149 | Deletes exactly the collected hosts |
| `HostBreakers.HostCircuitBreaker.Cleanup` | internal/resilience/circuitbreaker.go:135-150 | Removes exactly those hosts |
| `Dispatcher.ConservedStep` | internal/crawler/start.go:329-432 | Every step of the dispatcher or of a goroutine keeps each counter equal to the goroutines that still owe it, plus one while the dispatcher does |
| `Dispatcher.TokensConserved` | internal/crawler/start.go:329-432 | So in every interleaving, with cancellation at any time: host, page and asset tokens, WaitGroup and activePages are all accounted for and within their limits |
| `Dispatcher.TwoPagesPerHost` | internal/crawler/semaphore.go:3-12 | At most two pages of a host are in flight |
| `Dispatcher.TwoPagesTogether` | internal/crawler/semaphore.go:3-12 | And two can be |
| `Dispatcher.AllReturned` | internal/crawler/start.go:329-432 | After the loop has exited and all goroutines have finished every counter is zero |
| `Dispatcher.DefersNeverBlock` | internal/crawler/start.go:407-411 | In every reachable state the next deferred call of every goroutine can run |
| `Dispatcher.DeferProgress` | internal/crawler/start.go:407-411 | Each deferred call brings its goroutine one call nearer to its end and touches no other |
| `Dispatcher.GoroutinesChangeOnly` | internal/crawler/start.go:329-432 | The goroutines change only by the start of one and by one's own deferred calls |
| `Dispatcher.ReceivesNeverBlock` | internal/crawler/start.go:379-401 | The dispatcher can always give back the host token it holds |
| `Dispatcher.PopsIff` | internal/crawler/start.go:289-307 | At the loop top something is popped if and only if something is queued |
| `Dispatcher.NoDeadlock` | internal/crawler/start.go:329-432 | In every reachable state, until the loop has exited and every goroutine has finished, the dispatcher or a goroutine can take its next step |
| `Dispatcher.DispatcherProgress` | internal/crawler/start.go:289-420 | Every step of the dispatcher brings it nearer to its loop top or its end, and at the loop top it pops, finds nothing or ends; no goroutine moves it |
| `Dispatcher.QueueLedger` | internal/crawler/start.go:289-311 | In every run the queue holds what was there and pushed, minus what was popped |
| `Dispatcher.PageLedger` | internal/crawler/start.go:311-420 | In every run the popped pages of a host are those started for that host, those turned away and the one being decided on |
| `Dispatcher.AssetLedger` | internal/crawler/start.go:329-362 | The same for assets |
| `Dispatcher.ExitsIff` | internal/crawler/start.go:266-432 | A step ends the loop if and only if it is told to at its top, finds no page active after a failed pop, or gives up waiting to start something; then it stays ended and starts nothing |
| `Dispatcher.CancelledIff` | internal/crawler/start.go:266-272 | The context is cancelled if and only if somebody cancelled it |
| `Dispatcher.AbortsCancelled` | internal/crawler/start.go:345-401 | The dispatcher gives up waiting for a token only when cancelled |
| `Dispatcher.EndsOnlyIdle` | internal/crawler/start.go:289-307 | Every run that is neither cancelled nor stopped ends by the idle test: a failed pop, no active page, and nothing queued but what was pushed since that pop |
| `Dispatcher.ExitsEmptyUnlessLatePush` | internal/crawler/start.go:289-307 | On exit by the idle test the queue is empty if and only if nobody pushed between the failed pop and the read of activePages |
| `Dispatcher.QuietExitIsEmpty` | internal/crawler/start.go:289-307 | In particular if no page was active at the failed pop |
| `Dispatcher.ExitCanLoseWork` | internal/crawler/start.go:289-307 | For every host and page limit there is a run that exits with one URL queued |
| `CssTokens.ScanRender` | internal/localize/css.go:14-65 | Scanning undoes printing of every well-formed list of text stretches and tokens |
| `CssTokens.ScanIsWellFormed` | internal/localize/css.go:14-65 | Every scan result is well formed |
| `CssTokens.RenderScan` | internal/localize/css.go:14-65 | Printing a scan gives back the text, up to the letter case of each url( |
| `CssTokens.ScanHead` | internal/localize/css.go:14-65 | A text that starts with a token scans to it followed by the scan of what comes after |
| `CssTokens.ScannedIff` | internal/localize/css.go:20-63 | A text is scanned to its end if and only if it is, up to letter case, the print of well-formed pieces |
| `Text.LowerIff` | internal/localize/css.go:14-20 | Lower-casing moves the 26 ASCII letters and nothing else |
| `Text.SpaceIff` | internal/localize/css.go:49-51 | TrimSpace takes exactly the code points with the White_Space property |
| `Text.QuoteIff` | internal/repair/extract.go:170-176 | The quotes trimmed are the two ASCII ones |
| `Text.TrimAround` | internal/localize/css.go:49-51 | Trimming takes exactly what is cut at both ends |
| `CssRewrite.TokensPreservedIff` | internal/localize/css.go:14-65 | The rewritten text scans to the same text stretches and the same tokens in order, localized or original, if and only if each new content closes at its end |
| `CssRewrite.TokensPreserved` | internal/localize/css.go:14-65 | So it always does for local paths without quotes, parentheses and backslashes |
| `CssRewrite.ParenthesisBreaksToken` | internal/localize/css.go:52-58 | It does not for the path a)b |
| `CssRewrite.NothingToLocalize` | internal/localize/css.go:14-65 | Without local files the text is unchanged but for the letter case of url( |
| `CssRewrite.QuotesIgnored` | internal/localize/css.go:49-51 | Quotes of either kind and space around them do not change what a token refers to |
| `CssRewrite.QuotedRewrite` | internal/localize/css.go:49-60 | A token becomes the quoted local path if what it refers to has one and is neither empty nor a data URL, and otherwise stays |
| `CssRewrite.RewritesIff` | internal/localize/css.go:20-63 | The rewriting ends normally on exactly the texts that are, up to letter case, a print of closed tokens |
| `CssRewrite.UnclosedEnds` | internal/localize/css.go:62-62 | It does not on the text url( |
| `CssRewrite.RewriteCSSRefs` | internal/localize/css.go:14-65 | The index loop computes the rewriting of the scanned pieces; None for the out-of-range slice on an unclosed token |
| `CssRewrite.CloseScan` | internal/localize/css.go:29-48 | The inner loop finds the closing parenthesis or the end of the text |
| `CssExtract.UnescapeEscape` | internal/repair/rewrite.go:49-62 | Unescaping undoes escaping for every text |
| `CssExtract.EscapedIsWell` | internal/repair/rewrite.go:49-62 | An escaped text never closes its token early |
| `CssExtract.EscapedIff` | internal/repair/rewrite.go:49-62 | A backslash is put before parentheses, commas, quotes and backslashes, and nothing else |
| `CssExtract.ExtractsIff` | internal/repair/extract.go:140-176 | Extraction ends normally on exactly the same texts |
| `CssExtract.CleanIff` | internal/repair/extract.go:170-176 | The three trims leave a text alone if and only if it is empty or has no Unicode white space or quote at its ends |
| `CssExtract.CleanIgnoresQuotes` | internal/repair/extract.go:170-176 | Space, quotes and space inside the quotes do not matter to extraction |
| `CssExtract.ExtractEscape` | internal/repair/extract.go:137-178 | Extracting from any stylesheet of escaped tokens among other text returns exactly the list of URLs, in order |
| `CssExtract.ExtractEscapeIff` | internal/repair/extract.go:137-178 | One escaped URL comes back if and only if it is not empty and has clean ends |
| `CssExtract.ExtractAfterRewrite` | internal/repair/extract.go:137-178 | Extraction reads a localized stylesheet as intended: the local path for each localized token, the original reference for the others |
| `CssExtract.CssEscapeURL` | internal/repair/rewrite.go:49-62 | The byte loop computes the escape |
| `CssExtract.DecodeToken` | internal/repair/extract.go:148-167 | The inner loop finds the closing parenthesis and decodes exactly the content before it |
| `CssExtract.ExtractCSSURLs` | internal/repair/extract.go:137-178 | The outer loop returns the cleaned non-empty references of all tokens in order |
| `PathNormal.CollapseSlashes` | internal/queue/strip.go:66-70 | The replacement passes terminate without a double slash and do not change what the segments resolve to |
| `PathNormal.NormalizePath` | internal/queue/strip.go:61-97 | The string passes and the stack loop compute one stack pass over the segments |
| `PathNormal.ResultForm` | internal/queue/strip.go:61-97 | Every result is / or the join of a normalized segment list on which the tilde substitution is done |
| `PathNormal.NormalForm` | internal/queue/strip.go:61-97 | The result has no dot segment, no interior empty segment and no trailing slash unless it is / |
| `PathNormal.NormalTwice` | internal/queue/strip.go:61-97 | Normalization is idempotent |
| `DotSegments.RfcOnSegments` | internal/queue/strip.go:72-84 | The buffer algorithm of section 5.2.4 of RFC 3986 is the stack pass over the segments |
| `DotSegments.RfcTrimmed` | internal/queue/strip.go:72-92 | Its result without a trailing slash, from the resolved segments |
| `DotSegments.NormalTrimmed` | internal/queue/strip.go:72-97 | normalizePath's result, from the same segments: a climb above the root costs the leading slash |
| `DotSegments.AgreesWithRfcIff` | internal/queue/strip.go:61-97 | On absolute paths without empty segments the two agree, up to the trailing slash and the tilde, if and only if no .. climbs above the root or nothing is left |
| `DotSegments.AgreesOnAbsoluteIff` | internal/queue/strip.go:61-97 | The same for every absolute path, with the RFC applied to the path whose runs of slashes are squeezed |
| `DotSegments.SqueezedAlready` | internal/queue/strip.go:68-70 | A path without double slashes is squeezed already |
| `DotSegments.ClimbLosesSlash` | internal/queue/strip.go:74-84 | /../s becomes s, where the RFC gives /s |
| `Percent.UnescapeEscape` | internal/localize/scan.go:49-49 | Unescaping undoes the escapes that url.URL.String prints, for every byte string |
| `Percent.UnescapedIff` | internal/localize/scan.go:49-49 | A path prints a character as itself if and only if it is a letter, a digit or one of thirteen marks |
| `Percent.EscapeDecodes` | internal/localize/localize.go:175-178 | Every escape is decoded, whatever the case of its digits |
| `Percent.Malformed` | internal/localize/localize.go:175-178 | A percent sign without two hexadecimal digits makes the text malformed |
| `UrlPath.ReadBack` | internal/localize/scan.go:35-50 | A saved file is read back as the escaped name of its segments, whose unescaped form is the plain name; a file beside the hosts gets two slashes |
| `UrlPath.AddUrlTo` | internal/localize/localize.go:169-188 | The closure addURL with its unescaped alias and directory aliases |
| `UrlPath.AddUrlEffect` | internal/localize/localize.go:169-188 | It registers exactly the escaped names of all forms of the file and the unescaped name of the file itself |
| `UrlPath.BuildMapping` | internal/localize/localize.go:246-268 | The reverse scan computes the mapping, file by file |
| `CloneMapping.MappedIff` | internal/localize/localize.go:246-268 | For every tree of files, those at the root included, every walk order and every name: the name is mapped to a file if and only if that file is the last one the walk registered under it |
| `CloneMapping.AddedIffUnknown` | internal/localize/localize.go:264-266 | A file is registered if and only if no file registered before it spells its escaped name unescaped |
| `CloneMapping.EscapedKnownIff` | internal/localize/localize.go:169-188 | Under the escaped name of any of its forms (its own, and /dir and /dir/ of an index file) a file is known if and only if it is registered and no file that spells the name is registered later |
| `CloneMapping.RawKnownIff` | internal/localize/localize.go:173-187 | Unescaped, a form names its file if and only if the file is registered, the form is its own or has nothing to escape, and no file registered later has it for an escaped name |
| `CloneMapping.OwnUrlIff` | internal/localize/localize.go:246-268 | A file is known under its read-back URL if and only if no registered file shadows it, before or after it |
| `CloneMapping.PercentShadows` | internal/localize/localize.go:175-178 | Only a file with a % in its name can shadow another |
| `UrlRoundTrip.PercentNameHides` | internal/localize/localize.go:175-178 | a%20b beside a b takes its URL, in both walk orders |
| `UrlRoundTrip.ChainDependsOnOrder` | internal/localize/localize.go:264-266 | With a%2520b beside them, a b keeps its URL in one walk order and loses it in another |
| `UrlRoundTrip.SavedAtOf` | internal/storage/path.go:12-72 | Where a clean URL is saved: dot segments dropped, index.html appended to a directory, the shared file for paths with .. |
| `UrlRoundTrip.OwnNameIff` | internal/storage/path.go:49-51 | A clean URL is one of the names of its own file if and only if its path has no .. and no . segment |
| `UrlRoundTrip.RoundTrip` | internal/localize/localize.go:246-268 | In every tree of saved files, walked in any order, a clean URL without dot segments maps back to its own file if and only if that file is registered and no file that shadows the URL is registered later: bare host, /dir, /dir/ and plain names; unescaped if and only if the file is registered and the URL names it or has nothing to escape |
| `UrlRoundTrip.PlainRoundTrip` | internal/localize/localize.go:246-268 | In trees without % in their names: if and only if the file is there |
| `UrlLookup.Parsed` | internal/localize/map.go:43-52 | Both spellings of a clean URL parse back to it, and unescaping the one gives the other |
| `UrlLookup.PathForIsSaved` | internal/localize/map.go:43-82 | pathForURL gives the file the storage saves the URL in, and nothing exactly for paths with .. |
| `UrlLookup.LookupIff` | internal/localize/map.go:12-41 | For every tree, walk order and clean URL: the URL as printed leads to its own file if and only if its path has no .., the file is there, and no registered file has its name unless the file is registered later; unescaped, if and only if it has no .. and the file is there, directory forms included |
| `UrlLookup.PlainLookup` | internal/localize/map.go:12-41 | In trees without % in their names: if and only if it has no .. and the file is there |
| `UrlLookup.HttpLookup` | internal/localize/map.go:12-52 | With http in front, in both spellings: the URL's own file if its path has no .. and the file is there, and otherwise nothing |
| `UrlLookup.OtherSpellings` | internal/localize/map.go:24-30 | A reference with other escapes than the printed URL finds the file that holds the unescaped name |
| `UrlLookup.OtherSchemes` | internal/localize/map.go:33-50 | A reference of another scheme finds nothing |
| `UrlLookup.HostlessNotFound` | internal/localize/map.go:50-53 | Nor does one without a host |
| `Canonical.ReducePath` | internal/localize/canonical.go:83-94 | Trim, split, loop and join compute the canonical path: the segments kept by their predecessor in the original path |
| `Canonical.NothingDropped` | internal/localize/canonical.go:119-144 | A path without markers, dated ones included, keeps every segment |
| `Canonical.PathIdempotentIff` | internal/localize/canonical.go:77-96 | With no preserved names the canonical path of any path is its own canonical path if and only if no empty segment of the path has only dropped segments on one side of it and a kept one on the other |
| `Canonical.EmptySegmentUnsettles` | internal/localize/canonical.go:83-94 | /page//x becomes //x, whose own canonical path is another |
| `Canonical.IdempotentIffNothingPreserved` | internal/localize/canonical.go:119-144 | On paths without empty segments it always is if and only if nothing is preserved |
| `Canonical.PaginationVanishesIff` | internal/localize/canonical.go:119-144 | A marker and a page number anywhere in a path, such as before index.html, vanish if and only if neither they nor the segment before them is preserved |
| `Canonical.StripDropQuery` | internal/localize/canonical.go:147-179 | The loop over the raw query computes the join of the kept items |
| `Canonical.KeptItemsExactly` | internal/localize/canonical.go:147-179 | An item survives if and only if it was there and its decoded, lower-cased key is no noise or preserved |
| `Canonical.KeptItemsConcat` | internal/localize/canonical.go:147-179 | Each item is kept or dropped by itself |
| `Canonical.StrippedItems` | internal/localize/canonical.go:147-179 | The stripped query has exactly the kept items, in their order |
| `Canonical.StripTwice` | internal/localize/canonical.go:147-179 | Stripping a raw query twice is stripping it once |
| `Pages.SameKeyIff` | internal/localize/canonical.go:77-96 | Two saved pages of a host have the same key if and only if the same segments of their paths are kept |
| `Pages.PageInDocumentGroupIff` | internal/localize/dedup.go:71-79 | dir/page/2/index.html and its like fall into the group of dir/index.html if and only if no preserved name stands in the way |
| `Pages.HeavierIsNotKept` | internal/localize/dedup.go:89-91 | Of two pages in one group the heavier is never kept |
| `Pages.PageWeighs` | internal/localize/canonical.go:183-193 | Every page below a directory named page weighs 5 |
| `Pages.WalkMisreports` | internal/localize/dedup.go:84-99 | The lexical walk reaches x/comment-page-1/index.html before x/index.html, and the manifest lists the kept page as collapsed and the other nowhere |
| `PageRules.NoiseIff` | internal/localize/canonical.go:39-44 | A path is noise if and only if its first segment, in lower case, starts with one of sixteen names or is rest, wp-includes or oembed with something after it |
| `PageRules.IsHtmlIff` | internal/localize/scan.go:53-59 | A file is a page if and only if its extension is html or htm in any letter case |
| `PageRules.NoExtension` | internal/localize/scan.go:53-59 | A file without an extension is none |
| `PageRules.WeighsIff` | internal/localize/canonical.go:183-193 | A page weighs 5 if and only if a directory on its path is named page or a segment starts with comment-page, and otherwise nothing |
| `PageRules.PageOf` | internal/localize/dedup.go:65-79 | What Dedup reads off a saved file: page, noise and weight from its extension, first segment and directories below the host |
| `PageRules.MarkerIff` | internal/localize/canonical.go:119-144 | A marker is page, paged or comment-page, alone or with a hyphen or underscore and anything after it |
| `PageRules.NumberIff` | internal/localize/canonical.go:136-142 | A page number is a decimal in the range of int64 with any leading zeros and an optional sign |
| `PageRules.OtherIsNoNumber` | internal/localize/canonical.go:136-142 | Nothing else is one |
| `PageRules.DropsItemIff` | internal/localize/canonical.go:14-20 | A query item is noise if and only if its key, in lower case, is one of twenty names or starts with utm_ and is not preserved |
| `PageRules.EncodedKey` | internal/localize/canonical.go:147-165 | A plus sign in a key counts as a space and an escape as its character |
| `PageRules.MalformedKeyStays` | internal/localize/canonical.go:147-165 | An item whose key cannot be decoded is never noise |
| `Dedup.GroupFiles` | internal/localize/dedup.go:65-92 | The loop with its counters computes the visit of all files |
| `Dedup.VisitAllGroups` | internal/localize/dedup.go:65-92 | There is a group for exactly the keys of the pages that are no noise, and its representative is the least such page by weight, then path |
| `Dedup.Counts` | internal/localize/dedup.go:66-92 | Total pages are kept plus collapsed; kept pages are the distinct keys |
| `Dedup.WalkOrderIrrelevant` | internal/localize/dedup.go:66-101 | For every two orders of the same files: same keys, same kept page for each, namely the least, and same counts |
| `Dedup.CollapsedIsAllButFirst` | internal/localize/dedup.go:78-85 | A group's collapsed list is every competing path but the first one walked |
| `Dedup.ManifestRightIff` | internal/localize/dedup.go:94-101 | The kept page is absent from its own collapsed list if and only if the first page walked is the least one |
| `Dedup.ManifestDependsOnOrder` | internal/localize/dedup.go:78-101 | For any two competing pages of different weight one walk order lists the kept page as collapsed |
| `Cron.NextRun` | internal/scheduler/scheduler.go:135-145 | The result is after the input: the least matching minute of the next 525600 if there is one, otherwise 24 hours later |
| `Cron.NextRunUnique` | internal/scheduler/scheduler.go:135-145 | That leaves no choice of result |
| `Cron.MatchFieldLoop` | internal/scheduler/scheduler.go:164-190 | The loop matches a field if it is * or one of its items, trimmed, matches |
| `Cron.LiteralMatches` | internal/scheduler/scheduler.go:164-190 | A decimal matches exactly its value |
| `Cron.RangeMatches` | internal/scheduler/scheduler.go:174-180 | A range matches exactly the values between its ends |
| `Cron.StepMatches` | internal/scheduler/scheduler.go:181-187 | A step matches exactly every k-th value from the field's minimum |
| `Cron.ListMatches` | internal/scheduler/scheduler.go:168-188 | A list matches if and only if one of its items does |
| `Cron.StarInList` | internal/scheduler/scheduler.go:164-190 | * in front of a list adds no match |
| `Cron.DailyMatches` | internal/scheduler/scheduler.go:147-162 | Fixing minute and hour only matches exactly that minute of every day |
| `Cron.DailyRunWithinADay` | internal/scheduler/scheduler.go:135-162 | For such an expression the search succeeds within 1440 minutes, at that minute of the day, whatever the calendar |
| `CronMeaning.FieldMatches` | internal/scheduler/scheduler.go:164-190 | A field written from a tree of values, spans and steps matches exactly what the tree means |
| `CronMeaning.ExpressionMatches` | internal/scheduler/scheduler.go:147-162 | For every expression of such fields, day, hour and minute: it matches if and only if minute, hour and month are meant, and the day by both day fields, or by one of them if both are restricted |
| `CronMeaning.ClockUnits` | internal/scheduler/scheduler.go:135-145 | The search goes by minutes of 60 seconds for 365 days, and a failed one waits 24 hours |
| `CronMeaning.SignedRange` | internal/scheduler/scheduler.go:174-180 | A range may have signs and text after it |
| `CronMeaning.HalfRange` | internal/scheduler/scheduler.go:174-180 | A range whose second number cannot be scanned ends at 0 |
| `CronMeaning.NoRange` | internal/scheduler/scheduler.go:174-180 | An item with a dash that does not start with a number matches exactly 0 |
| `CronMeaning.SignedStep` | internal/scheduler/scheduler.go:181-187 | A step may have a plus sign and text after it; a step of 0 matches nothing |
| `CronMeaning.NoStep` | internal/scheduler/scheduler.go:181-187 | Every other item without a dash matches only as a value's own decimal, so 5/10 matches nothing |
| `CronMeaning.LeadingZero` | internal/scheduler/scheduler.go:174-187 | Leading zeros do not matter to a scanned number |
| `CronMeaning.SpacesIgnored` | internal/scheduler/scheduler.go:168-172 | Nor does space around an item |

## Left out

- The file coordinator, the worker registry, heartbeats and `Stop` of the Redis coordinator.
- Two workers with the same ID, and Redis failover: the model has one server. Rounding of the TTL of SET NX to milliseconds.
- `RedisTiming.TickerKeepsLocks`: all callers of one key use the same TTL, and the context passed to `AcquireLock` outlives the lock.
- Interleavings inside one call of the circuit breaker: each method is one step, although `Allow` swaps the state outside the mutex.
- `HostBreakers.PhasedCleanupUnobservable`: a goroutine that fetched its breaker before it was deleted and calls it afterwards.
- `RangeStates`, which can see that `Cleanup` removed breakers; overflow of the breakers' 64-bit counters.
- `ShardedMap.ShardedMap.constructor`: beyond 2^29 processors it states the number of shards only, which may be zero; the first access then panics.
- `Has` and `Clear` of the sharded map, and the hash function: easy or foreign.
- `CrawlQueue.PriorityQueue.LoadFromCheckpoint`: items are values, so aliasing between the caller's slice and the heap is not captured.
- `SetMaxSize`, `Items`, `AllVisited` and the Redis, Postgres and Kafka queues.
- Mutexes of the queue, the LRU structures and the sharded map: their methods are atomic.
- `CrawlLoop.Crawler.Crawl`: one worker, and refusals by robots rules, host caps, limiter and breaker are a predicate on URLs; sitemap seeds count as seeds. The link loop's normalization happens before the model's links; iframe, media and route links are among them.
- `Admission.AdmittedAtMostOnce`: one goroutine at a time; two concurrent calls of `shouldQueue` for one URL are not modelled. The queue still enqueues the URL once (`CrawlQueue.RunConserves`).
- `CrawlResume.InterruptedGenuine` and the lemmas after it: a checkpoint is taken between two turns, with no page in flight.
- Pausing, checkpoint saving and pruning of host semaphores in the dispatcher; per-host URL counts, which are part of skipping a popped item.
- `CssRewrite.RewriteCSSRefs`: starts after the `@import` pass; text that is not UTF-8, or whose lower-case form has another length, is not modelled.
- `UrlRoundTrip.SavedAtOf`: queries, ports, IPv6 hosts and the second decoding of a path that still has a "%" after the first; so no `_blocked` file either.
- `UrlPath.BuildMapping`: starts empty, without the entries of `mapping.json` and `index.json`; names at the clone root consist of unreserved characters. `pageURLs` is left out.
- `UrlLookup.LookupIff`: absolute https and http URLs without query, fragment and port; resolving a reference before the lookup and the relative path computed after it are not modelled.
- `NormalizeURL` around `normalizePath`: URL parsing, default ports, query sorting.
- `Canonical.ReducePath`: lower-casing is that of ASCII letters; parsing and printing the URL around the path and the query are not modelled.
- Copying files in `Dedup`.
- `Cron.MatchFieldLoop`: Sscanf's underscores and integer overflow are not modelled.
- The `@every` form of the scheduler, time zones other than UTC, timers.
- Browser control, JS and HTML rewriting, WARC output, robots rules, rate limiting, retry back-off, the API and the web interface.

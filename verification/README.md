# s-hole: a verified model

s-hole is a DNS sinkhole for a home network. This project models its decisions and its state
machines in Dafny and proves what its code and documentation promise: the path of a query through
LAN check, local names, block list, response cache, upstream failover, counters and query log; the
concurrent protocols around it; and the name, address and access-list reasoning it rests on.

`dafny verify dfyconfig.toml` checks the whole project.

| file | models |
|---|---|
| `wrappers.dfy`, `text.dfy` | optional values, labels, suffixes, ASCII case |
| `store.dfy`, `loader.dfy` | block list and allowlist, hosts-format lists |
| `message.dfy`, `cachekey.dfy`, `cache.dfy`, `cachelife.dfy`, `records.dfy` | DNS messages, cache key, response cache, how long an answer stays, shared records |
| `address.dfy`, `reverse.dfy`, `zonetable.dfy`, `lan.dfy`, `localnames.dfy` | prefixes, reverse names, the LAN, local-only names |
| `upstream.dfy` | failover, cooldown, TCP retry |
| `record.dfy`, `handler.dfy`, `decisions.dfy`, `pipeline.dfy`, `server.dfy`, `inflight.dfy`, `sequential.dfy`, `replies.dfy`, `answers.dfy`, `privacy.dfy` | one query, when exactly it ends in which way, whole runs, the handler object, interleaved queries, what a client and an upstream see |
| `stats.dfy`, `snapshot.dfy`, `timeline.dfy` | counters and tallies, lock-free snapshots, the minute ring |
| `reload.dfy`, `writer.dfy`, `limiter.dfy` | reload gate, database writer, connection slots |
| `filter.dfy`, `search.dfy`, `zero.dfy`, `acl.dfy` | query-log search, ordered overwrite, Windows access lists |

State that the code updates in place is a class whose methods are proved against functions on
values; runs are sequences of steps over those values, and every run-level result holds for all of
them.

Results that differ from what the documentation says:

- The documentation of `Explain` promises the same decision as `IsBlocked`. That holds for every
  block set the loader fills (`Loader.ExplainAgreesWhenLoaded`). Taken by itself the store also
  accepts the root as an entry, and then the two can differ (`Blocklist.ExplainDisagreesOnRoot`,
  with the exact condition in `Blocklist.ExplainAgreesExactly`).
- "An entry lives at most maxTTL" fails for an answer section of OPT records
  (`ResponseCache.LifetimeOverADay`); `ResponseCache.LifetimeCapped` is the exact condition.
- "No upstream is contacted twice" fails for an upstream that is listed twice and in cooldown
  (`Upstreams.CooledRepeat`); `Upstreams.ContactedOnceExactly` is the exact condition. A repeated
  upstream that is not in cooldown is contacted once.
- The access-list code says an extra group only makes the check stricter. More SIDs can also mean
  fewer rights (`AccessList.MoreSidsFewerRights`); `AccessList.MoreSidsLoseExactly` is the exact
  condition.
- "Once ctx is cancelled a new request starts no pass" fails for a critical section that has already
  looked at the context (`ReloadGate.CancelCanRace`); `ReloadGate.RequestGoesAheadExactly` and
  `ReloadGate.CheckGoesAheadExactly` are the exact conditions. It holds in full for stop
  (`ReloadGate.NothingCommittedAfterStop`).
- "Flush deletes every cached answer" leaves room for a query in flight, which stores the name it
  asked for after the purge (`InFlight.InFlightStoresAfterPurge`); `InFlight.CachedAfterPurge` says
  which queries can.

## Model

| member | source | states |
|---|---|---|
| `Pipeline.CachedAgreesWithCacheless` | internal/dnsserver/handler.go:441-535 | For every run of queries, list changes, purges and sweeps, against an upstream that always answers and whose rcode, question echo and records are a function of question, CD and DO, the handler with a cache and the one without send replies with equal rcode, truncation, question section (case included) and records (TTLs aside) and write equal logs but for the cache-hit flag |
| `Pipeline.SameDecision` | internal/dnsserver/handler.go:359-535 | On one query, whatever the two clocks, TTLs and reply IDs are, both handlers come to the same verdict, except that a cached answer stands for a relayed one with the same content |
| `Pipeline.RunKeepsFaithful` | internal/dnsserver/handler.go:512-520 | In every reachable state each cache entry holds what the upstream says, without its OPT record, to the question its key stands for |
| `Pipeline.ChainLooksAtContent` | internal/dnsserver/cname.go:33-53 | The CNAME decision is the same for any two messages that differ in TTLs only, so a hit is judged like the original |
| `Pipeline.RunAccounts` | internal/dnsserver/handler.go:359-562 | Over every run: one reply for each query; one log record and one total for each accepted query; blocked, cnameBlocked, cacheHit, forwardFailures and upstreamErrors equal the numbers of records they stand for, and localPTR + localName the non-blocked synthesized records that are not SERVFAIL; every record is well formed |
| `Pipeline.RejectedLeavesNoTrace` | internal/dnsserver/handler.go:366-389 | A query from outside the LAN, without exactly one question, with another opcode or with RD=0 changes nothing but the list of replies |
| `Pipeline.HitIsNoError` | internal/dnsserver/handler.go:467-469 | A reply taken from the cache always has rcode NOERROR, so a cache hit is never an upstream error |
| `QueryHandler.BumpsAreProgram` | internal/dnsserver/handler.go:446-456 | The counter steps of every counted query, in order, are one of the programs for which the snapshot is proved consistent |
| `InFlight.QuiescentAccounts` | internal/dnsserver/handler.go:359-562 | With any number of queries in flight and every interleaving of their steps with list changes, purges and sweeps: once none is in flight, every query has its one reply, each accepted one its record and total, and every counter equals the records it stands for |
| `InFlight.LogNeverAhead` | internal/dnsserver/handler.go:446-456 | At every moment of every such run the records of a kind are at most its counter |
| `InFlight.AnswerIsUpstreams` | internal/dnsserver/handler.go:458-534 | Under any interleaving a query answered from the cache or the upstream gets what the upstream says to its own question, TTLs aside |
| `InFlight.CachedAfterPurge` | internal/cache/cache.go:167-174 | After a purge every cached answer is that of a query which came after the purge, or was in flight at it and had not stored yet |
| `InFlight.InFlightStoresAfterPurge` | internal/dnsserver/handler.go:512-520 | Such a query in flight leaves its answer in the purged cache exactly when caching is on with room for an entry and the answer can be kept at all |
| `InFlight.GoneMeans` | internal/cache/cache.go:167-174 | The queries that CachedAfterPurge leaves out are exactly those past their store at the last purge |
| `Sequential.AloneIsServe` | internal/dnsserver/handler.go:359-535 | A query that arrives and goes through its steps alone leaves lists, cache, counters, log and replies exactly as one step of the run model does, and every other query as it was |
| `Sequential.ControlIsNext` | internal/dnsserver/handler.go:359-535 | List changes, purges and sweeps do the same in both models |
| `InFlight.NeverStuck` | internal/dnsserver/handler.go:359-535 | A query that is not answered can always take its next step |
| `QueryHandler.CountedIsOneQuestion` | internal/dnsserver/handler.go:365-389 | A query is counted and logged exactly when it is on the LAN, has one question, opcode QUERY and RD=1 |
| `Decisions.RejectedExactly` | internal/dnsserver/handler.go:359-389 | A query is refused exactly when its source is not on the LAN; otherwise it is rejected with SERVFAIL, NOTIMP or REFUSED exactly for a question count other than one, another opcode and RD=0, in this order |
| `Decisions.AcceptedEndsExactly` | internal/dnsserver/handler.go:405-444 | The exact condition for each way an accepted query can end before the cache: local PTR answer, localhost, local NXDOMAIN, blocked by name; and it is looked up exactly when its lookup is not answered here, someone may be asked and no label suffix decides against it |
| `Decisions.PublicNameGoesOn` | internal/dnsserver/handler.go:441-444 | A public name is looked up exactly when it is not listed; with an empty block set every one is |
| `Decisions.LookedUpEndsExactly` | internal/dnsserver/handler.go:458-535 | A query that is looked up ends with the cached answer, else the upstream's, or unresolved without either; it is blocked instead exactly when inspection is on, the answer is NOERROR, a CNAME record leads to a listed name and the name asked for is not allowlisted |
| `Decisions.AllowlistedIsNeverBlocked` | internal/dnsserver/cname.go:25-33 | A name with an allowlisted label suffix is never blocked, by itself or by where its chain leads |
| `Decisions.RunCounts` | internal/dnsserver/handler.go:405-562 | Over every run each of the eight counters is the number of queries that ended in its way, localPTR and localName apart |
| `Decisions.NextRecordMeans` | internal/dnsserver/handler.go:405-562 | The log record of an accepted query: client, name in lower case, blocked with its source, cache hit, synthesized and rcode, each by how the query ended |
| `Decisions.CacheUse` | internal/dnsserver/handler.go:458-520 | A query answered here does not touch the cache; one that is looked up counts one hit or one miss and, short of an upstream reply, changes nothing else |
| `Decisions.ReplyIsPresent` | internal/dnsserver/handler.go:512-520 | An upstream reply that may be kept is in the cache afterwards, without its OPT records, under the key of its question and with its time, unless it was counted as dropped |
| `Decisions.PresentIsFound` | internal/dnsserver/handler.go:458-460 | What is in the cache is found, aged, by anyone who asks the same question while its TTLs last |
| `Decisions.ListChangeApplies` | internal/dnsserver/handler.go:441-444 | A change of the lists applies to the very next query |
| `Decisions.SweptHaveTimeLeft` | internal/cache/cache.go:193-229 | A sweep in a run of the handler leaves exactly the answers with time left |
| `Decisions.PurgedIsNotFound` | internal/cache/cache.go:167-174 | After a purge the next query finds nothing in the cache |
| `Decisions.LocalReplyMeans` | internal/dnsserver/edns.go:77-107 | A reply made here has the client's ID, opcode, RD, CD and question, the rcode and the records of its verdict, AA exactly on local and blocked answers, and nothing else but the client's own OPT record |
| `Decisions.RelayedReplyMeans` | internal/dnsserver/edns.go:77-107 | A relayed answer comes as it was obtained, but for the ID, the client's own OPT record and an extended rcode the client cannot take |
| `Decisions.LanUpstreamsSplit` | internal/dnsserver/localnames.go:162-170 | The upstreams on the LAN of two lists after another are those of the first and then those of the second, so with LanUpstreamsHas each is kept in its place |
| `Decisions.LanUpstreamsHas` | internal/dnsserver/localnames.go:162-170 | An upstream is among them exactly when it is listed and on the LAN |
| `Server.Handler.ServeDNS` | internal/dnsserver/handler.go:359-535 | The handler object's new lists, cache, counters, log and replies are those of one step of the run model, on every path |
| `Server.Handler.Resolve` | internal/dnsserver/handler.go:458-534 | Cache, forward, strip, store, and the chain check on either answer, in that order |
| `Server.Handler.CheckEarly` | internal/dnsserver/handler.go:365-444 | The checks before the cache, in order: LAN, question count, opcode, RD, local PTR, local names, block list |
| `Server.Handler.ChainIsBlocked` | internal/dnsserver/cname.go:33-53 | True exactly when inspection is on, the reply is NOERROR, the queried name has no allowlisted suffix, and some CNAME target is blocked |
| `Server.Handler.CountVerdict` | internal/dnsserver/handler.go:540-562 | Total first, then the counter of the outcome, and cnameBlocked after blocked |
| `Server.Handler.RecordQuery` | internal/dnsserver/handler.go:540-543 | Counts the query whatever the log mode is; client and domain reach the tallies only when the mode records the query |
| `Replies.NextReplyIsOwn` | internal/dnsserver/edns.go:77-107 | After any run the reply to the next accepted query has the client's ID, the rcode of its log record (SERVFAIL for an extended one without EDNS), and in its extra section an OPT record, the client's own without options, exactly when the query had one |
| `Replies.RunKeepsClean` | internal/dnsserver/edns.go:62-75 | In every reachable state no cached reply has an OPT record in its extra section |
| `Replies.UpstreamQueryMeans` | internal/dnsserver/edns.go:39-60 | The upstream gets a plain query with the question and the RD, CD and AD bits, and an OPT record of size 1232 without options whose DO bit is set exactly when the last OPT record of the client has it; nothing else is the client's |
| `Replies.SendIsOwn` | internal/dnsserver/edns.go:77-107 | A finished reply has an OPT record exactly when the query's extra section has one; it mirrors the UDP size and the DO bit of the last one, with no other flag and no option; without one an extended rcode becomes SERVFAIL; the rest stays |
| `Privacy.OnlyPublicNamesGoOn` | internal/dnsserver/handler.go:405-444 | A query that asks the cache or an upstream is for a public name, or a LAN name while an upstream is on the LAN, and neither it nor its reverse zone is answered here |
| `Privacy.LocalSuffixStays` | internal/dnsserver/localnames.go:56-91 | With no LAN upstream no name under a built-in local suffix is ever asked elsewhere |
| `Privacy.PublicNamesAskAll` | internal/dnsserver/handler.go:419-428 | A public name may be asked of every configured upstream and of no other |
| `Privacy.LanNamesAskTheLan` | internal/dnsserver/localnames.go:156-170 | For a LAN-only name every exchange of the failover, in both sweeps and whatever fails, is with a configured upstream of the LAN set |
| `Privacy.LanNamesAskLanAddresses` | internal/dnsserver/localnames.go:156-170 | With the LAN set that the access list finds, each such upstream has an address on the LAN |
| `Server.FindLanUpstreams` | internal/dnsserver/localnames.go:162-170 | The upstreams on the LAN, in the order of the list |
| `Privacy.LanReverseLookupStays` | internal/dnsserver/handler.go:411-417 | The reverse lookup of any IPv4 address that the LAN check admits, under any history of interface reads, is answered locally |
| `Privacy.ReverseLookupV6` | internal/dnsserver/handler.go:411-417 | The reverse lookup of an IPv6 address is answered locally exactly when the address is in a private range or in a global subnet of an interface |
| `Privacy.OnlyPtrIsLookup` | internal/dnsserver/handler.go:411-417 | Only PTR queries are reverse lookups, whatever their name looks like |
| `Privacy.LanReverseLookupV6` | internal/dnsserver/lan.go:151-175 | For an IPv6 address on the LAN it goes on exactly when the address is in no private range and no on-link prefix that holds it is a global subnet |
| `LocalNames.UnderIsLabelSuffix` | internal/dnsserver/localnames.go:117-119 | A name is under a suffix exactly when the suffix is one of its label suffixes |
| `LocalNames.ClassifyName` | internal/dnsserver/localnames.go:56-91 | The suffix loops give the class: localhost, never resolved, LAN only (suffix or single label of a non-zone type), public |
| `LocalNames.ClassMeans` | internal/dnsserver/localnames.go:56-91 | The class in terms of label suffixes: localhost, else never resolved, else local for a local suffix or a single label of a non-zone type, else public |
| `Message.StripOpt` | internal/dnsserver/edns.go:67-75 | Removes every OPT record from the extra section and keeps the others in order |
| `Message.StripTimeless` | internal/dnsserver/edns.go:67-75 | Stripping looks at no TTL |
| `Message.OthersAreKept` | internal/dnsserver/edns.go:67-75 | Every record that is not an OPT record is kept right behind those in front of it, and nothing else is |
| `Message.WantsDnssecMeans` | internal/dnsserver/edns.go:52-57 | A query asks for DNSSEC records exactly when bit 15 is set in the flags of its last OPT record |
| `CacheKey.KeyInjective` | internal/cache/cache.go:269-278 | Two queries share a cache key only when name (case kept), type, class, CD and DO all agree, for every name, even one with NULs in it |
| `CacheKey.ShowInjective` | internal/cache/cache.go:260-263 | Codes without a mnemonic never share their text with another code |
| `ResponseCache.RunKeepsInv` | internal/cache/cache.go:80-165 | In every reachable state the size is at most maxSize and every entry is a NOERROR, untruncated, non-empty answer whose lifetime is its smallest answer TTL, positive, and at most 86,400 s exactly when some answer is not an OPT record or has a TTL of at most a day |
| `ResponseCache.HitIsUnderADay` | internal/cache/cache.go:46-51 | After any run a hit with an answer other than an OPT record is less than a day old |
| `ResponseCache.HitComesFromSet` | internal/cache/cache.go:80-145 | A hit is the message of an earlier Set for the same name, type, class, CD and DO, not flushed since and not expired at the first clock read, capped and then aged by the whole seconds up to the second clock read |
| `CacheLife.HitExactly` | internal/cache/cache.go:80-101 | After any run a query is answered from the cache exactly when its key has an entry each of whose answers has some of its TTL left |
| `CacheLife.AnswerIsServed` | internal/cache/cache.go:80-145 | A stored answer is served, aged, for as long as each of its TTLs, capped to a day, has time left, whatever is asked, swept and stored in between, short of a flush and of a Set for the same question |
| `CacheLife.StaysWhileTimeLeft` | internal/cache/cache.go:147-165 | No sweep and no reclaim takes an entry each of whose answers has time left |
| `CacheLife.SweepExactly` | internal/cache/cache.go:210-229 | A sweep keeps exactly the entries each of whose answers has time left, and no counter changes |
| `CacheLife.AllSectionsAge` | internal/cache/cache.go:285-311 | Of a stored message a client sees every record of all three sections with its TTL capped to a day and lowered by the whole seconds, OPT records and everything else unchanged |
| `CacheLife.StorableMeans` | internal/cache/cache.go:109-118 | A message may be kept exactly when it is NOERROR, not truncated, has no zero TTL in its answer section and some TTL below all ones |
| `CacheLife.SetStores` | internal/cache/cache.go:119-145 | A Set of such a message stores it with the time of the call, unless the call is counted as dropped |
| `ResponseCache.AgedTTL` | internal/cache/cache.go:285-311 | A client sees each TTL as max(0, min(original, 86400) - whole seconds elapsed), and an OPT record unchanged |
| `ResponseCache.LifetimeCapped` | internal/cache/cache.go:303-327 | The stored lifetime is at most a day exactly when some answer is not an OPT record or has a TTL of at most a day |
| `ResponseCache.LifetimeOverADay` | internal/cache/cache.go:303-327 | An answer section of one OPT record is kept for longer than a day |
| `ResponseCache.LiveEntriesStay` | internal/cache/cache.go:147-165 | Apart from a flush, an entry is lost only when it has expired or its own key is stored again: sweeps and reclaims remove expired entries only |
| `ResponseCache.DropsOnlyWhenFull` | internal/cache/cache.go:129-144 | A Set is counted as dropped exactly when the message is storable, the cache is full and none of the first eight entries of the scan has expired |
| `ResponseCache.CacheKeepsContent` | internal/cache/cache.go:285-311 | Capping and ageing change nothing but TTLs |
| `ResponseCache.Cache.Get` | internal/cache/cache.go:80-101 | Returns the aged copy of an unexpired entry or nothing, and counts a hit or a miss |
| `ResponseCache.Cache.Set` | internal/cache/cache.go:109-145 | Stores, reclaims one slot or drops, as the value model does |
| `ResponseCache.Cache.ReclaimOneExpired` | internal/cache/cache.go:153-165 | Removes the first expired entry of the iteration order if it is among the first eight, and nothing when none of the first eight has expired |
| `ResponseCache.Cache.CleanupExpired` | internal/cache/cache.go:210-221 | Removes exactly the expired entries and returns how many |
| `ResponseCache.Cache.Flush` | internal/cache/cache.go:170-174 | Removes every entry and keeps the counters |
| `ResponseCache.MinAnswerTTL` | internal/cache/cache.go:313-327 | The smallest TTL of the answer section, or 0 when none is below all ones |
| `ResponseCache.AgeSection` | internal/cache/cache.go:285-299 | Lowers every TTL by the elapsed seconds, not below zero, and skips OPT records |
| `ResponseCache.CapSection` | internal/cache/cache.go:303-311 | Lowers every TTL above a day to a day, and skips OPT records |
| `SharedRecords.Copy` | internal/cache/cache.go:96-97 | New record objects, all distinct, with the values of the old ones |
| `SharedRecords.Decrement` | internal/cache/cache.go:285-299 | Ages shared record objects in place, each once, as the value model does |
| `SharedRecords.Lower` | internal/cache/cache.go:303-311 | Caps shared record objects in place, as the value model does |
| `SharedRecords.Shelf.Get` | internal/cache/cache.go:77-101 | Returns new objects with the aged values and changes no object that existed before |
| `SharedRecords.Shelf.Set` | internal/cache/cache.go:103-145 | Keeps new objects with the capped values, shares none with the caller and leaves the caller's as they are |
| `SharedRecords.GetThenWrite` | internal/cache/cache.go:77-101 | After a Get, whatever the client writes to what it got, no record of the cache has changed |
| `SharedRecords.SetThenWrite` | internal/cache/cache.go:103-145 | After a Set, whatever the caller writes to the message it gave, the cache keeps the records as they were at the call |
| `Snapshots.SafeOrderIsConsistent` | internal/stats/stats.go:283-314 | For any number of queries in flight and every interleaving of their counter steps with the loads of any number of snapshots, a snapshot whose loads follow the order rule has cnameBlocked <= blocked and the outcomes together <= total |
| `Snapshots.CodeOrderIsSafe` | internal/stats/stats.go:304-314 | The loads in code order follow the rule |
| `Snapshots.SnapshotRatios` | internal/stats/stats.go:304-339 | In every snapshot cacheHits <= forwardable and neither percentage exceeds 100 |
| `Snapshots.UnsafeOrderFails` | internal/stats/stats.go:283-303 | Every load order that breaks the rule has a run in which a snapshot is inconsistent, so the rule is exact |
| `Stats.Counter.RecordQuery` | internal/stats/stats.go:144-173 | Bumps total, then blocked; each tally counts its key and is pruned only above 4,096 entries, and both stay within the bound |
| `Stats.Counter.ResetTallies` | internal/stats/stats.go:208-213 | Empties both tallies and keeps every counter |
| `Stats.PruneBottomHalf` | internal/stats/stats.go:185-201 | Keeps half the entries unchanged, and drops none with a larger count than one it keeps, even when all counts are equal |
| `Stats.TallyRunBounded` | internal/stats/stats.go:163-171 | Over any run of queries a tally has at most 4,096 entries and never shows a count higher than the number of occurrences |
| `Stats.TallyIsExact` | internal/stats/stats.go:144-173 | While no more than 4,096 different keys are counted, a tally has exactly the keys seen, each with the number of its occurrences |
| `Stats.SortFunctionExists` | internal/stats/stats.go:190-194 | There is a sort of the kind that pruning takes: all keys of a tally, each once, by falling count |
| `ReloadGate.PassesNeverOverlap` | cmd/s-hole/main.go:954-1001 | In every run, with any number of callers, at most one pass is under way, and the wait group counts the goroutines not yet done |
| `ReloadGate.TraceOfRun` | cmd/s-hole/main.go:954-1001 | The trace has one event for each step of the run, in order and of its kind, so what is proved of traces is about what the callers did |
| `ReloadGate.BurstsCollapse` | cmd/s-hole/main.go:930-932 | From the start of a pass to its check any number of requests commit nothing, and the check commits one pass exactly when a request is queued and the check found the gate open: the commits grow by at most one |
| `ReloadGate.CommitsArePasses` | cmd/s-hole/main.go:954-1001 | In every run the commits are the passes begun plus the one, if any, about to begin: each pass has a commit of its own |
| `ReloadGate.NoSecondWorker` | cmd/s-hole/main.go:969-975 | While a worker is active a request starts no other: it is queued or refused, and the wait group does not grow |
| `ReloadGate.NothingCommittedAfterStop` | cmd/s-hole/main.go:948-953 | After stop no request starts a worker (no wg.Add) or is queued, and no check goes again |
| `ReloadGate.OneSectionAfterCancel` | cmd/s-hole/main.go:950-953 | After a cancellation only the one critical section that was already past its look at the context can still commit a pass or accept a request, and nothing does after it |
| `ReloadGate.RequestGoesAheadExactly` | cmd/s-hole/main.go:962-977 | A request starts a worker or is queued exactly when neither a stop nor a cancellation came before the look of its own critical section, however much later it acts |
| `ReloadGate.CheckGoesAheadExactly` | cmd/s-hole/main.go:985-991 | A check goes again exactly when a request is queued and neither came before the look of its section |
| `ReloadGate.CancelCanRace` | cmd/s-hole/main.go:952-953 | A run in which wg.Add follows the cancellation, because cancel does not take the mutex |
| `ReloadGate.EveryRequestServed` | cmd/s-hole/main.go:954-1001 | While the gate was never shut and the workers are idle, every request has been followed by the start of a pass |
| `ReloadGate.UnservedHasWorker` | cmd/s-hole/main.go:982-996 | A request that waits for its pass waits for an active worker, at most four of whose steps away |
| `ReloadGate.UnservedComesNearer` | cmd/s-hole/main.go:982-996 | Each step of that worker brings the pass nearer and no other step takes it farther, until it starts or the gate is shut |
| `ReloadGate.UnservedNeverStuck` | cmd/s-hole/main.go:982-996 | While a worker is active, the section that holds the mutex or the worker itself can always move |
| `QueryWriter.ReachedKeepsInv` | internal/querylog/db.go:620-669 | In every reachable state the accepted entries are, in order, those flushed once or discarded once by a purge, then the batch, then the queue; the batch is below 100 at the loop head; the table holds flushed entries in order without duplicates |
| `QueryWriter.PurgeLeavesNothingOld` | internal/querylog/db.go:332-378 | After a successful purge the table and the batch are empty and the queue holds only entries accepted after the writer received the purge |
| `QueryWriter.PurgeLasts` | internal/querylog/db.go:332-378 | From then on every row and every waiting entry was accepted after the last successful purge was received |
| `QueryWriter.PurgedMovesForward` | internal/querylog/db.go:349-378 | Only a successful purge moves that mark, and only forward |
| `QueryWriter.CloseFlushesEverything` | internal/querylog/db.go:613-669 | When the writer has drained after Close, every accepted entry has been handed to flush or was discarded by a purge |
| `QueryWriter.FatesAreFinal` | internal/querylog/db.go:671-696 | Over every run the fates given so far are only extended: no entry is flushed twice, or flushed after a purge discarded it |
| `QueryWriter.RowsAfterStep` | internal/querylog/db.go:671-698 | A flushed entry is in the table exactly when its flush kept it, and leaves it only when retention drops it or a purge deletes the table |
| `QueryWriter.NothingIsLost` | internal/querylog/db.go:620-698 | In a run without purges whose flushes and prunes keep what they are given, the table is every accepted entry but those still in the batch or the queue |
| `QueryWriter.RunLedger` | internal/querylog/db.go:573-618 | Every entry the mode records is accepted or counted as dropped; while none is dropped the accepted ones are exactly those, in order |
| `QueryWriter.StopsAfterClose` | internal/querylog/db.go:613-668 | The writer is asked to stop, and stops, only once Close has been called |
| `QueryWriter.DroppedWhenFull` | internal/querylog/db.go:580-589 | An entry is dropped exactly when the mode records it and a thousand are waiting |
| `QueryWriter.HandedOver` | internal/querylog/db.go:628-641 | A tick hands over everything received so far, and a receive exactly when the batch reaches its size |
| `QueryWriter.PurgeCompletes` | internal/querylog/db.go:642-654 | A purge that the loop receives can always run to its end, and then nothing accepted before it is left anywhere |
| `QueryWriter.CloseCompletes` | internal/querylog/db.go:655-668 | Once Close has been called the writer can always come to its end, whatever it is doing, with every accepted entry flushed or discarded by a purge |
| `SlotLimiter.ReachedKeepsInv` | internal/dnsserver/dot.go:207-254 | In every run the occupied slots are the Accepts in progress plus the connections not yet released, never more than n, and each connection releases its slot exactly once however often it is closed |
| `SlotLimiter.ReleaseNeverBlocks` | internal/dnsserver/dot.go:222-254 | A release always finds a token in the channel |
| `SlotLimiter.AllClosedAllFree` | internal/dnsserver/dot.go:222-254 | With no Accept in progress and every connection closed all slots are free |
| `SlotLimiter.ReachedKeepsLedger` | internal/dnsserver/dot.go:222-254 | In every run the state says exactly which Accepts were started, hold a slot or have returned, how often each connection was closed, and whether the listener was |
| `SlotLimiter.WaitingGoesOn` | internal/dnsserver/dot.go:222-234 | A waiting Accept can take a slot exactly when fewer than n are held, can give up exactly once the listener is closed, and can go on after any release |
| `SlotLimiter.FullCanRelease` | internal/dnsserver/dot.go:222-254 | With every slot taken some Accept or connection can give one back |
| `MinuteRing.Timeline.Series` | internal/stats/timeline.go:120-155 | The series has Points(window, width) points with aligned, adjacent starts, and each point's five counts equal the admitted events of the unbounded log since the last reset whose minute is in the point's range and in the last 1,440 minutes |
| `MinuteRing.SeriesConserves` | internal/stats/timeline.go:116-155 | The points sum to the log's count over the whole range they cover: no event is lost or counted twice between points |
| `MinuteRing.SeriesAfterEpoch` | internal/stats/timeline.go:121-134 | From a day after the epoch on, no series reaches a negative minute, for any window and width |
| `MinuteRing.ModeMeans` | internal/stats/timeline.go:81-100 | Mode none shows nothing, mode blocked the blocked queries and no other count, mode all every event |
| `MinuteRing.SeriesShape` | internal/stats/timeline.go:120-140 | Buckets as wide as asked for in whole minutes, at least one; as many as fit into the window, at least one; each right behind the one before; the last one holds the current minute |
| `MinuteRing.Timeline.Record` | internal/stats/timeline.go:39-50 | Recording in non-decreasing minutes keeps the ring in agreement with the log, in every mode |
| `MinuteRing.RingAfterEvent` | internal/stats/timeline.go:39-50 | After one event every slot still holds the counts of the last minute of its residue that had an admitted event |
| `MinuteRing.SlotReadsLog` | internal/stats/timeline.go:138-145 | Within the last 1,440 minutes a slot reads exactly the log's counts of the minute, and zero when it holds another one |
| `MinuteRing.Timeline.Reset` | internal/stats/timeline.go:53-62 | Empties every slot, which is the ring of the empty log |
| `MinuteRing.Timeline.SumMinutes` | internal/stats/timeline.go:138-151 | The inner loop counts the minutes of one point that are within the window |
| `Blocklist.Store.IsBlocked` | internal/blocklist/store.go:131-153 | True exactly when some label suffix of the normalized name is blocked and none is allowlisted |
| `Blocklist.Store.IsAllowlisted` | internal/blocklist/store.go:160-174 | True exactly when some label suffix of the normalized name is allowlisted |
| `Blocklist.Store.Explain` | internal/blocklist/store.go:205-235 | The decision, the most specific blocked and allowlisted suffixes, and every level of the walk with its memberships |
| `Blocklist.ExplainAgreesExactly` | internal/blocklist/store.go:205-235 | Explain says blocked for the same names as IsBlocked exactly when no stored empty entry decides the name |
| `Blocklist.ExplainDisagreesOnRoot` | internal/blocklist/store.go:205-235 | On a bare store that holds the empty entry the two differ |
| `Loader.ExplainAgreesWhenLoaded` | internal/blocklist/store.go:199-205 | On a block set that holds only what the loader admits, Explain says blocked for exactly the names that IsBlocked blocks, for every allowlist and every name |
| `Blocklist.SubtreeBlocked` | internal/blocklist/store.go:131-153 | A blocked name blocks its whole subtree unless an added suffix is allowlisted |
| `Blocklist.Store.Replace` | internal/blocklist/store.go:82-90 | The block set becomes the normalized domains; the allowlist is untouched |
| `Blocklist.Store.SetAllowlist` | internal/blocklist/store.go:69-77 | The allowlist becomes the normalized domains and the runtime entries are forgotten |
| `Blocklist.Store.AddToAllowlist` | internal/blocklist/store.go:241-247 | Adds one normalized entry and keeps runtime inside the allowlist |
| `Blocklist.Store.AddToAllowlistLimited` | internal/blocklist/store.go:255-269 | Adds a runtime entry unless that would exceed the limit; runtime stays inside the allowlist |
| `Blocklist.Store.RemoveFromAllowlist` | internal/blocklist/store.go:273-279 | Removes one normalized entry from both sets |
| `Blocklist.NormalizeName` | internal/blocklist/store.go:312-338 | The scan for an upper-case letter, the ASCII copy and the Unicode path give the same lowercase name without its root dot |
| `Blocklist.NormalizeMeans` | internal/blocklist/store.go:312-338 | The store takes two ASCII names for one exactly when they differ in case and a root dot at most |
| `Text.WalkVisitsSuffixes` | internal/blocklist/store.go:131-153 | The suffix walk visits exactly the label starts of a name |
| `Loader.ValidDomain` | internal/blocklist/loader.go:426-464 | True exactly for 1 to 253 characters that, after one root dot, split into two or more non-empty labels over the alphabet without a hyphen at either end |
| `Loader.ScanIsSplit` | internal/blocklist/loader.go:440-464 | The one-pass scan with a previous character accepts exactly the names all of whose labels are good |
| `Loader.ParseHostsFormat` | internal/blocklist/loader.go:368-404 | Domains and skip count of any input, line by line |
| `Loader.EntriesAreDomains` | internal/blocklist/loader.go:368-415 | Every domain that any input gives is well formed and no localhost name |
| `Loader.HostsLineGives` | internal/blocklist/loader.go:368-410 | A line with an address, white space, a name and anything behind it gives that name exactly for a sinkhole address and a name that may be listed, and is skipped otherwise |
| `Loader.NameLineGives` | internal/blocklist/loader.go:368-410 | A line with one field gives that name, without a leading wildcard label, or is skipped when it may not be listed |
| `Loader.BlankAndComment` | internal/blocklist/loader.go:368-410 | Blank lines and comments are neither entries nor skipped |
| `Loader.LocalhostMeans` | internal/blocklist/loader.go:412-424 | The localhost names: localhost, every name below it and localhost.localdomain, in any case and with a root dot or not |
| `Loader.LoadBlocklist` | internal/blocklist/loader.go:368-404 | A store filled from any input holds no empty entry and no bare label, so no line, wildcard or not, blocks a single-label name |
| `Upstreams.Forwarder.ForwardWith` | internal/dnsserver/upstream.go:119-180 | Looks at the context in front of each entry of each sweep, contacts what the looks so far allow (upstreams not in cooldown, first places only, then every entry in cooldown), stops at the first answer or at the first look that finds the context ended; a total failure has the cause of every exchange; the tracker knows exactly these failures and this success; the fallback count grows exactly for a plain answer while an encrypted upstream is listed |
| `Upstreams.ForwardsIsDetermined` | internal/dnsserver/upstream.go:119-180 | Exchanges, result and looks of a call are determined by what the network, the clock and the context do |
| `Upstreams.EndedContextStops` | internal/dnsserver/upstream.go:108-114 | Once a look finds the context ended no further upstream is contacted: the exchanges are at most those of the looks before it |
| `Upstreams.ContactedOnceExactly` | internal/dnsserver/upstream.go:151-170 | The plan has no upstream twice exactly when no upstream in cooldown at entry is listed twice |
| `Upstreams.NeverContactedTwice` | internal/dnsserver/upstream.go:123-130 | Then no two exchanges of a call are with the same upstream, whatever the network does |
| `Upstreams.CooledRepeat` | internal/dnsserver/upstream.go:155-170 | A call over a list with one upstream twice, in cooldown and down, contacts it twice: the second sweep does not update the tried set |
| `Upstreams.TurnsOf` | internal/dnsserver/upstream.go:133-170 | How many turns each upstream has: one, or one for each place in the list while in cooldown |
| `Upstreams.PlanCovers` | internal/dnsserver/upstream.go:133-170 | Every listed upstream has a turn and no other |
| `Upstreams.PlainAnswerIsFallback` | internal/dnsserver/upstream.go:182-207 | With the encrypted upstreams listed first, a plain answer means every encrypted one failed in this call or was in cooldown at entry |
| `Upstreams.FailureNamesEachOnce` | internal/dnsserver/upstream.go:209-224 | An upstream listed once is named once, with its own error, in a total failure |
| `Upstreams.AnswersWhenOneDoes` | internal/dnsserver/upstream.go:108-114 | Unless a look has found the context ended, the call succeeds exactly when some exchange of the plan would |
| `Upstreams.FailuresCounted` | internal/dnsserver/upstream.go:67-72 | Each upstream's failure counter grows by the number of its failed exchanges |
| `Upstreams.CountsAfterCall` | internal/dnsserver/upstream.go:67-79 | The failure counter of each upstream has grown by its failed exchanges of the call, from zero on, and an answer takes no count back |
| `Upstreams.CooldownAfterCall` | internal/dnsserver/upstream.go:54-79 | After a call the upstream that answered is in no cooldown, one that failed in it is for 30 s from its last failure on, and any other is as it was |
| `Upstreams.NextFirstSweep` | internal/dnsserver/upstream.go:113-152 | In the first sweep of the next call the upstream that answered has its turn, and one that failed in the call only when 30 s have passed |
| `Upstreams.Forwarder.CountPlaintextFallback` | internal/dnsserver/upstream.go:197-207 | Counts a plain answer exactly when the list has an encrypted upstream |
| `Upstreams.ExchangeIsSound` | internal/dnsserver/upstream.go:256-371 | An encrypted exchange succeeds exactly when its reply is to the question asked, a plain one exactly when the UDP reply is; a truncated UDP reply gives way to a TCP reply exactly when that is to the question too; a failure is the transport's or the mismatch |
| `Answers.FailoverIsChecked` | internal/dnsserver/upstream.go:245-265 | A reply that failover over the query's targets gives, with every exchange checked, is for the query's question |
| `Answers.MatchesMeans` | internal/dnsserver/upstream.go:256-265 | checkReply takes exactly the responses to a plain query that are for the question, the case of the name aside |
| `Answers.RunKeepsFor` | internal/dnsserver/upstream.go:250-255 | Over every run of checked forwards each cache entry has one question, of the type, class and name (case aside) of its key |
| `Answers.NextAnswerIsFor` | internal/dnsserver/upstream.go:250-255 | After any such run a relayed answer, from the cache or an upstream, is for the question asked |
| `AccessList.GrantedRights` | internal/service/acl.go:193-228 | With a DACL, a right is granted exactly when the first applicable entry that names it, directly or through a generic right, is an allow, or it is an implicit owner right and no entry is for OWNER RIGHTS; the two accumulators stay disjoint |
| `AccessList.DecisionIsFirst` | internal/service/acl.go:205-222 | The recursive decision is the word of the first entry that decides the right |
| `AccessList.OwnerAlone` | internal/service/acl.go:193-236 | Without an entry the owner alone has READ_CONTROL and WRITE_DAC; with one for OWNER RIGHTS what that one says |
| `AccessList.MapGeneric` | internal/service/acl.go:169-186 | The file rights that a mask stands for |
| `AccessList.MappedOnce` | internal/service/acl.go:169-186 | The mapping leaves no generic right and is idempotent |
| `AccessList.DenyFirstReduces` | internal/service/acl.go:193-228 | On a deny-first list the walk grants the union of the allows without the union of the denies |
| `AccessList.MoreSidsFewerRights` | internal/service/acl.go:193-228 | An added SID can take a right away |
| `AccessList.MoreSidsLoseExactly` | internal/service/acl.go:193-228 | A granted right is lost with more SIDs exactly when it is not an implicit owner right and the first entry to decide it is now a deny for an added SID |
| `AccessList.MoreSidsDecision` | internal/service/acl.go:205-222 | With more SIDs the decision on a right changes only through an entry for an added SID that now comes first |
| `AccessList.ServiceDirRights` | internal/service/acl.go:131-140 | On the service folder the service may read, execute, add files and add subfolders, and nothing else |
| `LanAccess.EveryHistoryIpv4` | internal/dnsserver/lan.go:69-149 | For every history of interface reads, failed ones included, an IPv4 source is on the LAN exactly when it is in the fixed ranges |
| `LanAccess.HoldsV4` | internal/dnsserver/lan.go:19-30 | The fixed ranges in numbers: 127/8, 10/8, 172.16/12, 192.168/16 and 169.254/16 |
| `LanAccess.ReadsAreSpaced` | internal/dnsserver/lan.go:69-76 | Two interface reads are at least 30 s apart, whatever the clock does |
| `LanAccess.RefreshMeans` | internal/dnsserver/lan.go:67-118 | After a call an IPv6 source is on the LAN exactly when it is in the fixed ranges or, if the call was due and could read, shares an interface's prefix, the /64 of a global address; otherwise as before |
| `LanAccess.RefusedMeans` | internal/dnsserver/lan.go:88-118 | The subnets a good read refuses are exactly the IPv4 ones outside the fixed ranges |
| `LanAccess.OnLinkV4` | internal/dnsserver/lan.go:93-110 | An IPv4 interface address, plain or in IPv6 form, gives the prefix of its mask, 96 less in IPv6 form, if an IPv4 mask can have it |
| `LanAccess.OwnGlobalMeans` | internal/dnsserver/lan.go:163-175 | In numbers: an own global subnet is any IPv6 one whose address is not ::, ::1, fc00::/7, fe80::/10 or ff00::/8 |
| `LanAccess.LanACL.Allows` | internal/dnsserver/lan.go:177-187 | Admits exactly what the list holds after the call; a miss reads the interfaces again when a read is due, a hit does not; for an IPv4 source, mapped or not, only the fixed ranges count |
| `LanAccess.LanACL.LanUpstreams` | internal/dnsserver/localnames.go:162-170 | The upstreams whose address the list allows, each asked in turn, in the order of the list |
| `LanAccess.FoundAreOnLan` | internal/dnsserver/localnames.go:156-170 | The upstreams found are exactly those whose address is on the LAN when it is asked for |
| `LanAccess.FoundV4` | internal/dnsserver/localnames.go:156-170 | An upstream with an IPv4 address is found exactly when the address is in the fixed ranges, whatever the interfaces say |
| `LanAccess.LanACL.Refresh` | internal/dnsserver/lan.go:69-123 | Reads only when due, keeps the last good list on a failed read, clips global IPv6 masks to /64 and refuses IPv4 subnets outside the fixed ranges |
| `LanAccess.LanACL.UnderGlobalV6` | internal/dnsserver/lan.go:162-175 | True exactly when a global IPv6 subnet of an interface covers the prefix |
| `LanAccess.LanACL.OwnPrefixPtr` | internal/dnsserver/handler.go:223-229 | True exactly when a PTR query's name spells a prefix inside a global IPv6 subnet that the list holds after the call; a miss of such a name reads the interfaces again when a read is due |
| `LanAccess.OwnAddressRecognized` | internal/dnsserver/lan.go:151-175 | The reverse name of every address in an own global IPv6 subnet is recognized |
| `LanAccess.LanPtrStaysLocalV6` | internal/dnsserver/handler.go:140-146 | The reverse name of every address in the fixed IPv6 LAN ranges is under a private zone |
| `Address.CoversMeans` | internal/dnsserver/lan.go:125-133 | The length-and-contains test is exactly inclusion of the address sets |
| `ReverseNames.PrintThenRead` | internal/dnsserver/handler.go:184-217 | ip6Prefix inverts the reversed-nibble printer of section 2.5 of RFC 3596 for every prefix of 1 to 32 nibbles |
| `ReverseNames.ReadThenPrint` | internal/dnsserver/handler.go:184-217 | Nothing else is read: a lowercase name that is read as nibbles is their printed form |
| `ReverseNames.PrefixOfMeans` | internal/dnsserver/handler.go:184-217 | The prefix that the nibbles of a name spell holds exactly the addresses that begin with them |
| `ReverseNames.Ip6Prefix` | internal/dnsserver/handler.go:190-217 | The label loop that fills the byte array gives the prefix whose leading nibbles the name spells, or nothing |
| `ReverseNames.PrivatePtrV4` | internal/dnsserver/handler.go:126-182 | A PTR query for an IPv4 address, in any case, is private exactly for the listed 32-bit ranges |
| `ReverseNames.PrivatePtrV6` | internal/dnsserver/handler.go:126-182 | A PTR query for an IPv6 address is private exactly for ::, ::1, fc00::/7, fe80::/10 and 2001:db8::/32 |
| `ReverseNames.UnderZoneMeans` | internal/dnsserver/handler.go:162-182 | Any reverse name is under a private zone exactly when its leading parts are that zone's |
| `ReverseZoneTable.ReverseZones` | internal/dnsserver/handler.go:126-160 | The table, from its spelled entries and the two generated octet ranges, holds exactly the names of the private zones |
| `ReverseZoneTable.TextsSpellZones` | internal/dnsserver/handler.go:127-146 | Each of the eighteen spelled entries is the reverse name of its address range |
| `ReverseNames.IsPrivatePtr` | internal/dnsserver/handler.go:165-182 | The label walk finds a zone exactly when some label suffix of the lowercase name is one |
| `ReverseNames.ReverseInjective` | internal/dnsserver/handler.go:184-189 | Two reverse names are equal only for the same family and the same parts |
| `ZeroFile.ZeroContent` | internal/querylog/zero.go:77-110 | Succeeds exactly when the checks pass and none of its writes and syncs (two for the header, one for each chunk, the last sync) fails; then every byte is zero and durable; the size never changes, a refused file is untouched, and at every point of the call, failed or not, and with unsynced writes at entry or not, no crash leaves a byte past the header that the call has changed under a header that is not all zero |
| `ZeroFile.ZeroBody` | internal/querylog/zero.go:98-110 | The chunk loop and the last sync keep the crash property once the header is durable, and succeed exactly when none of their calls fails |
| `ZeroFile.BodyFirstFails` | internal/querylog/zero.go:77-110 | Without the sync after the header the crash property fails |
| `ZeroFile.ChunksMeans` | internal/querylog/zero.go:96-107 | The chunk loop makes as many writes as the rest of the file has 65,536-byte pieces |
| `LogFilter.SearchIsSubstring` | internal/querylog/db.go:760-767 | The pattern built from a lowercase term matches a lowercase domain exactly when the term is a substring of it, whatever characters the term has |
| `LogFilter.EscapeLikeIsOnePass` | internal/querylog/db.go:979-984 | The three sequential replacements equal one per-character escape |
| `LogFilter.WildcardsMatchAll` | internal/querylog/db.go:976-985 | Without the escape a typed % or _ would select every name |
| `LogFilter.WhereMeans` | internal/querylog/db.go:758-790 | The clause selects the rows the filter means, and also blocked rows with a failure rcode that meet its other conditions |
| `LogFilter.WhereAgreesExactly` | internal/querylog/db.go:758-790 | Clause and filter agree on a row exactly when it is no such row |
| `LogSearch.SearchIsRight` | internal/querylog/db.go:720-790 | After any run of the handler, a search selects exactly the logged queries its filter means: substring of the domain, client, blocked flag and the outcome that the row is labelled with |
| `LogSearch.LogIsLowercase` | internal/dnsserver/handler.go:392-398 | Over every run each logged domain is lowercase |

## Left out

- Blocklist downloads, redirects and cache files, the DoH, UDP and TCP transports, TLS certificates, HTTP handlers, the dashboard, privacylint, redaction and the Windows service calls: I/O and foreign libraries.
- The SQLite WAL wipe: its correctness rests on SQLite internals.
- Configuration, warning texts, the failure and failed-reply summaries, the once-only subnet warnings and the hourly read-failure warning: mostly textual.
- Message packing, name compression, truncation to the client's UDP size and padding: a message is a record of header bits and sections. `Send` is what `send` does before the reply is fitted to its transport.
- Aliasing of messages: in the run models messages are values. The copies that the cache makes on the way in and out are modelled on the heap in SharedRecords, for one section of a message.
- Escaped dots in names: every dot separates two labels. Unicode lower-casing is the parameter `fold`, used only for non-ASCII text; case-insensitive name comparison in checkReply is the parameter `same`.
- Clocks, map iteration order, the sort order among equal counts, interface reads, the network, the file system and SQLite are inputs of the step or call that reads them.
- Steps inside one store, cache or counter call: each call is one step of InFlight, because each holds its own lock. Losses that the graph tolerates at a minute change are not modelled.
- The forward slots of the handler: whether a slot is free is an input of the query.
- Server.Handler.ServeDNS: serves one query at a time, and the LAN check, the own-prefix check and the forward are inputs; LanAccess and Upstreams model them, Answers ties the forward to failover, and InFlight interleaves queries.
- Server.FindLanUpstreams: which upstreams are on the LAN is a given set; `LanAccess.LanACL.LanUpstreams` finds it by address.
- Privacy.LanNamesAskTheLan: likewise for a given set; `Privacy.LanNamesAskLanAddresses` is about the set that the access list finds.
- Pipeline.CachedAgreesWithCacheless: the AA, AD, RD, CD and opcode bits are not compared; the cache keeps the bits of the exchange that filled it, and AD also follows the AD bit of that query, which is not part of the key.
- Replies.NextReplyIsOwn: the padding option and the truncation to the client's UDP size, which send adds afterwards, are not modelled.
- MinuteRing.Timeline.Series: a series that starts before the epoch is excluded, because the program indexes the ring with a negative number there; `MinuteRing.SeriesAfterEpoch` shows that this ends a day after the epoch.
- MinuteRing.Timeline.SumMinutes: likewise a point that starts before the epoch.
- LogSearch.SearchIsRight: question names are ASCII, which the presentation form of a name is; a search term is one that lower-casing leaves without an upper-case ASCII letter.
- AccessList.GrantedRights: a mask is the set of its bits; the layout of the 32-bit word is not modelled.
- Stats.Counter.RecordQuery: the graph is kept apart in MinuteRing, and each tally is bumped and pruned in one go.
- QueryWriter.ReachedKeepsInv: the FileLogger has a writer of its own and is not part of this model.
- Top-N listing, uptime, history queries and retention dates: they only format or sum what the modelled state holds.

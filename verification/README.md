# PeakShield: verified models of the waiting room, the rate limiter and the HTML stripper

The project models the three components of PeakShield that decide which requests get through and what the client
sees, and proves what they guarantee for every input, every interleaving and every run.

**Waiting room** (`waitingroom/waitingroom.go`). `WaitingRoomProtocol` is the concurrent protocol as a state machine:
any number of goroutines, each with a program counter, take one atomic action at a time (the optimistic increment, its
undo, the counting and queueing of a ticket, the three-way select, the claim, the release, the two halves of
`signalNext`, the drainer and its safety arm). Timers, cancellations and arrivals may happen at any moment.
`WaitingRoomInvariant` proves what every step keeps, `WaitingRoomRuns` and `WaitingRoomQuiescence` the theorems about
whole runs, `WaitingRoomPaths` what one goroutine does from start to end. `WaitingRoomLimits` shows by constructed runs
that the overshoot bound is reached, that waiters can be stranded in two ways, and that signals can overtake each other.
`WaitingRooms.WaitingRoom` is the object with its counters and channels updated in place, one method per atomic action;
it carries the run that led to its state as a ghost, so the run theorems hold of the object. "Busy" (R + P) is the
number of requests in the backend plus the signals in flight: released slots on their way to a waiter.

**Rate limiter** (`ratelimiter/token_bucket.go`). `TokenBucket` is one bucket: lazy refill, consumption and what a
sequence of calls decides. `LimiterTable` is the limiter as one map, under any sequence of calls and evictions.
`Limiters` has the objects: 256 shards (`Fnv`), bucket objects updated in place, double-checked creation and the
two-phase sweep with the calls that come between its critical sections, refined to the one map; the limiter carries the
events of its past as a ghost, so the theorems about the map hold of the object. `DoubleChecked` splits `Allow` where
goroutines interleave, `DoubleCheckedSweeps` proves what sweeps may do to such calls, and `DoubleCheckedLimits` that its
hypotheses are needed.

**Stripper** (`stripper/stripper.go`). `Scanner` has the byte loops, `Tokenizer` a recursive tokenizer as
specification, `Stripper` the real scanning loop verified against it, and `SpelledOut` the rules on bytes and string
literals, which together determine the output. `StripperTheorems` and `StripperLimits` say what the transformation does
and does not guarantee, `SurvivingTags` exactly when a script, style, link or image tag comes through, and `SecondPass`
exactly which documents stripping leaves alone. `Responses` says what the buffering response writer means for a sequence
of handler calls, and `StripperWriters` has the writer and the middleware as objects.

`Tally` holds the sums over sequences that the waiting room counts with.

## Where the code and its comments disagree

The model follows the code.

- `waitingroom/waitingroom.go:210-221` bounds the overshoot by the number of processors. No such bound exists:
  `OvershootIsUnbounded` reaches any overshoot, because a direct arrival can take a slot whose signal is still on its
  way, again and again. `OvershootIff` says for each run what the overshoot depends on.
- `waitingroom/waitingroom.go:397-419` says that an unread signal lowers the capacity for good. The counter is
  decremented before the signal is sent, so a lost signal costs no capacity (`AdmittedIffRoom`); what it can cost is
  that a waiter stays queued in front of an idle backend (`StrandedIff`, and `SwallowStrands` for a run in which it
  does).
- `waitingroom/waitingroom.go:357-358` says that only `releaseSlot` decrements `activeRequests`; the undo at line 237
  does too (`ActiveAccounting`).
- `DESIGN.md:53-59` describes unbuffered tickets that are closed; the code sends on one-slot tickets.
- `DESIGN.md:71` says that image, script and style tags are dropped. `TagSurvivesIff` gives, for each of them and for
  links, the three cases in which one is in the output: it was never closed, it stood in a small style block or another
  kept tag (`SmallStylePasses`), or a dropped block was cut out of its middle (`SpliceMakesTag`).
- `stripper/stripper.go:55-57` drops Content-Length because the stripped body has another length; one that the handler
  sets after its first call that writes is sent all the same (`StaleLengthIff`).
- `ratelimiter/token_bucket.go:85-91` says that after five idle minutes the state of an IP is irrelevant. That is so
  exactly if a bucket refills within that time (`EvictionUnobservableIff`), which the configuration does not check.

## Model

| member | source | states |
|---|---|---|
| WaitingRoomInvariant.StepKeepsInv | waitingroom/waitingroom.go:201-458 | every atomic action of every goroutine keeps the counters exact, the queue FIFO, each ticket with at most one reader, one sender and one signal, and all signals accounted for |
| WaitingRoomInvariant.BusyStep | waitingroom/waitingroom.go:222-229 | requests in the backend plus signals in flight grow only by a direct admission and shrink only when a signal is dropped on an empty queue or swallowed |
| WaitingRoomRuns.RunKeepsInv | waitingroom/waitingroom.go:178-186 | the invariant holds at every moment of every run that starts with a new waiting room |
| WaitingRoomRuns.SlotConservation | waitingroom/waitingroom.go:362-395 | at every moment, slots released = claimed + dropped on an empty queue + swallowed + in flight; no more are swallowed than there were safety timeouts |
| WaitingRoomRuns.ExpiryAccounting | waitingroom/waitingroom.go:397-458 | at every moment, safety timeouts = signals swallowed + tickets without a reader that are still queued + those dequeued and about to be sent to |
| WaitingRoomRuns.BusyAccounting | waitingroom/waitingroom.go:222-257 | between any two moments of a run, backend requests plus signals in flight change by the direct admissions, less the signals dropped and swallowed |
| WaitingRoomRuns.OvertakingIsGrowth | waitingroom/waitingroom.go:222-257 | while the queue is not empty, the arrivals that overtake it number exactly the growth of backend requests plus signals in flight, and the signals swallowed, none without a safety timeout |
| WaitingRoomRuns.OvershootIff | waitingroom/waitingroom.go:222-229 | in each run, backend requests plus signals in flight stay within MaxConcurrent + k iff every direct admission finds fewer than that |
| WaitingRoomRuns.OvershootBound | waitingroom/waitingroom.go:222-229 | so if at most k signals are in flight at each direct admission, they never exceed MaxConcurrent + k; k = 0 means no overshoot |
| WaitingRoomRuns.ActiveAccounting | waitingroom/waitingroom.go:151-158 | activeRequests = requests in the backend + requests about to undo, hence never negative; directly admitted requests still running stay within MaxConcurrent |
| WaitingRoomRuns.AdmittedIffRoom | waitingroom/waitingroom.go:222-229 | an arrival is admitted directly iff the backend and the pending undos leave room, whatever signals were lost |
| WaitingRoomRuns.ParkedIffRoom | waitingroom/waitingroom.go:256-269 | a request that tries to queue is parked, with its ticket at the back, iff fewer than QueueSize of the tickets that entered have not left, and is turned away iff QueueSize have not |
| WaitingRoomRuns.QueueAccounting | waitingroom/waitingroom.go:160-165 | queueDepth = goroutines that counted themselves and have not undone it; the queue is within QueueSize, and exceeds queueDepth by at most the orphaned tickets, at most one for each safety timeout |
| WaitingRoomRuns.FifoOrder | waitingroom/waitingroom.go:167-172 | tickets entered = tickets left, in the same order, followed by the queue; each enters, leaves and is signalled at most once, and only after it has left |
| WaitingRoomRuns.SignalsInOrderIff | waitingroom/waitingroom.go:385-395 | the signals follow the order of the dequeues throughout a run iff no send comes before that of a ticket that left the queue earlier |
| WaitingRoomRuns.SendNeverBlocks | waitingroom/waitingroom.go:367-391 | the send inside signalNext always finds an empty buffer, and the ticket has never been signalled before |
| WaitingRoomRuns.NoStrandingOfServedWaiters | waitingroom/waitingroom.go:397-419 | without safety timeouts, a ticket queued while slots were in use or signals in flight has been dequeued by the time there are none |
| WaitingRoomRuns.StrandedIff | waitingroom/waitingroom.go:222-257 | a queued ticket is stranded iff nothing has been in use, in flight or admitted since it was queued, or since a step that swallowed a signal |
| WaitingRoomRuns.StrandedWithoutExpiryIff | waitingroom/waitingroom.go:222-257 | without safety timeouts: iff nothing was in use or in flight when it was queued, and nobody was admitted directly since |
| WaitingRoomLimits.OvershootIsUnbounded | waitingroom/waitingroom.go:210-221 | for all limits and every k some run puts exactly MaxConcurrent + k requests into the backend, with at most k signals in flight at an admission, so OvershootBound is tight |
| WaitingRoomLimits.StrandingHappens | waitingroom/waitingroom.go:222-257 | for all limits some run without safety timeouts leaves a waiter parked in front of an idle backend |
| WaitingRoomLimits.SwallowStrands | waitingroom/waitingroom.go:453-457 | for all limits some run with one safety timeout does so to a waiter that was queued while a slot was on its way |
| WaitingRoomLimits.SignalsOvertake | waitingroom/waitingroom.go:386-391 | for all limits some run signals the second ticket before the first |
| WaitingRoomQuiescence.RunsAreShort | waitingroom/waitingroom.go:201-349 | a run takes at most 12 steps per arriving request, spawned drainers and forwarders included |
| WaitingRoomQuiescence.NeverStuck | waitingroom/waitingroom.go:284-347 | every goroutine that has not finished can take a step of its own, whatever the others do |
| WaitingRoomQuiescence.Quiescence | waitingroom/waitingroom.go:432-458 | when nothing can move without an arrival, every goroutine is done, both counters are 0 and no signal is in flight |
| WaitingRoomQuiescence.CanFinish | waitingroom/waitingroom.go:432-458 | every run can be completed to such an end without new arrivals |
| WaitingRoomPaths.EveryLifeIsOnThePaths | waitingroom/waitingroom.go:190-349 | whatever the others do, the actions of a finished goroutine are one of the paths of the decision tree: served directly or after its turn, turned away, forwarded, given up, or a drainer or forwarder to its end; every slot or signal it took ends in a signalNext |
| WaitingRoomPaths.TurnedAwayIff | waitingroom/waitingroom.go:256-269 | in every run, a request is turned away iff the queue was full at its own attempt to enter it |
| WaitingRoomPaths.AdmittedInTwoWays | waitingroom/waitingroom.go:222-319 | a goroutine in the backend has come by its increment alone, or by undo, queue, signal, a check that found the client there, and claim |
| WaitingRooms.WaitingRoom.constructor | waitingroom/waitingroom.go:178-186 | a new waiting room is the start of a run |
| WaitingRooms.WaitingRoom.Increment | waitingroom/waitingroom.go:222-229 | the atomic increment and the decision of path A, in place |
| WaitingRooms.WaitingRoom.Undo | waitingroom/waitingroom.go:237 | the undo of the increment |
| WaitingRooms.WaitingRoom.CountIn | waitingroom/waitingroom.go:246-251 | a new one-slot ticket, and queueDepth + 1 |
| WaitingRooms.WaitingRoom.TryEnqueue | waitingroom/waitingroom.go:256-260 | the ticket goes to the back of the queue, and the request is parked, if fewer than QueueSize tickets are in it; otherwise the request is turned away |
| WaitingRooms.WaitingRoom.Reject | waitingroom/waitingroom.go:263-269 | queueDepth - 1 for a request turned away |
| WaitingRooms.WaitingRoom.Receive | waitingroom/waitingroom.go:284-287 | a parked request takes the signal of its ticket |
| WaitingRooms.WaitingRoom.CountOut | waitingroom/waitingroom.go:294 | queueDepth - 1 after the signal |
| WaitingRooms.WaitingRoom.CheckContext | waitingroom/waitingroom.go:301 | the context check decides between claiming and forwarding |
| WaitingRooms.WaitingRoom.SpawnForwarder | waitingroom/waitingroom.go:302-306 | a disconnected request hands its slot to a spawned signalNext |
| WaitingRooms.WaitingRoom.Claim | waitingroom/waitingroom.go:312-319 | activeRequests + 1 without a check, and into the backend |
| WaitingRooms.WaitingRoom.GiveUp | waitingroom/waitingroom.go:321-345 | timeout or disconnect, possible at any moment, even with a signal waiting |
| WaitingRooms.WaitingRoom.SpawnDrainer | waitingroom/waitingroom.go:334 | the ticket passes to a spawned drainTicket |
| WaitingRooms.WaitingRoom.Release | waitingroom/waitingroom.go:362-364 | activeRequests - 1, before signalNext |
| WaitingRooms.WaitingRoom.Dequeue | waitingroom/waitingroom.go:386-394 | signalNext takes the front ticket, or ends on an empty queue |
| WaitingRooms.WaitingRoom.Send | waitingroom/waitingroom.go:390 | the separate send on the dequeued ticket, whose buffer was empty |
| WaitingRooms.WaitingRoom.DrainReceive | waitingroom/waitingroom.go:437-438 | the drainer takes the late signal |
| WaitingRooms.WaitingRoom.DrainCountOut | waitingroom/waitingroom.go:442-451 | queueDepth - 1, then on to signalNext |
| WaitingRooms.WaitingRoom.Expire | waitingroom/waitingroom.go:453 | the safety arm, even with a signal waiting |
| WaitingRooms.WaitingRoom.ExpireCountOut | waitingroom/waitingroom.go:456 | queueDepth - 1 after the safety arm |
| WaitingRooms.WaitingRoom.GetStats | waitingroom/waitingroom.go:610-617 | what /stats reports, in terms of where the goroutines are |
| TokenBucket.AnyClockBound | ratelimiter/token_bucket.go:349-391 | under any clock, even one that steps back: tokens stay in [0, burst], and calls allowed + tokens left are covered by the initial tokens + ratePerNano x the nanoseconds by which the latest reading exceeds the initial refill time |
| TokenBucket.RefillComposes | ratelimiter/token_bucket.go:360-376 | two lazy refills are one, under the cap |
| TokenBucket.LazyEqualsTicker | ratelimiter/token_bucket.go:23-38 | a background ticker that refills at any moments gives what one lazy refill gives |
| TokenBucket.TokensAreLeastSlack | ratelimiter/token_bucket.go:349-391 | the tokens a call finds are the least slack burst + rate x length - allowed of all windows that end with it |
| TokenBucket.AllowedIff | ratelimiter/token_bucket.go:349-391 | a call is allowed iff it fits into burst + ratePerNano x length in nanoseconds of every window that ends with it |
| TokenBucket.NextTokenIff | ratelimiter/token_bucket.go:360-390 | a bucket without a whole token allows the next call iff what it has and ratePerNano x the nanoseconds since its refill make one |
| TokenBucket.MostPermissive | ratelimiter/token_bucket.go:349-391 | no other decision sequence that respects every window ever allows more calls |
| TokenBucket.DeniedCallsLeaveNoTrace | ratelimiter/token_bucket.go:360-390 | dropping any rejected calls leaves all other decisions and the bucket as they were |
| LimiterTable.Isolation | ratelimiter/token_bucket.go:240-261 | deleting all events of other IPs changes neither the answers for an IP nor its bucket |
| LimiterTable.SwapUnrelated | ratelimiter/token_bucket.go:470-514 | neighbouring calls and evictions that concern different IPs can be swapped without effect on any answer or on the table |
| LimiterTable.OneBucketPerIp | ratelimiter/token_bucket.go:240-261 | without evictions an IP is answered by one bucket, full at its first call |
| LimiterTable.EachIpSeesItsOwnBucket | ratelimiter/token_bucket.go:240-261 | the same with any interleaved sweeps, when a bucket refills within the idle timeout |
| LimiterTable.EvictionUnobservable | ratelimiter/token_bucket.go:460-516 | then a limiter with arbitrary sweeps, calls between the phases included, answers as one that never evicts, and its table differs from that one's only by buckets that are full again |
| LimiterTable.EvictionUnobservableIff | ratelimiter/token_bucket.go:85-91 | eviction is unobservable for every sequence of calls and sweeps iff burst is at most 300,000,000,001 x ratePerNano: a refill within five minutes and a nanosecond |
| Fnv.KnownHashes | ratelimiter/token_bucket.go:405-411 | the hash has the published FNV-1a values of "", "a" and "foobar" |
| Fnv.ShardIsEightBitFnv | ratelimiter/token_bucket.go:405-411 | the shard of an IP is an 8-bit FNV-1a of it, which starts with 197 and multiplies by 147 |
| Fnv.LastByteDecidesShard | ratelimiter/token_bucket.go:393-411 | IPs that differ only in the last byte are in different shards |
| Fnv.ShardIsRemainder | ratelimiter/token_bucket.go:74-78 | masking the hash is taking it modulo 256 |
| Limiters.BucketRef.Take | ratelimiter/token_bucket.go:349-391 | refills by ratePerNano x elapsed nanoseconds up to the burst, unless the clock stepped back; allows the call and takes a token iff there is a whole one; notes the time as last seen; all this is Consume |
| Limiters.Limiter.constructor | ratelimiter/token_bucket.go:203-225 | 256 distinct empty shards, and the configured rate per second as a rate per nanosecond |
| Limiters.Limiter.ShardOfHash | ratelimiter/token_bucket.go:405-411 | an IP lives in the shard that its hash modulo 256 names |
| Limiters.Limiter.GetOrCreate | ratelimiter/token_bucket.go:304-330 | returns the bucket object of the single map, inserting one that is full and seen now only if there is none |
| Limiters.Limiter.TakeToken | ratelimiter/token_bucket.go:349-391 | consumes from the bucket of one IP and leaves the buckets of all others alone |
| Limiters.Limiter.Allow | ratelimiter/token_bucket.go:240-261 | the sharded limiter answers and changes as the single map does, and stays the map that its past calls and evictions make |
| Limiters.Limiter.Serve | ratelimiter/token_bucket.go:240-261 | any number of calls in a row are those calls to the single map |
| Limiters.Limiter.EachIpHasItsOwnBucket | ratelimiter/token_bucket.go:240-261 | the answers this object has given to an IP, whatever calls and sweeps it has seen, are those of one bucket, when a bucket refills within the idle timeout and the clock does not step back |
| Limiters.Limiter.Scan | ratelimiter/token_bucket.go:477-491 | phase 1 collects exactly the idle IPs of the shard |
| Limiters.Limiter.DeleteIdle | ratelimiter/token_bucket.go:499-510 | phase 2, given any candidates, removes exactly those of the shard not seen for more than five minutes before the sweep, and changes no other bucket |
| Limiters.Limiter.SweepShard | ratelimiter/token_bucket.go:470-514 | both phases for a shard, with any calls before and between them: only these calls and evictions by this sweep happen, and an idle IP of the shard that is not called is gone |
| Limiters.Limiter.RunGC | ratelimiter/token_bucket.go:460-516 | a sweep with any calls at all 512 moments at which it holds no lock is a sequence of these calls, in order, and evictions; an IP not called meanwhile keeps its bucket, unchanged, iff it was seen within the last five minutes; one that is called has a bucket afterwards |
| Limiters.Limiter.TrackedIPs | ratelimiter/token_bucket.go:266-276 | with any calls between the shards, the sum lies between the number of IPs before and after; without, it is the size of the single map |
| DoubleChecked.OneObjectIff | ratelimiter/token_bucket.go:247-257 | however lookups, creations and evictions interleave, all goroutines of an IP get one bucket object iff no eviction of the IP is followed by a creation for it |
| DoubleChecked.BucketsAreNotMixed | ratelimiter/token_bucket.go:304-330 | no bucket object ever serves two IPs, in any run |
| DoubleChecked.AllowIsLinearizable | ratelimiter/token_bucket.go:304-330 | then, under any clock, concurrent calls for the IP are answered in the order of their consumes as by one bucket that was full at its creation |
| DoubleChecked.UndisturbedIsAllow | ratelimiter/token_bucket.go:240-261 | the steps of a call that nothing interrupts are one Allow of the single map, with its answer |
| DoubleChecked.SweepIsPurge | ratelimiter/token_bucket.go:499-510 | the step of a sweep is a purge of the single map |
| DoubleCheckedSweeps.SweepsAreHarmless | ratelimiter/token_bucket.go:499-510 | also with evictions and new buckets, concurrent calls are answered as by one bucket, if it refills within the idle timeout, the clock does not step back and no goroutine holds a bucket while it is evicted |
| DoubleCheckedLimits.SweepsAreHarmlessIff | ratelimiter/token_bucket.go:85-91 | for given limits this holds in all runs without orphaned buckets iff burst is at most 300,000,000,001 x ratePerNano |
| DoubleCheckedLimits.OrphanedBucket | ratelimiter/token_bucket.go:499-510 | with an eviction between lookup and consume it fails for all limits: burst + 1 calls get through at one instant, as no single bucket allows |
| Scanner.HasTagPrefix | stripper/stripper.go:219-240 | each byte is that of the prefix or its capital, and then comes the end or one of '>', ' ', tab, line feed, carriage return and '/' |
| Scanner.MatchMeans | stripper/stripper.go:248-263 | a match at any place: each byte is that of the target or its capital |
| Scanner.FindFold | stripper/stripper.go:243-265 | the search loop computes IndexFold |
| Scanner.IndexFoldIsFirst | stripper/stripper.go:243-265 | which is the first occurrence up to case, and -1 iff there is none |
| Stripper.StripTag | stripper/stripper.go:145-213 | the rules at a '<' write what the token there becomes, and move on by its length |
| Stripper.StripHTML | stripper/stripper.go:130-215 | the scanning loop terminates and appends the rendered tokens of the recursive tokenizer |
| SpelledOut.RulesSpelledOut | stripper/stripper.go:147-213 | at a '<', each rule applies iff the literal tag name begins there, ends as a name, and its literal end tag or a '>' follows (and, for body, no notice has been injected) |
| SpelledOut.ScriptForm | stripper/stripper.go:147-153 | `<script`, a byte c and any rest: a script block iff c is one of the six bytes that end a name and the rest has an end tag |
| SpelledOut.StyleForm | stripper/stripper.go:156-161 | the same for `<style` |
| SpelledOut.TagForms | stripper/stripper.go:172-208 | the same for `<link`, `<img` and, before the notice, `<body`, with the first '>' as the end |
| SpelledOut.ScriptGoes | stripper/stripper.go:147-153 | nothing is written for a script block, up to its first end tag |
| SpelledOut.StyleGoesIfLarge | stripper/stripper.go:156-168 | nothing for a style block of more than 2048 bytes; a smaller one is written as it is |
| SpelledOut.LinkGoesIfStylesheet | stripper/stripper.go:172-186 | nothing for a link tag that mentions "stylesheet"; any other is written as it is |
| SpelledOut.ImageIsReplaced | stripper/stripper.go:189-196 | `<span>[img]</span>` for an image tag |
| SpelledOut.NoticeFollowsBody | stripper/stripper.go:199-208 | the first body tag and then the notice; no notice after a later one |
| SpelledOut.OthersPass | stripper/stripper.go:135-214 | every other byte as it is: text, and a '<' at which no rule applies |
| SpelledOut.OutIsStripped | stripper/stripper.go:130-135 | from the start of a document and without a notice yet, Out is the whole output; at the end it is empty |
| SpelledOut.CaseDecidesNothing | stripper/stripper.go:217-265 | documents that differ in the case of letters have outputs that differ in the case of letters |
| StripperTheorems.SourcesMakeInput | stripper/stripper.go:130-215 | the tokens' source pieces put together are the input |
| StripperTheorems.RuleAppliesIff | stripper/stripper.go:147-213 | each rule applies exactly when its own tag and end are there, so their order does not matter; a '<' passes alone iff no rule applies |
| StripperTheorems.TokenEnds | stripper/stripper.go:135-213 | a block ends at its first end tag, a tag at its first '>', a text before the next '<'; a style block is dropped iff it exceeds 2048 bytes, a link iff its tag mentions a stylesheet |
| StripperTheorems.OnlyDeletions | stripper/stripper.go:130-215 | the output is kept pieces of the input interleaved with insertions, each of them the notice, a placeholder or nothing; the kept pieces joined are a subsequence of the input |
| StripperTheorems.SizeBound | stripper/stripper.go:188-214 | 5 x output <= 18 x input + 5 x notice, and at most one notice |
| StripperTheorems.SizeBoundIsReached | stripper/stripper.go:188-196 | the factor 18/5 is reached at every size |
| StripperTheorems.NoticeIff | stripper/stripper.go:198-208 | the notice is inserted iff a closed body tag is met at a token boundary |
| StripperTheorems.StrippingIgnoresCase | stripper/stripper.go:217-265 | lower(strip(x)) = lower(strip(lower(x))) |
| SurvivingTags.TagSurvivesIff | stripper/stripper.go:147-213 | the output has a script (style, link, image) tag iff one at a token boundary is never closed, or one is inside a kept style block, link or body tag, or the texts around dropped tokens come together to one |
| SurvivingTags.NewTagIff | stripper/stripper.go:147-183 | a document without tags of one of these kinds gets one iff such a splice happens at a lone '<' |
| SurvivingTags.SpliceNeedsDrop | stripper/stripper.go:147-183 | which takes a dropped token within the name of the tag and the next byte |
| SurvivingTags.BannerIsHarmless | stripper/stripper.go:133 | the notice of the source has none of these tags and no body tag, and ends its last tag, as these theorems suppose |
| StripperLimits.SpliceMakesTag | stripper/stripper.go:147-154 | a tag name cut in two anywhere by a script block comes out whole, whatever follows |
| StripperLimits.SmallStylePasses | stripper/stripper.go:156-168 | a style block of at most 2048 bytes passes with everything in it, closed scripts included |
| StripperLimits.NotIdempotent | stripper/stripper.go:130-215 | stripping twice is not stripping once: a second pass can delete what the first one has put together |
| SecondPass.UnchangedIff | stripper/stripper.go:130-215 | a document comes out as it went in iff it has no closed script block, large style block, stylesheet link, image or body tag at a token boundary; no deletion is ever made up for by an insertion |
| SecondPass.SecondPassIff | stripper/stripper.go:130-215 | so a second pass changes nothing iff the first one has left none of these at a token boundary |
| SecondPass.BannerIsInert | stripper/stripper.go:133 | the notice of the source is passed over by every rule, as these theorems suppose |
| StripperWriters.StripperWriter.WriteHeader | stripper/stripper.go:46-65 | the first status counts; a type with "text/html" in it, in any case, holds it back and drops Content-Length; otherwise it goes out at once |
| StripperWriters.StripperWriter.Write | stripper/stripper.go:68-83 | an implicit 200 with content sniffing, then buffer or pass through |
| StripperWriters.Serve | stripper/stripper.go:86-126 | above the threshold the middleware delivers what Responses says, whatever the pooled buffers held before; up to it, all chunks pass, and each WriteHeader sends its code with the headers as the calls before it leave them |
| Responses.ClientSees | stripper/stripper.go:46-124 | one head, with the code of the first call that writes, or 200 if that is a Write, and a body: the stripped chunks if the type in force then (sniffed if none is set) has the letters of "text/html" in it, the chunks themselves if not; a verbatim response has the headers of that moment, a stripped one those set last, but no length set before; nothing if nothing was written |
| Responses.PagesAreStripped | stripper/stripper.go:54-60 | with "text/html" in any case and anything around it as the type, the body is stripped |
| Responses.PicturesPass | stripper/stripper.go:54-64 | with "image/png" it is not |
| Responses.OneChunk | stripper/stripper.go:79-82 | a Write adds its chunk to the body, every other call nothing |
| Responses.ChunksJoin | stripper/stripper.go:79-82 | the body of calls in a row is their bodies in a row |
| Responses.LastSettingHolds | stripper/stripper.go:46-83 | the headers in force are those set last, or those before if none was set |
| StripperWriters.BannerSize | stripper/stripper.go:133 | the notice has the 291 bytes of the literal |
| Responses.StaleLengthIff | stripper/stripper.go:54-61 | a stripped body goes out with a Content-Length iff the handler sets one after its first call that writes and does not take it back |
| Responses.ChunksDoNotMatter | stripper/stripper.go:68-83 | with the content type set, two handlers with the same first status and the same bytes give the same head and body however they cut them |

## Left out

- EvictionUnobservable: evictions come between complete `Allow` calls; `SweepsAreHarmless` is the statement for calls in progress.
- SweepsAreHarmless: supposes that no goroutine holds the bucket between lookup and consume while it is evicted; otherwise it is false for all limits (`OrphanedBucket`).
- SweepShard: calls to other shards that run while the lock of this one is held are taken to come before or after; by `SwapUnrelated` that changes no answer.
- RunGC: as for SweepShard.
- TrackedIPs: calls may come between two shards, sweeps not; with one, the sum is only of shard sizes at different moments.
- float64 rounding: token counts are reals.
- int64 wrap-around of the counters and of nanosecond times: integers are unbounded.
- Clocks and timers: clock readings are inputs of the limiter; every timer arm of the waiting room may fire at any time.
- Ticket channels as heap objects: a ticket is an index into the buffers of all tickets, so aliasing of channels is not modelled.
- A panic in the backend handler: the deferred release runs as after a normal return, so it is not a case of its own.
- Wait pages, Retry-After and `estimateWait`: user interface and heuristics.
- `http.DetectContentType`: an arbitrary function; non-ASCII letters in `strings.ToLower` of a content type do not occur in "text/html".
- net/http below the writer: it is a recorder of status lines and body bytes, without an implicit 200 of its own.
- Accept-Encoding removal in the stripper, logging and metrics.
- `sync.Pool`: the pooled buffers are two different buffers with arbitrary contents.
- The two lock levels of the limiter: each critical section is one atomic step.
- Running time, including the claim that the stripper is O(N).
- `proxy`, `middleware`, `config` and `main`: transport, wiring and parsing; only the validated ranges of the limits are used.

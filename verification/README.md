# Market-data aggregator: a Dafny model

This project models the parts of the aggregator where a mistake is silent, and proves what they
promise. Each section below names the modules that hold a component. `dafny verify dfyconfig.toml`
checks everything.

## What is modelled

**The lease protocol** (`Assign`, `Lease`, `LeaseProtocol`, `LeaseTightness`). Membership by lease,
without consensus. Each node repeats clock capture, announce, read, decide, and then sleeps for a
renewal; announcements may fail or apply and be reported failed; crashes, restarts and withdrawals
come at any point. The registry is one linearizable map in which writes do not apply late. A node's
clocks are within `skew` of true time. The protocol bounds no step's duration, so the model does,
explicitly: `bound` is the longest true time from one step's clock capture until the next step's
decision takes effect, for every node that has a lease, settling ones included. The hypothesis
`Timely` asks that a node which goes blind and misses every renewal its hold allows is gone before
its record expires, and before a joiner it missed has settled. Under it no stream ever runs twice,
and with exact clocks it is necessary too. For settings as the source asks for them it means that
the renewals that begin within one hold, each as late as the bound allows, fit into the ttl, or the
bound exceeds the guard by at most 1 ms. The shipped timings leave no slack: with 15 s, 3 s and 2 s
the condition is a bound of at most 3 s, the sleep alone, because five steps of 3 s are exactly the
ttl; a fifth of the ttl is the same. Node ids are integers, of which only the order matters; weights
are any function.

**Rolling windows** (`Tally`, `Coverage`, `Windows`, `WindowReadings`, `CrossWindows`,
`CrossReadings`). One lazily cleared ring of buckets, with an array, against the naive computation
over the whole history, for every span at once; the exact account of untrusted time; and what each
indicator of a reading says of the observations stamped in its span. A ghost flag `intact` records
whether every stamp came less than a full ring late, since a later one erases a newer bucket.
`CrossWindows` merges venues' readings; because each is already rounded to eight places, the merged
price is not always the exact pooled one its description claims: it is exactly if the roundings do
not carry it over a rounding boundary, and never further off than 10^-8. `CrossReadings` says which
venues a merged reading is made of and why the others are left out.

**Books and replay** (`Book`, `BookContents`, `BookDepth`, `VenueSync`, `BookLife`). Two sorted maps
with a trust state: what a snapshot and a delta leave in them, said of the levels served; depth
pruning and its margin; when the book is live, since when, how recently verified, and otherwise why
not; and the emitted log that rebuilds it. A replay's contents are always the live ones; it trusts a
book the live run does not exactly if distrust that leaves no event hit a live book, no snapshot
came since, and every checksum since was right. Venues appear through what a book needs of them:
their integrity and, if any, their checksum. A venue forwards only trades and heartbeats.

**The scripted venue** (`FakeVenue`, `GapGuarantee`). A script with a reference book, a damaged
tape, three disciplines. Contiguous numbers serve only right books, for every damage and every
reconnect, exactly if the script's unparsable snapshots are harmless: a snapshot moves the expected
number before its levels are parsed, so one that then fails hides the gap before it. Order alone
serves exactly the folds of strictly forward choices of frames.

**The depth audit** (`Audit`, `AuditOutcomes`, `AuditTrail`). Two truncated windows compared by
price, what the outcome says of the prices both cover, and the evidence over many audits. A policy
of one never acts on a first finding, although its description says so.

**The channel** (`Channel`, `ChannelSafety`, `ChannelGuarantees`, `ChannelClosing`). Any number of
sender tasks and one receiver, interleaved at every lock, atomic access and notification; memory is
sequentially consistent, each sender task has a handle of its own, and a cancelled wait hands a
single wakeup on. Closing by hand has two surprises: a send already past its check can be queued
after `recv` reported the end, and a lossless send waiting for room is not woken.

**The archive** (`Codec`, `CodecRoundTrip`, `CodecReading`, `Calendar`, `Keys`, `ArchiveLedger`,
`WriterSteps`, `Writer`, `WriterRuns`, `FileWindows`, `RowGroups`, `Archive`, `Listing`, `Merge`,
`MergeOrder`). Rows and back, however they fall into batches; which files can be read at all, and
what the error says of one that cannot; part numbers that survive restarts, with uploads and
listings that fail or lie; the calendar in the key and the order of keys, with the exact point where
a wider year or part turns it back; and the merge on reading. The writer's methods compute functions
on values, so that what any sequence of processes did is a function of their calls: every event
taken is in exactly one file, every file is stored, refused or still open, and rows taken are rows
stored plus those of files refused or open at a crash. A file's events lie in the roll window of its
first one, under its key's date and hour, and come less than the limit after it. That limit does not
bound how long a file stays open, as its description says it does: a file is closed only by an event
of its own partition that may not join it, or with the writer, so a quiet symbol's file may stay
open for ever.

**Two accounts of trust** (`TrustTime`, `StreamRuns`). The desync clock of the aggregator and the
coverage of the windows, against the time a book spent in each phase. The windows' half is right for
every run. The desync clock is off by what late messages add or take: stamps in order never do, and
in general time is conserved throughout a run exactly if no message enters desync stamped before the
windows' clock, or leaves one whose start and end are both stamped before it. `StreamRuns` is the
aggregator's loop seen by one stream: what a snapshot publishes is the naive reading of every
message before it, and no print is lost or counted twice.

Throughout, prices and quantities are exact reals, times are integers, and integers are unbounded
except where a column or a format bounds them. The network, clocks, the registry's and the store's
failures, hashes, checksums and decimal text are parameters or free choices.

## Model

| member | source | states |
|---|---|---|
| Assign.OwnerIsTheWinner | crates/ma-coord/src/assign.rs:92-105 | The owner of a stream is exactly the member that beats every other by weight, ties to the smaller id; there is an owner iff there is a member that wins. |
| Assign.OwnerHasTheGreatestWeight | crates/ma-coord/src/assign.rs:92-105 | The owner is exactly the member that gives the stream the greatest weight, of several the one with the smallest id. |
| Assign.SomeoneOwns | crates/ma-coord/src/assign.rs:92-105 | Nobody owns a stream only if the membership is empty, and an owner is always a member. |
| Assign.OwnerDependsOnlyOnMembership | crates/ma-coord/src/assign.rs:94-104 | For any weight function the owner depends on the set of members alone, not on their order or repetition. |
| Assign.AssignmentsPartitionTheStreams | crates/ma-coord/src/assign.rs:108-114 | Every stream is assigned to exactly one member, and to nobody else. |
| Assign.MembershipChangeMovesOnlyWhatItMust | crates/ma-coord/src/assign.rs:92-114 | When the membership grows, a stream changes owner only to a new member; read backwards, when it shrinks only the departed members' streams move. |
| Assign.MutuallyVisibleNodesShareNothing | crates/ma-coord/src/assign.rs:108-114 | Two nodes with possibly different views, each containing the other, are assigned disjoint streams. |
| Lease.LiveMembersAreTheUnexpired | crates/ma-coord/src/lease.rs:478-487 | A view is the ascending list of exactly the nodes that have an unexpired record. |
| Lease.ReadOrderDoesNotMatter | crates/ma-coord/src/lease.rs:478-487 | Two readers of the same set of records at the same wall time compute the same view, whatever order they read them in. |
| Lease.DecisionMeans | crates/ma-coord/src/lease.rs:399-457 | Without a round trip in the last ttl less guard a node stands down and keeps nothing but its view; until ttl plus guard after it settled it owns nothing; then it owns exactly the streams its members assign it. |
| Lease.LeaseState.constructor | crates/ma-coord/src/lease.rs:370-381 | A fresh process has no contact, no members and owns nothing. |
| Lease.LeaseState.NoteContact | crates/ma-coord/src/lease.rs:387-396 | Contact starts the settling period only if there was none. |
| Lease.LeaseState.StandDown | crates/ma-coord/src/lease.rs:449-457 | Standing down drops every stream and the lease, and restarts the settling period. |
| Lease.LeaseState.Reconcile | crates/ma-coord/src/lease.rs:399-447 | Past the hold the node stands down, inside the settling period it owns nothing, and otherwise it owns its assignment under its current view. |
| Lease.LeaseState.FinishStep | crates/ma-coord/src/lease.rs:301-308 | After the registry replies: contact and view are updated only by a complete round trip, then the node reconciles with the clock captured before the I/O. |
| LeaseProtocol.NextKeepsInv | crates/ma-coord/src/lease.rs:276-336 | Every action of the asynchronous system (clock capture once the sleep is over, announce that may fail or apply and fail, read, decide, stop, withdraw, crash, restart, time passing) keeps the invariant, which says how far apart a node's steps are and, of any two nodes, when one shows in the other's records. |
| LeaseProtocol.ReachesKeepsInv | crates/ma-coord/src/lease.rs:276-308 | So the invariant holds after every run from every initial registry. |
| LeaseProtocol.ReadShowsClaims | crates/ma-coord/src/registry.rs:204-245 | A registry read lists the record of every node whose claim was announced before it. |
| LeaseProtocol.HoldersSeeEachOther | crates/ma-coord/src/lease.rs:387-457 | Under the timing hypothesis a node that holds streams is in the view of every other node that does. |
| LeaseProtocol.HolderHasSettled | crates/ma-coord/src/lease.rs:425-431 | A node that holds streams has served its settling period in steps no closer together than the sleep between them. |
| LeaseProtocol.NoStreamRunsTwice | crates/ma-coord/src/lease.rs:209-221 | Safety: under the timing hypothesis, in every reachable state of any number of nodes holders see each other and no stream is owned twice. |
| LeaseProtocol.WithinTheGuardIsTimely | crates/ma-coord/src/lease.rs:188-191 | It is enough for the timing hypothesis that the bound, and four skews, fit the guard. |
| LeaseTightness.ExclusiveExactlyWhenTimely | crates/ma-coord/src/lease.rs:276-336 | With exact clocks and something to share, every reachable state of the loop, sleeps included, is exclusive if and only if the timing hypothesis holds. |
| LeaseTightness.AttemptsMustFitTheTtl | crates/ma-coord/src/lease.rs:183-191 | For a positive guard, a renewal of more than 1 ms and shorter than the hold, and a bound no shorter than it, the hypothesis holds if and only if the renewals that begin within one hold, each as late as the bound allows, fit into the ttl, or the bound exceeds the guard by at most 1 ms. |
| LeaseTightness.ShippedTimingsLeaveNoSlack | crates/ma-coord/src/lease.rs:194-207 | With the default timings ownership is exclusive over every run if and only if the bound is at most the 3 s a node sleeps; with the server's fifth and seventh of the ttl (crates/ma-server/src/main.rs:142-147) any bound above the sleep admits a stream owned twice. |
| Tally.TallyOfConcat | crates/ma-core/src/window.rs:290-308 | Tallying is a homomorphism, so a window may be read bucket by bucket. |
| Tally.TallyMeaning | crates/ma-core/src/window.rs:290-308 | A tally's high and low are attained bounds of the mids and its integrity the weakest seen; they exist exactly if there are samples. |
| Tally.TallyCountsAndSums | crates/ma-core/src/window.rs:290-308 | A tally's counts are the numbers of samples and of prints, and its sums the totals of their mids, spreads, quantities and payments. |
| Tally.RangeCounts | crates/ma-core/src/window.rs:428-470 | A range read bucket by bucket has exactly the samples and the prints stamped in it. |
| Tally.TallyEnds | crates/ma-core/src/window.rs:290-300 | A tally's first and last are the first and last samples seen. |
| Tally.RangeIsEverythingWithin | crates/ma-core/src/window.rs:428-470 | Reading a range bucket by bucket sees the observations of that range and no others, each once. |
| Coverage.IndexIsQuotient | crates/ma-core/src/window.rs:574-578 | The bucket of an instant, counted bucket by bucket, is the quotient the code computes; instants before the origin are bucket zero. |
| Coverage.BucketHolds | crates/ma-core/src/window.rs:574-585 | Every instant from the origin on lies between the two ends of its bucket. |
| Coverage.TimeIsConserved | crates/ma-core/src/window.rs:518-572 | In any interval the log covers, trusted and untrusted time add up to the time elapsed. |
| Coverage.TrustedMsIsTight | crates/ma-core/src/window.rs:447-456 | The coverage a reading reports is at most the true trusted time of its span and below it by less than a millisecond for each bucket. |
| Coverage.TrustedMsWithinSpan | crates/ma-core/src/window.rs:447-456 | A reading never claims more coverage than its span. |
| Windows.NoAlias | crates/ma-core/src/window.rs:587-607 | Two bucket numbers less than a ring apart never share a slot, so k+1 slots serve a span of k buckets. |
| Windows.LateTouchErases | crates/ma-core/src/window.rs:599-607 | A stamp a full ring or more late takes the slot of a newer bucket and erases it: why `intact` is needed. |
| Windows.NaiveIsHonest | crates/ma-core/src/window.rs:428-508 | The naive reading a window is measured against counts exactly the samples and the prints stamped in the span's completed buckets, and the trusted time of that span. |
| Windows.RefinesLater | crates/ma-core/src/window.rs:518-572 | Moving on in time, also past a stall longer than the ring, keeps every slot in reach equal to its bucket's history, cleared or not. |
| Windows.NotedKeepsRefines | crates/ma-core/src/window.rs:587-607 | Recording into one slot keeps every slot in reach equal to its bucket's history. |
| Windows.RollingWindows.constructor | crates/ma-core/src/window.rs:330-348 | The ring has one slot more than the longest span needs; resolution and spans are clamped, and accounting starts untrusted at the given time. |
| Windows.RollingWindows.Charge | crates/ma-core/src/window.rs:518-572 | The log is extended to now with trust unchanged, every reachable bucket holds exactly its untrusted time, and at most ring-length slices are charged. |
| Windows.RollingWindows.ChargeSlice | crates/ma-core/src/window.rs:546-570 | One slice ends at its bucket's end or now, and only that bucket is charged, only if trust was off. |
| Windows.RollingWindows.Touch | crates/ma-core/src/window.rs:599-607 | The slot of a bucket is reset iff it held another bucket. |
| Windows.RollingWindows.Observe | crates/ma-core/src/window.rs:365-400 | Time is charged under the old trust, trust becomes that of the observation, and a sample is recorded iff the book is live and two-sided. |
| Windows.RollingWindows.ObserveTrade | crates/ma-core/src/window.rs:403-410 | A print is recorded whatever the book's state, and trust does not change. |
| Windows.RollingWindows.Read | crates/ma-core/src/window.rs:416-426 | Every configured span at once: each reading equals the naive computation over the whole history, if no stamp ever came a full ring late; `WindowReadings.NaiveMeansWhatItSays` says what that computes. |
| Windows.RollingWindows.ReadSpan | crates/ma-core/src/window.rs:428-508 | One span's reading equals the naive one, if no stamp ever came a full ring late. |
| Windows.RollingWindows.SumBuckets | crates/ma-core/src/window.rs:436-470 | The loop over slots adds up to the tally and trusted time of the range. |
| WindowReadings.RoundToIsNearest | crates/ma-core/src/window.rs:610-622 | Rounding gives a nearest multiple of the unit, the even one of two. |
| WindowReadings.BpsMeans | crates/ma-core/src/window.rs:620-622 | Basis points are ten thousand times the quotient rounded to four places, and positive only for a positive numerator over a positive denominator. |
| WindowReadings.SpanIsCovered | crates/ma-core/src/window.rs:624-638 | The buckets of a window cover its span and one fewer would not; the length reported is that of the buckets in whole milliseconds. |
| WindowReadings.RangeEnds | crates/ma-core/src/window.rs:446-500 | First and last, read bucket by bucket, are the mids of the sample of the earliest bucket that came first and of the latest bucket that came last. |
| WindowReadings.RangeExtremes | crates/ma-core/src/window.rs:446-500 | High and low are attained bounds of the mids stamped in the range, and the integrity floor the weakest sample's. |
| WindowReadings.RangeSums | crates/ma-core/src/window.rs:446-500 | Sums do not depend on reading bucket by bucket. |
| WindowReadings.NaiveMeansWhatItSays | crates/ma-core/src/window.rs:428-508 | Every indicator of the naive reading, of what was stamped in its span alone: ends, extremes, mean, volume, vwap, change from first to last, range and spread, with their rounding and the sign of the change. |
| CrossWindows.ConsolidateSpan | crates/ma-core/src/cross_windows.rs:159-244 | One pass over the legs computes the sums, the floors, and the list of legs left out and why. |
| CrossWindows.ConsolidateWindows | crates/ma-core/src/cross_windows.rs:145-157 | The readings' spans are exactly those any leg publishes, each once and ascending, and each reading is the consolidation of its span. |
| CrossWindows.ConsolidationIsClose | crates/ma-core/src/cross_windows.rs:159-244 | Counts, volume, extremes and the integrity floor are exactly those of all the venues' observations pooled; mean and vwap exist exactly if those do and are within 10^-8 of them. |
| CrossWindows.LegOrderIsImmaterial | crates/ma-core/src/cross_windows.rs:182-224 | The order of the legs changes no number. |
| CrossReadings.SumsKnowTheLegs | crates/ma-core/src/cross_windows.rs:182-222 | The running sums hold the least coverage and the greatest lag of the legs that count so far, and their number. |
| CrossReadings.ConsolidationSaysWhoCounted | crates/ma-core/src/cross_windows.rs:159-244 | The merged reading counts the legs whose first window of the span has data, has the least coverage and the greatest lag among them, lists for each other leg in order that it lacks the span or has no data, and its range is high less low over the mean. |
| CrossWindows.MergedVwapMayBeOff | crates/ma-core/src/cross_windows.rs:132-135 | It does happen: a concrete pair of legs whose merged vwap differs from the pooled one, against the description's "exactly". |
| CrossWindows.MergedVwapIsPooledExactlyWhen | crates/ma-core/src/cross_windows.rs:132-135 | The merged vwap is the pooled one if and only if the legs' roundings, weighed by volume, do not carry it over a rounding boundary; so it is whenever every leg's price fits its eight places. |
| Book.AppliedIsLastWord | crates/ma-core/src/book.rs:474-482 | After a delta each price holds what the last update to it said, and otherwise what it held before. |
| Book.PrunedKeepsTheBest | crates/ma-core/src/book.rs:455-472 | Pruning keeps a submap of the right size whose every level is better than every level dropped. |
| Book.GuardDetectsCrossing | crates/ma-core/src/book.rs:440-450 | Comparing the two best levels desyncs exactly the crossed books and changes no level. |
| Book.SnapshotIsSound | crates/ma-core/src/book.rs:308-340 | A book live after a snapshot is uncrossed and within its cap. |
| Book.DeltaKeepsSound | crates/ma-core/src/book.rs:344-365 | A delta keeps a live book uncrossed and within its cap. |
| Book.Book.ApplySnapshot | crates/ma-core/src/book.rs:308-340 | The whole state afterwards, and whether the snapshot was crossed and how; `BookContents.SnapshotIsWhatWasServed` says it of the levels served. |
| Book.Book.ApplyDelta | crates/ma-core/src/book.rs:344-365 | Refused unless live; otherwise both sides become what the updates applied in order, then pruned and checked, give. |
| Book.Book.MarkVerified | crates/ma-core/src/book.rs:371-382 | Only a live book of a verifying venue records a verification. |
| Book.Book.MarkDesynced | crates/ma-core/src/book.rs:384-386 | Distrust replaces the state and no level. |
| Book.Book.GuardCrossed | crates/ma-core/src/book.rs:440-450 | Reports and marks a crossed book, with both best prices. |
| Book.Book.Prune | crates/ma-core/src/book.rs:455-472 | Dropping the worst level until the cap is met gives the pruned sides. |
| Book.FindBest | crates/ma-core/src/book.rs:403-409 | The best price is the side's own extreme. |
| Book.DropWorst | crates/ma-core/src/book.rs:455-472 | One step of pruning removes exactly the worst level. |
| Book.ApplyLevels | crates/ma-core/src/book.rs:474-482 | The update loop computes the specified map. |
| BookContents.SnapshotHoldsTheLastNamed | crates/ma-core/src/book.rs:318-327 | After a snapshot's list a price is held exactly if some level at it has a quantity, and holds that of the last such level. |
| BookContents.DeltaHoldsTheLastSaid | crates/ma-core/src/book.rs:474-482 | After a delta's list a price it speaks of holds what it says last, gone if that is zero, and any other what it held. |
| BookContents.CappedIsTheBest | crates/ma-core/src/book.rs:455-472 | With a cap a side is the best levels, as many as the cap allows, and without one all of them. |
| BookContents.SnapshotIsWhatWasServed | crates/ma-core/src/book.rs:308-340 | After a snapshot the bids are what the bid list serves and the asks what the ask list serves, or the best of that; the book is live and unverified since now, unless its touch is crossed, and then it says by which prices. |
| BookContents.OnlyOneServed | crates/ma-core/src/book.rs:308-340 | What a list serves is only one set of levels. |
| BookContents.DeltaIsWhatWasSaid | crates/ma-core/src/book.rs:344-365 | A live book's delta changes each side by its own list, keeps the best the cap allows and, unless the touch is crossed, nothing else but the time of the update; any other book stays as it is. |
| BookContents.OnlyOneUpdated | crates/ma-core/src/book.rs:474-482 | What a list makes of a side is only one set of levels. |
| BookDepth.AppliedKeepsMargin | crates/ma-core/src/book.rs:344-365 | A delta with d deletes of held levels costs a pruned side at most d levels of its margin over the unpruned one. |
| BookDepth.PrunedKeepsMargin | crates/ma-core/src/book.rs:455-472 | Pruning again never costs margin below the cap. |
| BookDepth.TopAgrees | crates/ma-core/src/book.rs:416-424 | A side with margin k has the same k best levels as the unpruned side. |
| BookDepth.CappedBookIsRightNearTheTop | crates/ma-core/src/book.rs:275-286 | Over every run since a snapshot, a book capped at m with d deletes of held levels is a submap of the uncapped one and agrees with it on the m-d best levels and, while some remain on both sides, on being crossed. |
| VenueSync.VenueBook.constructor | crates/ma-venues/src/sync.rs:379-388 | A new venue book is uninitialised and has no case against it. |
| VenueSync.VenueBook.Reset | crates/ma-venues/src/sync.rs:432-440 | A reconnect distrusts the book and drops the audit evidence. |
| VenueSync.VenueBook.AuditAgainst | crates/ma-venues/src/sync.rs:454-479 | A book that is not live is left alone; a live one is distrusted exactly when the trail reports, and the change is emitted. |
| VenueSync.VenueBook.CheckAgainst | crates/ma-venues/src/sync.rs:622-652 | A checksum confirms or refutes a live book and no other. |
| VenueSync.VenueBook.Act | crates/ma-venues/src/sync.rs:558-602 | Each action's effect on the book, and the event it leaves: none for what a replay could not repeat. |
| VenueSync.VenueBook.ApplyIngested | crates/ma-venues/src/sync.rs:553-620 | The actions in order, one event for each that was applied, and one state change at the end if the state differs. |
| VenueSync.VenueBook.ApplyEvent | crates/ma-venues/src/sync.rs:524-540 | Replaying an event acts as the action that made it. |
| VenueSync.FrameIsFaithful | crates/ma-venues/src/sync.rs:553-620 | Feeding a frame's events to a faithful copy keeps it faithful. |
| VenueSync.ReplayReproducesTheBook | crates/ma-venues/src/sync.rs:524-620 | For every run of frames, desyncs, reconnects and audits, the emitted events alone rebuild the live book's contents, and its exact state whenever it is live. |
| VenueSync.ReplayMayTrustMore | crates/ma-venues/src/sync.rs:563-566 | It does happen: one snapshot and one reconnect leave a replay live where the live run is not. |
| VenueSync.ReplayTrustsMoreExactlyWhen | crates/ma-venues/src/sync.rs:371-375 | For every run the replayed book is the live one or the live one is not trusted; it is trusted where the live one is not if and only if distrust that leaves no event hit a live book, no snapshot came since, and every checksum since was right. |
| BookLife.LiveExactlyWhen | crates/ma-core/src/book.rs:308-386 | After any actions a book is live exactly if some snapshot is in force: no distrust, no wrong checksum and no crossing since. |
| BookLife.BookIsLiveExactlyWhen | crates/ma-venues/src/sync.rs:553-652 | So it is after any run of frames, reconnects and audits; and then the book is live since that snapshot, with the venue's integrity, and last verified by the last checksum since, if the venue verifies. |
| BookLife.DistrustSaysWhy | crates/ma-venues/src/sync.rs:558-652 | A live book that an action leaves distrusted says since when and why, with the two checksums or the two prices in their places; a venue's distrust is noted anew on any book. |
| BookLife.OutputsTellAll | crates/ma-venues/src/sync.rs:604-620 | A call reports its events in order, and last the change of state if there was one. |
| BookLife.NewsIsLogged | crates/ma-venues/src/sync.rs:553-602 | Each trade and heartbeat of a frame is in the log once, in order, whatever state the book is in, and every event bears the stream and the times of its frame. |
| FakeVenue.Script.constructor | crates/ma-venues/src/fake.rs:127-135 | An empty script with an empty reference book. |
| FakeVenue.Script.Snapshot | crates/ma-venues/src/fake.rs:152-167 | Emits the next numbered frame and keeps the reference book in step. |
| FakeVenue.Script.Delta | crates/ma-venues/src/fake.rs:170-184 | The same for an update. |
| FakeVenue.Script.Checkpoint | crates/ma-venues/src/fake.rs:189-197 | A checkpoint carries the reference book's hash at that point. |
| FakeVenue.DamageOnlyRearranges | crates/ma-venues/src/fake.rs:242-269 | Any sequence of drops, duplicates, swaps and truncations leaves frames of the original tape, at positions damaged the same way. |
| FakeVenue.DamageIsWhatItSays | crates/ma-venues/src/fake.rs:242-269 | Each kind of damage loses, repeats, swaps or cuts exactly the frames it names. |
| FakeVenue.LevelsAreTheirPairs | crates/ma-venues/src/fake.rs:60-73 | Levels are their pairs, parsed in order, and one that does not parse spoils them all. |
| FakeVenue.FakeSync.CheckSeq | crates/ma-venues/src/fake.rs:309-335 | The three disciplines: contiguous, forwards only, or none; the expectation moves on in every case. |
| FakeVenue.FakeSync.Ingest | crates/ma-venues/src/fake.rs:365-406 | The reply and the new expectation for every frame, including another venue's and a malformed one. |
| FakeVenue.FakeSync.Reset | crates/ma-venues/src/fake.rs:361-363 | A reset forgets the stream position. |
| FakeVenue.Run | crates/ma-venues/src/fake.rs:410-418 | Running a tape is feeding its frames in order, errors leaving the book alone. |
| GapGuarantee.UndamagedIsTheShadow | crates/ma-venues/src/fake.rs:410-418 | An undamaged tape reproduces the reference book at every point. |
| GapGuarantee.EveryDeliveryIsRight | crates/ma-venues/src/fake.rs:319-324 | Under contiguous numbers, whatever frames are delivered and whenever the connection is reset, a live book is the reference book at the number before the one expected, if unparsable snapshots are harmless. |
| GapGuarantee.RefusalsNameTheGap | crates/ma-venues/src/fake.rs:309-335 | After frame i, a frame j that is no snapshot is refused exactly if it is not the next one, or not a later one, by discipline, and the reason names the number due or the last one, and the one that came. |
| GapGuarantee.UnparsableSwallowsTheGap | crates/ma-venues/src/fake.rs:378-384 | A snapshot that cannot be parsed has already moved the expectation, so a gap before it is never seen and the live book is wrong. |
| GapGuarantee.LiveBooksAreRightExactlyWhen | crates/ma-venues/src/fake.rs:365-406 | Live books are right for every delivery if and only if the script's unparsable snapshots are harmless; every script whose snapshots parse qualifies. |
| GapGuarantee.DamagedTapesAreRight | crates/ma-venues/src/fake.rs:242-269 | What `Run` returns for a damaged tape of a script whose snapshots parse is right whenever it is live. |
| GapGuarantee.EveryChainIsBelieved | crates/ma-venues/src/fake.rs:326-334 | Under order alone, any strictly forward choice of frames from a snapshot on is accepted without complaint. |
| GapGuarantee.OrderOnlyServesExactlyTheChains | crates/ma-venues/src/fake.rs:326-334 | The contents order alone can serve live are exactly the folds of strictly forward choices of frames from a snapshot on. |
| GapGuarantee.ALossGoesUnseen | crates/ma-venues/src/fake.rs:326-334 | A lost update that order alone serves live and wrong, and contiguous numbers catch at the next frame. |
| GapGuarantee.CheckpointsCatchDivergence | crates/ma-venues/src/fake.rs:394-402 | A live book outlives a checkpoint exactly if its hash is the reference book's there. |
| Audit.WindowIsAPrefix | crates/ma-core/src/audit.rs:265-290 | A truncated side answers for its full side down to its last level. |
| Audit.DuplicatesMislead | crates/ma-core/src/audit.rs:265-290 | With two levels at one price, truncation can keep the wrong one: why snapshots without duplicates are required. |
| Audit.OverlapIsExact | crates/ma-core/src/audit.rs:292-310 | At every price of the overlap both windows say what the full sides say. |
| Audit.SideIsSound | crates/ma-core/src/audit.rs:245-336 | Despite truncation, every finding of a side is a disagreement between the full book and the full snapshot beyond the guard, in price order, and there is one iff they disagree somewhere in the overlap. |
| Audit.AuditIsSound | crates/ma-core/src/audit.rs:207-234 | The outcome is a mismatch iff book and snapshot disagree at some price of the overlap on some side, so a match means agreement at every one; every finding listed, at most the limit, is genuine. |
| Audit.FindingsNeverExceedDifferences | crates/ma-core/src/audit.rs:245-336 | A side's findings never outnumber the prices at which book and snapshot differ. |
| Audit.EqualBooksNeverMismatch | crates/ma-core/src/audit.rs:207-234 | A book equal to the snapshot never mismatches. |
| Audit.TopLevels | crates/ma-core/src/book.rs:416-424 | The best levels, best first. |
| Audit.AuditSide | crates/ma-core/src/audit.rs:245-336 | One side's findings and number of prices compared. |
| Audit.RunAudit | crates/ma-core/src/audit.rs:207-234 | The outcome over both sides is the specified one; `AuditOutcomes.OutcomeSaysWhatWasCovered` says what that means. |
| AuditOutcomes.GuardIsRelative | crates/ma-core/src/audit.rs:236-243 | The guard keeps out exactly the prices nearer our best one than the given ten-thousandths of it. |
| AuditOutcomes.OurWindowIsTheBest | crates/ma-core/src/audit.rs:245-263 | Our window is the best levels of the book beyond the guard, as many as the limit allows. |
| AuditOutcomes.TheirWindowIsTheBest | crates/ma-core/src/audit.rs:265-290 | The snapshot's window is the best of its own levels there, whatever order they are served in. |
| AuditOutcomes.OnlyOneBestBeyond | crates/ma-core/src/audit.rs:245-290 | Those are only one window. |
| AuditOutcomes.FullSnapshotHolds | crates/ma-core/src/audit.rs:265-275 | The snapshot holds exactly the served levels that are no deletes, with their quantities. |
| AuditOutcomes.OutcomeSaysWhatWasCovered | crates/ma-core/src/audit.rs:207-234 | The outcome is inconclusive exactly if no held price is covered on either side, a match exactly if some is and book and snapshot agree at all of them, a mismatch exactly if they differ at one; it counts the covered prices of both sides. |
| AuditOutcomes.MismatchListsTheFirst | crates/ma-core/src/audit.rs:207-336 | A mismatch lists prices at which the two differ, bids before asks and each side ascending, and leaves out only later ones when the list is full. |
| AuditTrail.AuditTrail.Observe | crates/ma-core/src/audit.rs:359-412 | The trail after an outcome and whether it reports, with which price and streak. |
| AuditTrail.AuditTrail.Reset | crates/ma-core/src/audit.rs:414-419 | A reset forgets the evidence and keeps the totals. |
| AuditTrail.SuspectsAreTheIntersection | crates/ma-core/src/audit.rs:359-412 | The suspects are the prices found wrong in every one of the last `consecutive` conclusive audits. |
| AuditTrail.ReportIsEvidence | crates/ma-core/src/audit.rs:385-412 | Under every policy a reported price was found wrong in each of the last `consecutive` conclusive audits since the reset, those are at least two, and it is the lowest such price. |
| AuditTrail.TwiceWrongIsReported | crates/ma-core/src/audit.rs:359-412 | Under the default policy a price found wrong in two successive conclusive audits forces a report at the first or the second, whatever inconclusive ones lie between. |
| AuditTrail.StreakGoesOn | crates/ma-core/src/audit.rs:385-400 | A suspect that goes on being wrong stays one, and each conclusive audit lengthens the streak by one. |
| AuditTrail.StreaksAreReportedExactlyWhen | crates/ma-core/src/audit.rs:400-412 | So under every policy a suspect wrong again is reported exactly if that makes the streak long enough. |
| AuditTrail.TotalsCount | crates/ma-core/src/audit.rs:359-412 | The totals count every audit and every mismatch, and a reset leaves them. |
| AuditTrail.InconclusiveChangesNothing | crates/ma-core/src/audit.rs:359-372 | Inconclusive audits neither add to nor take from the evidence. |
| AuditTrail.FirstMismatchNeverReports | crates/ma-core/src/audit.rs:118-120 | No policy reports the first mismatch after a reset, although the description says a policy of one acts on a single finding. |
| Channel.Inner.constructor | crates/ma-pipeline/src/channel.rs:93-114 | A new channel is empty and open with one sender. |
| Channel.Inner.Send | crates/ma-pipeline/src/channel.rs:156-183 | Uninterrupted, a send queues the item, evicting and counting the oldest iff full, and a closed channel refuses it. |
| Channel.Inner.TryRecv | crates/ma-pipeline/src/channel.rs:336-343 | Takes the front item, or nothing iff empty. |
| Channel.Inner.DropSender | crates/ma-pipeline/src/channel.rs:268-277 | The last sender to go closes the channel. |
| Channel.TheNewestSurvive | crates/ma-pipeline/src/channel.rs:161-170 | A burst leaves exactly the newest items that fit, in order. |
| ChannelSafety.NextConserves | crates/ma-pipeline/src/channel.rs:161-170 | Every step keeps the accepted items equal to those removed, in order, followed by the queue, within capacity. |
| ChannelSafety.NextCounts | crates/ma-pipeline/src/channel.rs:172-183 | Every step keeps evictions equal to the counter plus the bumps still owed. |
| ChannelSafety.NextWakes | crates/ma-pipeline/src/channel.rs:290-316 | Every step keeps whatever the receiver has not seen able to wake it. |
| ChannelSafety.NextKeepsWaits | crates/ma-pipeline/src/channel.rs:210-233 | Every step keeps a lossless sender that saw a full queue facing one or about to be notified. |
| ChannelSafety.NextCountsHandles | crates/ma-pipeline/src/channel.rs:259-277 | The sender count is the number of live handles, and only the last or an explicit close closes the channel. |
| ChannelSafety.AloneASendIsTheMethod | crates/ma-pipeline/src/channel.rs:156-183 | Uninterrupted, the steps of a send are the `Send` method. |
| ChannelSafety.AloneALosslessSendGetsIn | crates/ma-pipeline/src/channel.rs:210-236 | Uninterrupted, a lossless send into a channel with room queues its item and evicts nothing; a closed one refuses it. |
| ChannelSafety.AloneARecvTakesTheFront | crates/ma-pipeline/src/channel.rs:290-294 | A receive takes the front item at once if there is one and tells those waiting for room. |
| ChannelSafety.AloneARecvEndsOrSleeps | crates/ma-pipeline/src/channel.rs:290-317 | With nothing queued it reports the end of a closed channel and sleeps on an open one. |
| ChannelGuarantees.NoLostWakeup | crates/ma-pipeline/src/channel.rs:290-316 | In every interleaving, an unwoken receiver with items queued or the channel closed has a notification on its way, and so has a parked lossless sender once there is room. |
| ChannelGuarantees.NoDeadlock | crates/ma-pipeline/src/channel.rs:210-316 | If every task is at rest and the receiver asleep, the queue is empty, the channel open, a sender left, and nobody waits for room. |
| ChannelGuarantees.NothingIsLostUncounted | crates/ma-pipeline/src/channel.rs:156-183 | In every reachable state accepted items are accounted for in order, and evictions equal the counter once no sender is mid-call. |
| ChannelGuarantees.EndOfStreamIsTheEnd | crates/ma-pipeline/src/channel.rs:290-316 | If nobody closed by hand, `recv` reports the end only when everything accepted has left the queue and no handle remains. |
| ChannelGuarantees.LosslessDeliversAPrefix | crates/ma-pipeline/src/channel.rs:210-233 | With one lossless producer nothing is ever evicted and what is received is a prefix of what was sent, in every interleaving. |
| ChannelGuarantees.DrainingReleasesTheParked | crates/ma-pipeline/src/channel.rs:336-343 | A parked sender faces a full queue, so the next receive always moves it on. |
| ChannelClosing.ClosedIsFinalExactlyWhen | crates/ma-pipeline/src/channel.rs:156-170 | A closed channel accepts nothing more if and only if no send is already past its check. |
| ChannelClosing.AClosedSendMayBeStranded | crates/ma-pipeline/src/channel.rs:295-300 | A reachable state at rest where `recv` has reported the end and an item reported as sent is still queued. |
| ChannelClosing.OnlyReceivingReleases | crates/ma-pipeline/src/channel.rs:238-241 | Nothing but a receive releases a parked lossless send, closing included. |
| ChannelClosing.AParkedSendMissesTheClose | crates/ma-pipeline/src/channel.rs:207-233 | A reachable closed channel at rest with a lossless send still waiting, although the description says its item comes back. |
| Codec.Flatten | crates/ma-persist/src/writer.rs:546-615 | The row loop emits bids then asks, one row for each level, and one row for an event without levels. |
| Codec.DecodeBatch | crates/ma-persist/src/reader.rs:326-442 | The row loop over one batch computes the specified state, or the first error with its row. |
| Codec.Decode | crates/ma-persist/src/reader.rs:285-303 | A file is its batches in order, the last event closed at the end, or the first error. |
| Codec.ReadingFails | crates/ma-persist/src/reader.rs:326-442 | A bad row fails its whole batch with that row's error. |
| CodecRoundTrip.EventReads | crates/ma-persist/src/writer.rs:546-615 | Reading one event's rows closes the event before it and rebuilds this one, both level lists in order. |
| CodecRoundTrip.BatchesDoNotMatter | crates/ma-persist/src/reader.rs:288-297 | Where row group boundaries fall does not matter, even inside an event. |
| CodecRoundTrip.EveryEventHasRows | crates/ma-persist/src/writer.rs:542-584 | No event vanishes: each has at least one row, all with its number. |
| CodecRoundTrip.LevelsAreNumbered | crates/ma-persist/src/writer.rs:566-592 | The column that is not read back: each side's levels are numbered in their own order from zero, as far as it counts, and no other row is. |
| CodecRoundTrip.StoredNames | crates/ma-persist/src/writer.rs:546-624 | The names of venues and kinds as they stand in a file. |
| CodecRoundTrip.RoundTrip | crates/ma-persist/src/reader.rs:285-442 | Decoding undoes flattening for every list of events of every kind, numbered so that neighbours differ, and every way to cut the rows into batches. |
| CodecRoundTrip.IntactExactlyWhenItFits | crates/ma-persist/src/writer.rs:528-533 | An event comes back intact if and only if its integers fit their columns and it is not before the writer's first. |
| CodecRoundTrip.OneEventPerStretch | crates/ma-persist/src/reader.rs:352-363 | Whatever rows decode, there is one event for each stretch of equal numbers. |
| CodecReading.RowIsReadExactlyWhen | crates/ma-persist/src/reader.rs:326-495 | A row is read exactly if it carries what its kind or side must, and continues the open event or is of a known venue and kind. |
| CodecReading.ErrorsNameTheField | crates/ma-persist/src/reader.rs:326-495 | An error names its row and the field at fault, with the value nobody knows or as missing. |
| CodecReading.DecodesExactlyWhen | crates/ma-persist/src/reader.rs:285-303 | A file, whoever wrote it and however it is cut into batches, decodes exactly if each of its rows can be read after the one before it. |
| Calendar.DaysRoundTrip | crates/ma-persist/src/writer.rs:511-526 | For every integer day the date is a valid Gregorian one and converts back to that day. |
| Calendar.DatesRoundTrip | crates/ma-venues/src/venues/common.rs:152-159 | For every valid date the day converts back to that date. |
| Calendar.DaysFollowTheCalendar | crates/ma-persist/src/writer.rs:511-526 | Each next day has the calendar's next date, leap years included. |
| Calendar.DayZero | crates/ma-persist/src/writer.rs:511-526 | Day zero is 1970-01-01. |
| Calendar.DatesKeepOrder | crates/ma-persist/src/writer.rs:511-526 | Later days, and only later days, have later dates. |
| Calendar.YearOfDay | crates/ma-persist/src/writer.rs:515-516 | The four-division formula finds the year of the era for every day of it. |
| Calendar.EraIsFloor | crates/ma-persist/src/writer.rs:513-513 | The adjusted truncating division is division rounding down. |
| Keys.KeysAreChronological | crates/ma-persist/src/writer.rs:393-399 | A key comes first in a listing if and only if its hour is earlier, or its part within the hour, for years to 9999 and parts below 100000. |
| Keys.ForInstance | crates/ma-persist/src/writer.rs:393-399 | A key written out: prefix, symbol, date, hour and part in their places, on a leap day. |
| Keys.WidePartsComeEarly | crates/ma-persist/src/writer.rs:380-380 | Of two parts of a directory the later one comes first in a listing if and only if its number has more digits (so it is 100000 at least) and its leading digits are a lower number. |
| Keys.FirstWidePart | crates/ma-persist/src/writer.rs:380-380 | Such parts exist: part 100000 comes before part 99999. |
| Keys.WideYearsComeEarly | crates/ma-persist/src/writer.rs:505-505 | Of two dates the later one comes first in a listing if and only if its year has more digits (so it is 10000 at least) and its leading digits are a lower number. |
| Keys.FiveDigitYearsComeEarly | crates/ma-persist/src/writer.rs:505-505 | Such dates exist: the first day of year 10000 comes before the last of year 9999. |
| Keys.KeysCarryTheirPart | crates/ma-persist/src/writer.rs:451-463 | The part number read back from a key is the one it was made with. |
| Keys.NextPartIsNew | crates/ma-persist/src/writer.rs:451-463 | No key with the next part, or any later one, is in the listing, whatever else is; numbers are unbounded here, see `Keys.NextPart64IsNewExactlyWhen` for 64 bits. |
| Keys.NextPartIsLeast | crates/ma-persist/src/writer.rs:451-463 | The next part is zero or one more than a part that is listed. |
| Keys.NextPartIgnoresOrder | crates/ma-persist/src/writer.rs:451-463 | The order of a listing does not matter. |
| Keys.NextPart64IsNewExactlyWhen | crates/ma-persist/src/writer.rs:451-463 | In 64 bits, where the number saturates, the next part's key is new if and only if the last possible part is not listed. |
| ArchiveLedger.RollIsConsistent | crates/ma-persist/src/writer.rs:412-438 | Storing a file uses a key the store lacks, keeps the record of every file, and moves its rows from open to stored. |
| ArchiveLedger.StartIsConsistent | crates/ma-persist/src/writer.rs:350-391 | A new file under a number no listing shows has a key of its own. |
| ArchiveLedger.AddIsConsistent | crates/ma-persist/src/writer.rs:285-302 | Rows added to a file are in it, after those before. |
| ArchiveLedger.ShutOneMore | crates/ma-persist/src/writer.rs:307-321 | Whichever file is closed last, the outcome is the same, so the order of closing does not matter. |
| ArchiveLedger.ShutLosesTheRefused | crates/ma-persist/src/writer.rs:307-321 | Closing loses exactly the rows of the files that are refused. |
| ArchiveLedger.ShutStoresTheRest | crates/ma-persist/src/writer.rs:307-321 | Every other file is stored as it stood. |
| WriterSteps.ListingGivesPart | crates/ma-persist/src/writer.rs:350-375 | Any listing of a directory, in any order, gives the same next part. |
| WriterSteps.PartForIsFree | crates/ma-persist/src/writer.rs:350-375 | Neither that part nor a later one is taken. |
| WriterSteps.AppendTouchesOnePartition | crates/ma-persist/src/writer.rs:250-256 | An append leaves every other partition's file open as it is: a roll is never global. |
| WriterSteps.AppendTakesOrNot | crates/ma-persist/src/writer.rs:283-302 | An event that is taken gets the next number and its rows are the next of its partition's file; one that is not uses no number and gives no file a row. |
| Writer.Store.Put | crates/ma-persist/src/store.rs:57-57 | An upload is stored, refused, or stored and reported failed; meeting a key that exists is counted. |
| Writer.Store.List | crates/ma-persist/src/store.rs:61-63 | The keys under a prefix and no others. |
| Writer.EventWriter.constructor | crates/ma-persist/src/writer.rs:210-221 | A new writer trusts nothing about the store, has issued no key and has taken no event. |
| Writer.EventWriter.Roll | crates/ma-persist/src/writer.rs:412-438 | The file leaves the open ones whatever happens; stored under a free key, or its rows are lost, and nothing else changes. The tallies count it and its rows exactly if the upload succeeds. |
| Writer.EventWriter.StartFile | crates/ma-persist/src/writer.rs:333-391 | Fails iff the directory was never listed and the listing fails, and then changes nothing; otherwise opens an empty file under the directory's next number. |
| Writer.EventWriter.MakeReady | crates/ma-persist/src/writer.rs:265-281 | The whole ledger and the tallies afterwards: a due file is rolled first, whatever comes of the event, and one is opened if there is none; `FileWindows` says when a file is due. |
| Writer.EventWriter.Append | crates/ma-persist/src/writer.rs:260-300 | Exactly when an append fails, and the whole state and the tallies either way: other partitions' files are as they were, the store gains the rolled file or nothing, rows are lost only if that file is refused, and no upload meets a taken key. |
| Writer.EventWriter.Close | crates/ma-persist/src/writer.rs:307-321 | Every open file is tried, none is left open, the result is success iff every upload was, exactly the rows of the refused files are lost, and the tallies grow by the files stored, their rows, and the failures. |
| WriterRuns.EntriesAreTheEventsTaken | crates/ma-persist/src/writer.rs:283-284 | Over any calls the events recorded are exactly those of the successful appends, in order and numbered from one. |
| WriterRuns.BaseIsTheFirstOffered | crates/ma-persist/src/writer.rs:260-261 | Elapsed times count from the first event offered, taken or not, and never from a later one. |
| WriterRuns.JournaledOneMore | crates/ma-persist/src/writer.rs:283-302 | One more event and its rows keep each file's rows those of its events in order. |
| WriterRuns.RanIsJournaled | crates/ma-persist/src/writer.rs:283-302 | So over any calls every file was given exactly the rows of its events, in order. |
| WriterRuns.EachEventIsInOneFile | crates/ma-persist/src/writer.rs:283-302 | An event taken is in one file and no other. |
| WriterRuns.RanIsSettled | crates/ma-persist/src/writer.rs:412-438 | Over any calls each file is stored, refused or still open, and not two of these; rows lost are exactly those of refused files. |
| WriterRuns.CalmLosesNothing | crates/ma-persist/src/writer.rs:412-438 | If no upload is refused, no row is lost. |
| WriterRuns.EveryEventTakenIsInOneFile | crates/ma-persist/src/writer.rs:260-321 | The event of every successful append is in exactly one file, which is stored, refused or still open; it is stored if nothing was refused and the writer was closed. |
| FileWindows.SameWindowIs | crates/ma-persist/src/writer.rs:324-331 | Two instants have one window number exactly if one interval of the roll length, counted from 1970, holds both. |
| FileWindows.EventsLieWhereTheirFileSays | crates/ma-persist/src/writer.rs:260-281 | Over any calls, every event of a file is of its partition, in the roll window of its first event, and less than the limit after it on the ingest clock; the key names the first event's date and hour and, if windows divide the hour, every event's own. |
| FileWindows.OpenFileTakesExactlyWhen | crates/ma-persist/src/writer.rs:265-300 | An event of its partition goes to the open file exactly if it lies in the window of that file's first event and soon enough after it. |
| FileWindows.StaysOpenExactlyWhile | crates/ma-persist/src/writer.rs:265-275 | However many calls follow, a file is still open exactly if all are appends and each of its own partition may join it; once closed it is never open again. |
| FileWindows.QuietFilesOutliveTheLimit | crates/ma-persist/src/writer.rs:86-104 | Against the limit's description: a file whose own symbol is quiet stays open however much later other events come. |
| FileWindows.TakenExactlyWhen | crates/ma-persist/src/writer.rs:260-281 | Over any calls an append succeeds exactly if its partition's file may take the event, or that file if any is stored and the new one's directory can be listed or had a file of this writer's before. |
| FileWindows.PartitionNamesAreSafe | crates/ma-persist/src/writer.rs:474-490 | A partition's name has only characters safe in a path and is neither empty nor dots; a symbol that is so already is its own name, and otherwise only what is unsafe in it is replaced. |
| RowGroups.RanIsGrouped | crates/ma-persist/src/writer.rs:295-300 | Over any calls fewer rows than a group wait in an open file, every group closed early is full, and of a stored file only the last may be short. |
| Archive.Serve | crates/ma-persist/src/writer.rs:260-321 | After each call, whatever becomes of it, the writer is in the state that the calls so far determine. |
| Archive.Lifetime | crates/ma-persist/src/writer.rs:119-150 | One process over any calls leaves the writer and the store in exactly the state those calls and their outcomes determine. |
| Archive.Archive | crates/ma-persist/src/writer.rs:132-142 | Over any sequence of processes, crashes and failures, the store holds exactly what their calls determine, no upload meets a taken key, and no stored file changes. |
| Archive.ArchiveBalances | crates/ma-persist/src/writer.rs:132-142 | Conservation: over any sequence of processes the rows of the events taken are the rows stored plus those of files refused or open at a crash. |
| Archive.OrderlyArchiveKeepsEverything | crates/ma-persist/src/writer.rs:304-321 | If no upload is refused and every process closes its writer, every row taken is stored. |
| Archive.ArchivePreserves | crates/ma-persist/src/writer.rs:132-142 | What one process stored, no later one changes. |
| Archive.StoredFilesReadBack | crates/ma-persist/src/reader.rs:285-303 | Whatever processes come later, a file that one stored is still there and decodes to exactly the events of the successful appends that went to it, in the order they were made. |
| Listing.OpenMany | crates/ma-persist/src/reader.rs:184-217 | Every Parquet key listed under any prefix is on exactly one cursor, its partition's, once and in key order; a failed listing is an error. |
| Listing.PrecedesIsTextOrder | crates/ma-persist/src/reader.rs:158-161 | The computed order of keys is text order. |
| Listing.WriterKeysShareAPartition | crates/ma-persist/src/reader.rs:274-282 | The writer's files of one symbol are one partition to the reader, whatever their hour and part. |
| Listing.PartitionMeans | crates/ma-persist/src/reader.rs:274-282 | A key's partition is everything before its last date mark, or before its last slash if it has none. |
| Merge.EventReader.FillCursor | crates/ma-persist/src/reader.rs:227-235 | Files are read until the cursor has an event or none is left; a key that fails is used up. |
| Merge.FailureUsesUpOneKey | crates/ma-persist/src/reader.rs:227-235 | A failure uses up the first key whose file cannot be read, the empty files before it, and nothing else. |
| Merge.FillingStopsAtTheFirst | crates/ma-persist/src/reader.rs:223-235 | Filling stops at the first cursor that fails and leaves those after it alone; if none fails all are filled. |
| Merge.EventReader.NextEvent | crates/ma-persist/src/reader.rs:223-250 | The event with the least wall clock of all partitions' heads, ties to the first partition, leaves its queue and nothing else changes; none only when all files were read. |
| Merge.EventReader.Collect | crates/ma-persist/src/reader.rs:257-263 | Terminates with the merge of all partitions, or an error iff some file cannot be read. |
| Merge.FilledAllKeepsQueues | crates/ma-persist/src/reader.rs:227-235 | Loading files loses and reorders nothing. |
| MergeOrder.EachPartitionComesOutWhole | crates/ma-persist/src/reader.rs:223-263 | Every stored event comes out exactly once, each partition's in its own order. |
| MergeOrder.MergeIsOrdered | crates/ma-persist/src/reader.rs:237-249 | With every partition in wall-clock order so is the merge, ties by partition. |
| MergeOrder.OnlyOneStableOrder | crates/ma-persist/src/reader.rs:237-249 | Only one interleaving of the partitions is so ordered. |
| MergeOrder.MergeIsTheStableSort | crates/ma-persist/src/reader.rs:237-249 | So the merge equals any stable sort of the partitions. |
| TrustTime.VenueState.NoteTransition | crates/ma-pipeline/src/aggregator.rs:362-381 | The desync clock starts on entering desync, stops on leaving it, and keeps running between reasons. |
| TrustTime.VenueState.Apply | crates/ma-pipeline/src/aggregator.rs:640-744 | A message's prints are recorded in order in the bucket of its stamp, then one sample of the best prices of the book it left if that is live and has both sides; time is charged under the old trust, then trust is that of the book; the status clock restarts exactly if more changed than when it was last verified. |
| TrustTime.MessagesAreSeenWhole | crates/ma-pipeline/src/aggregator.rs:715-744 | What the windows see of a message: each print with its quantity and price times quantity, then half the sum and the difference of the best bid and ask, or nothing more. |
| TrustTime.VenueState.Desynced | crates/ma-pipeline/src/aggregator.rs:383-388 | The total reported includes the desync in progress. |
| TrustTime.VenueState.Snapshot | crates/ma-pipeline/src/aggregator.rs:747-790 | A snapshot charges the windows to now, reports the desynced time, and its readings are the naive ones of everything recorded. |
| TrustTime.PhasesShareAllTime | crates/ma-pipeline/src/aggregator.rs:353-359 | Every instant since creation is in exactly one phase. |
| TrustTime.RunsAreExact | crates/ma-pipeline/src/aggregator.rs:640-744 | After any run, its stamps in order or not, the windows' trusted time is the time spent live, and desynced time is the time spent desynced plus the slips of late messages. |
| TrustTime.TrustTimeIsConserved | crates/ma-pipeline/src/aggregator.rs:348-388 | Desynced time, the windows' trusted time and the time before the book started add up to the time elapsed. |
| TrustTime.ConservesIffSlipsCancel | crates/ma-pipeline/src/aggregator.rs:348-388 | However late its stamps, a run conserves time if and only if the slips of its messages cancel. |
| TrustTime.ConservedThroughoutExactlyWhen | crates/ma-pipeline/src/aggregator.rs:348-388 | Time is conserved at every point of a run if and only if no message enters desync stamped before the windows' clock and none leaves it with both its stamps before it. |
| TrustTime.LateMessagesCountTwice | crates/ma-pipeline/src/aggregator.rs:348-388 | It does happen: a message stamped before the last snapshot is counted by both accounts. |
| StreamRuns.Serve | crates/ma-pipeline/src/aggregator.rs:573-620 | Over any turns of the loop every answer tells what it should, for the clamped resolution and spans; `StreamRuns.EachTells` unfolds that. |
| StreamRuns.EachTells | crates/ma-pipeline/src/aggregator.rs:640-790 | A message is answered by nothing and a tick by a snapshot with the desynced time so far; if no stamp went back, its readings are the naive ones of all the messages before it. |
| StreamRuns.PrintsAreConserved | crates/ma-pipeline/src/aggregator.rs:722-732 | No print is lost or counted twice between the messages and the windows' record, in any range of buckets. |
| StreamRuns.EveryPrintIsReported | crates/ma-pipeline/src/aggregator.rs:747-790 | A window published in such a run reports as many trades and as much volume as the messages stamped in its span carried. |

## Left out

- LeaseProtocol.NoStreamRunsTwice: a stream is taken to stop the moment its node drops it, and a write that a node gave up on does not reach the registry later.
- LeaseTightness.ExclusiveExactlyWhenTimely: the exact condition is for exact clocks; with skew, where a sleep may end two skews early, it is proved sufficient only.
- Windows.RollingWindows.Read: decimals are exact reals, so rounding of quotients past 28 digits is not modelled; rounding to eight and four places is.
- Coverage.IndexIsQuotient: bucket numbers and sums are unbounded, so saturation at the ends of 64 bits is not modelled.
- VenueSync.ReplayReproducesTheBook: an audit appears in a run as its verdict; REST snapshots spliced in are frames like any other.
- GapGuarantee.CheckpointsCatchDivergence: two books with one hash are not told apart, and nothing is claimed about how likely that is.
- CodecRoundTrip.RoundTrip: a decimal's text is required to read back as its value, for the decimals in the events; trailing zeros are not kept apart.
- CodecReading.DecodesExactlyWhen: a file has the schema's columns; one that is no Parquet file, or lacks a column, is not modelled.
- Writer.EventWriter.Append: failures inside the Parquet encoder are not modelled, and part numbers are unbounded (for 64 bits see `Keys.NextPart64IsNewExactlyWhen`).
- Writer.EventWriter.Close: which of several errors is returned is not stated; the outcome does not depend on the order of closing.
- Archive.Archive: one writer at a time; an upload of a crashed process does not take effect after its successor has listed the directory.
- Merge.EventReader.NextEvent: a file is what it decodes to; its bytes are not modelled.
- TrustTime.VenueState.Apply: the book itself is present as it stands after the message, and the events as the prints among them.
- StreamRuns.Serve: one stream of the loop; which stream a message is for, and how ticks and messages interleave, is the caller's choice.
- Channel.Inner.Close: closing on its own is the one assignment it looks like; what it does and does not wake is under `ChannelClosing`.
- Timestamps in RFC 3339 text: parsed for display only.
- The hashes behind the rendezvous weights and the checksums: parameters, so no even spread and no freedom from collisions is claimed.
- Record file names in a directory registry: nodes are their own keys.
- The Coinbase, Kraken and Bitstamp parsers: the scripted venue carries the same three disciplines.
- Spread, mid, cross-venue tops, rates, counters, resync requests, back-off and tape pacing: short arguments that would add only easy members.
- Sockets, HTTP, metrics text, file systems and S3: plumbing around what is modelled.
- FileWindows.PartitionNamesAreSafe: two symbols may share one name, and then one file.

# A verified model of the release channel's protocols

The channel publishes signed entries, hands subscribers a credential over the phone, keeps
the durable record of both, and takes a station's reports back in. This project models the
parts of that system in which a wrong step would be noticed late: the claim edge and its
crash behaviour, the rate limiter, the attempt numbering, the ledger reducers, the page
cache, the values overlays, and the places where one program writes what another one checks.

Where the code changes things step by step the model is a class with the same fields or a
loop with the same shape, proved against a function; what the system promises is then
proved about that function, over every input or every run.

## What is modelled, and what came out

- `Claim`, `Spool`, `SpoolRaces`, `SpoolAudit`, `ClaimEdge`: the claim protocol. `Spool` is a
  machine over single file operations in which the process may die between any two of them,
  restart, and meet the publisher's half-written park file; a park file unlinked while it is
  being written is gone. Over every run with one request at a time a park yields at most one
  served credential, to the code that opens it, before it expires; answered failures never
  outnumber the attempts on disk, and those never pass the limit (a limit below one still
  allows the attempt that burns). Two promises do not hold of every run, and each has its
  exact condition. That parking again is no race (edge/claim/vexa_claim.py:350-358): from a
  request's read to its unlink the file on the shelf is the park it judged if and only if no
  park of that station was begun since the read; otherwise the deleted file is one nothing
  ever judged. That a log line names the park that was judged
  (edge/claim/claim_edge.py:273-276): it does if and only if no park of that station was
  begun between the peek and the read; and the log counts every park as the
  state files do if and only if no charged request was disturbed in that way. Concrete runs
  show both failing.
- `Limiter`, `LimiterBounds`: the sliding window with its pruning and its sweep answers
  exactly as a limiter that forgets nothing. The window bound holds if and only if the
  cooling period is zero or longer than the window (or the limit or window admits nothing):
  a shorter period forgets the admissions before the trip and lets a second burst into the
  same window.
- `Attempts`: numbers taken under the lock and written outside it, by any number of threads,
  with writes that fail, crashes, and restarts that reseed from the log. Numbers are unique.
  The documentation of `append_attempt` (edge/claim/vexa_claim.py:551-579) reads a gap as a
  line that left the file; a gap can also be a number whose write failed or that a crash
  kept from ever being written, and the exact condition is proved.
- `CredentialLedger`, `EdgeToLedger`: the order-insensitive merge of the edge's log, and the
  end-to-end statement: attempts at the edge equal rows in the ledger, however often, in
  whatever pieces and in whatever order the log is copied back among the publisher's park rows.
- `ClaimToLedger`: the two halves joined. A park's attempts on disk are the ledger's
  wrong-code and burned rows for it.
- `ChannelLedger`: publication history, pins and station states under any interleaving of
  publish, ingest and pin. `current` always names a listed sequence, but an untagged
  republish of that sequence leaves `current` with a row no longer listed, were it the same
  facts a second later; when exactly, over every run, is proved. The entries are, for each sequence, the last row accepted for it.
- `PageCache`: the bounded cache answers as an unbounded one, or misses.
- `Values`, `Pins`: path writes and deep merge; the pins of the platform table survive any
  values and any overlays merged before them, down to the exact reference each row renders.
  A repository pin whose rows are all taken by explicit lines is accepted and lands nowhere,
  and the list returned beside the overlay does not tell the mark of a split row without a
  tag.
- `LiteralBlock`, `Manifest`: normalised sections written as YAML literal blocks and read
  back by the rules of section 8.1 of YAML 1.2.2, for any set of characters a reader lets
  stand in a line; the manifest the writer builds against the one the ingest accepts. A
  section comes back if and only if it holds only such characters, and its first line is not
  empty or its first line with ink is not indented. Nothing between a captured console and
  the block takes other characters out, so a terminal escape is enough for the ingest to
  refuse the document. The ingest's loader follows the character set and the line breaks of
  sections 5.1 and 5.4 of YAML 1.1.
- `Redaction`: two trees redact alike exactly when they differ in nothing but secrets.
- `Subscriber`, `EnvFile`, `Rotation`: the htpasswd and env files, and the rotation that
  keeps one hash in both. The two files are written one after the other
  (publisher/vexa_subscriber.py:744-746), so a rotation cut between them leaves the registry
  with the new hash and the edge with the old: exactly when that breaks the agreement, over
  every run, is proved, and that running the rotation again repairs it.
- `Fills`, `ValuesProven`, `ProofBlock`: from a station's log lines to the proof block and
  the verdict on it.
- `Soak`: the tolerance of the soak rates decides the failure count exactly up to 333333
  meetings.
- `Lines`, `Ordering`, `Wrappers`: text as lines, string order and stable sort, and the
  result types.

Digests, age envelopes and bcrypt are ideal: equal digests mean equal texts, an envelope
opens or does not. Times are parameters and do not go backwards.

## Model

| member | source | states |
|---|---|---|
| `Claim.SpokenCodeReadsBack` | edge/claim/vexa_claim.py:166-191 | the code as printed for the phone, or with any separators around and between its halves, normalises back to the code |
| `Claim.NormaliseCodeIff` | edge/claim/vexa_claim.py:166-180 | exactly which offers are codes: six decimal digits, and otherwise only white space and hyphens |
| `Claim.Stamp` | edge/claim/vexa_claim.py:152-153 | a stamp is a whole second, never later than its instant and less than a second before it |
| `Claim.BuiltParkMatches` | edge/claim/vexa_claim.py:303-347 | a park built from a code opens for exactly the offers that normalise to it, whatever the salt, and expires no later than asked |
| `Claim.BuiltParkRecords` | edge/claim/vexa_claim.py:303-347 | when a park is refused, and that it records the station, the attempt limit and the credential it was given and expires on the last whole second of its lifetime |
| `Claim.DecidePolicy` | edge/claim/vexa_claim.py:437-512 | for every state of a park and every offer, which answer leaves and what is written: a late caller retires the park and spends no attempt even with the right code; a fault of ours writes nothing; when an attempt is charged and when it burns |
| `Claim.WrongOffersLookAlike` | edge/claim/vexa_claim.py:478-500 | a malformed code and a merely wrong one get the same answer and the same charge |
| `Spool.DecideMoves` | edge/claim/vexa_claim.py:459-507 | a write leaves LIVE along one edge of the state machine, charges an attempt exactly for a failed answer, and is REDEEMED exactly when a credential is answered |
| `Spool.StepKeepsInv` | edge/claim/vexa_claim.py:350-512 | every file operation, crash and half-written park keeps the invariant of files, request in flight, honesty and conservation |
| `Spool.RunKeepsInv` | edge/claim/vexa_claim.py:350-512 | the same over every run |
| `Spool.WriteConserves` | edge/claim/vexa_claim.py:379-389 | one state write charges the state file with exactly the answer about to leave |
| `Spool.StepConserves` | edge/claim/vexa_claim.py:425-512 | at every step the charges on disk equal answers sent, about to be sent, and cut off by a crash |
| `Spool.AtMostOneCredential` | edge/claim/vexa_claim.py:437-512 | over every run with crashes and re-parks an issued park serves at most once: its own credential, to a request that names its station with a code whose digest it records, before it expires |
| `Spool.GuessesAreCapped` | edge/claim/vexa_claim.py:488-500 | answered failures never exceed the attempts on disk, and those never exceed the limit, or one when the limit is below one |
| `Spool.BurnLimit` | edge/claim/vexa_claim.py:392-409 | over every run, with the number in the park record itself, five when it has none and one when it is below one: the attempts on disk never exceed it, and equal it exactly when the state is BURNED |
| `Spool.StepKeepsVerdict` | edge/claim/vexa_claim.py:379-434 | no step changes a terminal state or lowers an attempt count |
| `Spool.VerdictIsFinal` | edge/claim/vexa_claim.py:412-434 | a non-live state never changes again over any continuation, even if a crash left the park file behind |
| `SpoolRaces.RunTracked` | edge/claim/vexa_claim.py:350-512 | over every run: a park being written is in no hands and no state file, tags name parks of their station, and what the two marks say of tag and shelf |
| `SpoolRaces.TagNamesJudgedIff` | edge/claim/claim_edge.py:273-279 | the line will name the park judged exactly when no park of the station was begun between peek and read |
| `SpoolRaces.ShelfHoldsJudgedIff` | edge/claim/vexa_claim.py:350-367 | from read to unlink the shelf holds the park being judged exactly when no park of the station was begun since the read |
| `SpoolRaces.DeletedParkIsDeadIff` | edge/claim/vexa_claim.py:425-434 | a park file that disappears was judged and closed exactly when none was begun since the read; otherwise it was never judged |
| `SpoolRaces.ReParkInFlightIsLost` | edge/claim/vexa_claim.py:350-367 | a run in which a new park is deleted without being judged |
| `SpoolAudit.ExcessIsMisfiled` | edge/claim/claim_edge.py:239-308 | over every run the log, with lines owed and cut off, differs from the charges on disk by its misfiled lines and nothing else |
| `SpoolAudit.LogAgreesIff` | edge/claim/claim_edge.py:239-308 | it counts every park as the state files do exactly when no charged request had a park begun between its peek and its read |
| `SpoolAudit.LogAgreesWithState` | edge/claim/claim_edge.py:239-308 | in such a run the log never over-counts and shows at most one claim; with no crash and nothing in flight it is exact |
| `SpoolAudit.ReParkInFlightMislabels` | edge/claim/claim_edge.py:273-293 | a run in which the new park is charged and the old one logged |
| `SpoolAudit.QuietIsUndisturbed` | edge/claim/vexa_claim.py:350-367 | a publisher that writes only between requests disturbs none |
| `ClaimEdge.FiveStepsRedeem` | edge/claim/vexa_claim.py:437-512 | peek, read, judge, write and unlink, uninterrupted, are `redeem` |
| `ClaimEdge.IsStationIff` | edge/claim/vexa_claim.py:213-220 | which names a station could have: a letter or digit, up to 62 letters, digits, dots, hyphens and underscores, and the newline the pattern lets pass at the end |
| `ClaimEdge.ReadClaimReads` | edge/claim/claim_edge.py:219-236 | what is read of a body: the station whenever it names one a station could have, the code only beside it, and nothing for a code that is missing |
| `ClaimEdge.TurnedAwayMeans` | edge/claim/claim_edge.py:260-271 | which requests never reach the state machine, and with which outcome: limited source first, then no station or no code, then the limited station |
| `ClaimEdge.ServeIsARun` | edge/claim/claim_edge.py:239-293 | an uninterrupted request is a run of the file machine with the same files, one line and one answer |
| `ClaimEdge.OneLinePerRequest` | edge/claim/claim_edge.py:239-308 | every request appends exactly one line; a limited or malformed one leaves parks and states alone |
| `ClaimEdge.LineNamesStation` | edge/claim/claim_edge.py:239-308 | the line says the station the request named, or the dash that no station is called, and the park on its shelf only for a request that got that far |
| `ClaimEdge.OtherStationsUntouched` | edge/claim/claim_edge.py:239-293 | a request changes no park and no state of a station it does not name |
| `ClaimEdge.DayServes` | edge/claim/claim_edge.py:239-293 | a day of the machine is its jobs in order: a parking puts a new park on its station's shelf, a request is served on the files the jobs before it left |
| `ClaimEdge.AttemptsEqualLines` | edge/claim/claim_edge.py:239-308 | over any day of parks and requests served one at a time, a park's attempts equal its wrong-code and burned lines, and it is redeemed exactly when it has its one claimed line |
| `ClaimEdge.Service.RedeemClaim` | edge/claim/vexa_claim.py:437-512 | the method on the spool's dictionaries leaves the files and gives the answer of the specification |
| `ClaimEdge.Service.Terminate` | edge/claim/vexa_claim.py:425-434 | the terminal state is stored and the station's park is gone, and nothing else moves |
| `ClaimEdge.Service.Admit` | edge/claim/claim_edge.py:260-271 | which limiters a request meets, in which order, what they answer and what they remember |
| `ClaimEdge.Service.PeekAndRedeem` | edge/claim/claim_edge.py:273-279 | the park read for the log line is the one on the shelf when the request began |
| `ClaimEdge.Service.Answer` | edge/claim/claim_edge.py:273-293 | once the limiters have answered: the files and the answer are the specification's |
| `ClaimEdge.Service.LogAttempt` | edge/claim/claim_edge.py:296-308 | one numbered line is appended |
| `ClaimEdge.Service.ServeClaim` | edge/claim/claim_edge.py:239-308 | the whole pipeline: both limiters judge by full history, the files and the answer are the specification's |
| `ClaimEdge.StationIsCapped` | edge/claim/claim_edge.py:167-170 | however many sources converge on a station, what its park limiter admits in any closed window stays within the limit |
| `Limiter.StepJudges` | edge/claim/claim_edge.py:117-141 | one call on the pruned dictionaries decides as the full history does |
| `Limiter.StepTracked` | edge/claim/claim_edge.py:117-141 | and leaves every source tracked and the two dictionaries disjoint |
| `Limiter.PrunedDecides` | edge/claim/claim_edge.py:130-140 | after pruning, the length of what is left decides as the whole history |
| `Limiter.SweepTracked` | edge/claim/claim_edge.py:143-159 | sweeping forgets only what no later decision depends on |
| `Limiter.RateLimiter.constructor` | edge/claim/claim_edge.py:109-115 | an empty limiter tracks the empty history |
| `Limiter.RateLimiter.Touch` | edge/claim/claim_edge.py:117-141 | the loop and branches on the two dictionaries compute the step |
| `Limiter.RateLimiter.Allow` | edge/claim/claim_edge.py:117-141 | answers exactly as a limiter that keeps every call and never sweeps |
| `Limiter.RateLimiter.Sweep` | edge/claim/claim_edge.py:143-159 | drops exactly the quiet keys and the ended blocks, and stays tracked |
| `LimiterBounds.SourcesAreIndependent` | edge/claim/claim_edge.py:117-141 | a source's verdicts are those it would get if nobody else ever called |
| `LimiterBounds.LongOrNoCooldownBounds` | edge/claim/claim_edge.py:117-141 | with no cooling period, or one longer than the window, every closed window admits at most the limit |
| `LimiterBounds.ShortCooldownBreaksTheBound` | edge/claim/claim_edge.py:117-141 | with a cooling period no longer than the window some window admits more than the limit |
| `LimiterBounds.WindowBoundIff` | edge/claim/claim_edge.py:117-141 | exactly which configurations bound every window |
| `LimiterBounds.LimiterIsBounded` | edge/claim/claim_edge.py:117-141 | what a limiter object ever admitted of a key, over any closed window, stays within the limit |
| `LimiterBounds.ShutUntilCooled` | edge/claim/claim_edge.py:119-137 | after a trip nothing of that source is admitted until the cooling period is over |
| `Attempts.Highest` | edge/claim/vexa_claim.py:519-535 | the highest number in the log, zero when there is none |
| `Attempts.AttemptLog.LastSeq` | edge/claim/vexa_claim.py:519-535 | the scan of the log finds that number |
| `Attempts.AttemptLog.Next` | edge/claim/vexa_claim.py:538-548 | the first call after a start reseeds from the log, every later one counts on |
| `Attempts.AttemptLog.Append` | edge/claim/vexa_claim.py:551-579 | one line is added, with the next number |
| `Attempts.AllocateKeeps` | edge/claim/vexa_claim.py:538-548 | a number taken is in neither the log nor any other thread's hands |
| `Attempts.WriteKeeps` | edge/claim/vexa_claim.py:551-579 | writing outside the lock keeps every number in exactly one place |
| `Attempts.FailKeeps` | edge/claim/vexa_claim.py:577-579 | a write that raises ends the request with its number gone, and keeps the rest |
| `Attempts.CrashKeeps` | edge/claim/vexa_claim.py:538-548 | a crash and the reseed keep it too |
| `Attempts.RunKeeps` | edge/claim/vexa_claim.py:538-579 | over every interleaving |
| `Attempts.NumbersAreUnique` | edge/claim/vexa_claim.py:538-579 | numbers in the log are distinct, in flight distinct, and the two apart; the next one is fresh |
| `Attempts.GapIff` | edge/claim/vexa_claim.py:551-579 | a number is missing exactly when it is in flight or was lost to a crash or a failed write; with neither and nothing in flight the log holds every number |
| `Attempts.GapNeverWritten` | edge/claim/vexa_claim.py:551-579 | a concrete run whose log has a gap for a line that was never written |
| `Attempts.FailedWriteLeavesGap` | edge/claim/vexa_claim.py:577-579 | a run with no crash whose log has a gap |
| `CredentialLedger.EventFile.Record` | publisher/vexa_stations.py:598-658 | a batch is accepted exactly when every event is a park or a claim, has a timestamp and none of the ten forbidden keys; then the merge and how many rows it added; on refusal the first bad event, why, and no change |
| `CredentialLedger.CheckEventMeans` | publisher/vexa_stations.py:578-595 | which events are refused and why, in this order: neither park nor claim, no timestamp, one of the ten keys that name a value |
| `CredentialLedger.RowReads` | publisher/vexa_stations.py:598-658 | a row holds every field of its event that is not null, as it was, and no other |
| `CredentialLedger.RowsAreAdmissible` | publisher/vexa_stations.py:598-658 | over any batches, accepted or refused: no row holds one of the ten keys, every row is a park or a claim and has a timestamp |
| `CredentialLedger.RowsAreInOrder` | publisher/vexa_stations.py:598-658 | over any batches: the rows are in the order of time, at one time claims before parks, and then by number, a row without one counting as zero |
| `CredentialLedger.IngestAllHolds` | publisher/vexa_stations.py:598-658 | after any batches the events are duplicate-free, sorted, and exactly the covered rows |
| `CredentialLedger.ReingestIsNoOp` | publisher/vexa_stations.py:598-658 | ingesting covered events again changes nothing |
| `CredentialLedger.OrderOfBatchesIsImmaterial` | publisher/vexa_stations.py:598-658 | histories that cover the same rows end in the same multiset, and in the same list when no sort keys tie |
| `EdgeToLedger.GroupedIsAccepted` | edge/claim/vexa_claim.py:582-600 | every stamped attempt the edge writes passes the ledger's event check |
| `EdgeToLedger.OneRowPerAttempt` | publisher/vexa_stations.py:736-792 | among whatever park rows, each attempt copied back is exactly one row, and there is no other claim row |
| `EdgeToLedger.ClaimRowsAreLines` | publisher/vexa_stations.py:736-792 | every claim row of a station holds, field by field, a line of the log that names that station, and every such line copied back has one |
| `EdgeToLedger.ParkRowsUntouched` | publisher/vexa_stations.py:555-658 | the park rows are those the list would hold had no log been copied back, each once |
| `EdgeToLedger.CopyingOrderIsImmaterial` | publisher/vexa_stations.py:598-658 | two ways of copying back the same attempts end in the same list of attempts |
| `EdgeToLedger.AttemptsEqualRows` | publisher/vexa_stations.py:598-658 | once every attempt was copied back, the claim rows are the sorted attempts and as many as the log names |
| `EdgeToLedger.EdgeAttemptsEqualLedgerRows` | edge/claim/vexa_claim.py:551-579 | the same for the log of any run of the numbering machine |
| `ClaimToLedger.SaysItsKind` | edge/claim/vexa_claim.py:117-128 | the texts of the outcomes tell served, failed and other answers apart |
| `ClaimToLedger.SaysOneThing` | edge/claim/vexa_claim.py:114-128 | no text stands for two outcomes |
| `ClaimToLedger.LinesAreLocated` | edge/claim/claim_edge.py:273-308 | a log line that names a park names the park's own station |
| `ClaimToLedger.LedgerCountsLines` | publisher/vexa_stations.py:736-792 | the ledger's rows that charge a park are as many as the edge's lines that do |
| `ClaimToLedger.ParkAttemptsEqualLedgerRows` | edge/claim/vexa_claim.py:488-507 | end to end: a park's attempts on disk equal the ledger's wrong-code and burned rows for it, and its redemption the one claimed row; with crashes the ledger never over-counts |
| `ClaimToLedger.EveryLogIsRecorded` | edge/claim/vexa_claim.py:551-600 | whatever lines the claim edge logged, some run of the numbering machine writes them |
| `ClaimToLedger.EveryRunReachesTheLedger` | edge/claim/vexa_claim.py:551-600 | so the end-to-end statement covers every undisturbed run, by one whole copy of its log |
| `ChannelLedger.DropSequence` | publisher/vexa_stations.py:262-264 | the rows of every other sequence, in order |
| `ChannelLedger.IndexExpiry` | publisher/vexa_stations.py:297-299 | the expiry index is the filtered projection of the entries |
| `ChannelLedger.ReducedHolds` | publisher/vexa_stations.py:262-264 | after a publish the list holds the row and every row of another sequence, and nothing else |
| `ChannelLedger.ExpiryIndexHolds` | publisher/vexa_stations.py:297-299 | the index holds exactly the sequence, release and expiry of the entries that expire |
| `ChannelLedger.ExpiryInOrder` | publisher/vexa_stations.py:297-299 | in the order of the entries |
| `ChannelLedger.ChannelFile.RecordPublish` | publisher/vexa_stations.py:238-313 | which publishes are refused, with which error and with nothing changed; otherwise what the entries, the last sequence, `current`, the pins and the index become, and that it is one step of the runs below |
| `ChannelLedger.ChannelFile.RecordPin` | publisher/vexa_stations.py:509-536 | one pin moves, with a justification and once there is a channel, or nothing does; and that it is one step of the runs below |
| `ChannelLedger.PublishShape` | publisher/vexa_stations.py:248-301 | a publish appends a row or replaces the newest, and nothing else |
| `ChannelLedger.PublishKeeps` | publisher/vexa_stations.py:248-301 | entries stay strictly sorted, the last sequence is their maximum, the index is their projection, `current` is listed |
| `ChannelLedger.PublishListsCurrentIff` | publisher/vexa_stations.py:262-289 | when the row of `current` itself is listed after one publish |
| `ChannelLedger.CurrentListedIff` | publisher/vexa_stations.py:238-313 | over every run: exactly when no untagged publish of its sequence came after the tag last moved, or the last of them brought the same row |
| `ChannelLedger.EntriesAreLastPublished` | publisher/vexa_stations.py:248-264 | over every run the entries are, for each sequence, the last row accepted for it |
| `ChannelLedger.CurrentCanBeStale` | publisher/vexa_stations.py:262-289 | an untagged republish, even of the same facts, leaves `current` with a row no longer listed |
| `ChannelLedger.HistoryIsAppendOnly` | publisher/vexa_stations.py:238-301 | over every run rows below the newest are frozen and the last sequence never decreases |
| `ChannelLedger.PinsHaveOneWriter` | publisher/vexa_stations.py:509-536 | from any state, the empty ledger included, pins are the fold of the justified pin moves after the first publish, under any interleaving |
| `ChannelLedger.CurrentHasOneWriter` | publisher/vexa_stations.py:266-289 | `current` is what the tag-moving publishes alone would leave |
| `ChannelLedger.ReachableIsWellFormed` | publisher/vexa_stations.py:238-313 | from an empty ledger every run keeps the document well formed |
| `ChannelLedger.IngestKeepsRevocation` | publisher/vexa_stations.py:399-420 | the derived flags are recomputed and the revocation kept |
| `ChannelLedger.FlagsMean` | publisher/vexa_stations.py:399-420 | from receipt, report and channel alone: what stale (a sequence behind, or more than thirty whole days old), contract-breach and entry-mismatch each say, and which number, digest, stamp and verdict are kept |
| `ChannelLedger.RevocationSurvives` | publisher/vexa_stations.py:468-506 | no command sets or clears a revocation |
| `ChannelLedger.StationIsItsLastIngest` | publisher/vexa_stations.py:423-506 | apart from the revocation a station's state is a function of its last bundle and the channel at that time |
| `PageCache.Cache.constructor` | edge/page/vexa_page.py:320-328 | an empty cache abbreviates the empty map |
| `PageCache.Cache.Get` | edge/page/vexa_page.py:330-340 | a hit is the unbounded cache's answer; a miss differs only for evicted keys; an expired entry is dropped |
| `PageCache.Cache.FirstToExpire` | edge/page/vexa_page.py:342-352 | the evicted keys expire no later than any kept one |
| `PageCache.Cache.Put` | edge/page/vexa_page.py:342-352 | how many are evicted, which, and that the newest put is stored |
| `PageCache.PutAbbreviates` | edge/page/vexa_page.py:342-352 | the bound only turns hits into misses |
| `PageCache.PutIsBounded` | edge/page/vexa_page.py:342-352 | the store never exceeds the bound, or one when the bound is below one |
| `Values.SetReadsBack` | publisher/vexa_channel.py:2047-2065 | what is set at a path is dug at it |
| `Values.SetLeavesOthers` | publisher/vexa_channel.py:2056-2065 | paths apart from it read as before |
| `Values.MergeKeepsLeaf` | publisher/vexa_channel.py:1499-1505 | a scalar of the overlay is what its path reads, whatever the base |
| `Values.MergeLeavesSilent` | publisher/vexa_channel.py:1499-1505 | a path the overlay does not speak of reads as in the base |
| `Values.MergeIdempotent` | publisher/vexa_channel.py:1499-1505 | merging an overlay twice equals merging it once |
| `Values.OverlayReadsBack` | publisher/vexa_channel.py:2056-2065 | prefix-free writes all read back |
| `Values.WritesSurviveOverlays` | publisher/vexa_channel.py:1499-1505 | prefix-free writes merged last read back over any base and overlays; other paths keep their value |
| `Pins.TableOrders` | publisher/vexa_channel.py:2007-2042 | the platform table's paths are strictly ordered, so no two are the same or nested |
| `Pins.OverrideIsApart` | publisher/vexa_channel.py:2007-2042 | the subchart-wide tag is neither above nor below any path of the table |
| `Pins.ResolvePlatformPins` | publisher/vexa_channel.py:2120-2170 | when a pin set is refused, for which reason, and otherwise the overlay of exactly its writes and the list beside it |
| `Pins.BuildOverlay` | publisher/vexa_channel.py:2135-2170 | the loop over the table builds that overlay and that list |
| `Pins.AllWritesPrefixFree` | publisher/vexa_channel.py:2120-2170 | the writes of any pin set are prefix-free |
| `Pins.RowRenders` | publisher/vexa_channel.py:2120-2186 | an assigned row renders exactly its repository, the tag of today or the mark, and its digest |
| `Pins.PinsSurviveOverlays` | publisher/vexa_channel.py:2120-2186 | for the platform table, over any base and overlays: the exact reference of every assigned row, a blanked override, everything else as before, and idempotent |
| `Pins.GivenIsRendered` | publisher/vexa_channel.py:2120-2186 | with the pin set's own repository and digest (an explicit line before a repository pin): `repo:tag@digest`, without a tag `repo@digest`, or for a split row `repo:pinned@digest` |
| `Pins.PassedIsUntouched` | publisher/vexa_channel.py:2120-2170 | nothing at or below a row the pin set says nothing of is written |
| `Pins.MappingLists` | publisher/vexa_channel.py:2157-2170 | the list has exactly the rows with a pin, each with its path, shape and reference |
| `Pins.WholeTag` | publisher/vexa_channel.py:2173-2186 | the tag of a whole reference is what follows its last colon, and none when it has a digest |
| `Pins.SplitTag` | publisher/vexa_channel.py:2173-2186 | a split row of the subchart takes the subchart-wide tag before its own, any other only its own, and an empty one is none |
| `Pins.MappingTellsIff` | publisher/vexa_channel.py:2157-2170 | the list tells the reference rendered exactly when the row is whole or has a tag |
| `Pins.AutoPinLandsIff` | publisher/vexa_channel.py:2120-2170 | an accepted repository pin lands exactly when some row of it has no explicit line, or an explicit line assigns the same pin |
| `Pins.AutoPinLandsNowhere` | publisher/vexa_channel.py:2120-2170 | an accepted pin set whose repository pin lands on no row |
| `LiteralBlock.NormaliseText` | kit/validate/vexa_validate.py:156-169 | the loop computes the normalised text, which the next two rows describe |
| `LiteralBlock.NormaliseMeans` | kit/validate/vexa_validate.py:156-169 | lines ended by any mix of `\n`, `\r\n` and lone `\r`, with white space before each break and blank lines after the last, normalise to the lines without their trailing white space, each ended by one `\n`; an all-blank text to nothing |
| `LiteralBlock.EveryTextIsLaidOut` | kit/validate/vexa_validate.py:156-169 | every text is of that form, so the row above describes every input |
| `LiteralBlock.NormaliseIdempotent` | kit/validate/vexa_validate.py:156-169 | normalising once is enough |
| `LiteralBlock.BlockRoundTrip` | kit/report/vexa_state_report.py:318-341 | for every reader: a text of characters it lets stand in a line, whose first and last lines are not empty, comes back from its block unchanged at any indent |
| `LiteralBlock.SectionRoundTripIff` | kit/report/vexa_state_report.py:318-341 | for every reader: exactly which normalised texts come back |
| `Manifest.TrimConserves` | kit/validate/vexa_validate.py:176-196 | kept plus dropped is the source and what is kept is its tail, with a note exactly when lines were dropped; only `keep` zero breaks this |
| `Manifest.TrimDrops` | kit/validate/vexa_validate.py:176-196 | exactly the lines beyond `keep` are dropped, and a text that fits is kept whole |
| `Manifest.AddCorresponds` | kit/validate/vexa_validate.py:393-405 | a section and its row under a new name keep the correspondence |
| `Manifest.Doc.constructor` | kit/validate/vexa_validate.py:375-391 | an empty document corresponds |
| `Manifest.Doc.Add` | kit/validate/vexa_validate.py:393-405 | the section is carried normalised with its digest, length and note, or listed as a gap with its reason |
| `Manifest.Doc.AddConsole` | kit/validate/vexa_validate.py:407-413 | the tail is carried, the whole set aside, and lengths and note agree |
| `Manifest.Doc.Absent` | kit/validate/vexa_validate.py:415-416 | the gap is listed last with its reason and nothing else changes |
| `Manifest.MatchRows` | publisher/vexa_station.py:298-314 | popping row by row accepts exactly a one-to-one match with equal digests; otherwise which row is refused first and why, or that a section was left undeclared |
| `Manifest.CheckManifest` | publisher/vexa_station.py:283-324 | accepts exactly when station, rows, sections, roles and keys all agree; otherwise which of them is refused |
| `Manifest.SectionsMean` | publisher/vexa_station.py:257-260 | a section is a text under one of seven names |
| `Manifest.MatchIffUnchanged` | publisher/vexa_station.py:283-324 | what was read matches the rows written exactly when every section came back as it was |
| `Manifest.IngestAcceptsIff` | publisher/vexa_station.py:245-324 | a document built by distinct additions is accepted after YAML exactly when every section holds only characters the loader lets stand in a line and none has an empty line above an indented first line |
| `Manifest.IngestRefusesEscape` | kit/report/vexa_state_report.py:318-341 | a document built without a fault, with one terminal escape, that the ingest refuses |
| `Manifest.IngestRefusesIndentedBelowEmpty` | kit/report/vexa_state_report.py:318-341 | a document built without a fault, with an empty line above an indented one, that the ingest refuses |
| `Manifest.RolesAreLocated` | publisher/vexa_station.py:263-276 | an accepted document has its roles, as it was read back |
| `Manifest.AcceptedHasItsRoles` | publisher/vexa_station.py:263-276 | the five sections of an accepted install report, and the one of a telemetry report, are declared and present and not blank |
| `Redaction.RedactInto` | kit/validate/vexa_validate.py:105-133 | the recursion computes the redacted tree and adds exactly the removed texts |
| `Redaction.RedactFields` | kit/validate/vexa_validate.py:105-133 | the same for a mapping, with the env-var idiom |
| `Redaction.RedactItems` | kit/validate/vexa_validate.py:105-133 | the same for a list |
| `Redaction.RedactionHidesExactlySecrets` | kit/validate/vexa_validate.py:105-133 | two trees redact alike exactly when they differ in secret scalars only |
| `Redaction.RedactIdempotent` | kit/validate/vexa_validate.py:105-133 | redacting twice is redacting once |
| `Redaction.RedactAt` | kit/validate/vexa_validate.py:105-133 | the shape is preserved: every path leads to the redaction of what was there |
| `Redaction.RemovedIsSecret` | kit/validate/vexa_validate.py:105-133 | every removed text stood at a secret place |
| `Redaction.SecretIsRemoved` | kit/validate/vexa_validate.py:105-133 | every secret scalar is removed and replaced |
| `Redaction.SecretKeyIff` | kit/validate/vexa_validate.py:88 | a key is secret exactly when it spells password, token, secret or key somewhere, in any case |
| `Redaction.RedactsExactly` | kit/validate/vexa_validate.py:105-133 | place by place: a non-empty scalar under such a key, or a `value` beside a `name` with such a word, is replaced; every other scalar is unchanged |
| `Redaction.RemovesExactly` | kit/validate/vexa_validate.py:105-133 | and exactly the texts of the replaced scalars are removed |
| `Subscriber.ReadHtpasswd` | publisher/vexa_subscriber.py:220-242 | the loop over the lines computes the accounts or the first error |
| `Subscriber.ParseAnswers` | publisher/vexa_subscriber.py:220-242 | a file is refused exactly for a malformed line or a repeated user; otherwise it yields exactly its accounts |
| `Subscriber.ParseLineReads` | publisher/vexa_subscriber.py:220-242 | what each line is: skipped when blank or a comment, refused without a colon or with an empty part, else the account before and the hash after the first colon |
| `Subscriber.SortedUsersIsSorted` | publisher/vexa_subscriber.py:245-254 | the users are listed sorted, each once |
| `Subscriber.LinesAreSorted` | publisher/vexa_subscriber.py:245-254 | one line for each account, in the order of its user |
| `Subscriber.HtpasswdReadsBack` | publisher/vexa_subscriber.py:220-254 | what is rendered parses back to the same mapping |
| `Subscriber.RewriteKeepsAccounts` | publisher/vexa_subscriber.py:220-254 | parse, render, parse equals parse, whenever the first succeeds |
| `Subscriber.AddChangesOne` | publisher/vexa_subscriber.py:257-261 | read back, an upsert has set the one account and moved no other |
| `Subscriber.RemoveChangesOne` | publisher/vexa_subscriber.py:264-271 | read back, a removal has dropped the one account, which existed |
| `Subscriber.RemoveUndoesAdd` | publisher/vexa_subscriber.py:257-271 | removing a new account gives the rewritten file back to the character |
| `Subscriber.EditsAnswer` | publisher/vexa_subscriber.py:207-271 | when an upsert and a removal are refused, and with which error: a bad file first, then a bad name, and for a removal an account that is not there |
| `EnvFile.EscapeReadsBack` | publisher/vexa_subscriber.py:274-282 | an escaped value interpolates to the original |
| `EnvFile.UnescapedSurvivesIff` | publisher/vexa_subscriber.py:274-282 | an unescaped value survives interpolation exactly when it has no `$` |
| `EnvFile.WriteEnvValue` | publisher/vexa_subscriber.py:294-317 | the scan for hits and the edit of one line compute the specified text |
| `EnvFile.SetAnswers` | publisher/vexa_subscriber.py:294-321 | an edit succeeds exactly when one line carries the key, reports a missing key exactly when none does and a duplicate exactly when several do |
| `EnvFile.KeyOfReads` | publisher/vexa_subscriber.py:294-321 | which key a line carries and what its value is: the stripped text before the first equals sign, and all after it |
| `EnvFile.SetChangesOneLine` | publisher/vexa_subscriber.py:294-317 | exactly that line changes |
| `EnvFile.SetReadsBack` | publisher/vexa_subscriber.py:294-321 | the key reads as the new value, every other key as before, and no key moves |
| `Rotation.KeysAreApart` | publisher/vexa_subscriber.py:285-291 | no two valid account names share an env key |
| `Rotation.SubEnvKeyReads` | publisher/vexa_subscriber.py:285-291 | the key is `SUB_`, the name in capitals with underscores for hyphens, and `_BCRYPT` |
| `Rotation.RotateEnv` | publisher/vexa_subscriber.py:711-742 | what a service sees under every key after a rotation |
| `Rotation.RotationWrites` | publisher/vexa_subscriber.py:711-742 | what `PUBLISHER_BCRYPT`, `EDGE_READER_BASIC` and a subscriber's own key show afterwards, and when the env file is left alone |
| `Rotation.RotationAnswers` | publisher/vexa_subscriber.py:694-746 | when a rotation is refused: a bad name, then an env file without the publisher's key, then a bad registry |
| `Rotation.RevokeAnswers` | publisher/vexa_subscriber.py:766-795 | a revocation of the publisher or the edge reader needs force; any other succeeds exactly when the file parses and has the account |
| `Rotation.RotateAccounts` | publisher/vexa_subscriber.py:711-714 | the registry's accounts change at the rotated name |
| `Rotation.RotationInStep` | publisher/vexa_subscriber.py:711-746 | a rotation that runs to its end leaves the new hash of the publisher or station subscriber in both files; every other account is in step exactly if it was |
| `Rotation.RevokeInStep` | publisher/vexa_subscriber.py:766-799 | a revocation drops the one account and leaves the env file and every other agreement alone |
| `Rotation.DoStops` | publisher/vexa_subscriber.py:744-795 | how much of a command cut short is written: the registry before the env file, and nothing of a refused one |
| `Rotation.HalfInStepIff` | publisher/vexa_subscriber.py:744-746 | after the first write only: in step exactly when the account's hash is not in the env file or already is that hash; nobody else is touched |
| `Rotation.ReRunRepairs` | publisher/vexa_subscriber.py:694-746 | a rotation cut between its writes can be run again, and run to its end repairs the account |
| `Rotation.RunInStepIff` | publisher/vexa_subscriber.py:694-799 | over every run, refused and cut commands included: an account is in step exactly when its last effective command settled it |
| `Rotation.RunStaysInStep` | publisher/vexa_subscriber.py:694-799 | while no rotation is cut between its writes, the two files stay in step |
| `Rotation.ComputeEnv` | publisher/vexa_subscriber.py:717-734 | which key is set, to what, and when none is |
| `Rotation.Host.Add` | publisher/vexa_subscriber.py:694-746 | both texts are computed before either file is written, one after the other; a refusal writes nothing, a write that raises leaves what came before |
| `Rotation.Host.Remove` | publisher/vexa_subscriber.py:766-795 | the account goes, or nothing changes |
| `Fills.StampIsEarliest` | publisher/vexa_values_proven.py:66-79 | a coarse stamp is read as its own earliest completion |
| `Fills.StampIff` | publisher/vexa_values_proven.py:66-79 | a token is refused exactly when no instant completes it |
| `Fills.ReadFillIff` | publisher/vexa_values_proven.py:61 | the first three words are read exactly when the line has the log's pattern |
| `ValuesProven.Collect` | publisher/vexa_values_proven.py:115-143 | the loop over the log fills both dictionaries as specified |
| `ValuesProven.ProofMapHolds` | publisher/vexa_values_proven.py:115-143 | a value has an entry exactly when it has evidence, in the order of the log |
| `ValuesProven.CollectConserves` | publisher/vexa_values_proven.py:115-143 | the lines of the log about a mapped value are as many as its evidence and its rejections together |
| `ValuesProven.EvidenceIff` | publisher/vexa_values_proven.py:115-143 | the evidence for a value is exactly the log's PASS lines for it, verbatim |
| `ValuesProven.JudgeMeans` | publisher/vexa_values_proven.py:115-143 | what becomes of a line that reads as a fill: passed over when its row is not mapped, a caveat for any verdict but PASS, unreadable when no instant completes its stamp, else evidence at the earliest one |
| `ValuesProven.RejectedIff` | publisher/vexa_values_proven.py:115-143 | the reasons named for a value are exactly those of the log's lines about it that are not PASS lines with a readable stamp |
| `ProofBlock.CheckValuesProven` | publisher/vexa_channel.py:577-644 | the loop accepts exactly the valid blocks |
| `ProofBlock.BlockRules` | publisher/vexa_channel.py:577-644 | the rules themselves: some row, no value twice, each row named and stationed, and proven by evidence with source and instant (and a digest of 64 hexadecimal digits, if any) or waived by somebody |
| `ProofBlock.BuildBlock` | publisher/vexa_values_proven.py:146-188 | the loops compute the block, or the refusal and its kind |
| `ProofBlock.BuildAnswers` | publisher/vexa_values_proven.py:82-188 | when a bad contract, a bad map and an unproven required value are each the refusal |
| `ProofBlock.Compute` | publisher/vexa_station_verdict.py:120-149 | the loops compute the verdict, the unanswered values and the strays |
| `ProofBlock.EligibleIff` | publisher/vexa_station_verdict.py:120-149 | ELIGIBLE exactly when every required value has exactly one row, with evidence or a named waiver |
| `ProofBlock.JudgementLists` | publisher/vexa_station_verdict.py:120-149 | exactly which values are listed as unanswered and which answers as strays |
| `ProofBlock.JudgementInOrder` | publisher/vexa_station_verdict.py:120-149 | in the order of the contract |
| `ProofBlock.JudgeAnswers` | publisher/vexa_station_verdict.py:120-149 | which of the two refusals, and when |
| `ProofBlock.BuildIsEligible` | publisher/vexa_values_proven.py:146-188 | a block that is written passes the checks and is ELIGIBLE with no stray |
| `ProofBlock.EvidenceIsVerbatim` | publisher/vexa_values_proven.py:155-166 | every row written is proven by the station with exactly the log's PASS lines for its value |
| `ProofBlock.BuildWritesIff` | publisher/vexa_values_proven.py:146-188 | exactly when a block is written |
| `Soak.RateIsClose` | publisher/vexa_channel.py:3178-3199 | an accepted rate is within 1.5e-6 of the true one |
| `Soak.RateGivesFailures` | publisher/vexa_channel.py:3178-3199 | up to 333333 meetings rounding the rate gives the failure count, and the taxonomy sum when reasons are given |
| `Soak.RateDecidesIff` | publisher/vexa_channel.py:3178-3199 | and 333333 is the exact limit: above it one rate is accepted for two counts |
| `Soak.CheckSoakConsistency` | publisher/vexa_channel.py:3178-3199 | refuses at the first inconsistent platform, and only then |
| `Soak.ConsistentIff` | publisher/vexa_channel.py:3178-3199 | what consistent means, from nearest integers alone: both rates within a millionth of the rounded quotients, the reasons as many as the meetings, the two software reasons as many as the failures |
| `Soak.CountIff` | publisher/vexa_channel.py:3193-3199 | the number beside a reason, or zero when it is not named |
| `Soak.SumConcat` | publisher/vexa_channel.py:3193-3199 | reasons add up |

## Left out

- Interleaved `redeem` calls, and two publishers writing one spool: no lock exists, so at-most-once is stated for one request at a time (crashes, restarts and the publisher may come between any two file operations).
- `age`, bcrypt, SHA-256, HMAC, base64 and JSON encoding: idealised; `decrypt` opens or fails. A decrypted credential without a username, which would raise after the terminal write, is not part of this model.
- The state file's `first_seen_at`, `terminal_at` and `terminal_reason`: no decision reads them.
- Log rotation, torn last lines and log lines that are JSON but not objects: the log is unrotated and written by whole lines.
- Clocks that go backwards between two calls of a limiter or a cache, and the float rounding of `now + cooldown`, `now + ttl` and `now - seen[0]`: times are reals.
- Event fields of the wrong type (a `ts` that is not text makes the sort raise).
- The heap under `deep_merge` and `_set`: trees are values, so what is shared between a result and its inputs is not captured.
- The text of a pin set (`parse_pin_set`), the coverage of the rendered chart, and `attach_station_verdicts`: parsing and one-branch checks.
- Pins.ResolvePlatformPins: the text `str` gives a mapping that stands where a tag is expected is taken as empty; the template column of the list is left out.
- ChannelLedger.ChannelFile.RecordPublish: the channel's own name, registry and tag fields, the document's own update time and the git commit are left out.
- ChannelLedger.StationIsItsLastIngest: the station's identity, position, release and contract fields, the text of a mismatch and the copied receipts are left out.
- The YAML writer's folded scalars and raw texts that were not normalised; Python's line separators other than `\n` (and `\r` in normalisation) where text files are split into lines.
- Soak.CheckSoakConsistency: rates are reals and `round` is exact half-even, so binary rounding of the decimal rate is not captured.
- ProofBlock.CheckValuesProven: values of the wrong JSON type and the wording of a refusal are left out.
- Fills.StampIff: digits are ASCII; the pattern's digit class also takes other decimal digits.
- EnvFile.EscapeReadsBack: of compose's interpolation only `$$` is modelled; a lone `$` reads as no text.
- Secret and token scanners, JSON-schema validation, HTTP, subprocesses and the network, argument parsing, rendering, telemetry and posture checks.

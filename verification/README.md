# digestd, modelled and proved in Dafny

`digestd` polls one IMAP mailbox, archives every new message, stores a row for it,
marks it read, advances a UID cursor, and mails a weekly digest of the stored rows.
This project models that pipeline and proves what it promises: nothing is skipped,
nothing is marked read before it is durable, restarts resume, and completed digests
report each row at most once.

`dafny verify dfyconfig.toml` checks everything.

## How the model is built

* **One machine for the whole service** (`Pipeline.dfy`). Its state is the server's
  mailbox, the archive as a map from path to bytes, the three database tables and the
  poll job's program counter, which stops between any two durable steps. Server events,
  other writers of the archive, digests, errors and crashes may come at every point. An
  error return and the death of the process are the same action, `Crash`; a call that
  took effect but whose answer was lost is the effect followed by `Crash`. Histories
  record the bytes of every UID ever assigned, each epoch's baseline, what was marked or
  unmarked and by whom, and what had already left the mailbox when a fetch passed over it.
* **Results over all runs.** `NoGaps.dfy` is the invariant of that machine,
  `Guarantees.dfy` the theorems about every reachable state, `CrashRefinement.dfy`,
  `RowColumns.dfy` and `CleanRuns.dfy` compare histories full of crashes with one
  uninterrupted run. `Flags.dfy` says what the seen flags in the mailbox tell.
* **One message** (`OneMessage.dfy`). A reference written from the message and what its
  parsing returned alone: each column of its row, the path of its file, its flag, the
  cursor and the counters. Each step of the machine is proved to have exactly that effect.
* **The program itself** (`PollJob.dfy`). `Job.Run` and `Job.ProcessOne` are written as
  the source writes them, over the classes `Database.Store`, `Archive.Disk` and
  `Mailbox.Server`, whose calls may fail at will and between whose calls the rest of the
  world acts. They are proved to be runs of the machine.
* **Digests** (`Digests.dfy`, `DigestResults.dfy`) are histories of inserts, cursor moves
  and digest jobs under an arbitrary, even backwards, clock. `Mailings.dfy` is about the
  mails as opposed to their records, `DigestWitnesses.dfy` has the inputs for what goes
  wrong, and `SystemDigests.dfy` proves that each run of the machine is such a history
  and carries the results over.
* **The run lock** (`RunLock.dfy`) is a concurrent transition system of any number of
  threads whose job bodies do anything at all. `LockedPipeline.dfy` puts the machine's
  steps into those bodies, which `JobBodies.dfy` describes and `Job.Run` is proved to have:
  a digest then never meets a poll under way, which is why the machine may run digests
  only between polls, and after `Stop` only the rest of the world goes on.
* **The body cleaner** (`Whitespace.dfy`, `QuotedText.dfy`, `CleanBody.dfy` for the two in
  the order the parser runs them), **stored times**
  (`Timestamps.dfy`: the full calendar, RFC 3339 texts and their order) and **decimal
  state** (`Decimal.dfy`) stand alone.

Parsing a message, hashing it, folding an address and recognising a quote header are
arbitrary deterministic functions. The clock, the summary a model answers, the answer a
server gives to a fetch, and the outcome of every call are arbitrary values.

Assumed of the server (section 2.3.1.1 of RFC 3501): UIDs ascend within a UIDVALIDITY
and are never reused, a renewed UIDVALIDITY is larger than the old one, UIDNEXT is
reported and nonzero. There is one folder: the key `UNIQUE(uid_validity, imap_uid)` has
no folder in it.

## What is not true of the code

* A row is not always reported. Under any clock a digest reports a row exactly when it is
  the first since the row was stored whose window contains its `received_at`
  (`DigestResults.ReportedExactlyWhenFirstInside`), and a row is unreported exactly when
  no window since then contains it (`DigestResults.UnreportedExactlyWhenNeverInside`).
  On a forward clock these are the rows received before the start of the first window
  open to them (`DigestResults.UnreportedRowsExactly`), and they stay unreported as long
  as the clock does not go back (`DigestResults.BehindForever`); a clock that goes back
  can still report them (`DigestWitnesses.ClockGoingBackReportsLateRow`).
  `DigestWitnesses.LateRowIsLeftBehind` has such a history: a digest, then a row received
  before it, then any digest. It happens because `received_at` is the Date header. (A
  comment in `internal/parse/parse.go:40` says that the ingest stage overrides the date
  with INTERNALDATE; no code does, and the model follows the code.)
* A window that ends at 0001-01-01T00:00:00Z is read back as "no digest yet", so the next
  window does not start there: `DigestResults.ChainedExactlyWhenNonzero`.
  `DigestWitnesses.ZeroTimeLosesRow` has a history in which a row is skipped for it.
* A row may be mailed twice. When a mail went out and recording it failed, a later mail
  lists the row again if and only if its window still contains it and no mail that listed
  it was recorded: `Mailings.MailedAgainExactly`. `DigestWitnesses.RowMailedTwice` has a
  history in which that happens.
* Text order equals time order up to the last second of year 9999 and no further:
  `Timestamps.OrderHoldsExactlyBelowYear10000`.
* `StripQuotedText` is not idempotent. A second pass changes the text exactly when the
  final trim uncovers a '>' or a signature at the first or last visible kept line
  (`QuotedText.StrippedTwice`); `CleanBody.IndentedQuoteIsClean` is an input that the
  parser can pass on.
* The parser's body is not always in the normal form it was brought into before quotes
  were stripped: three newlines in a row come back exactly when two empty kept lines meet
  (`CleanBody.BodyIsClean`), as in `CleanBody.DroppedQuoteLeavesGap`.
* The comment on `normalizeWhitespace` speaks of more than two blank lines; the code
  already reduces two blank lines to one, and the model does what the code does.

## Model

| member | source | states |
|---|---|---|
| Guarantees.NothingIsSkipped | internal/poll/poll.go:119-136 | in every reachable state, mid-run and after crashes included, each message above its epoch's baseline and at or below the stored cursor has its exact bytes archived, is covered by a row and was marked, unless it had left the mailbox before a fetch |
| Guarantees.HeldMailIsHandled | internal/poll/poll.go:159-245 | whatever the mailbox still holds between baseline and cursor was archived, stored and marked |
| Guarantees.LostOnlyWhenGone | internal/imap/imap.go:101-115 | a message is given up only by a fetch that found it gone while it was still ahead of the cursor |
| Guarantees.NothingIsUndone | internal/poll/poll.go:240-245 | over any continuation files and rows stay, marks stay, baselines stay, and the cursor never moves back within an epoch nor to an older one |
| Guarantees.FiledForGood | internal/archive/archive.go:17-72 | after any later history the path a message was filed at holds its bytes, and filing it again reports that path and adds nothing |
| Guarantees.MarkedIsDurable | internal/poll/poll.go:170-245 | every UID ever marked seen is archived, covered by a row and above the baseline of its own epoch |
| Guarantees.MarkedAfterStored | internal/imap/imap.go:119-148 | at the moment of marking the message is already durable and the mailbox is in the message's own epoch, even if UIDVALIDITY changed after the fetch |
| Guarantees.SeenIsAccountedFor | internal/poll/poll.go:170-245 | each seen flag in the mailbox stems from a handled message or from another client |
| Flags.FlagsAreExact | internal/imap/imap.go:144-147 | in every reachable state a message in the mailbox is flagged if and only if digestd or another client marked it and no other client took the flag away since |
| Flags.HeldMailIsRead | internal/poll/poll.go:240-245 | whatever the mailbox still holds between baseline and cursor is flagged read, unless another client unflagged it |
| Flags.ReadStaysRead | internal/imap/imap.go:252-262 | over any continuation a flagged message stays flagged while it is in the mailbox, unless another client takes its flag away |
| Flags.OnlyOthersUnflag | internal/imap/imap.go:252-262 | no step of digestd ever takes a flag away |
| Guarantees.RowsPointAtTheirBytes | internal/poll/poll.go:185-196 | each row names a real message above the baseline, the file that holds exactly its bytes, and the Message-ID its parsing returned, NULL when that is empty or parsing failed |
| Guarantees.RowsAreUnique | internal/store/store.go:35-36 | both uniqueness keys hold in every reachable state |
| Guarantees.InsertNeverConflicts | internal/poll/poll.go:232-239 | under the run lock the not-inserted branch is dead: exactly one row is added, with the counted outcome |
| Guarantees.NeverSummarizedAgain | internal/poll/poll.go:170-182 | once a row covers a message no continuation summarizes it again |
| Guarantees.CountersAddUp | internal/poll/poll.go:123-137 | after a successful run processed + duplicates = fetched, rows grew by processed, errors is the number of those rows with status error, out-of-scope the number of those not in scope, the cursor is the last fetched UID |
| Guarantees.CountersSoFar | internal/poll/poll.go:124-136 | at any point of a run the counters count the finished messages and the error and out-of-scope rows among them, the cursor is the last of them, rows grew by processed or one more |
| NoGaps.StepKeeps | internal/poll/poll.go:95-254 | every step of the system keeps the invariant behind these results |
| NoGaps.FreshIsInserted | internal/poll/poll.go:170-239 | an insert right after a negative existence check adds exactly the judged row |
| OneMessage.NewMessage | internal/poll/poll.go:147-254 | processing a message that no row has under its UID or Message-ID files its bytes, adds the one row with every column as written out in the reference, sets its flag and no other, saves its UID as the cursor and counts it |
| OneMessage.KnownMessage | internal/poll/poll.go:170-183 | processing a message that some row has files it, marks it, moves the cursor, counts a duplicate and changes no row |
| OneMessage.OwnRow | internal/store/store.go:203-214 | in every reachable state a marked message whose Message-ID no other message has, or that has none, has a row of its own |
| OneMessage.FilingIs | internal/archive/archive.go:17-72 | the month of the Date header or of the processing time, the usable part of the Message-ID or else the UID, the hash when other bytes have that name; it fails only when both names are taken |
| OneMessage.CheckingIs | internal/store/store.go:203-214 | a message is a duplicate if and only if some row has its validity and UID, or it parsed with a nonempty Message-ID that some row has |
| OneMessage.StoringIs | internal/poll/poll.go:185-239 | the stored row and the counted outcome of each case: unparsed, out of scope, summarized |
| OneMessage.MarkingIs | internal/imap/imap.go:132-147 | the mark happens only in the message's own epoch, sets its flag if it is still held, and changes no other flag |
| OneMessage.AdvancingIs | internal/store/store.go:146-163 | both keys of the folder's cursor are saved and the outcome is added to the counters |
| CrashRefinement.CrashesDoNotMatter | internal/poll/poll.go:95-254 | after any crashes and retries, a run that finishes leaves row keys, marks and cursor as handling its mail once in order does; the archive too when all mail is dated and nobody else publishes |
| CrashRefinement.StepFollows | internal/poll/poll.go:147-254 | each step keeps at most one message half done ahead of the cursor, its effects in the order file, row, mark |
| CrashRefinement.FiledNext | internal/archive/archive.go:17-72 | filing a dated message again after a crash gives the same archive as filing it once |
| CrashRefinement.RestOfMail | internal/imap/imap.go:101-106 | what lies above the n-th new message is the rest of the new mail |
| RowColumns.RowsFollowTheirMessage | internal/poll/poll.go:152-262 | in every reachable state a row is in scope if and only if its message failed to parse, there is no allowlist, or its folded sender is listed; a message that failed to parse or is out of scope has the fixed summary and status; received_at is the Date header, or without one the processing time; and a dated message lies in the month of its date under its name, with the hash if other bytes have that name |
| RowColumns.DatedRowsAgree | internal/poll/poll.go:95-254 | two finished histories over the same dated mail agree on the archive and on every column of every row but processed_at, digested_at and, for mail in scope, summary and status |
| CleanRuns.EqualsOneCleanRun | internal/poll/poll.go:95-254 | a finished history over dated mail has the rows (but for processed_at, digested_at and the model's summary and status), marks, cursor and archive of one uninterrupted run after the same arrivals, and that run exists |
| CleanRuns.FinishersAgree | internal/poll/poll.go:95-254 | any two histories that finish over the same mail agree on row keys, marks and cursor; over dated mail that nobody else published into, also on the archive and on every column the mail determines |
| CleanRuns.FirstPollSkipsBacklog | internal/poll/poll.go:104-118 | the first poll puts the cursor below UIDNEXT, stores, files and marks nothing, and leaves nothing new |
| CleanRuns.NewEpochSkipsBacklog | internal/poll/poll.go:104-118 | the same holds from any state between runs whose cursor belongs to another UIDVALIDITY |
| CleanRuns.RestartCanFinish | internal/poll/poll.go:95-137 | from every state between runs a fault-free run gets through: in the cursor's epoch it handles all new mail unless two files clash, in a new one it saves the baseline and changes nothing else |
| CleanRuns.FinishesUnlessClash | internal/archive/archive.go:74-99 | over dated mail a fault-free run can finish if and only if no two files clash |
| CleanRuns.DriveMessage | internal/poll/poll.go:147-254 | without a fault one message is processed completely and the loop moves on |
| PollJob.Job.Run | internal/poll/poll.go:95-138 | the program is a run of the machine without a digest, ending where it says, and its steps form one poll body; its counters are those of the run and satisfy the exact accounting against the rows it added, with and without an error |
| PollJob.StartService | internal/poll/poll.go:76-93 | a service on an empty database and archive is in a state from which all promises about runs hold |
| PollJob.Job.ProcessAll | internal/poll/poll.go:123-137 | the loop sums the outcomes of the messages it finished and stops at the first error |
| PollJob.Job.ProcessOne | internal/poll/poll.go:147-254 | one message is taken through all its durable steps in order, or an error leaves the cursor where it was |
| PollJob.Job.CoverMessage | internal/poll/poll.go:152-239 | archive, existence check, summary and insert end with a row that covers the message |
| PollJob.Job.CheckMessage | internal/poll/poll.go:170-184 | the answer is yes if and only if some row has the validity and UID, or the message parsed with a nonempty Message-ID that some row has |
| PollJob.Job.CloseMessage | internal/poll/poll.go:240-245 | the cursor moves only after the message was marked in its own epoch |
| PollJob.Job.FetchNew | internal/poll/poll.go:96-119 | a fetch yields a baseline or exactly the new mail in ascending order |
| PollJob.Job.KeepBaseline | internal/poll/poll.go:104-118 | a new epoch's baseline is saved or nothing changes |
| PollJob.Job.Summarize | internal/poll/poll.go:185-262 | the row names the message, its Message-ID and its file; it is in scope if and only if parsing failed, there is no allowlist or the folded sender is listed; only a parsed message in scope carries the model's text and status, any other the fixed ones; one message counts as processed, as failed exactly when its row says error, as out of scope exactly when its row does |
| PollJob.Job.MarkMessage | internal/imap/imap.go:119-148 | success means the mailbox is in the expected epoch and the message, if still held, is flagged; an error may hide that it was; no other flag changes |
| PollJob.Job.Interfere | internal/imap/imap.go:73-148 | whatever others do between two calls is part of a run |
| Mailbox.AnswerIsNewMail | internal/imap/imap.go:210-250 | in whatever order and with whatever extra items below the range the server answers, the sorted result is exactly the messages above sinceUID, ascending |
| Mailbox.CollectedIsExact | internal/imap/imap.go:221-249 | an answer is an error exactly when a relevant body is missing, else exactly its relevant messages |
| Mailbox.NothingAboveLargestUid | internal/imap/imap.go:101-105 | at the largest UID, and in a caught-up mailbox, there is no new mail |
| Mailbox.HeldBetweenIsExact | internal/imap/imap.go:105-110 | the new mail of a mailbox is exactly the held messages of the range, ascending |
| Mailbox.SortedStaysPut | internal/poll/poll.go:119-121 | sorting the fetched batch again changes nothing |
| Mailbox.Server.CollectAnswer | internal/imap/imap.go:221-249 | the loop that remembers a missing body to the end computes the all-or-nothing result |
| Mailbox.Server.Fetch | internal/imap/imap.go:73-116 | a successful fetch is a baseline or all new mail and nothing else |
| Mailbox.Server.MarkSeen | internal/imap/imap.go:119-148 | success means the expected UIDVALIDITY and, for a message still held, its flag set; nothing else in the mailbox changes, whatever the answer |
| Archive.WriteStores | internal/archive/archive.go:17-72 | a successful write stores exactly these bytes at the path it reports and changes no published file |
| Archive.WriteIsStable | internal/archive/archive.go:30-99 | whatever is published later, the same write reports the same path again with the same bytes and adds nothing |
| Archive.ClashIsPermanent | internal/archive/archive.go:74-99 | a write fails exactly when both candidate paths hold other bytes, and then for ever |
| Archive.Disk.WriteMessage | internal/archive/archive.go:17-72 | with temporary files, faults and a lost link race, success is the undisturbed write on what was published at the link; failure publishes nothing |
| Archive.Disk.Link | internal/archive/archive.go:61-71 | publishing never replaces a file |
| Archive.ComputeSafeName | internal/archive/archive.go:101-122 | the builder loop with its early break computes the masked, cut and trimmed name |
| Archive.SafeName | internal/archive/archive.go:101-122 | at most 120 characters, all of them safe, no dot at either end |
| Archive.SafeNameIs | internal/archive/archive.go:101-122 | the name of an id in brackets and blanks: its first 120 characters without outer dots, each unsafe one an underscore |
| Archive.SafeNameOfNothing | internal/archive/archive.go:118-121 | no name is left of brackets and blanks alone, nor of dots |
| Archive.WriteReports | internal/archive/archive.go:74-99 | a write goes to month/name.eml if that is free or holds these bytes, else to month/name-hash.eml, and fails only when that holds other bytes |
| Database.InsertedIffNew | internal/store/store.go:166-215 | an insert succeeds exactly when the existence check says no, in every table state |
| Database.InsertKeepsValid | internal/store/store.go:35-36 | inserts keep both uniqueness keys, and afterwards the message is covered |
| Database.MissingMessageIdsNeverConflict | internal/store/store.go:207-210 | messages without a Message-ID conflict only on validity and UID |
| Database.KeysNeverCollide | internal/store/store.go:118-122 | the three forms of state keys never coincide for any folder names |
| Database.CursorIsIsolated | internal/store/store.go:117-163 | a saved cursor reads back, for every pair of uint32, and no other folder's cursor nor the digest time moves |
| Decimal.Uint32RoundTrip | internal/store/store.go:138-156 | printing and parsing a uint32 round-trips |
| Decimal.FormatUintIsDecimal | internal/store/store.go:154-158 | the usual decimal form: no leading zero, each digit at its place |
| Database.Store.Exists | internal/store/store.go:203-215 | yes if and only if some row has the validity and UID, or the Message-ID, if that is not empty |
| Database.PendingIsExact | internal/store/store.go:218-249 | exactly the undigested rows with start <= received_at < end as texts, by received_at and then by id |
| Database.Store.MarkDigested | internal/store/store.go:369-379 | one update per id marks exactly the listed rows and keeps earlier marks |
| Database.Store.Complete | internal/store/store.go:286-303 | the unmarked rows of the list get the time, the record is added and last_digest_at becomes the window's end, all together or not at all |
| Database.Store.Insert | internal/store/store.go:166-200 | the row is added, column by column as stated, if and only if no row has its validity and UID or its nonempty Message-ID; an error leaves the tables alone |
| Database.Store.SaveLastUid | internal/store/store.go:146-163 | the two keys of the folder change together or not at all, and nothing else does |
| Digests.RunDigest | internal/scheduler/scheduler.go:133-172 | a digest job mails the due rows of one window or nothing; it completes that window or leaves the database unchanged, also when a mail went out |
| Digests.DeliveredIs | internal/scheduler/scheduler.go:133-172 | a completed digest marks exactly the undigested rows of the half-open window from last_digest_at, or a week back without one, to now, records that window and makes its end last_digest_at |
| Digests.CollectIds | internal/scheduler/scheduler.go:163-166 | the id array lists the rows' ids in order |
| Digests.EveryHistory | internal/scheduler/scheduler.go:133-172 | the digest invariant holds of every history of inserts, cursor moves and digests |
| DigestResults.ReportedExactlyWhenFirstInside | internal/scheduler/scheduler.go:133-172 | in every history, whatever the clock does, a digest reports a row if and only if it is the first completed since the row was stored whose window contains it; the row then carries that digest's time |
| DigestResults.UnreportedExactlyWhenNeverInside | internal/store/store.go:218-249 | in every history a row is unmarked, and in no digest, if and only if no window completed since it was stored contains it |
| DigestResults.FirstInsideIffCrosses | internal/scheduler/scheduler.go:139-143 | for a row not behind its entry the first window that contains it is the first that ends after it, unless an end in between is the zero time |
| DigestResults.ReportedExactlyOnce | internal/scheduler/scheduler.go:133-172 | under any clock, a row received at or after last_digest_at at its insertion is in exactly one completed digest once a later window ends after it, the first such window; no end in between may be the zero time |
| DigestResults.UnreportedRowsExactly | internal/poll/poll.go:154-157 | while the clock has not gone back since the row's entry, a row is unmarked with a completed window ending after it if and only if it was received before the start of the first window open to it |
| DigestResults.BehindForever | internal/store/store.go:227 | such a row is in no digest of any continuation on a forward clock |
| DigestResults.PendingRowIsReachable | internal/store/store.go:227 | any pending row is reported by the next completed digest, the first one included, if and only if its window contains the row |
| DigestResults.DigestsAreConserved | internal/store/store.go:286-303 | the recorded counts add up to the number of marked rows, no row is reported twice, and each marked row has the record of its digest, whose window contains it |
| DigestResults.WindowsTile | internal/scheduler/scheduler.go:139-143 | each window starts exactly where the one before it ended, truncated to seconds, unless that end was the zero time |
| DigestResults.ChainedExactlyWhenNonzero | internal/scheduler/scheduler.go:139-143 | the next window starts where the last one ended if and only if that end is not the zero time |
| DigestWitnesses.LateRowIsLeftBehind | internal/poll/poll.go:154-157 | a digest, a row received before it, any later digest: the row is in neither |
| DigestWitnesses.ClockGoingBackReportsLateRow | internal/scheduler/scheduler.go:139-143 | a row stored behind last_digest_at is reported when the clock goes back and then forward |
| DigestWitnesses.ZeroTimeLosesRow | internal/scheduler/scheduler.go:139-143 | after a window that ended at the zero time a row between that end and the next one is skipped |
| DigestWitnesses.RowMailedTwice | internal/scheduler/scheduler.go:159-169 | a row in the week before two digests is in both mails when the first is not recorded |
| Mailings.MailListsExactly | internal/scheduler/scheduler.go:145-161 | each mail lists exactly the stored rows of its window that no recorded mail listed before |
| Mailings.MarkedRowsWereMailed | internal/scheduler/scheduler.go:159-169 | a row is marked if and only if a mail that listed it was recorded |
| Mailings.MailedAgainExactly | internal/scheduler/scheduler.go:159-169 | a row mailed once is mailed again by a later mail if and only if that window still contains it and no mail that listed it before was recorded |
| SystemDigests.StateHasHistory | internal/scheduler/scheduler.go:105-131 | the database of every reachable state of the service is that of a digest history |
| SystemDigests.DigestCanComplete | internal/scheduler/scheduler.go:124-131 | from every reachable state between polls a digest can be completed |
| SystemDigests.EveryMarkedRowWasSent | internal/store/store.go:369-393 | in every reachable state the digest counts add up to the marked rows and each has its digest record |
| SystemDigests.StoredRowIsReportedByFirstWindow | internal/store/store.go:218-249 | after the step that stores a row, over any continuation of the service and under any clock, the row is unmarked if and only if no window since contains it, and otherwise carries the time of the first that does |
| RunLock.MutualExclusion | internal/scheduler/scheduler.go:174-191 | channel occupancy equals the number of lock holders, zero or one, for any number of threads |
| RunLock.ReleaseNeverBlocks | internal/scheduler/scheduler.go:174-186 | a thread that must receive its token always finds it |
| RunLock.StopIsFinal | internal/scheduler/scheduler.go:86-103 | once Stop returned nil no job body runs and none ever starts, even for a thread that had read the flag before |
| RunLock.JobsAreSerial | internal/scheduler/scheduler.go:105-131 | every interleaving's effects are whole jobs one after the other |
| RunLock.ReturnValueIsHonest | internal/scheduler/scheduler.go:174-191 | a call that returned false had no effect, one that returned true ran one job |
| RunLock.RefusedExactlyWhen | internal/scheduler/scheduler.go:174-191 | over every interleaving a call that returned did so with false if and only if it found the stop flag up at one of its two looks or the channel full at its send |
| RunLock.IdleCallRuns | internal/scheduler/scheduler.go:174-186 | a call on an idle scheduler that is not stopping gets into its job body |
| RunLock.IdleCallIsServed | internal/scheduler/scheduler.go:182-186 | and whatever the job does, the call can run it to the end, return true and leave the lock free |
| RunLock.IdleStopSucceeds | internal/scheduler/scheduler.go:86-103 | Stop on an idle scheduler can return nil |
| RunLock.DatabaseSeesWholeJobs | internal/scheduler/scheduler.go:105-131 | between jobs the database is what the finished jobs alone, in order, make of it |
| JobBodies.WholePollIsBody | internal/scheduler/scheduler.go:105-122 | whatever the world does in between, the job steps of a poll that starts and ends with no job under way form one body: no digest, and the last step ends the job |
| LockedPipeline.LockMakesDigestsWait | internal/scheduler/scheduler.go:105-131 | if whole polls and digests run under the lock, a machine that would let a digest run at any time does what the machine that runs digests only between polls does |
| LockedPipeline.LockedStaysReachable | internal/scheduler/scheduler.go:174-191 | so a locked service never leaves the reachable states |
| LockedPipeline.NothingAfterStop | internal/scheduler/scheduler.go:86-103 | once Stop returned nil, no later history changes the tables or what digestd marked; new files come from other writers and new flags from other clients |
| Timestamps.FormatTimeOrder | internal/store/store.go:395-397 | for years 0 to 9999 comparing stored texts is comparing instants cut to seconds |
| Timestamps.TextIsTheDate | internal/store/store.go:395-397 | the text of every instant of years 0 to 9999 is its Gregorian date and time of day, digit by digit, with the days counted in closed form |
| Timestamps.DaysBeforeMonthIs | internal/store/store.go:395-397 | the days before each month in closed form |
| Timestamps.OrderHoldsExactlyBelowYear10000 | internal/store/store.go:227 | the text order is right up to the end of year 9999 and no further |
| Timestamps.FormatTimeRoundTrip | internal/store/store.go:306-320 | reading a stored text gives the instant cut to seconds |
| Timestamps.StoredTextSurvives | internal/store/store.go:306-320 | text formatted, parsed and formatted again is the same text |
| Timestamps.CivilRoundTrip | internal/store/store.go:395-397 | each second has a valid date and time of day, leap years included, that counts back to the same second |
| Whitespace.NormalizeWhitespace | internal/parse/parse.go:113-124 | the in-place loop computes the normal form |
| Whitespace.CleanInPlace | internal/parse/parse.go:118-120 | each line is overwritten with its cleaned form |
| Whitespace.NormalizedIsClean | internal/parse/parse.go:113-124 | no tab, no double or trailing space, no three newlines, no outer white space |
| Whitespace.FixedExactlyWhenClean | internal/parse/parse.go:113-124 | the fixed points are exactly the clean texts |
| Whitespace.NormalizedIsIdempotent | internal/parse/parse.go:113-124 | a second pass changes nothing |
| Whitespace.NormalizedKeepsReading | internal/parse/parse.go:113-124 | visible characters keep their order, and between them a space, a line break or a paragraph break stays one |
| QuotedText.StripQuotedText | internal/parse/parse.go:142-179 | the loop with look-ahead computes the declarative filter |
| QuotedText.KeptAreSurvivors | internal/parse/parse.go:153-176 | kept are exactly the lines before the signature that are neither quoted nor the header of a quotation, in order |
| QuotedText.FindSignature | internal/parse/parse.go:145-151 | the cut is at the first signature line |
| QuotedText.SignatureIs | internal/parse/parse.go:145-151 | a signature line is two hyphens with nothing but blanks and tabs behind them |
| QuotedText.NextIsQuoted | internal/parse/parse.go:162-169 | the look-ahead decides whether the next nonempty line is quoted |
| QuotedText.KeptLinesFixed | internal/parse/parse.go:142-176 | a list is unchanged exactly when it has no signature and no quoted line |
| QuotedText.KeptLinesIdempotent | internal/parse/parse.go:142-176 | the list-level filter is idempotent |
| QuotedText.StrippedTwice | internal/parse/parse.go:178 | a second pass changes nothing exactly when the first visible kept line without leading white space, and the last without trailing white space, is neither quoted nor a signature |
| QuotedText.IndentedQuoteNeedsTwoPasses | internal/parse/parse.go:178 | a concrete body that a second pass changes |
| CleanBody.BodyIsClean | internal/parse/parse.go:53-54 | the parser's body is free of tabs, double and trailing spaces and outer white space, and is in normal form exactly when no two empty kept lines meet between visible ones |
| CleanBody.StrippedStaysTidy | internal/parse/parse.go:142-179 | stripping brings back no tab, no double and no trailing space |
| CleanBody.GapsOfStripped | internal/parse/parse.go:178 | for any body, three newlines in a row are in the result exactly when two empty kept lines meet between visible ones |
| CleanBody.DroppedQuoteLeavesGap | internal/parse/parse.go:153-158 | a concrete body in normal form whose result is not |
| CleanBody.IndentedQuoteIsClean | internal/parse/parse.go:53-54 | the body that a second pass changes is in normal form |

## Left out

- PollJob.Job.Run: does not say when a run succeeds, because every call may fail; `CleanRuns.FinishesUnlessClash` says when a run without faults can finish.
- DigestResults.ReportedExactlyOnce: excludes ends at the zero time between the row's entry and the later window, which `DigestWitnesses.ZeroTimeLosesRow` shows to lose rows; `DigestResults.ReportedExactlyWhenFirstInside` has no such condition.
- CrashRefinement.CrashesDoNotMatter: speaks of row keys only, because without a Date header received_at and raw_path depend on when the message was first filed; `RowColumns.DatedRowsAgree` has the other columns for dated mail.
- IMAP, SMTP, HTTP and TLS transport, timeouts and `commandTimeout`: a call succeeds or fails with its effect on the state.
- Select and fetch are one atomic look at the mailbox; messages arriving in between wait for the next run.
- A server that does not report UIDNEXT: the baseline would be 0; assumed away with the other server assumptions.
- `internal/llm`: any summary text and status; retry and field checks are single branches.
- MIME parsing, `net/mail`, the regular expressions and `stripHTML`: `parse` and the quote-header test are arbitrary functions. A failed parse leaves all fields empty.
- The truncation of a body to a rune limit: a prefix.
- The wall-clock date a week before the first digest: an input, any earlier instant.
- Display columns of a row (from_name, from_addr, subject, action_req, deadline, tone, llm_error): written once, read only by templates.
- Templates, configuration, the mailer and the commands: rendering and plumbing; a digest is sent or not.
- SQLite: tables are sequences and maps, a transaction is one step, NULLs are distinct under UNIQUE; `MarkDigested` and `RecordDigest` on their own are not called by the service.
- The cron library: any thread may call RunPoll or RunDigest at any time; a panic in a job body is not modelled.
- SHA-256: an arbitrary function; a collision is an archive error.
- Durability of directories and removal of stale temporary files after a crash: the model's archive keeps what was published.
- Body text is a sequence of characters; bytes that are no valid UTF-8 are not modelled.
- Instants before year 0 in UTC, which a Date header can denote, are not modelled; of RFC 3339 only the UTC form that the store writes is.
- Several folders in one database: the uniqueness key has no folder, so results about rows speak of one folder; `Database.CursorIsIsolated` covers all.

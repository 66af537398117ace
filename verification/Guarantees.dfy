/**
 What the pipeline promises, as theorems about every run from an empty database:
 any mailbox, any interleaving of server events, digests, faults and crashes.
 */
module Guarantees {
  import opened Common
  import opened Timestamps
  import opened Archive
  import opened Database
  import opened Mailbox
  import opened Pipeline
  import opened NoGaps

  /** A state the service can get into. */
  ghost predicate Reachable(cfg: Config, s: Sys) {
    exists box, actions :: ValidBox(box) && Exec(cfg, Init(box), actions) == Some(s)
  }

  lemma ReachableInv(cfg: Config, s: Sys)
    requires Reachable(cfg, s)
    ensures Inv(cfg, s)
  {
    var box, actions :| ValidBox(box) && Exec(cfg, Init(box), actions) == Some(s);
    InitInv(cfg, box);
    RunKeeps(cfg, Init(box), actions);
  }

  /** The cursor of a reachable state can always be read. */
  function Cursor(cfg: Config, s: Sys): (Uint32, Uint32) {
    if LastUid(s.db, cfg.folder).Ok? then LastUid(s.db, cfg.folder).value else (0, 0)
  }

  lemma ReachableRun(cfg: Config, s: Sys)
    requires Reachable(cfg, s) && (s.pc.Polling? || s.pc.Finished?)
    ensures var run := s.pc.run;
      && LastUid(s.db, cfg.folder) == Ok(Cursor(cfg, s))
      && TallyInv(run, s.db.emails) && StageInv(cfg, run, s.files, s.db.emails, s.hist.marked)
      && BatchInv(run, s.box, s.hist.issued)
      && Cursor(cfg, s) == (run.validity, Position(run))
      && (s.pc.Finished? ==> run.next == |run.batch| && run.stage.AtMessage?)
  {
    ReachableInv(cfg, s);
  }

  lemma {:induction false} ExecJoins(cfg: Config, s: Sys, first: seq<Action>, second: seq<Action>)
    requires Exec(cfg, s, first).Some?
    ensures Exec(cfg, s, first + second) == Exec(cfg, Exec(cfg, s, first).value, second)
  {
    if second == [] {
      assert first + second == first;
    } else {
      var last := |second| - 1;
      ExecJoins(cfg, s, first, second[..last]);
      assert (first + second)[..|first + second| - 1] == first + second[..last];
    }
  }

  lemma ExecThen(cfg: Config, s: Sys, actions: seq<Action>, a: Action)
    requires Exec(cfg, s, actions).Some?
    ensures Exec(cfg, s, actions + [a]) == Step(cfg, Exec(cfg, s, actions).value, a)
  {
    assert (actions + [a])[..|actions|] == actions;
  }

  lemma ExecOne(cfg: Config, s: Sys, a: Action)
    ensures Exec(cfg, s, [a]) == Step(cfg, s, a)
  {
    ExecThen(cfg, s, [], a);
    assert [] + [a] == [a];
  }

  lemma ReachableOn(cfg: Config, s: Sys, later: seq<Action>)
    requires Reachable(cfg, s) && Exec(cfg, s, later).Some?
    ensures Reachable(cfg, Exec(cfg, s, later).value)
  {
    var box, actions :| ValidBox(box) && Exec(cfg, Init(box), actions) == Some(s);
    ExecJoins(cfg, Init(box), actions, later);
    assert Exec(cfg, Init(box), actions + later) == Some(Exec(cfg, s, later).value);
  }

  // ----- no gaps

  /** The message's exact bytes are archived, a row covers it, and digestd marked it seen. */
  ghost predicate Handled(cfg: Config, s: Sys, k: Key)
    requires k in s.hist.issued
  {
    Durable(cfg, s.files, s.db.emails, k, s.hist.issued[k]) && k in s.hist.marked
  }

  /**
   Every message above its epoch's baseline and at or below the stored cursor was
   handled, unless it had left the mailbox before a fetch could read it.
   */
  lemma NothingIsSkipped(cfg: Config, s: Sys, k: Key)
    requires Reachable(cfg, s)
    requires k in s.hist.issued && k.0 in s.hist.floor && s.hist.floor[k.0] < k.1
    ensures LastUid(s.db, cfg.folder) == Ok(Cursor(cfg, s))
    ensures k.0 == Cursor(cfg, s).0 && k.1 <= Cursor(cfg, s).1 ==> k in s.hist.lost || Handled(cfg, s, k)
  {
    ReachableInv(cfg, s);
  }

  /** In particular, so was everything the mailbox still holds up to the cursor. */
  lemma HeldMailIsHandled(cfg: Config, s: Sys, uid: Uint32)
    requires Reachable(cfg, s) && uid in s.box.held && s.box.validity in s.hist.floor
    requires s.box.validity == Cursor(cfg, s).0 && s.hist.floor[s.box.validity] < uid <= Cursor(cfg, s).1
    ensures var k := (s.box.validity, uid);
      k in s.hist.issued && s.hist.issued[k] == s.box.held[uid] && Handled(cfg, s, k)
  {
    ReachableInv(cfg, s);
  }

  lemma LosingStep(cfg: Config, s: Sys, a: Action, k: Key)
    requires LastUid(s.db, cfg.folder).Ok? && Step(cfg, s, a).Some?
    requires k in Step(cfg, s, a).value.hist.lost && k !in s.hist.lost
    ensures a.Fetch? && k in s.hist.issued && k.0 == s.box.validity && k.1 !in s.box.held
    ensures Cursor(cfg, s).0 == k.0 && Cursor(cfg, s).1 < k.1
  {
  }

  /** A message is given up only by a fetch that could no longer find it, ahead of the cursor. */
  lemma LostOnlyWhenGone(cfg: Config, s: Sys, a: Action, k: Key)
    requires Reachable(cfg, s) && Step(cfg, s, a).Some?
    requires k in Step(cfg, s, a).value.hist.lost && k !in s.hist.lost
    ensures a.Fetch? && k in s.hist.issued && k.0 == s.box.validity && k.1 !in s.box.held
    ensures Cursor(cfg, s).0 == k.0 && Cursor(cfg, s).1 < k.1
  {
    CursorIsReadable(cfg, s);
    LosingStep(cfg, s, a, k);
  }

  lemma CursorIsReadable(cfg: Config, s: Sys)
    requires Reachable(cfg, s)
    ensures LastUid(s.db, cfg.folder) == Ok(Cursor(cfg, s))
  {
    ReachableInv(cfg, s);
  }

  // ----- nothing durable is ever undone

  ghost predicate CursorLeq(a: (Uint32, Uint32), b: (Uint32, Uint32)) {
    a.0 < b.0 || (a.0 == b.0 && a.1 <= b.1)
  }

  ghost predicate HistGrows(h: Hist, h': Hist) {
    && Within(h.issued, h'.issued) && Within(h.floor, h'.floor)
    && h.marked <= h'.marked && h.othersSeen <= h'.othersSeen && h.lost <= h'.lost
  }

  /** Histories, archive and rows only grow, and the cursor only moves forward. */
  ghost predicate Progress(cfg: Config, s: Sys, s': Sys) {
    && HistGrows(s.hist, s'.hist) && Preserves(s.files, s'.files) && SameKeys(s.db.emails, s'.db.emails)
    && LastUid(s.db, cfg.folder).Ok? && LastUid(s'.db, cfg.folder).Ok?
    && CursorLeq(LastUid(s.db, cfg.folder).value, LastUid(s'.db, cfg.folder).value)
  }

  lemma ProgressTransitive(cfg: Config, a: Sys, b: Sys, c: Sys)
    requires Progress(cfg, a, b) && Progress(cfg, b, c)
    ensures Progress(cfg, a, c)
  {
    PreservesTransitive(a.files, b.files, c.files);
    assert forall i :: 0 <= i < |a.db.emails| ==> c.db.emails[i] == b.db.emails[i].(digestedAt := c.db.emails[i].digestedAt);
  }

  lemma ServerProgress(s: Sys, a: Action)
    requires BoxInv(s.box, s.hist.issued) && IsServerAction(a) && ServerStep(s, a).Some?
    ensures var s' := ServerStep(s, a).value;
      HistGrows(s.hist, s'.hist) && s'.files == s.files && s'.db == s.db
  {
    ServerBox(s, a);
  }

  lemma BaselineProgress(cfg: Config, s: Sys)
    requires Inv(cfg, s) && StepSaveBaseline(cfg, s).Some?
    ensures Progress(cfg, s, StepSaveBaseline(cfg, s).value)
  {
    CursorIsIsolated(s.db, cfg.folder, s.pc.validity, s.pc.lastUid, cfg.folder);
  }

  lemma AdvanceProgress(cfg: Config, s: Sys)
    requires Inv(cfg, s) && StepAdvance(cfg, s).Some?
    ensures Progress(cfg, s, StepAdvance(cfg, s).value)
  {
    var run := s.pc.run;
    CursorIsIsolated(s.db, cfg.folder, run.validity, Current(s).uid, cfg.folder);
    PositionIsBefore(run);
  }

  lemma InsertProgress(cfg: Config, s: Sys, stage: Stage, email: NewEmail)
    requires LastUid(s.db, cfg.folder).Ok? && s.pc.Polling?
    ensures Progress(cfg, s, AtStage(s, stage).(db := WithEmail(s.db, email)))
  {
    RowsKeepCursor(s.db, WithEmail(s.db, email).emails, cfg.folder);
  }

  lemma StoreProgress(cfg: Config, s: Sys, summary: Summary)
    requires Inv(cfg, s) && StepStore(cfg, s, summary).Some?
    ensures Progress(cfg, s, StepStore(cfg, s, summary).value)
  {
    FreshIsInserted(cfg, s, summary);
    InsertProgress(cfg, s, Covered(Verdict(cfg, s, summary).1), Verdict(cfg, s, summary).0);
  }

  lemma FileProgress(cfg: Config, s: Sys, now: Stamp)
    requires Inv(cfg, s) && StepFile(cfg, s, now).Some?
    ensures Progress(cfg, s, StepFile(cfg, s, now).value)
  {
    WriteStores(s.files, SlotFor(cfg, Current(s), now), Current(s).raw, cfg.digest);
  }

  lemma DigestProgress(cfg: Config, s: Sys, windowEnd: Instant, weekBack: Instant)
    requires Inv(cfg, s) && StepDigest(s, windowEnd, weekBack).Some?
    ensures Progress(cfg, s, StepDigest(s, windowEnd, weekBack).value)
  {
    DeliveredKeepsCursor(s.db, cfg.folder, windowEnd, weekBack);
  }

  lemma StepProgress(cfg: Config, s: Sys, a: Action)
    requires Inv(cfg, s) && Step(cfg, s, a).Some?
    ensures Progress(cfg, s, Step(cfg, s, a).value)
  {
    match a
    case SaveBaseline => BaselineProgress(cfg, s);
    case File(now) => FileProgress(cfg, s, now);
    case Store(summary) => StoreProgress(cfg, s, summary);
    case Advance => AdvanceProgress(cfg, s);
    case SendDigest(windowEnd, weekBack) => DigestProgress(cfg, s, windowEnd, weekBack);
    case Fetch => QuietStep(cfg, s, a);
    case Check => QuietStep(cfg, s, a);
    case MarkSeen => QuietStep(cfg, s, a);
    case Finish => QuietStep(cfg, s, a);
    case Return => QuietStep(cfg, s, a);
    case Crash => QuietStep(cfg, s, a);
    case OthersPublish(p, raw) => QuietStep(cfg, s, a);
    case _ => ServerProgress(s, a);
  }

  /** The steps that leave the database alone. */
  lemma QuietStep(cfg: Config, s: Sys, a: Action)
    requires LastUid(s.db, cfg.folder).Ok? && Step(cfg, s, a).Some?
    requires a.Fetch? || a.Check? || a.MarkSeen? || a.Finish? || a.Return? || a.Crash? || a.OthersPublish?
    ensures Progress(cfg, s, Step(cfg, s, a).value)
  {
    var s' := Step(cfg, s, a).value;
    assert s'.db == s.db;
    assert HistGrows(s.hist, s'.hist);
    assert Preserves(s.files, s'.files);
  }

  lemma ReachableProgress(cfg: Config, s: Sys, a: Action)
    requires Reachable(cfg, s) && Step(cfg, s, a).Some?
    ensures Progress(cfg, s, Step(cfg, s, a).value)
  {
    ReachableInv(cfg, s);
    StepProgress(cfg, s, a);
  }

  lemma ProgressItself(cfg: Config, s: Sys)
    requires Reachable(cfg, s)
    ensures Progress(cfg, s, s)
  {
    CursorIsReadable(cfg, s);
  }

  /**
   Over any continuation: archived files and rows stay, marks stay, an epoch keeps its
   baseline, and the cursor never moves back.
   */
  lemma {:induction false} NothingIsUndone(cfg: Config, s: Sys, later: seq<Action>)
    requires Reachable(cfg, s) && Exec(cfg, s, later).Some?
    ensures Progress(cfg, s, Exec(cfg, s, later).value)
  {
    if later == [] {
      ProgressItself(cfg, s);
    } else {
      var last := |later| - 1;
      var mid := Exec(cfg, s, later[..last]).value;
      NothingIsUndone(cfg, s, later[..last]);
      ReachableOn(cfg, s, later[..last]);
      ReachableProgress(cfg, mid, later[last]);
      ProgressTransitive(cfg, s, mid, Exec(cfg, s, later).value);
    }
  }

  lemma FiledByStep(cfg: Config, s: Sys, now: Stamp)
    requires StepFile(cfg, s, now).Some?
    ensures IsAt(s, AtMessage)
    ensures var filed := StepFile(cfg, s, now).value;
      && filed.pc.Polling? && filed.pc.run.stage.Filed?
      && Write(s.files, SlotFor(cfg, Current(s), now), Current(s).raw, cfg.digest)
         == Ok(Written(filed.pc.run.stage.path, filed.files))
  {
  }

  lemma StepFileIs(cfg: Config, s: Sys, now: Stamp, w: Written)
    requires IsAt(s, AtMessage) && Write(s.files, SlotFor(cfg, Current(s), now), Current(s).raw, cfg.digest) == Ok(w)
    ensures StepFile(cfg, s, now) ==
            Some(AtStage(s, Filed(w.path, ReceivedAt(cfg, Current(s).raw, now), now)).(files := w.files))
  {
  }

  lemma FileSucceeds(cfg: Config, s: Sys, now: Stamp, w: Written)
    requires IsAt(s, AtMessage) && Write(s.files, SlotFor(cfg, Current(s), now), Current(s).raw, cfg.digest) == Ok(w)
    ensures Step(cfg, s, File(now)) ==
            Some(AtStage(s, Filed(w.path, ReceivedAt(cfg, Current(s).raw, now), now)).(files := w.files))
  {
    StepFileIs(cfg, s, now, w);
  }

  lemma WrittenForGood(files: Files, slot: Slot, raw: Bytes, digest: Digest6, written: Written, end: Files)
    requires Write(files, slot, raw, digest) == Ok(written) && Preserves(written.files, end)
    ensures written.path in end && end[written.path] == raw
    ensures Write(end, slot, raw, digest) == Ok(Written(written.path, end))
  {
    WriteStores(files, slot, raw, digest);
    WriteIsStable(files, slot, raw, digest, end);
  }

  lemma FilesArePreserved(cfg: Config, s: Sys, a: Action, later: seq<Action>)
    requires Reachable(cfg, s) && Step(cfg, s, a).Some? && Exec(cfg, Step(cfg, s, a).value, later).Some?
    ensures Preserves(Step(cfg, s, a).value.files, Exec(cfg, Step(cfg, s, a).value, later).value.files)
  {
    ExecOne(cfg, s, a);
    ReachableOn(cfg, s, [a]);
    NothingIsUndone(cfg, Step(cfg, s, a).value, later);
  }

  /** The path this step reports for the message at hand. */
  function FiledAs(cfg: Config, s: Sys, now: Stamp): Option<Path> {
    match StepFile(cfg, s, now)
    case None => None
    case Some(s') => if s'.pc.Polling? && s'.pc.run.stage.Filed? then Some(s'.pc.run.stage.path) else None
  }

  lemma FiledThenKept(cfg: Config, s: Sys, now: Stamp, end: Files)
    requires StepFile(cfg, s, now).Some? && Preserves(StepFile(cfg, s, now).value.files, end)
    ensures InMessage(s) && FiledAs(cfg, s, now).Some?
    ensures var path, raw := FiledAs(cfg, s, now).value, Current(s).raw;
      && path in end && end[path] == raw
      && Write(end, SlotFor(cfg, Current(s), now), raw, cfg.digest) == Ok(Written(path, end))
  {
    var filed := StepFile(cfg, s, now).value;
    FiledByStep(cfg, s, now);
    WrittenForGood(s.files, SlotFor(cfg, Current(s), now), Current(s).raw, cfg.digest,
                   Written(filed.pc.run.stage.path, filed.files), end);
  }

  /**
   Filing is for good: after any continuation the path it reported holds the message's
   bytes, and filing the same message again reports that path and adds nothing.
   */
  lemma FiledForGood(cfg: Config, s: Sys, now: Stamp, later: seq<Action>)
    requires Reachable(cfg, s) && Step(cfg, s, File(now)).Some?
    requires Exec(cfg, Step(cfg, s, File(now)).value, later).Some?
    ensures InMessage(s) && FiledAs(cfg, s, now).Some?
    ensures var path, raw := FiledAs(cfg, s, now).value, Current(s).raw;
      var files := Exec(cfg, Step(cfg, s, File(now)).value, later).value.files;
      && path in files && files[path] == raw
      && Write(files, SlotFor(cfg, Current(s), now), raw, cfg.digest) == Ok(Written(path, files))
  {
    FilesArePreserved(cfg, s, File(now), later);
    FiledThenKept(cfg, s, now, Exec(cfg, Step(cfg, s, File(now)).value, later).value.files);
  }

  // ----- marking read

  /** Whatever digestd ever marked is archived, stored and above the baseline of its own epoch. */
  lemma MarkedIsDurable(cfg: Config, s: Sys, k: Key)
    requires Reachable(cfg, s) && k in s.hist.marked
    ensures k in s.hist.issued && Handled(cfg, s, k)
    ensures k.0 in s.hist.floor && s.hist.floor[k.0] < k.1
  {
    ReachableInv(cfg, s);
  }

  lemma MarkingStep(cfg: Config, s: Sys, a: Action, k: Key)
    requires Step(cfg, s, a).Some?
    requires k in Step(cfg, s, a).value.hist.marked && k !in s.hist.marked
    ensures a.MarkSeen? && InMessage(s) && s.pc.run.stage.Covered? && k == CurrentKey(s) && k.0 == s.box.validity
  {
  }

  /** Marking happens after archiving and storing, and in the mailbox's epoch of that moment. */
  lemma MarkedAfterStored(cfg: Config, s: Sys, a: Action, k: Key)
    requires Reachable(cfg, s) && Step(cfg, s, a).Some?
    requires k in Step(cfg, s, a).value.hist.marked && k !in s.hist.marked
    ensures a.MarkSeen? && k.0 == s.box.validity && k in s.hist.issued
    ensures Durable(cfg, s.files, s.db.emails, k, s.hist.issued[k])
  {
    MarkingStep(cfg, s, a, k);
    ReachableRun(cfg, s);
  }

  /** A seen flag on any message comes from digestd having handled it, or from somebody else. */
  lemma SeenIsAccountedFor(cfg: Config, s: Sys, uid: Uint32)
    requires Reachable(cfg, s) && uid in s.box.seen
    ensures uid in s.box.held
    ensures var k := (s.box.validity, uid);
      k in s.hist.othersSeen || (k in s.hist.issued && s.hist.issued[k] == s.box.held[uid] && Handled(cfg, s, k))
  {
    ReachableInv(cfg, s);
  }

  // ----- rows

  /** Every row names a real message above the baseline and the file holding exactly its bytes. */
  lemma RowsPointAtTheirBytes(cfg: Config, s: Sys, i: nat)
    requires Reachable(cfg, s) && i < |s.db.emails|
    ensures var row := s.db.emails[i]; var k := (row.uidValidity, row.imapUid);
      && k in s.hist.issued && k.0 in s.hist.floor && s.hist.floor[k.0] < k.1
      && row.rawPath in s.files && s.files[row.rawPath] == s.hist.issued[k]
      && row.messageId == match cfg.parse(s.hist.issued[k])
                          case ParseError => None
                          case Parsed(messageId, _, _) => if messageId == "" then None else Some(messageId)
  {
    ReachableInv(cfg, s);
    assert RowInv(cfg, s.files, s.db.emails[i], s.hist.issued, s.hist.floor);
  }

  /** No two rows share a validity and UID, or a Message-ID. */
  lemma RowsAreUnique(cfg: Config, s: Sys, i: nat, j: nat)
    requires Reachable(cfg, s) && i < j < |s.db.emails|
    ensures (s.db.emails[i].uidValidity, s.db.emails[i].imapUid) != (s.db.emails[j].uidValidity, s.db.emails[j].imapUid)
    ensures s.db.emails[i].messageId.Some? ==> s.db.emails[i].messageId != s.db.emails[j].messageId
  {
    ReachableInv(cfg, s);
    assert !Conflict(s.db.emails[i], s.db.emails[j]);
  }

  /** Under the run lock an insert after the existence check always inserts. */
  lemma InsertNeverConflicts(cfg: Config, s: Sys, summary: Summary)
    requires Reachable(cfg, s) && StepStore(cfg, s, summary).Some?
    ensures InsertEmail(s.db, Verdict(cfg, s, summary).0) == (WithEmail(s.db, Verdict(cfg, s, summary).0), true)
    ensures StepStore(cfg, s, summary) ==
            Some(AtStage(s, Covered(Verdict(cfg, s, summary).1)).(db := WithEmail(s.db, Verdict(cfg, s, summary).0)))
  {
    ReachableRun(cfg, s);
    FreshIsInserted(cfg, s, summary);
    VerdictNamesMessage(cfg, s, summary);
    InsertedIffNew(s.db, Verdict(cfg, s, summary).0);
  }

  /** Once a row covers a message it is never summarized again. */
  lemma NeverSummarizedAgain(cfg: Config, s: Sys, k: Key, raw: Bytes, later: seq<Action>)
    requires Reachable(cfg, s) && RowExists(s.db.emails, k.0, k.1, MessageId(cfg, raw))
    requires Exec(cfg, s, later).Some?
    requires var s' := Exec(cfg, s, later).value; InMessage(s') && CurrentKey(s') == k && Current(s').raw == raw
    ensures !Exec(cfg, s, later).value.pc.run.stage.Fresh?
  {
    var s' := Exec(cfg, s, later).value;
    NothingIsUndone(cfg, s, later);
    ReachableOn(cfg, s, later);
    ReachableRun(cfg, s');
    CoverageGrows(s.db.emails, s'.db.emails, k.0, k.1, MessageId(cfg, raw));
  }

  // ----- counters

  lemma FinishedTally(run: Run, rows: seq<Row>)
    requires TallyInv(run, rows) && run.next == |run.batch| && run.stage.AtMessage?
    ensures var t := run.tally;
      && !t.initialized && t.processed + t.duplicates == t.fetched == |run.batch|
      && t.errors + t.outOfScope <= t.processed && |rows| == run.start.rows + t.processed
      && t.errors == Failures(rows, run.start.rows, |rows|) && t.outOfScope == Outsiders(rows, run.start.rows, |rows|)
  {
  }

  /**
   The counters of a run that ended well: every fetched message was stored or was a
   duplicate, and errors and out-of-scope are the counts of such rows the run added.
   */
  lemma CountersAddUp(cfg: Config, s: Sys)
    requires Reachable(cfg, s) && s.pc.Finished?
    ensures var t := s.pc.run.tally;
      && !t.initialized && t.processed + t.duplicates == t.fetched == |s.pc.run.batch|
      && t.errors + t.outOfScope <= t.processed
      && |s.db.emails| == s.pc.run.start.rows + t.processed
      && t.errors == Failures(s.db.emails, s.pc.run.start.rows, |s.db.emails|)
      && t.outOfScope == Outsiders(s.db.emails, s.pc.run.start.rows, |s.db.emails|)
      && (t.fetched > 0 ==>
           Cursor(cfg, s) == (s.pc.run.validity, s.pc.run.batch[t.fetched - 1].uid))
  {
    ReachableRun(cfg, s);
    FinishedTally(s.pc.run, s.db.emails);
  }

  /**
   The counters returned with an error in the middle of a run: they count the finished
   messages, the cursor is the last of those, at most one further row was added, and
   errors and out-of-scope count the rows before that one.
   */
  lemma CountersSoFar(cfg: Config, s: Sys)
    requires Reachable(cfg, s) && s.pc.Polling?
    ensures var run := s.pc.run; var t := run.tally; var done := run.next;
      && !t.initialized && t.processed + t.duplicates == done <= t.fetched == |run.batch|
      && t.errors + t.outOfScope <= t.processed
      && Cursor(cfg, s) == (run.validity, if done == 0 then run.start.cursor else run.batch[done - 1].uid)
      && run.start.rows + t.processed <= |s.db.emails| <= run.start.rows + t.processed + 1
      && RowsCounted(t, run.start.rows, s.db.emails)
  {
    ReachableRun(cfg, s);
  }
}

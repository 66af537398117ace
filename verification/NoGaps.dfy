/**
 What holds in every reachable state of the pipeline, in the middle of a run, after
 any crash and whatever the server does: nothing at or below the cursor was skipped,
 and nothing was marked seen before it was archived and stored.
 */
module NoGaps {
  import opened Common
  import opened Timestamps
  import opened Archive
  import opened Database
  import opened Mailbox
  import opened Pipeline
  import Digests

  // ----- the parts of the invariant

  ghost predicate Within<K(!new), V>(a: map<K, V>, b: map<K, V>) {
    forall k :: k in a ==> k in b && b[k] == a[k]
  }

  /** The exact bytes are in the archive. */
  ghost predicate InArchive(files: Files, raw: Bytes) {
    exists p :: p in files && files[p] == raw
  }

  /** Archived, and covered by a row with the same validity and UID or the same Message-ID. */
  ghost predicate Durable(cfg: Config, files: Files, rows: seq<Row>, k: Key, raw: Bytes) {
    InArchive(files, raw) && RowExists(rows, k.0, k.1, MessageId(cfg, raw))
  }

  /** Held messages are on record; recorded UIDs lie below UIDNEXT in the current epoch. */
  ghost predicate BoxInv(box: Box, issued: map<Key, Bytes>) {
    && ValidBox(box)
    && (forall u :: u in box.held ==> (box.validity, u) in issued && issued[(box.validity, u)] == box.held[u])
    && (forall k :: k in issued ==> k.0 <= box.validity && k.1 > 0 && (k.0 == box.validity ==> k.1 < box.uidNext))
  }

  /** The stored cursor is at or above its epoch's baseline and not in the future. */
  ghost predicate CursorInv(cursor: (Uint32, Uint32), box: Box, floor: map<Uint32, Uint32>) {
    var (v, c) := cursor;
    && (forall w :: w in floor ==> 0 < w <= v)
    && v <= box.validity
    && (v != 0 ==> v in floor && floor[v] <= c && (v == box.validity ==> c < box.uidNext))
  }

  /** Each row names a message above its epoch's baseline and the file that holds exactly its bytes. */
  ghost predicate RowsInv(cfg: Config, files: Files, rows: seq<Row>, issued: map<Key, Bytes>, floor: map<Uint32, Uint32>) {
    forall i :: 0 <= i < |rows| ==> RowInv(cfg, files, rows[i], issued, floor)
  }

  ghost predicate RowInv(cfg: Config, files: Files, row: Row, issued: map<Key, Bytes>, floor: map<Uint32, Uint32>) {
    var k := (row.uidValidity, row.imapUid);
    && k in issued && k.0 in floor && floor[k.0] < k.1
    && row.rawPath in files && files[row.rawPath] == issued[k]
    && row.messageId == Nullable(MessageId(cfg, issued[k]))
  }

  ghost predicate MarkedInv(cfg: Config, files: Files, rows: seq<Row>, issued: map<Key, Bytes>,
                            floor: map<Uint32, Uint32>, marked: set<Key>) {
    forall k :: k in marked ==>
      k in issued && k.0 in floor && floor[k.0] < k.1 && Durable(cfg, files, rows, k, issued[k])
  }

  /** Dealt with: gone before it could be fetched, or archived, stored and marked. */
  ghost predicate HandledInv(cfg: Config, v: Uint32, c: Uint32, files: Files, rows: seq<Row>, h: Hist) {
    forall k :: k in h.issued && k.0 == v && v in h.floor && h.floor[v] < k.1 <= c ==>
      k in h.lost || (k in h.marked && Durable(cfg, files, rows, k, h.issued[k]))
  }

  /** Every flag in the mailbox was set by digestd on a marked message, or by someone else. */
  ghost predicate SeenInv(box: Box, h: Hist) {
    forall u :: u in box.seen ==> (box.validity, u) in h.marked || (box.validity, u) in h.othersSeen
  }

  /** A lost message is really gone. */
  ghost predicate LostInv(box: Box, h: Hist) {
    forall k :: k in h.lost ==> k in h.issued && (k.0 == box.validity ==> k.1 !in box.held)
  }

  // ----- the running job

  function Position(run: Run): Uint32
    requires run.next <= |run.batch|
  {
    if run.next == 0 then run.start.cursor else run.batch[run.next - 1].uid
  }

  /** The batch is ascending, on record, above the cursor it started from and below the horizon. */
  ghost predicate BatchInv(run: Run, box: Box, issued: map<Key, Bytes>) {
    && run.next <= |run.batch| && Ascending(run.batch)
    && (forall i :: 0 <= i < |run.batch| ==>
         && run.start.cursor < run.batch[i].uid < run.start.horizon
         && (run.validity, run.batch[i].uid) in issued && issued[(run.validity, run.batch[i].uid)] == run.batch[i].raw)
    && (run.validity == box.validity ==> run.start.horizon <= box.uidNext)
  }

  /** What is ahead of the cursor and below the horizon is in the rest of the batch, or lost. */
  ghost predicate AheadInv(run: Run, c: Uint32, h: Hist) {
    forall k :: k in h.issued && k.0 == run.validity && c < k.1 < run.start.horizon ==>
      k in h.lost || exists j :: run.next <= j < |run.batch| && run.batch[j].uid == k.1
  }

  ghost predicate StageInv(cfg: Config, run: Run, files: Files, rows: seq<Row>, marked: set<Key>) {
    !run.stage.AtMessage? ==>
      && run.next < |run.batch|
      && var m := run.batch[run.next]; var k := (run.validity, m.uid);
         match run.stage
         case AtMessage => true
         case Filed(p, _, _) => p in files && files[p] == m.raw
         case Fresh(p, _, _) => p in files && files[p] == m.raw && !RowExists(rows, k.0, k.1, MessageId(cfg, m.raw))
         case Covered(_) => Durable(cfg, files, rows, k, m.raw)
         case Marked(_) => Durable(cfg, files, rows, k, m.raw) && k in marked
  }

  function Pending(stage: Stage): nat {
    if stage.Covered? || stage.Marked? then stage.outcome.processed else 0
  }

  /** How many of the rows between two positions record a failed summary or parse. */
  function Failures(rows: seq<Row>, from: nat, to: nat): nat
    requires to <= |rows|
  {
    if to <= from then 0
    else Failures(rows, from, to - 1) + if rows[to - 1].llmStatus == "error" then 1 else 0
  }

  /** How many of the rows between two positions had a sender out of scope. */
  function Outsiders(rows: seq<Row>, from: nat, to: nat): nat
    requires to <= |rows|
  {
    if to <= from then 0
    else Outsiders(rows, from, to - 1) + if rows[to - 1].inScope then 0 else 1
  }

  /** The outcome counts what the row records. */
  predicate Judged(row: Row, o: Outcome) {
    o.failed == (if row.llmStatus == "error" then 1 else 0) && o.outOfScope == (if row.inScope then 0 else 1)
  }

  /** Errors and out-of-scope senders are those of the rows counted as processed. */
  predicate RowsCounted(t: Tally, from: nat, rows: seq<Row>) {
    && from + t.processed <= |rows|
    && t.errors == Failures(rows, from, from + t.processed)
    && t.outOfScope == Outsiders(rows, from, from + t.processed)
  }

  /** Every message before the position counts once; a failure or out-of-scope counts only when processed. */
  predicate TallyBounds(run: Run, rows: nat) {
    && !run.tally.initialized && run.tally.fetched == |run.batch|
    && run.tally.processed + run.tally.duplicates == run.next
    && run.tally.errors + run.tally.outOfScope <= run.tally.processed
    && rows == run.start.rows + run.tally.processed + Pending(run.stage)
    && (run.stage.Covered? || run.stage.Marked? ==>
         var o := run.stage.outcome; o.processed + o.duplicate == 1 && o.failed + o.outOfScope <= o.processed)
  }

  /** A row stored and not counted yet is the last one, and its outcome is what it records. */
  predicate PendingJudged(stage: Stage, rows: seq<Row>) {
    Pending(stage) == 1 ==> rows != [] && Judged(rows[|rows| - 1], stage.outcome)
  }

  predicate TallyInv(run: Run, rows: seq<Row>) {
    TallyBounds(run, |rows|) && RowsCounted(run.tally, run.start.rows, rows) && PendingJudged(run.stage, rows)
  }

  /** The part of a run that only moves when the cursor does. */
  ghost predicate Underway(run: Run, cursor: (Uint32, Uint32), box: Box, h: Hist) {
    && run.validity == cursor.0 != 0
    && run.validity in h.floor && h.floor[run.validity] <= run.start.cursor
    && BatchInv(run, box, h.issued)
    && cursor.1 == Position(run)
    && AheadInv(run, cursor.1, h)
  }

  ghost predicate RunInv(cfg: Config, run: Run, cursor: (Uint32, Uint32), box: Box, files: Files, rows: seq<Row>, h: Hist) {
    Underway(run, cursor, box, h) && StageInv(cfg, run, files, rows, h.marked) && TallyInv(run, rows)
  }

  ghost predicate PcInv(cfg: Config, pc: Pc, cursor: (Uint32, Uint32), box: Box, files: Files, rows: seq<Row>, h: Hist) {
    match pc
    case Idle => true
    case Baselining(w, last) => cursor.0 < w <= box.validity && (w == box.validity ==> last < box.uidNext)
    case Polling(run) => RunInv(cfg, run, cursor, box, files, rows, h)
    case Finished(run) =>
      RunInv(cfg, run, cursor, box, files, rows, h) && run.next == |run.batch| && run.stage.AtMessage?
  }

  ghost predicate StorageInv(cfg: Config, files: Files, rows: seq<Row>, h: Hist) {
    RowsInv(cfg, files, rows, h.issued, h.floor) && MarkedInv(cfg, files, rows, h.issued, h.floor, h.marked)
  }

  /** The whole invariant, with the cursor already read from the state table. */
  ghost predicate Core(cfg: Config, cursor: (Uint32, Uint32), s: Sys) {
    && BoxInv(s.box, s.hist.issued)
    && CursorInv(cursor, s.box, s.hist.floor)
    && ValidDb(s.db)
    && StorageInv(cfg, s.files, s.db.emails, s.hist)
    && SeenInv(s.box, s.hist)
    && LostInv(s.box, s.hist)
    && HandledInv(cfg, cursor.0, cursor.1, s.files, s.db.emails, s.hist)
    && PcInv(cfg, s.pc, cursor, s.box, s.files, s.db.emails, s.hist)
  }

  ghost predicate Inv(cfg: Config, s: Sys) {
    LastUid(s.db, cfg.folder).Ok? && Core(cfg, LastUid(s.db, cfg.folder).value, s)
  }

  // ----- growth

  /** Rows are only added; a digest may mark them but keeps their keys. */
  ghost predicate SameKeys(rows: seq<Row>, rows': seq<Row>) {
    && |rows| <= |rows'|
    && forall i :: 0 <= i < |rows| ==>
         rows'[i] == rows[i].(digestedAt := rows'[i].digestedAt)
  }

  lemma CoverageGrows(rows: seq<Row>, rows': seq<Row>, v: Uint32, u: Uint32, id: string)
    requires SameKeys(rows, rows') && RowExists(rows, v, u, id)
    ensures RowExists(rows', v, u, id)
  {
    var i :| 0 <= i < |rows| && Matches(rows[i], v, u, id);
    assert Matches(rows'[i], v, u, id);
  }

  lemma DurableGrows(cfg: Config, files: Files, rows: seq<Row>, files': Files, rows': seq<Row>, k: Key, raw: Bytes)
    requires Preserves(files, files') && SameKeys(rows, rows') && Durable(cfg, files, rows, k, raw)
    ensures Durable(cfg, files', rows', k, raw)
  {
    CoverageGrows(rows, rows', k.0, k.1, MessageId(cfg, raw));
    var p :| p in files && files[p] == raw;
    assert p in files' && files'[p] == raw;
  }

  lemma RowsGrow(cfg: Config, files: Files, rows: seq<Row>, issued: map<Key, Bytes>, floor: map<Uint32, Uint32>,
                 files': Files, issued': map<Key, Bytes>, floor': map<Uint32, Uint32>)
    requires RowsInv(cfg, files, rows, issued, floor)
    requires Preserves(files, files') && Within(issued, issued') && Within(floor, floor')
    ensures RowsInv(cfg, files', rows, issued', floor')
  {
    forall i | 0 <= i < |rows|
      ensures RowInv(cfg, files', rows[i], issued', floor')
    {
      assert RowInv(cfg, files, rows[i], issued, floor);
    }
  }

  lemma MarkedGrows(cfg: Config, files: Files, rows: seq<Row>, h: Hist, files': Files, rows': seq<Row>, h': Hist)
    requires MarkedInv(cfg, files, rows, h.issued, h.floor, h.marked)
    requires Preserves(files, files') && SameKeys(rows, rows')
    requires Within(h.issued, h'.issued) && Within(h.floor, h'.floor) && h'.marked == h.marked
    ensures MarkedInv(cfg, files', rows', h'.issued, h'.floor, h'.marked)
  {
    forall k | k in h'.marked
      ensures k in h'.issued && k.0 in h'.floor && h'.floor[k.0] < k.1 && Durable(cfg, files', rows', k, h'.issued[k])
    {
      DurableGrows(cfg, files, rows, files', rows', k, h.issued[k]);
    }
  }

  /** No message at or below the cursor of the same epoch appears later. */
  ghost predicate SamePast(v: Uint32, c: Uint32, h: Hist, h': Hist) {
    && (v in h'.floor ==> v in h.floor && h'.floor[v] == h.floor[v])
    && (forall k :: k in h'.issued && k.0 == v && k.1 <= c ==> k in h.issued && h'.issued[k] == h.issued[k])
    && h.marked <= h'.marked && h.lost <= h'.lost
  }

  lemma HandledGrows(cfg: Config, v: Uint32, c: Uint32, files: Files, rows: seq<Row>, h: Hist, files': Files, rows': seq<Row>, h': Hist)
    requires HandledInv(cfg, v, c, files, rows, h) && SamePast(v, c, h, h')
    requires Preserves(files, files') && SameKeys(rows, rows')
    ensures HandledInv(cfg, v, c, files', rows', h')
  {
    forall k | k in h'.issued && k.0 == v && v in h'.floor && h'.floor[v] < k.1 <= c
      ensures k in h'.lost || (k in h'.marked && Durable(cfg, files', rows', k, h'.issued[k]))
    {
      if k !in h.lost {
        DurableGrows(cfg, files, rows, files', rows', k, h.issued[k]);
      }
    }
  }

  lemma StageGrows(cfg: Config, run: Run, files: Files, rows: seq<Row>, marked: set<Key>, files': Files, marked': set<Key>)
    requires StageInv(cfg, run, files, rows, marked) && Preserves(files, files') && marked <= marked'
    ensures StageInv(cfg, run, files', rows, marked')
  {
    if run.stage.Covered? || run.stage.Marked? {
      var m := run.batch[run.next];
      DurableGrows(cfg, files, rows, files', rows, (run.validity, m.uid), m.raw);
    }
  }

  // ----- the server's steps

  /** Epochs only increase, UIDs within one only ascend, and nothing on record changes. */
  ghost predicate ServerMoves(box: Box, h: Hist, box': Box, h': Hist) {
    && box.validity <= box'.validity && (box.validity == box'.validity ==> box.uidNext <= box'.uidNext)
    && Within(h.issued, h'.issued)
    && (forall k :: k in h'.issued && k !in h.issued ==>
         k.0 == box'.validity && (box'.validity == box.validity ==> k.1 >= box.uidNext))
    && h'.floor == h.floor && h'.marked == h.marked && h'.lost == h.lost
  }

  lemma RunSurvivesServer(run: Run, cursor: (Uint32, Uint32), box: Box, h: Hist, box': Box, h': Hist)
    requires Underway(run, cursor, box, h) && cursor.0 <= box.validity && ServerMoves(box, h, box', h')
    ensures Underway(run, cursor, box', h')
  {
    assert BatchInv(run, box', h'.issued);
    forall k | k in h'.issued && k.0 == run.validity && cursor.1 < k.1 < run.start.horizon
      ensures k in h.issued
    {
    }
    assert AheadInv(run, cursor.1, h');
  }

  lemma ServerKeepsInv(cfg: Config, s: Sys, s': Sys)
    requires Inv(cfg, s) && s' == s.(box := s'.box, hist := s'.hist)
    requires ServerMoves(s.box, s.hist, s'.box, s'.hist)
    requires BoxInv(s'.box, s'.hist.issued) && SeenInv(s'.box, s'.hist) && LostInv(s'.box, s'.hist)
    ensures Inv(cfg, s')
  {
    var (v, c) := LastUid(s.db, cfg.folder).value;
    RowsGrow(cfg, s.files, s.db.emails, s.hist.issued, s.hist.floor, s.files, s'.hist.issued, s'.hist.floor);
    MarkedGrows(cfg, s.files, s.db.emails, s.hist, s.files, s.db.emails, s'.hist);
    assert SamePast(v, c, s.hist, s'.hist);
    HandledGrows(cfg, v, c, s.files, s.db.emails, s.hist, s.files, s.db.emails, s'.hist);
    if s.pc.Polling? || s.pc.Finished? {
      RunSurvivesServer(s.pc.run, (v, c), s.box, s.hist, s'.box, s'.hist);
    }
  }

  predicate IsServerAction(a: Action) {
    a.Arrive? || a.Expunge? || a.Reset? || a.OthersFlag? || a.OthersUnflag?
  }

  lemma ServerBox(s: Sys, a: Action)
    requires BoxInv(s.box, s.hist.issued) && IsServerAction(a) && ServerStep(s, a).Some?
    ensures var s' := ServerStep(s, a).value;
      BoxInv(s'.box, s'.hist.issued) && ServerMoves(s.box, s.hist, s'.box, s'.hist)
  {
  }

  lemma ServerSeen(s: Sys, a: Action)
    requires BoxInv(s.box, s.hist.issued) && SeenInv(s.box, s.hist) && IsServerAction(a) && ServerStep(s, a).Some?
    ensures SeenInv(ServerStep(s, a).value.box, ServerStep(s, a).value.hist)
  {
  }

  lemma ServerLost(s: Sys, a: Action)
    requires BoxInv(s.box, s.hist.issued) && LostInv(s.box, s.hist) && IsServerAction(a) && ServerStep(s, a).Some?
    ensures LostInv(ServerStep(s, a).value.box, ServerStep(s, a).value.hist)
  {
  }

  lemma ServerKeeps(cfg: Config, s: Sys, a: Action)
    requires Inv(cfg, s) && IsServerAction(a) && Step(cfg, s, a).Some?
    ensures Inv(cfg, Step(cfg, s, a).value)
  {
    ServerBox(s, a);
    ServerSeen(s, a);
    ServerLost(s, a);
    ServerKeepsInv(cfg, s, ServerStep(s, a).value);
  }

  // ----- other archive writers, and the digest job

  lemma PublishKeeps(cfg: Config, s: Sys, p: Path, raw: Bytes)
    requires Inv(cfg, s) && Step(cfg, s, OthersPublish(p, raw)).Some?
    ensures Inv(cfg, Step(cfg, s, OthersPublish(p, raw)).value)
  {
    FilesKeep(cfg, s, s.files[p := raw]);
  }

  /** More files, nothing else changed. */
  lemma FilesKeep(cfg: Config, s: Sys, files': Files)
    requires Inv(cfg, s) && Preserves(s.files, files')
    ensures Inv(cfg, s.(files := files'))
  {
    var (v, c) := LastUid(s.db, cfg.folder).value;
    RowsGrow(cfg, s.files, s.db.emails, s.hist.issued, s.hist.floor, files', s.hist.issued, s.hist.floor);
    MarkedGrows(cfg, s.files, s.db.emails, s.hist, files', s.db.emails, s.hist);
    HandledGrows(cfg, v, c, s.files, s.db.emails, s.hist, files', s.db.emails, s.hist);
    if s.pc.Polling? || s.pc.Finished? {
      StageGrows(cfg, s.pc.run, s.files, s.db.emails, s.hist.marked, files', s.hist.marked);
    }
  }

  lemma MarkedRowsKeepRows(cfg: Config, files: Files, rows: seq<Row>, h: Hist, rows': seq<Row>)
    requires RowsInv(cfg, files, rows, h.issued, h.floor) && SameKeys(rows, rows') && |rows'| == |rows|
    ensures RowsInv(cfg, files, rows', h.issued, h.floor)
  {
    forall i | 0 <= i < |rows'|
      ensures RowInv(cfg, files, rows'[i], h.issued, h.floor)
    {
      assert RowInv(cfg, files, rows[i], h.issued, h.floor);
    }
  }

  lemma DigestKeepsKeys(db: Db, ids: seq<nat>, sentAt: string, start: string, end: string)
    ensures var db' := CompleteDigest(db, ids, sentAt, start, end);
      SameKeys(db.emails, db'.emails) && |db'.emails| == |db.emails|
  {
  }

  lemma DigestKeepsCursor(db: Db, folder: string, ids: seq<nat>, sentAt: string, start: string, end: string)
    ensures LastUid(CompleteDigest(db, ids, sentAt, start, end), folder) == LastUid(db, folder)
  {
    KeysNeverCollide(folder, folder);
  }

  lemma DeliveredKeepsCursor(db: Db, folder: string, windowEnd: Instant, weekBack: Instant)
    requires LastDigestAt(db).Ok?
    ensures LastUid(Digests.Delivered(db, windowEnd, weekBack), folder) == LastUid(db, folder)
    ensures SameKeys(db.emails, Digests.Delivered(db, windowEnd, weekBack).emails)
    ensures |Digests.Delivered(db, windowEnd, weekBack).emails| == |db.emails|
  {
    var ids, start, end := Digests.DueIds(db, windowEnd, weekBack), Digests.StartText(db, weekBack), FormatTime(windowEnd);
    DigestKeepsKeys(db, ids, end, start, end);
    DigestKeepsCursor(db, folder, ids, end, start, end);
  }

  lemma DigestKeeps(cfg: Config, s: Sys, windowEnd: Instant, weekBack: Instant)
    requires Inv(cfg, s) && StepDigest(s, windowEnd, weekBack).Some?
    ensures Inv(cfg, StepDigest(s, windowEnd, weekBack).value)
  {
    var (v, c) := LastUid(s.db, cfg.folder).value;
    var rows' := Digests.Delivered(s.db, windowEnd, weekBack).emails;
    DeliveredKeepsCursor(s.db, cfg.folder, windowEnd, weekBack);
    Digests.DeliveredKeepsDb(s.db, windowEnd, weekBack);
    MarkedRowsKeepRows(cfg, s.files, s.db.emails, s.hist, rows');
    MarkedGrows(cfg, s.files, s.db.emails, s.hist, s.files, rows', s.hist);
    HandledGrows(cfg, v, c, s.files, s.db.emails, s.hist, s.files, rows', s.hist);
  }

  // ----- fetching

  lemma BaselineKeeps(cfg: Config, s: Sys)
    requires Inv(cfg, s) && StepSaveBaseline(cfg, s).Some?
    ensures Inv(cfg, StepSaveBaseline(cfg, s).value)
  {
    var s' := StepSaveBaseline(cfg, s).value;
    var w, last := s.pc.validity, s.pc.lastUid;
    CursorIsIsolated(s.db, cfg.folder, w, last, cfg.folder);
    assert w !in s.hist.floor;
    RowsGrow(cfg, s.files, s.db.emails, s.hist.issued, s.hist.floor, s.files, s.hist.issued, s'.hist.floor);
    MarkedGrows(cfg, s.files, s.db.emails, s.hist, s.files, s.db.emails, s'.hist);
  }

  lemma NewBatch(box: Box, h: Hist, last: Uint32, run: Run)
    requires BoxInv(box, h.issued) && run.validity == box.validity && run.next == 0
    requires run.batch == NewMail(box, last) && run.start == Start(run.start.rows, last, box.uidNext)
    ensures BatchInv(run, box, h.issued)
  {
    HeldBetweenIsExact(box.held, last + 1, box.uidNext);
    forall i | 0 <= i < |run.batch|
      ensures last < run.batch[i].uid < box.uidNext
      ensures (box.validity, run.batch[i].uid) in h.issued && h.issued[(box.validity, run.batch[i].uid)] == run.batch[i].raw
    {
      assert run.batch[i] in run.batch;
    }
  }

  lemma NewAhead(box: Box, h: Hist, last: Uint32, run: Run)
    requires BoxInv(box, h.issued) && run.validity == box.validity && run.next == 0
    requires run.batch == NewMail(box, last) && run.start.horizon == box.uidNext
    requires forall k :: k in h.issued && k.0 == box.validity && k.1 > last && k.1 !in box.held ==> k in h.lost
    ensures AheadInv(run, last, h)
  {
    HeldBetweenIsExact(box.held, last + 1, box.uidNext);
    forall k | k in h.issued && k.0 == run.validity && last < k.1 < run.start.horizon && k !in h.lost
      ensures exists j :: 0 <= j < |run.batch| && run.batch[j].uid == k.1
    {
      var m := Message(k.1, box.held[k.1]);
      assert m in run.batch;
      var j :| 0 <= j < |run.batch| && run.batch[j] == m;
      assert run.batch[j].uid == k.1;
    }
  }

  lemma FetchKeeps(cfg: Config, s: Sys)
    requires Inv(cfg, s) && StepFetch(cfg, s).Some?
    ensures Inv(cfg, StepFetch(cfg, s).value)
  {
    var s' := StepFetch(cfg, s).value;
    var (known, last) := LastUid(s.db, cfg.folder).value;
    if s'.pc.Polling? {
      NewBatch(s.box, s'.hist, last, s'.pc.run);
      NewAhead(s.box, s'.hist, last, s'.pc.run);
      MarkedGrows(cfg, s.files, s.db.emails, s.hist, s.files, s.db.emails, s'.hist);
      HandledGrows(cfg, known, last, s.files, s.db.emails, s.hist, s.files, s.db.emails, s'.hist);
    }
  }

  // ----- processing one message

  /** A step within one message moves the stage; batch, cursor and what is ahead stay put. */
  lemma StaysUnderway(run: Run, stage: Stage, cursor: (Uint32, Uint32), box: Box, h: Hist, box': Box, h': Hist)
    requires Underway(run, cursor, box, h)
    requires box'.validity == box.validity && box'.uidNext == box.uidNext
    requires h' == h.(marked := h'.marked, unflagged := h'.unflagged)
    ensures Underway(run.(stage := stage), cursor, box', h')
  {
    var run' := run.(stage := stage);
    assert BatchInv(run', box', h'.issued);
    assert AheadInv(run', cursor.1, h');
  }

  /** Only the stage changed, to one that the stored state justifies. */
  lemma StageMoves(cfg: Config, s: Sys, stage: Stage)
    requires Inv(cfg, s) && s.pc.Polling?
    requires StageInv(cfg, s.pc.run.(stage := stage), s.files, s.db.emails, s.hist.marked)
    requires TallyInv(s.pc.run.(stage := stage), s.db.emails)
    ensures Inv(cfg, AtStage(s, stage))
  {
    StaysUnderway(s.pc.run, stage, LastUid(s.db, cfg.folder).value, s.box, s.hist, s.box, s.hist);
  }

  lemma FiledStage(cfg: Config, run: Run, path: Path, r: Stamp, t: Stamp, files: Files, rows: seq<Row>, marked: set<Key>)
    requires run.next < |run.batch| && run.stage.AtMessage? && TallyInv(run, rows)
    requires path in files && files[path] == run.batch[run.next].raw
    ensures StageInv(cfg, run.(stage := Filed(path, r, t)), files, rows, marked)
    ensures TallyInv(run.(stage := Filed(path, r, t)), rows)
  {
  }

  lemma FileKeeps(cfg: Config, s: Sys, now: Stamp)
    requires Inv(cfg, s) && StepFile(cfg, s, now).Some?
    ensures Inv(cfg, StepFile(cfg, s, now).value)
  {
    var m := Current(s);
    var slot := SlotFor(cfg, m, now);
    var w := Write(s.files, slot, m.raw, cfg.digest).value;
    var s1 := s.(files := w.files);
    var r := ReceivedAt(cfg, m.raw, now);
    assert Preserves(s.files, w.files) && w.path in w.files && w.files[w.path] == m.raw by {
      WriteStores(s.files, slot, m.raw, cfg.digest);
    }
    FilesKeep(cfg, s, w.files);
    FiledStage(cfg, s.pc.run, w.path, r, now, w.files, s.db.emails, s.hist.marked);
    StageMoves(cfg, s1, Filed(w.path, r, now));
  }

  lemma CheckKeeps(cfg: Config, s: Sys)
    requires Inv(cfg, s) && StepCheck(cfg, s).Some?
    ensures Inv(cfg, StepCheck(cfg, s).value)
  {
    var m := Current(s);
    assert InArchive(s.files, m.raw) by {
      assert s.pc.run.stage.path in s.files;
    }
    StageMoves(cfg, s, StepCheck(cfg, s).value.pc.run.stage);
  }

  /** What the job is about to insert, and would count for it. */
  function Verdict(cfg: Config, s: Sys, summary: Summary): (NewEmail, Outcome)
    requires InMessage(s) && s.pc.run.stage.Fresh?
  {
    var stage := s.pc.run.stage;
    RowToInsert(cfg, s.pc.run.validity, Current(s), stage.path, stage.receivedAt, stage.processedAt, summary)
  }

  /** The database with one more row. */
  function WithEmail(db: Db, email: NewEmail): Db {
    db.(emails := db.emails + [RowFor(email, |db.emails| + 1)])
  }

  /** Under the run lock the row is always inserted: the not-inserted branch is dead. */
  lemma FreshIsInserted(cfg: Config, s: Sys, summary: Summary)
    requires InMessage(s) && s.pc.run.stage.Fresh?
    requires !EmailExists(s.db, s.pc.run.validity, Current(s).uid, MessageId(cfg, Current(s).raw))
    ensures var (email, outcome) := Verdict(cfg, s, summary);
      StepStore(cfg, s, summary) ==
      Some(AtStage(s, Covered(outcome)).(db := WithEmail(s.db, email)))
  {
    VerdictNamesMessage(cfg, s, summary);
    InsertedIffNew(s.db, Verdict(cfg, s, summary).0);
  }

  /** An e-mail that names the message at hand and the file archived for it. */
  predicate NamesCurrent(cfg: Config, s: Sys, email: NewEmail)
    requires InMessage(s) && s.pc.run.stage.Fresh?
  {
    && email.uidValidity == s.pc.run.validity && email.imapUid == Current(s).uid
    && email.messageId == MessageId(cfg, Current(s).raw) && email.rawPath == s.pc.run.stage.path
  }

  lemma VerdictNamesMessage(cfg: Config, s: Sys, summary: Summary)
    requires InMessage(s) && s.pc.run.stage.Fresh?
    ensures var (email, outcome) := Verdict(cfg, s, summary);
      && NamesCurrent(cfg, s, email) && email.receivedAt == s.pc.run.stage.receivedAt.instant
      && email.processedAt == s.pc.run.stage.processedAt.instant
      && OutcomeOf(email, outcome)
  {
  }

  lemma RowForKeeps(cfg: Config, cursor: (Uint32, Uint32), s: Sys, email: NewEmail)
    requires InMessage(s) && s.pc.run.stage.Fresh? && NamesCurrent(cfg, s, email)
    requires Underway(s.pc.run, cursor, s.box, s.hist) && StageInv(cfg, s.pc.run, s.files, s.db.emails, s.hist.marked)
    ensures RowInv(cfg, s.files, RowFor(email, |s.db.emails| + 1), s.hist.issued, s.hist.floor)
  {
    assert s.pc.run.batch[s.pc.run.next] == Current(s);
  }

  lemma NewRowKeepsStorage(cfg: Config, files: Files, rows: seq<Row>, h: Hist, row: Row)
    requires StorageInv(cfg, files, rows, h) && RowInv(cfg, files, row, h.issued, h.floor)
    ensures StorageInv(cfg, files, rows + [row], h)
  {
    MarkedGrows(cfg, files, rows, h, files, rows + [row], h);
  }

  lemma NewRowCovers(cfg: Config, files: Files, rows: seq<Row>, row: Row, k: Key, raw: Bytes)
    requires InArchive(files, raw) && HasKey(row, k.0, k.1)
    ensures Durable(cfg, files, rows + [row], k, raw)
  {
    assert Matches((rows + [row])[|rows|], k.0, k.1, MessageId(cfg, raw));
  }

  lemma {:induction false} CountsKept(rows: seq<Row>, row: Row, from: nat, to: nat)
    requires to <= |rows|
    ensures Failures(rows + [row], from, to) == Failures(rows, from, to)
    ensures Outsiders(rows + [row], from, to) == Outsiders(rows, from, to)
  {
    if from < to {
      CountsKept(rows, row, from, to - 1);
    }
  }

  lemma CoveredStage(cfg: Config, run: Run, outcome: Outcome, files: Files, rows: seq<Row>, marked: set<Key>, row: Row)
    requires StageInv(cfg, run, files, rows, marked) && run.stage.Fresh?
    requires HasKey(row, run.validity, run.batch[run.next].uid)
    ensures StageInv(cfg, run.(stage := Covered(outcome)), files, rows + [row], marked)
  {
    var m := run.batch[run.next];
    assert InArchive(files, m.raw) by {
      assert run.stage.path in files;
    }
    NewRowCovers(cfg, files, rows, row, (run.validity, m.uid), m.raw);
  }

  lemma RowsStayCounted(t: Tally, from: nat, rows: seq<Row>, row: Row)
    requires RowsCounted(t, from, rows)
    ensures RowsCounted(t, from, rows + [row])
  {
    CountsKept(rows, row, from, from + t.processed);
  }

  lemma CoveredBounds(run: Run, outcome: Outcome, rows: nat)
    requires TallyBounds(run, rows) && run.stage.Fresh?
    requires outcome.processed == 1 && outcome.duplicate == 0 && outcome.failed + outcome.outOfScope <= 1
    ensures TallyBounds(run.(stage := Covered(outcome)), rows + 1)
  {
  }

  lemma RowKeepsVerdict(email: NewEmail, id: nat)
    ensures RowFor(email, id).inScope == email.inScope
    ensures RowFor(email, id).llmStatus == "error" <==> email.llmStatus == "error"
  {
    assert RowFor(email, id).llmStatus == if email.llmStatus == "" then "ok" else email.llmStatus;
  }

  lemma JudgedAsCounted(email: NewEmail, row: Row, outcome: Outcome)
    requires OutcomeOf(email, outcome) && row.inScope == email.inScope
    requires row.llmStatus == "error" <==> email.llmStatus == "error"
    ensures outcome.failed + outcome.outOfScope <= 1 && Judged(row, outcome)
  {
  }

  lemma RowIsPending(outcome: Outcome, rows: seq<Row>, row: Row)
    requires Judged(row, outcome)
    ensures PendingJudged(Covered(outcome), rows + [row])
  {
  }

  lemma CoveredTally(run: Run, outcome: Outcome, rows: seq<Row>, row: Row)
    requires TallyInv(run, rows) && run.stage.Fresh?
    requires outcome.processed == 1 && outcome.duplicate == 0 && outcome.failed + outcome.outOfScope <= 1
    requires Judged(row, outcome)
    ensures TallyInv(run.(stage := Covered(outcome)), rows + [row])
  {
    CoveredBounds(run, outcome, |rows|);
    RowsStayCounted(run.tally, run.start.rows, rows, row);
    RowIsPending(outcome, rows, row);
  }

  lemma InsertTally(run: Run, db: Db, email: NewEmail, outcome: Outcome)
    requires TallyInv(run, db.emails) && run.stage.Fresh? && OutcomeOf(email, outcome)
    ensures TallyInv(run.(stage := Covered(outcome)), WithEmail(db, email).emails)
  {
    var row := RowFor(email, |db.emails| + 1);
    RowKeepsVerdict(email, |db.emails| + 1);
    JudgedAsCounted(email, row, outcome);
    CoveredTally(run, outcome, db.emails, row);
  }

  lemma CoreWithDb(cfg: Config, cursor: (Uint32, Uint32), s: Sys, db: Db, stage: Stage)
    requires Core(cfg, cursor, s) && s.pc.Polling? && ValidDb(db)
    requires StorageInv(cfg, s.files, db.emails, s.hist)
    requires HandledInv(cfg, cursor.0, cursor.1, s.files, db.emails, s.hist)
    requires StageInv(cfg, s.pc.run.(stage := stage), s.files, db.emails, s.hist.marked)
    requires TallyInv(s.pc.run.(stage := stage), db.emails)
    ensures Core(cfg, cursor, AtStage(s, stage).(db := db))
  {
    StaysUnderway(s.pc.run, stage, cursor, s.box, s.hist, s.box, s.hist);
  }

  lemma InsertKeepsParts(cfg: Config, cursor: (Uint32, Uint32), run: Run, files: Files, db: Db, h: Hist, email: NewEmail,
                         outcome: Outcome)
    requires ValidDb(db) && StorageInv(cfg, files, db.emails, h) && HandledInv(cfg, cursor.0, cursor.1, files, db.emails, h)
    requires run.stage.Fresh? && StageInv(cfg, run, files, db.emails, h.marked)
    requires email.uidValidity == run.validity && email.imapUid == run.batch[run.next].uid
    requires email.messageId == MessageId(cfg, run.batch[run.next].raw)
    requires RowInv(cfg, files, RowFor(email, |db.emails| + 1), h.issued, h.floor)
    ensures var rows' := WithEmail(db, email).emails; var run' := run.(stage := Covered(outcome));
      && ValidDb(WithEmail(db, email))
      && StorageInv(cfg, files, rows', h) && HandledInv(cfg, cursor.0, cursor.1, files, rows', h)
      && StageInv(cfg, run', files, rows', h.marked)
  {
    var row := RowFor(email, |db.emails| + 1);
    assert WithEmail(db, email).emails == db.emails + [row];
    NewRowKeepsStorage(cfg, files, db.emails, h, row);
    CoveredStage(cfg, run, outcome, files, db.emails, h.marked, row);
    HandledGrows(cfg, cursor.0, cursor.1, files, db.emails, h, files, db.emails + [row], h);
    StoredDbIsValid(db, email);
  }

  lemma InsertKeeps(cfg: Config, cursor: (Uint32, Uint32), s: Sys, email: NewEmail, outcome: Outcome)
    requires Core(cfg, cursor, s) && InMessage(s) && s.pc.run.stage.Fresh? && NamesCurrent(cfg, s, email)
    requires OutcomeOf(email, outcome)
    ensures Core(cfg, cursor, AtStage(s, Covered(outcome)).(db := WithEmail(s.db, email)))
  {
    RowForKeeps(cfg, cursor, s, email);
    InsertKeepsParts(cfg, cursor, s.pc.run, s.files, s.db, s.hist, email, outcome);
    InsertTally(s.pc.run, s.db, email, outcome);
    CoreWithDb(cfg, cursor, s, WithEmail(s.db, email), Covered(outcome));
  }

  lemma RowsKeepCursor(db: Db, rows: seq<Row>, folder: string)
    ensures LastUid(db.(emails := rows), folder) == LastUid(db, folder)
  {
  }

  lemma InsertedKeeps(cfg: Config, s: Sys, email: NewEmail, outcome: Outcome)
    requires Inv(cfg, s) && InMessage(s) && s.pc.run.stage.Fresh? && NamesCurrent(cfg, s, email) && OutcomeOf(email, outcome)
    ensures Inv(cfg, AtStage(s, Covered(outcome)).(db := WithEmail(s.db, email)))
  {
    InsertKeeps(cfg, LastUid(s.db, cfg.folder).value, s, email, outcome);
    RowsKeepCursor(s.db, WithEmail(s.db, email).emails, cfg.folder);
  }

  lemma FreshIsNew(cfg: Config, s: Sys)
    requires Inv(cfg, s) && InMessage(s) && s.pc.run.stage.Fresh?
    ensures !EmailExists(s.db, s.pc.run.validity, Current(s).uid, MessageId(cfg, Current(s).raw))
  {
  }

  lemma StoreKeeps(cfg: Config, s: Sys, summary: Summary)
    requires Inv(cfg, s) && StepStore(cfg, s, summary).Some?
    ensures Inv(cfg, StepStore(cfg, s, summary).value)
  {
    FreshIsNew(cfg, s);
    VerdictNamesMessage(cfg, s, summary);
    FreshIsInserted(cfg, s, summary);
    InsertedKeeps(cfg, s, Verdict(cfg, s, summary).0, Verdict(cfg, s, summary).1);
  }

  lemma StoredDbIsValid(db: Db, email: NewEmail)
    requires ValidDb(db) && !EmailExists(db, email.uidValidity, email.imapUid, email.messageId)
    ensures ValidDb(WithEmail(db, email))
  {
    InsertedIffNew(db, email);
    InsertKeepsValid(db, email);
  }

  lemma FlaggedBox(box: Box, uid: Uint32, h: Hist, h': Hist)
    requires BoxInv(box, h.issued) && SeenInv(box, h) && LostInv(box, h)
    requires h' == h.(marked := h.marked + {(box.validity, uid)}, unflagged := h'.unflagged)
    ensures BoxInv(Flagged(box, uid), h'.issued) && SeenInv(Flagged(box, uid), h') && LostInv(Flagged(box, uid), h')
  {
  }

  lemma MarkedStage(cfg: Config, run: Run, files: Files, rows: seq<Row>, marked: set<Key>)
    requires StageInv(cfg, run, files, rows, marked) && TallyInv(run, rows) && run.stage.Covered?
    ensures StageInv(cfg, run.(stage := Marked(run.stage.outcome)), files, rows, marked + {(run.validity, run.batch[run.next].uid)})
    ensures TallyInv(run.(stage := Marked(run.stage.outcome)), rows)
  {
  }

  lemma MarkKeepsMarked(cfg: Config, files: Files, rows: seq<Row>, h: Hist, k: Key)
    requires MarkedInv(cfg, files, rows, h.issued, h.floor, h.marked)
    requires k in h.issued && k.0 in h.floor && h.floor[k.0] < k.1 && Durable(cfg, files, rows, k, h.issued[k])
    ensures MarkedInv(cfg, files, rows, h.issued, h.floor, h.marked + {k})
  {
  }

  lemma MarkKeeps(cfg: Config, s: Sys)
    requires Inv(cfg, s) && StepMarkSeen(s).Some?
    ensures Inv(cfg, StepMarkSeen(s).value)
  {
    var s' := StepMarkSeen(s).value;
    var run, k := s.pc.run, CurrentKey(s);
    var cursor := LastUid(s.db, cfg.folder).value;
    FlaggedBox(s.box, k.1, s.hist, s'.hist);
    MarkedStage(cfg, run, s.files, s.db.emails, s.hist.marked);
    StaysUnderway(run, Marked(run.stage.outcome), cursor, s.box, s.hist, s'.box, s'.hist);
    MarkKeepsMarked(cfg, s.files, s.db.emails, s.hist, k);
    HandledGrows(cfg, cursor.0, cursor.1, s.files, s.db.emails, s.hist, s.files, s.db.emails, s'.hist);
  }

  lemma AheadAdvances(run: Run, run': Run, c: Uint32, h: Hist)
    requires run.next < |run.batch| && Ascending(run.batch) && AheadInv(run, c, h)
    requires run' == run.(next := run.next + 1, tally := run'.tally, stage := run'.stage)
    requires c < run.batch[run.next].uid
    ensures AheadInv(run', run.batch[run.next].uid, h)
  {
    var uid := run.batch[run.next].uid;
    forall k | k in h.issued && k.0 == run'.validity && uid < k.1 < run'.start.horizon && k !in h.lost
      ensures exists j :: run'.next <= j < |run'.batch| && run'.batch[j].uid == k.1
    {
      var j :| run.next <= j < |run.batch| && run.batch[j].uid == k.1;
      assert run'.batch[j].uid == k.1;
    }
  }

  lemma HandledAdvances(cfg: Config, run: Run, c: Uint32, files: Files, rows: seq<Row>, h: Hist)
    requires run.next < |run.batch| && Ascending(run.batch) && AheadInv(run, c, h)
    requires HandledInv(cfg, run.validity, c, files, rows, h)
    requires var m := run.batch[run.next]; var k := (run.validity, m.uid);
      && m.uid < run.start.horizon && k in h.issued && h.issued[k] == m.raw
      && k in h.marked && Durable(cfg, files, rows, k, m.raw)
    ensures HandledInv(cfg, run.validity, run.batch[run.next].uid, files, rows, h)
  {
    var uid := run.batch[run.next].uid;
    forall k | k in h.issued && k.0 == run.validity && run.validity in h.floor && h.floor[run.validity] < k.1 <= uid
      ensures k in h.lost || (k in h.marked && Durable(cfg, files, rows, k, h.issued[k]))
    {
      if k.1 > c && k !in h.lost {
        var j :| run.next <= j < |run.batch| && run.batch[j].uid == k.1;
        assert j == run.next;
      }
    }
  }

  lemma AdvancedUnderway(run: Run, run': Run, cursor: (Uint32, Uint32), box: Box, h: Hist)
    requires Underway(run, cursor, box, h) && run.next < |run.batch|
    requires run' == run.(next := run.next + 1, tally := run'.tally, stage := AtMessage)
    ensures Underway(run', (cursor.0, run.batch[run.next].uid), box, h)
  {
    PositionIsBefore(run);
    AheadAdvances(run, run', cursor.1, h);
    assert BatchInv(run', box, h.issued);
  }

  lemma AdvancedHandled(cfg: Config, run: Run, cursor: (Uint32, Uint32), box: Box, files: Files, rows: seq<Row>, h: Hist)
    requires RunInv(cfg, run, cursor, box, files, rows, h) && run.stage.Marked?
    requires HandledInv(cfg, cursor.0, cursor.1, files, rows, h)
    ensures HandledInv(cfg, cursor.0, run.batch[run.next].uid, files, rows, h)
  {
    HandledAdvances(cfg, run, cursor.1, files, rows, h);
  }

  lemma NextRowCounted(t: Tally, from: nat, rows: seq<Row>, o: Outcome)
    requires RowsCounted(t, from, rows) && o.processed == 1 && |rows| == from + t.processed + 1
    requires Judged(rows[|rows| - 1], o)
    ensures RowsCounted(Add(t, o), from, rows)
  {
    var n := from + t.processed;
    assert Failures(rows, from, n + 1) == Failures(rows, from, n) + o.failed;
    assert Outsiders(rows, from, n + 1) == Outsiders(rows, from, n) + o.outOfScope;
  }

  lemma AdvancedBounds(run: Run, run': Run, rows: nat)
    requires TallyBounds(run, rows) && run.stage.Marked?
    requires run' == run.(next := run.next + 1, tally := Add(run.tally, run.stage.outcome), stage := AtMessage)
    ensures TallyBounds(run', rows)
  {
  }

  lemma DuplicateCounted(t: Tally, from: nat, rows: seq<Row>, o: Outcome)
    requires RowsCounted(t, from, rows) && o.processed == 0 && o.failed == 0 && o.outOfScope == 0
    ensures RowsCounted(Add(t, o), from, rows)
  {
  }

  lemma AdvancedCounts(run: Run, rows: seq<Row>)
    requires TallyInv(run, rows) && run.stage.Marked?
    ensures RowsCounted(Add(run.tally, run.stage.outcome), run.start.rows, rows)
  {
    if run.stage.outcome.processed == 1 {
      NextRowCounted(run.tally, run.start.rows, rows, run.stage.outcome);
    } else {
      DuplicateCounted(run.tally, run.start.rows, rows, run.stage.outcome);
    }
  }

  lemma AdvancedTally(run: Run, run': Run, rows: seq<Row>)
    requires TallyInv(run, rows) && run.stage.Marked?
    requires run' == run.(next := run.next + 1, tally := Add(run.tally, run.stage.outcome), stage := AtMessage)
    ensures TallyInv(run', rows)
  {
    AdvancedBounds(run, run', |rows|);
    AdvancedCounts(run, rows);
  }

  lemma AdvanceKeeps(cfg: Config, s: Sys)
    requires Inv(cfg, s) && StepAdvance(cfg, s).Some?
    ensures Inv(cfg, StepAdvance(cfg, s).value)
  {
    var s' := StepAdvance(cfg, s).value;
    var cursor := LastUid(s.db, cfg.folder).value;
    CursorIsIsolated(s.db, cfg.folder, s.pc.run.validity, Current(s).uid, cfg.folder);
    AdvancedTally(s.pc.run, s'.pc.run, s.db.emails);
    AdvancedUnderway(s.pc.run, s'.pc.run, cursor, s.box, s.hist);
    AdvancedHandled(cfg, s.pc.run, cursor, s.box, s.files, s.db.emails, s.hist);
  }

  lemma PositionIsBefore(run: Run)
    requires run.next < |run.batch| && Ascending(run.batch) && run.start.cursor < run.batch[0].uid
    ensures Position(run) < run.batch[run.next].uid
  {
  }

  lemma CrashKeeps(cfg: Config, s: Sys)
    requires Inv(cfg, s)
    ensures Inv(cfg, s.(pc := Idle))
  {
  }

  // ----- every reachable state

  lemma FinishKeeps(cfg: Config, s: Sys)
    requires Inv(cfg, s) && StepFinish(s).Some?
    ensures Inv(cfg, StepFinish(s).value)
  {
  }

  predicate IsJobAction(a: Action) {
    a.Fetch? || a.SaveBaseline? || a.File? || a.Check? || a.Store? || a.MarkSeen? || a.Advance? || a.Finish?
  }

  lemma JobKeeps(cfg: Config, s: Sys, a: Action)
    requires Inv(cfg, s) && IsJobAction(a) && Step(cfg, s, a).Some?
    ensures Inv(cfg, Step(cfg, s, a).value)
  {
    match a
    case Fetch => FetchKeeps(cfg, s);
    case SaveBaseline => BaselineKeeps(cfg, s);
    case File(now) => FileKeeps(cfg, s, now);
    case Check => CheckKeeps(cfg, s);
    case Store(summary) => StoreKeeps(cfg, s, summary);
    case MarkSeen => MarkKeeps(cfg, s);
    case Advance => AdvanceKeeps(cfg, s);
    case Finish => FinishKeeps(cfg, s);
  }

  lemma StepKeeps(cfg: Config, s: Sys, a: Action)
    requires Inv(cfg, s) && Step(cfg, s, a).Some?
    ensures Inv(cfg, Step(cfg, s, a).value)
  {
    if IsJobAction(a) {
      JobKeeps(cfg, s, a);
    } else if a.Return? || a.Crash? {
      CrashKeeps(cfg, s);
    } else if a.SendDigest? {
      DigestKeeps(cfg, s, a.windowEnd, a.weekBack);
    } else if a.OthersPublish? {
      PublishKeeps(cfg, s, a.path, a.raw);
    } else {
      ServerKeeps(cfg, s, a);
    }
  }

  lemma InitInv(cfg: Config, box: Box)
    requires ValidBox(box)
    ensures Inv(cfg, Init(box))
  {
  }

  lemma {:induction false} RunKeeps(cfg: Config, s: Sys, actions: seq<Action>)
    requires Inv(cfg, s) && Exec(cfg, s, actions).Some?
    ensures Inv(cfg, Exec(cfg, s, actions).value)
  {
    if actions != [] {
      var last := |actions| - 1;
      RunKeeps(cfg, s, actions[..last]);
      StepKeeps(cfg, Exec(cfg, s, actions[..last]).value, actions[last]);
    }
  }
}

/**
 What the columns of a row come from: the scope of a message, the text of one that is
 not summarized, and time and path of a dated one are functions of its bytes and of the
 archive. So two histories that file the same dated mail the same way agree on every
 column the message determines.
 */
module RowColumns {
  import opened Common
  import opened Decimal
  import opened Timestamps
  import opened Archive
  import opened Database
  import opened Mailbox
  import opened Pipeline
  import opened NoGaps
  import opened Guarantees
  import opened CrashRefinement

  /** In scope, or not parsed: then no sender is known to be out of scope. */
  predicate ScopeOf(cfg: Config, raw: Bytes) {
    var p := cfg.parse(raw);
    p.ParseError? || cfg.allowlist == {} || cfg.fold(p.fromAddr) in cfg.allowlist
  }

  function DateText(cfg: Config, raw: Bytes): string
    requires Dated(cfg, raw)
  {
    FormatTime(cfg.parse(raw).date.value.instant)
  }

  /** Summary and status that do not come from the model: of a failed parse, or a sender out of scope. */
  function FixedText(cfg: Config, raw: Bytes): Option<(string, string)> {
    if cfg.parse(raw).ParseError? then Some(("could not summarize - read original", "error"))
    else if !ScopeOf(cfg, raw) then Some(("out of scope - not summarized", "ok"))
    else None
  }

  predicate TextOf(cfg: Config, raw: Bytes, summary: string, status: string) {
    FixedText(cfg, raw).Some? ==> (summary, status) == FixedText(cfg, raw).value
  }

  /** The path under which a dated message is filed, and will be found again. */
  predicate FiledUnder(cfg: Config, files: Files, m: Message, path: Path) {
    Dated(cfg, m.raw) ==> Write(files, DatedSlot(cfg, m), m.raw, cfg.digest) == Ok(Written(path, files))
  }

  /** The time of receipt is the Date header's, or without one the processing time. */
  predicate DatedBy(cfg: Config, m: Message, receivedAt: Stamp, processedAt: Stamp) {
    receivedAt == if Dated(cfg, m.raw) then cfg.parse(m.raw).date.value else processedAt
  }

  /** The columns that a message of these bytes determines. */
  predicate RowOf(cfg: Config, files: Files, row: Row, m: Message) {
    && row.inScope == ScopeOf(cfg, m.raw) && TextOf(cfg, m.raw, row.summary, row.llmStatus)
    && row.receivedAt == (if Dated(cfg, m.raw) then DateText(cfg, m.raw) else row.processedAt)
    && FiledUnder(cfg, files, m, row.rawPath)
  }

  ghost predicate RowsOf(cfg: Config, files: Files, rows: seq<Row>, issued: map<Key, Bytes>) {
    forall i :: 0 <= i < |rows| ==> RowOfIssued(cfg, files, rows[i], issued)
  }

  ghost predicate RowOfIssued(cfg: Config, files: Files, row: Row, issued: map<Key, Bytes>) {
    var k := (row.uidValidity, row.imapUid);
    k in issued && RowOf(cfg, files, row, Message(row.imapUid, issued[k]))
  }

  /** What the job carries from filing to the insert. */
  ghost predicate StageOfMessage(cfg: Config, files: Files, pc: Pc) {
    pc.Polling? && (pc.run.stage.Filed? || pc.run.stage.Fresh?) ==>
      && pc.run.next < |pc.run.batch|
      && var m := pc.run.batch[pc.run.next];
         DatedBy(cfg, m, pc.run.stage.receivedAt, pc.run.stage.processedAt) && FiledUnder(cfg, files, m, pc.run.stage.path)
  }

  ghost predicate Columns(cfg: Config, s: Sys) {
    RowsOf(cfg, s.files, s.db.emails, s.hist.issued) && StageOfMessage(cfg, s.files, s.pc)
  }

  // ----- growth

  lemma StaysFiled(cfg: Config, files: Files, files': Files, m: Message, path: Path)
    requires FiledUnder(cfg, files, m, path) && Preserves(files, files')
    ensures FiledUnder(cfg, files', m, path)
  {
    if Dated(cfg, m.raw) {
      WriteIsStable(files, DatedSlot(cfg, m), m.raw, cfg.digest, files');
    }
  }

  lemma RowStays(cfg: Config, files: Files, row: Row, issued: map<Key, Bytes>, files': Files, row': Row, issued': map<Key, Bytes>)
    requires RowOfIssued(cfg, files, row, issued) && Preserves(files, files') && Within(issued, issued')
    requires row' == row.(digestedAt := row'.digestedAt)
    ensures RowOfIssued(cfg, files', row', issued')
  {
    StaysFiled(cfg, files, files', Message(row.imapUid, issued[(row.uidValidity, row.imapUid)]), row.rawPath);
  }

  lemma RowsStay(cfg: Config, files: Files, rows: seq<Row>, issued: map<Key, Bytes>,
                 files': Files, rows': seq<Row>, issued': map<Key, Bytes>)
    requires RowsOf(cfg, files, rows, issued) && Preserves(files, files') && Within(issued, issued')
    requires SameKeys(rows, rows') && |rows'| == |rows|
    ensures RowsOf(cfg, files', rows', issued')
  {
    forall i | 0 <= i < |rows'|
      ensures RowOfIssued(cfg, files', rows'[i], issued')
    {
      RowStays(cfg, files, rows[i], issued, files', rows'[i], issued');
    }
  }

  // ----- the steps that file and store

  lemma FiledDated(cfg: Config, files: Files, m: Message, now: Stamp, w: Written)
    requires Write(files, SlotFor(cfg, m, now), m.raw, cfg.digest) == Ok(w)
    ensures DatedBy(cfg, m, ReceivedAt(cfg, m.raw, now), now) && FiledUnder(cfg, w.files, m, w.path)
  {
    WriteStores(files, SlotFor(cfg, m, now), m.raw, cfg.digest);
    WriteIsStable(files, SlotFor(cfg, m, now), m.raw, cfg.digest, w.files);
  }

  lemma FilingFiles(cfg: Config, s: Sys, now: Stamp)
    requires StepFile(cfg, s, now).Some?
    ensures StageOfMessage(cfg, StepFile(cfg, s, now).value.files, StepFile(cfg, s, now).value.pc)
  {
    var m := Current(s);
    FiledDated(cfg, s.files, m, now, Write(s.files, SlotFor(cfg, m, now), m.raw, cfg.digest).value);
  }

  lemma VerdictScope(cfg: Config, s: Sys, summary: Summary)
    requires InMessage(s) && s.pc.run.stage.Fresh?
    ensures Verdict(cfg, s, summary).0.inScope == ScopeOf(cfg, Current(s).raw)
  {
  }

  lemma VerdictText(cfg: Config, s: Sys, summary: Summary)
    requires InMessage(s) && s.pc.run.stage.Fresh?
    ensures var email := Verdict(cfg, s, summary).0; TextOf(cfg, Current(s).raw, email.summary, email.llmStatus)
  {
  }

  lemma StoredText(cfg: Config, raw: Bytes, summary: string, status: string, stored: string)
    requires TextOf(cfg, raw, summary, status) && stored == if status == "" then "ok" else status
    ensures TextOf(cfg, raw, summary, stored)
  {
  }

  lemma RowForColumns(email: NewEmail, id: nat)
    ensures var row := RowFor(email, id);
      && row.uidValidity == email.uidValidity && row.imapUid == email.imapUid && row.inScope == email.inScope
      && row.receivedAt == FormatTime(email.receivedAt) && row.rawPath == email.rawPath
      && row.processedAt == FormatTime(email.processedAt)
      && row.summary == email.summary && row.llmStatus == if email.llmStatus == "" then "ok" else email.llmStatus
  {
  }

  lemma NewRowIs(cfg: Config, files: Files, m: Message, receivedAt: Stamp, processedAt: Stamp, row: Row)
    requires DatedBy(cfg, m, receivedAt, processedAt) && FiledUnder(cfg, files, m, row.rawPath)
    requires row.inScope == ScopeOf(cfg, m.raw)
    requires row.receivedAt == FormatTime(receivedAt.instant) && row.processedAt == FormatTime(processedAt.instant)
    requires TextOf(cfg, m.raw, row.summary, row.llmStatus)
    ensures RowOf(cfg, files, row, m)
  {
  }

  lemma StoringRow(cfg: Config, s: Sys, summary: Summary)
    requires InMessage(s) && s.pc.run.stage.Fresh? && StageOfMessage(cfg, s.files, s.pc)
    ensures RowOf(cfg, s.files, RowFor(Verdict(cfg, s, summary).0, |s.db.emails| + 1), Current(s))
  {
    var email := Verdict(cfg, s, summary).0;
    VerdictNamesMessage(cfg, s, summary);
    VerdictScope(cfg, s, summary);
    VerdictText(cfg, s, summary);
    StoredText(cfg, Current(s).raw, email.summary, email.llmStatus, RowFor(email, |s.db.emails| + 1).llmStatus);
    RowForColumns(email, |s.db.emails| + 1);
    NewRowIs(cfg, s.files, Current(s), s.pc.run.stage.receivedAt, s.pc.run.stage.processedAt,
             RowFor(email, |s.db.emails| + 1));
  }

  lemma CurrentOnRecord(cfg: Config, s: Sys)
    requires Inv(cfg, s) && InMessage(s)
    ensures CurrentKey(s) in s.hist.issued && s.hist.issued[CurrentKey(s)] == Current(s).raw
  {
  }

  lemma OneMoreRow(cfg: Config, files: Files, rows: seq<Row>, row: Row, m: Message, issued: map<Key, Bytes>)
    requires RowsOf(cfg, files, rows, issued) && RowOf(cfg, files, row, m) && row.imapUid == m.uid
    requires (row.uidValidity, row.imapUid) in issued && issued[(row.uidValidity, row.imapUid)] == m.raw
    ensures RowsOf(cfg, files, rows + [row], issued)
  {
    assert m == Message(row.imapUid, issued[(row.uidValidity, row.imapUid)]);
    assert RowOfIssued(cfg, files, row, issued);
  }

  lemma StoredRows(cfg: Config, s: Sys, summary: Summary)
    requires RowsOf(cfg, s.files, s.db.emails, s.hist.issued) && StageOfMessage(cfg, s.files, s.pc)
    requires InMessage(s) && s.pc.run.stage.Fresh?
    requires CurrentKey(s) in s.hist.issued && s.hist.issued[CurrentKey(s)] == Current(s).raw
    ensures RowsOf(cfg, s.files, WithEmail(s.db, Verdict(cfg, s, summary).0).emails, s.hist.issued)
  {
    var email := Verdict(cfg, s, summary).0;
    StoringRow(cfg, s, summary);
    VerdictNamesMessage(cfg, s, summary);
    RowForColumns(email, |s.db.emails| + 1);
    OneMoreRow(cfg, s.files, s.db.emails, RowFor(email, |s.db.emails| + 1), Current(s), s.hist.issued);
  }

  lemma StoreColumns(cfg: Config, s: Sys, summary: Summary)
    requires Inv(cfg, s) && Columns(cfg, s) && StepStore(cfg, s, summary).Some?
    ensures Columns(cfg, StepStore(cfg, s, summary).value)
  {
    CurrentOnRecord(cfg, s);
    FreshIsNew(cfg, s);
    StoredRows(cfg, s, summary);
    FreshIsInserted(cfg, s, summary);
  }

  // ----- every step

  lemma FileColumns(cfg: Config, s: Sys, now: Stamp)
    requires Inv(cfg, s) && Columns(cfg, s) && StepFile(cfg, s, now).Some?
    ensures Columns(cfg, StepFile(cfg, s, now).value)
  {
    var s' := StepFile(cfg, s, now).value;
    WriteStores(s.files, SlotFor(cfg, Current(s), now), Current(s).raw, cfg.digest);
    RowsStay(cfg, s.files, s.db.emails, s.hist.issued, s'.files, s.db.emails, s.hist.issued);
    FilingFiles(cfg, s, now);
  }

  /** The stage after any step but filing is past the insert, or carries on what was filed. */
  lemma StageStays(cfg: Config, s: Sys, a: Action)
    requires Step(cfg, s, a).Some? && !a.File? && StageOfMessage(cfg, s.files, s.pc)
    requires Preserves(s.files, Step(cfg, s, a).value.files)
    ensures StageOfMessage(cfg, Step(cfg, s, a).value.files, Step(cfg, s, a).value.pc)
  {
    var s' := Step(cfg, s, a).value;
    if s'.pc.Polling? && (s'.pc.run.stage.Filed? || s'.pc.run.stage.Fresh?) {
      StageCarriesOn(cfg, s, a);
      StaysFiled(cfg, s.files, s'.files, Current(s), s.pc.run.stage.path);
    }
  }

  lemma StageCarriesOn(cfg: Config, s: Sys, a: Action)
    requires Step(cfg, s, a).Some? && !a.File?
    requires var s' := Step(cfg, s, a).value; s'.pc.Polling? && (s'.pc.run.stage.Filed? || s'.pc.run.stage.Fresh?)
    ensures s.pc.Polling? && (s.pc.run.stage.Filed? || s.pc.run.stage.Fresh?)
    ensures var before, after := s.pc.run, Step(cfg, s, a).value.pc.run;
      && after.batch == before.batch && after.next == before.next
      && after.stage.path == before.stage.path
      && after.stage.receivedAt == before.stage.receivedAt && after.stage.processedAt == before.stage.processedAt
  {
  }

  lemma SameRowCount(cfg: Config, s: Sys, a: Action)
    requires ValidDb(s.db) && Step(cfg, s, a).Some? && !a.Store?
    ensures |Step(cfg, s, a).value.db.emails| == |s.db.emails|
  {
    if a.SendDigest? {
      DeliveredKeepsCursor(s.db, cfg.folder, a.windowEnd, a.weekBack);
    }
  }

  lemma StepColumns(cfg: Config, s: Sys, a: Action)
    requires Inv(cfg, s) && Columns(cfg, s) && Step(cfg, s, a).Some?
    ensures Columns(cfg, Step(cfg, s, a).value)
  {
    if a.File? {
      FileColumns(cfg, s, a.now);
    } else if a.Store? {
      StoreColumns(cfg, s, a.summary);
    } else {
      OtherColumns(cfg, s, a);
    }
  }

  lemma OtherColumns(cfg: Config, s: Sys, a: Action)
    requires Inv(cfg, s) && Columns(cfg, s) && Step(cfg, s, a).Some? && !a.File? && !a.Store?
    ensures Columns(cfg, Step(cfg, s, a).value)
  {
    var s' := Step(cfg, s, a).value;
    StepProgress(cfg, s, a);
    SameRowCount(cfg, s, a);
    RowsStay(cfg, s.files, s.db.emails, s.hist.issued, s'.files, s'.db.emails, s'.hist.issued);
    StageStays(cfg, s, a);
  }

  lemma {:induction false} RunColumns(cfg: Config, box: Box, actions: seq<Action>)
    requires ValidBox(box) && Exec(cfg, Init(box), actions).Some?
    ensures Columns(cfg, Exec(cfg, Init(box), actions).value)
  {
    if actions != [] {
      var last := |actions| - 1;
      var mid := Exec(cfg, Init(box), actions[..last]).value;
      RunColumns(cfg, box, actions[..last]);
      InitInv(cfg, box);
      RunKeeps(cfg, Init(box), actions[..last]);
      StepColumns(cfg, mid, actions[last]);
    }
  }

  lemma ReachableColumns(cfg: Config, s: Sys)
    requires Reachable(cfg, s)
    ensures Columns(cfg, s)
  {
    var box, actions :| ValidBox(box) && Exec(cfg, Init(box), actions) == Some(s);
    RunColumns(cfg, box, actions);
  }

  lemma RowOfIssuedRow(cfg: Config, s: Sys, i: nat)
    requires Reachable(cfg, s) && i < |s.db.emails|
    ensures var row := s.db.emails[i]; var k := (row.uidValidity, row.imapUid);
      k in s.hist.issued && RowOf(cfg, s.files, row, Message(row.imapUid, s.hist.issued[k]))
  {
    ReachableColumns(cfg, s);
    assert RowOfIssued(cfg, s.files, s.db.emails[i], s.hist.issued);
  }

  /** Where a message dated in this month is filed: under its own name if that holds its bytes, else with the hash. */
  predicate FiledIn(cfg: Config, files: Files, m: Message, month: string, messageId: string, path: Path) {
    var name := if SafeName(messageId) == "" then "uid-" + FormatUint(m.uid) else SafeName(messageId);
    var plain, hashed := month + "/" + name + ".eml", month + "/" + name + "-" + cfg.digest(m.raw) + ".eml";
    path == (if plain in files && files[plain] == m.raw then plain else hashed) && path in files && files[path] == m.raw
  }

  lemma FiledUnderMeans(cfg: Config, files: Files, m: Message, path: Path)
    requires FiledUnder(cfg, files, m, path) && Dated(cfg, m.raw)
    ensures FiledIn(cfg, files, m, cfg.parse(m.raw).date.value.month, cfg.parse(m.raw).messageId, path)
  {
    var p := cfg.parse(m.raw);
    assert DatedSlot(cfg, m) == Slot(p.date.value.month, NameFor(p.messageId, m.uid));
    WriteStores(files, DatedSlot(cfg, m), m.raw, cfg.digest);
  }

  /**
   Every row of a reachable state is that of its message. It is out of scope exactly when
   the message parsed, there is an allowlist and its folded sender is not on it; a message
   that failed to parse or is out of scope has the fixed summary and status; received_at is
   the Date header, or without one the processing time; and the file of a dated message
   lies in the month of its date.
   */
  lemma RowsFollowTheirMessage(cfg: Config, s: Sys, i: nat)
    requires Reachable(cfg, s) && i < |s.db.emails|
    ensures var row := s.db.emails[i]; (row.uidValidity, row.imapUid) in s.hist.issued
    ensures var row := s.db.emails[i]; var p := cfg.parse(s.hist.issued[(row.uidValidity, row.imapUid)]);
      && (row.inScope <==> p.ParseError? || cfg.allowlist == {} || cfg.fold(p.fromAddr) in cfg.allowlist)
      && (p.ParseError? ==> row.summary == "could not summarize - read original" && row.llmStatus == "error")
      && (!row.inScope ==> row.summary == "out of scope - not summarized" && row.llmStatus == "ok")
      && row.receivedAt == if p.Parsed? && p.date.Some? then FormatTime(p.date.value.instant) else row.processedAt
    ensures var row := s.db.emails[i]; var raw := s.hist.issued[(row.uidValidity, row.imapUid)]; var p := cfg.parse(raw);
      p.Parsed? && p.date.Some? ==>
        FiledIn(cfg, s.files, Message(row.imapUid, raw), p.date.value.month, p.messageId, row.rawPath)
  {
    RowOfIssuedRow(cfg, s, i);
    var row := s.db.emails[i];
    var m := Message(row.imapUid, s.hist.issued[(row.uidValidity, row.imapUid)]);
    if Dated(cfg, m.raw) {
      FiledUnderMeans(cfg, s.files, m, row.rawPath);
    }
  }

  // ----- two histories over the same mail

  /** Equal but for the columns that depend on the clock, and for mail in scope on the model's answer. */
  predicate SameColumns(a: Row, b: Row) {
    && a == b.(summary := a.summary, llmStatus := a.llmStatus, processedAt := a.processedAt, digestedAt := a.digestedAt)
    && (!a.inScope ==> a.summary == b.summary && a.llmStatus == b.llmStatus)
  }

  ghost predicate AllSameColumns(rows: seq<Row>, rows': seq<Row>) {
    |rows| == |rows'| && forall i :: 0 <= i < |rows| ==> SameColumns(rows[i], rows'[i])
  }

  /** Each row of the reference beyond the first ones is that of some message of the mail. */
  lemma {:induction false} StoredFace(cfg: Config, validity: Uint32, faces: seq<Face>, mail: seq<Message>, i: nat) returns (m: Message)
    requires |faces| <= i < |Stored(cfg, validity, faces, mail)|
    ensures m in mail && Stored(cfg, validity, faces, mail)[i] == Face(validity, m.uid, Nullable(MessageId(cfg, m.raw)))
  {
    var last := |mail| - 1;
    if i < |Stored(cfg, validity, faces, mail[..last])| {
      m := StoredFace(cfg, validity, faces, mail[..last], i);
    } else {
      m := mail[last];
    }
  }

  lemma HeldIsIssued(s: Sys, first: nat, bound: Uint32, m: Message)
    requires BoxInv(s.box, s.hist.issued) && m in HeldBetween(s.box.held, first, bound)
    ensures var k := (s.box.validity, m.uid); k in s.hist.issued && s.hist.issued[k] == m.raw
  {
    HeldMember(s.box.held, first, bound, m);
  }

  lemma BoxOnRecord(cfg: Config, s: Sys, actions: seq<Action>)
    requires Reachable(cfg, s) && Exec(cfg, s, actions).Some?
    ensures var end := Exec(cfg, s, actions).value; BoxInv(end.box, end.hist.issued)
  {
    ReachableOn(cfg, s, actions);
    ReachableInv(cfg, Exec(cfg, s, actions).value);
  }

  lemma EpochStays(cfg: Config, s: Sys, actions: seq<Action>)
    requires UnderWay(cfg, s) && Exec(cfg, s, actions).Some? && (forall a <- actions :: Keeping(a))
    ensures Exec(cfg, s, actions).value.box.validity == s.box.validity
  {
    var w := RunFollows(cfg, s, actions);
  }

  lemma FinishedMailIsIssued(cfg: Config, s: Sys, actions: seq<Action>, m: Message)
    requires UnderWay(cfg, s) && (forall a <- actions :: Keeping(a))
    requires Exec(cfg, s, actions).Some? && Exec(cfg, s, actions).value.pc.Finished?
    requires m in MailOf(cfg, s, Exec(cfg, s, actions).value)
    ensures var k := (s.box.validity, m.uid); var issued := Exec(cfg, s, actions).value.hist.issued;
      k in issued && issued[k] == m.raw
  {
    var end := Exec(cfg, s, actions).value;
    EpochStays(cfg, s, actions);
    BoxOnRecord(cfg, s, actions);
    HeldIsIssued(end, Cursor(cfg, s).1 + 1, end.pc.run.start.horizon, m);
  }

  /** The row that a finished history has for a message of its mail. */
  lemma FinishedRow(cfg: Config, s: Sys, actions: seq<Action>, i: nat, m: Message)
    requires UnderWay(cfg, s) && (forall a <- actions :: Keeping(a))
    requires Exec(cfg, s, actions).Some? && Exec(cfg, s, actions).value.pc.Finished?
    requires m in MailOf(cfg, s, Exec(cfg, s, actions).value) && i < |Exec(cfg, s, actions).value.db.emails|
    requires var row := Exec(cfg, s, actions).value.db.emails[i]; row.uidValidity == s.box.validity && row.imapUid == m.uid
    ensures var end := Exec(cfg, s, actions).value; end.db.emails[i].id == i + 1 && RowOf(cfg, end.files, end.db.emails[i], m)
  {
    var end := Exec(cfg, s, actions).value;
    FinishedMailIsIssued(cfg, s, actions, m);
    ReachableOn(cfg, s, actions);
    ReachableInv(cfg, end);
    RowOfIssuedRow(cfg, end, i);
  }

  lemma SameRowOf(cfg: Config, files: Files, a: Row, b: Row, m: Message)
    requires Dated(cfg, m.raw) && RowOf(cfg, files, a, m) && RowOf(cfg, files, b, m) && FaceOf(a) == FaceOf(b) && a.id == b.id
    ensures SameColumns(a, b)
  {
  }

  lemma OldRow(cfg: Config, s: Sys, actions: seq<Action>, i: nat)
    requires Reachable(cfg, s) && Exec(cfg, s, actions).Some? && i < |s.db.emails|
    ensures var rows := Exec(cfg, s, actions).value.db.emails; i < |rows| && SameColumns(rows[i], s.db.emails[i])
  {
    NothingIsUndone(cfg, s, actions);
  }

  /** A finished history over dated mail that nobody else published into. */
  ghost predicate FinishedDated(cfg: Config, s: Sys, actions: seq<Action>) {
    && UnderWay(cfg, s) && (forall a <- actions :: Keeping(a) && !a.OthersPublish?)
    && Exec(cfg, s, actions).Some? && Exec(cfg, s, actions).value.pc.Finished?
    && AllDated(cfg, MailOf(cfg, s, Exec(cfg, s, actions).value))
  }

  lemma RowAgrees(cfg: Config, s: Sys, one: seq<Action>, other: seq<Action>, i: nat)
    requires FinishedDated(cfg, s, one) && FinishedDated(cfg, s, other)
    requires var a, b := Exec(cfg, s, one).value, Exec(cfg, s, other).value;
      && MailOf(cfg, s, a) == MailOf(cfg, s, b) && a.files == b.files && i < |a.db.emails|
      && Faces(a.db.emails) == Faces(b.db.emails)
      && Faces(a.db.emails) == Stored(cfg, s.box.validity, Faces(s.db.emails), MailOf(cfg, s, a))
    ensures SameColumns(Exec(cfg, s, one).value.db.emails[i], Exec(cfg, s, other).value.db.emails[i])
  {
    var a, b := Exec(cfg, s, one).value, Exec(cfg, s, other).value;
    if i < |s.db.emails| {
      OldRow(cfg, s, one, i);
      OldRow(cfg, s, other, i);
    } else {
      var m := StoredFace(cfg, s.box.validity, Faces(s.db.emails), MailOf(cfg, s, a), i);
      FinishedRow(cfg, s, one, i, m);
      FinishedRow(cfg, s, other, i, m);
      SameRowOf(cfg, a.files, a.db.emails[i], b.db.emails[i], m);
    }
  }

  /** Two finished histories over the same dated mail agree on the archive and on every column the mail determines. */
  lemma DatedRowsAgree(cfg: Config, s: Sys, one: seq<Action>, other: seq<Action>)
    requires FinishedDated(cfg, s, one) && FinishedDated(cfg, s, other)
    requires MailOf(cfg, s, Exec(cfg, s, one).value) == MailOf(cfg, s, Exec(cfg, s, other).value)
    ensures AllSameColumns(Exec(cfg, s, one).value.db.emails, Exec(cfg, s, other).value.db.emails)
    ensures Exec(cfg, s, one).value.files == Exec(cfg, s, other).value.files
  {
    CrashesDoNotMatter(cfg, s, one);
    CrashesDoNotMatter(cfg, s, other);
    var a, b := Exec(cfg, s, one).value, Exec(cfg, s, other).value;
    forall i | 0 <= i < |a.db.emails|
      ensures SameColumns(a.db.emails[i], b.db.emails[i])
    {
      RowAgrees(cfg, s, one, other, i);
    }
  }
}

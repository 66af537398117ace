/**
 What becomes of one message, written out: the columns of its row, the path of its file,
 the flag, the cursor and the counters, each in terms of the message and of what its
 parsing returned. The steps of the pipeline have exactly these effects.
 */
module OneMessage {
  import opened Common
  import opened Timestamps
  import opened Decimal
  import opened Archive
  import opened Database
  import opened Mailbox
  import opened Pipeline
  import opened NoGaps
  import opened Guarantees

  // ----- the reference

  /** A row has the message's validity and UID, or its Message-ID, which a message may lack. */
  ghost predicate Known(rows: seq<Row>, validity: Uint32, uid: Uint32, p: Parsed) {
    exists row ::
      row in rows &&
      ((row.uidValidity == validity && row.imapUid == uid) ||
       (p.Parsed? && p.messageId != "" && row.messageId == Some(p.messageId)))
  }

  predicate Listed(cfg: Config, fromAddr: string) {
    cfg.allowlist == {} || cfg.fold(fromAddr) in cfg.allowlist
  }

  /** The row of a message that was processed at this time. */
  function RowIs(cfg: Config, id: nat, validity: Uint32, m: Message, path: Path, now: Stamp, summary: Summary): Row {
    match cfg.parse(m.raw)
    case ParseError =>
      Row(id, validity, m.uid, None, FormatTime(now.instant), path, "could not summarize - read original", true, "error",
          FormatTime(now.instant), None)
    case Parsed(messageId, date, fromAddr) =>
      var key := if messageId == "" then None else Some(messageId);
      var received := FormatTime(if date.Some? then date.value.instant else now.instant);
      if Listed(cfg, fromAddr) then
        Row(id, validity, m.uid, key, received, path, summary.text, true, if summary.status == "" then "ok" else summary.status,
            FormatTime(now.instant), None)
      else
        Row(id, validity, m.uid, key, received, path, "out of scope - not summarized", false, "ok", FormatTime(now.instant), None)
  }

  /** What is counted for it. */
  function CountsAs(cfg: Config, m: Message, summary: Summary): Outcome {
    match cfg.parse(m.raw)
    case ParseError => Outcome(1, 0, 1, 0)
    case Parsed(_, _, fromAddr) =>
      if !Listed(cfg, fromAddr) then Outcome(1, 0, 0, 1)
      else Outcome(1, 0, if summary.status == "error" then 1 else 0, 0)
  }

  /** The month of its Date header, or of its processing without one. */
  function MonthIs(cfg: Config, m: Message, now: Stamp): string {
    var p := cfg.parse(m.raw);
    if p.Parsed? && p.date.Some? then p.date.value.month else now.month
  }

  /** The usable part of its Message-ID, or else its UID. */
  function NameIs(cfg: Config, m: Message): string {
    var p := cfg.parse(m.raw);
    if p.Parsed? && SafeName(p.messageId) != "" then SafeName(p.messageId) else "uid-" + FormatUint(m.uid)
  }

  function PlainPath(cfg: Config, m: Message, now: Stamp): Path {
    MonthIs(cfg, m, now) + "/" + NameIs(cfg, m) + ".eml"
  }

  /** The path it gets when other bytes have the plain one. */
  function HashedPath(cfg: Config, m: Message, now: Stamp): Path {
    MonthIs(cfg, m, now) + "/" + NameIs(cfg, m) + "-" + cfg.digest(m.raw) + ".eml"
  }

  function PathIs(cfg: Config, files: Files, m: Message, now: Stamp): Path {
    var plain := PlainPath(cfg, m, now);
    if plain !in files || files[plain] == m.raw then plain else HashedPath(cfg, m, now)
  }

  /** The state table with a folder's cursor in it. */
  function CursorSaved(state: map<string, string>, folder: string, validity: Uint32, uid: Uint32): map<string, string> {
    state["uid_validity:" + folder := FormatUint(validity)]["last_uid:" + folder := FormatUint(uid)]
  }

  // ----- each step

  lemma NameWithoutId(id: string, uid: Uint32)
    requires id == ""
    ensures NameFor(id, uid) == "uid-" + FormatUint(uid)
  {
    SafeNameOfNothing(id, id, id);
    assert id + id + id == id;
  }

  lemma SlotIs(cfg: Config, m: Message, now: Stamp)
    ensures SlotFor(cfg, m, now) == Slot(MonthIs(cfg, m, now), NameIs(cfg, m))
  {
    NameWithoutId("", m.uid);
  }

  lemma WriteIs(cfg: Config, files: Files, m: Message, now: Stamp)
    ensures var path := PathIs(cfg, files, m, now);
      Write(files, SlotFor(cfg, m, now), m.raw, cfg.digest) ==
      if path !in files then Ok(Written(path, files[path := m.raw]))
      else if files[path] == m.raw then Ok(Written(path, files))
      else Err
  {
    SlotIs(cfg, m, now);
    WriteReports(files, SlotFor(cfg, m, now), m.raw, cfg.digest, PathIs(cfg, files, m, now));
  }

  lemma StepFileFails(cfg: Config, s: Sys, now: Stamp)
    requires IsAt(s, AtMessage) && Write(s.files, SlotFor(cfg, Current(s), now), Current(s).raw, cfg.digest).Err?
    ensures StepFile(cfg, s, now) == None
  {
  }

  lemma ReceivedIs(cfg: Config, m: Message, now: Stamp)
    ensures ReceivedAt(cfg, m.raw, now) == Received(cfg, m, now)
  {
  }

  /** Filing fails only when both names hold other bytes; else the file is there and nothing else changed. */
  lemma FilingIs(cfg: Config, s: Sys, now: Stamp, path: Path)
    requires IsAt(s, AtMessage) && path == PathIs(cfg, s.files, Current(s), now)
    ensures StepFile(cfg, s, now) ==
      if path in s.files && s.files[path] != Current(s).raw then None
      else Some(AtStage(s, Filed(path, Received(cfg, Current(s), now), now)).(files := s.files[path := Current(s).raw]))
  {
    var m := Current(s);
    WriteIs(cfg, s.files, m, now);
    ReceivedIs(cfg, m, now);
    if path in s.files && s.files[path] != m.raw {
      StepFileFails(cfg, s, now);
    } else {
      assert path in s.files ==> s.files[path := m.raw] == s.files;
      StepFileIs(cfg, s, now, Written(path, s.files[path := m.raw]));
    }
  }

  /** The Date header of a message that parsed and has one, else the time of processing. */
  function Received(cfg: Config, m: Message, now: Stamp): Stamp {
    match cfg.parse(m.raw)
    case Parsed(_, Some(date), _) => date
    case _ => now
  }

  /** The existence check: a known message counts as a duplicate, any other goes on to be summarized. */
  lemma CheckingIs(cfg: Config, s: Sys)
    requires InMessage(s) && s.pc.run.stage.Filed?
    ensures var run := s.pc.run; var m := Current(s);
      StepCheck(cfg, s) == Some(s.(pc := Polling(run.(stage :=
        if Known(s.db.emails, run.validity, m.uid, cfg.parse(m.raw)) then Covered(Outcome(0, 1, 0, 0))
        else Fresh(run.stage.path, run.stage.receivedAt, run.stage.processedAt)))))
  {
    var m := Current(s);
    KnownMeans(cfg, s.db, s.pc.run.validity, m);
  }

  lemma KnownMeans(cfg: Config, db: Db, validity: Uint32, m: Message)
    ensures EmailExists(db, validity, m.uid, MessageId(cfg, m.raw)) <==> Known(db.emails, validity, m.uid, cfg.parse(m.raw))
  {
    ExistsMeans(db, validity, m.uid, MessageId(cfg, m.raw));
  }

  /** The row before it is written. */
  function EmailIs(cfg: Config, validity: Uint32, m: Message, path: Path, now: Stamp, summary: Summary): NewEmail {
    match cfg.parse(m.raw)
    case ParseError =>
      NewEmail(validity, m.uid, "", now.instant, path, "could not summarize - read original", true, "error", now.instant)
    case Parsed(messageId, date, fromAddr) =>
      var received := if date.Some? then date.value.instant else now.instant;
      if Listed(cfg, fromAddr) then
        NewEmail(validity, m.uid, messageId, received, path, summary.text, true, summary.status, now.instant)
      else NewEmail(validity, m.uid, messageId, received, path, "out of scope - not summarized", false, "ok", now.instant)
  }

  lemma VerdictIs(cfg: Config, s: Sys, summary: Summary)
    requires InMessage(s) && s.pc.run.stage.Fresh?
    requires s.pc.run.stage.receivedAt == Received(cfg, Current(s), s.pc.run.stage.processedAt)
    ensures var run := s.pc.run;
      Verdict(cfg, s, summary) ==
      (EmailIs(cfg, run.validity, Current(s), run.stage.path, run.stage.processedAt, summary), CountsAs(cfg, Current(s), summary))
  {
  }

  lemma RowOfEmail(cfg: Config, id: nat, validity: Uint32, m: Message, path: Path, now: Stamp, summary: Summary)
    ensures RowFor(EmailIs(cfg, validity, m, path, now, summary), id) == RowIs(cfg, id, validity, m, path, now, summary)
  {
  }

  /** The insert of a message that no row knows adds the one row it should have, numbered in turn. */
  lemma StoringIs(cfg: Config, s: Sys, summary: Summary)
    requires InMessage(s) && s.pc.run.stage.Fresh?
    requires s.pc.run.stage.receivedAt == Received(cfg, Current(s), s.pc.run.stage.processedAt)
    requires !Known(s.db.emails, s.pc.run.validity, Current(s).uid, cfg.parse(Current(s).raw))
    ensures var run := s.pc.run; var m := Current(s);
      StepStore(cfg, s, summary) ==
      Some(s.(db := s.db.(emails := s.db.emails +
                [RowIs(cfg, |s.db.emails| + 1, run.validity, m, run.stage.path, run.stage.processedAt, summary)]),
              pc := Polling(run.(stage := Covered(CountsAs(cfg, m, summary))))))
  {
    KnownMeans(cfg, s.db, s.pc.run.validity, Current(s));
    FreshIsInserted(cfg, s, summary);
    VerdictIs(cfg, s, summary);
    RowOfEmail(cfg, |s.db.emails| + 1, s.pc.run.validity, Current(s), s.pc.run.stage.path, s.pc.run.stage.processedAt, summary);
  }

  /** A mailbox in which a held message got its flag; one that is gone is passed over. */
  function BoxMarked(box: Box, uid: Uint32): Box {
    Box(box.validity, box.uidNext, box.held, if uid in box.held then box.seen + {uid} else box.seen)
  }

  /** Marking sets the flag of a message that the mailbox holds in the message's own epoch, and no other. */
  lemma MarkingIs(s: Sys)
    requires InMessage(s) && s.pc.run.stage.Covered?
    ensures var k := (s.pc.run.validity, Current(s).uid);
      StepMarkSeen(s) ==
      if s.box.validity != k.0 then None
      else Some(s.(box := BoxMarked(s.box, k.1), pc := Polling(s.pc.run.(stage := Marked(s.pc.run.stage.outcome))),
                   hist := s.hist.(marked := s.hist.marked + {k}, unflagged := s.hist.unflagged - {k})))
  {
  }

  /** The counters with one more message. */
  function Counted(t: Tally, o: Outcome): Tally {
    Tally(t.initialized, t.fetched, t.processed + o.processed, t.duplicates + o.duplicate, t.errors + o.failed,
          t.outOfScope + o.outOfScope)
  }

  lemma AdvancingIs(cfg: Config, s: Sys)
    requires InMessage(s) && s.pc.run.stage.Marked?
    ensures var run := s.pc.run;
      StepAdvance(cfg, s) ==
      Some(s.(db := s.db.(state := CursorSaved(s.db.state, cfg.folder, run.validity, Current(s).uid)),
              pc := Polling(run.(next := run.next + 1, tally := Counted(run.tally, run.stage.outcome), stage := AtMessage))))
  {
  }

  // ----- one message from its fetch to the cursor

  lemma StepIs(cfg: Config, s: Sys, a: Action)
    ensures a.Check? ==> Step(cfg, s, a) == StepCheck(cfg, s)
    ensures a.MarkSeen? ==> Step(cfg, s, a) == StepMarkSeen(s)
    ensures a.Advance? ==> Step(cfg, s, a) == StepAdvance(cfg, s)
  {
  }

  lemma FourActions(actions: seq<Action>)
    requires |actions| == 4
    ensures actions == ([actions[0]] + [actions[1]]) + ([actions[2]] + [actions[3]])
  {
  }

  lemma FiveActions(actions: seq<Action>)
    requires |actions| == 5
    ensures actions == ([actions[0]] + [actions[1]] + [actions[2]]) + ([actions[3]] + [actions[4]])
  {
  }

  lemma Joined(cfg: Config, s: Sys, first: seq<Action>, t: Sys, second: seq<Action>, actions: seq<Action>)
    requires Exec(cfg, s, first) == Some(t) && actions == first + second
    ensures Exec(cfg, s, actions) == Exec(cfg, t, second)
  {
    ExecJoins(cfg, s, first, second);
  }

  /** The message at hand is filed: its bytes are at its path, and nothing else has happened. */
  function AfterFiling(cfg: Config, s: Sys, now: Stamp, path: Path): Sys
    requires InMessage(s)
  {
    AtStage(s, Filed(path, Received(cfg, Current(s), now), now)).(files := s.files[path := Current(s).raw])
  }

  lemma FiledAndChecked(cfg: Config, s: Sys, now: Stamp, path: Path, file: Action, check: Action)
    requires IsAt(s, AtMessage) && path == PathIs(cfg, s.files, Current(s), now)
    requires path in s.files ==> s.files[path] == Current(s).raw
    requires file == File(now) && check.Check?
    ensures var filed := AfterFiling(cfg, s, now, path);
      Exec(cfg, s, [file] + [check]) == Some(AtStage(filed,
        if Known(s.db.emails, s.pc.run.validity, Current(s).uid, cfg.parse(Current(s).raw)) then Covered(Outcome(0, 1, 0, 0))
        else Fresh(path, Received(cfg, Current(s), now), now)))
  {
    var filed := AfterFiling(cfg, s, now, path);
    FilingIs(cfg, s, now, path);
    assert Step(cfg, s, file) == StepFile(cfg, s, now);
    ExecOne(cfg, s, file);
    CheckingIs(cfg, filed);
    StepIs(cfg, filed, check);
    ExecThen(cfg, s, [file], check);
  }

  /** A covered message that the mailbox's epoch knows is marked and passed by the cursor. */
  function AfterClosing(cfg: Config, s: Sys): Sys
    requires InMessage(s) && s.pc.run.stage.Covered?
  {
    var run, k := s.pc.run, CurrentKey(s);
    s.(box := BoxMarked(s.box, k.1),
       db := s.db.(state := CursorSaved(s.db.state, cfg.folder, k.0, k.1)),
       pc := Polling(run.(next := run.next + 1, tally := Counted(run.tally, run.stage.outcome), stage := AtMessage)),
       hist := s.hist.(marked := s.hist.marked + {k}, unflagged := s.hist.unflagged - {k}))
  }

  lemma MarkedAndPassed(cfg: Config, s: Sys, mark: Action, advance: Action)
    requires InMessage(s) && s.pc.run.stage.Covered? && s.box.validity == s.pc.run.validity
    requires mark.MarkSeen? && advance.Advance?
    ensures Exec(cfg, s, [mark] + [advance]) == Some(AfterClosing(cfg, s))
  {
    var marked := StepMarkSeen(s).value;
    MarkingIs(s);
    StepIs(cfg, s, mark);
    ExecOne(cfg, s, mark);
    AdvancingIs(cfg, marked);
    StepIs(cfg, marked, advance);
    ExecThen(cfg, s, [mark], advance);
  }

  /** The state in which a new message has its row and is not marked yet. */
  function AfterStoring(cfg: Config, s: Sys, now: Stamp, summary: Summary, path: Path): Sys
    requires InMessage(s)
  {
    var m := Current(s);
    AtStage(s, Covered(CountsAs(cfg, m, summary))).(
      files := s.files[path := m.raw],
      db := s.db.(emails := s.db.emails + [RowIs(cfg, |s.db.emails| + 1, s.pc.run.validity, m, path, now, summary)]))
  }

  lemma StoredFresh(cfg: Config, s: Sys, now: Stamp, summary: Summary, path: Path, store: Action)
    requires InMessage(s) && store == Store(summary)
    requires !Known(s.db.emails, s.pc.run.validity, Current(s).uid, cfg.parse(Current(s).raw))
    ensures var checked := AtStage(s, Fresh(path, Received(cfg, Current(s), now), now)).(files := s.files[path := Current(s).raw]);
      Step(cfg, checked, store) == Some(AfterStoring(cfg, s, now, summary, path))
  {
    var checked := AtStage(s, Fresh(path, Received(cfg, Current(s), now), now)).(files := s.files[path := Current(s).raw]);
    StoringIs(cfg, checked, summary);
    assert Step(cfg, checked, store) == StepStore(cfg, checked, summary);
  }

  lemma NewIsStored(cfg: Config, s: Sys, now: Stamp, summary: Summary, path: Path, file: Action, check: Action, store: Action)
    requires IsAt(s, AtMessage) && path == PathIs(cfg, s.files, Current(s), now)
    requires path in s.files ==> s.files[path] == Current(s).raw
    requires !Known(s.db.emails, s.pc.run.validity, Current(s).uid, cfg.parse(Current(s).raw))
    requires file == File(now) && check.Check? && store == Store(summary)
    ensures Exec(cfg, s, [file] + [check] + [store]) == Some(AfterStoring(cfg, s, now, summary, path))
  {
    FiledAndChecked(cfg, s, now, path, file, check);
    StoredFresh(cfg, s, now, summary, path, store);
    ExecThen(cfg, s, [file] + [check], store);
  }

  /**
   processOne on a message that no row knows, step for step and without a fault: its bytes
   are at its path, its row is added with every column as the message determines it, its
   flag is set, the cursor is its UID and the counters count it. It fails only when both
   its paths hold other bytes.
   */
  lemma NewMessage(cfg: Config, s: Sys, now: Stamp, summary: Summary, path: Path, actions: seq<Action>)
    requires IsAt(s, AtMessage) && path == PathIs(cfg, s.files, Current(s), now) && s.box.validity == s.pc.run.validity
    requires path in s.files ==> s.files[path] == Current(s).raw
    requires !Known(s.db.emails, s.pc.run.validity, Current(s).uid, cfg.parse(Current(s).raw))
    requires |actions| == 5 && actions[0] == File(now) && actions[1].Check? && actions[2] == Store(summary)
    requires actions[3].MarkSeen? && actions[4].Advance?
    ensures Exec(cfg, s, actions) == Some(AfterClosing(cfg, AfterStoring(cfg, s, now, summary, path)))
  {
    NewIsStored(cfg, s, now, summary, path, actions[0], actions[1], actions[2]);
    MarkedAndPassed(cfg, AfterStoring(cfg, s, now, summary, path), actions[3], actions[4]);
    FiveActions(actions);
    Joined(cfg, s, [actions[0]] + [actions[1]] + [actions[2]], AfterStoring(cfg, s, now, summary, path),
           [actions[3]] + [actions[4]], actions);
  }

  /** processOne on a message that some row knows: it is filed, marked, passed and counted as a duplicate; no row changes. */
  lemma KnownMessage(cfg: Config, s: Sys, now: Stamp, path: Path, actions: seq<Action>)
    requires IsAt(s, AtMessage) && path == PathIs(cfg, s.files, Current(s), now) && s.box.validity == s.pc.run.validity
    requires path in s.files ==> s.files[path] == Current(s).raw
    requires Known(s.db.emails, s.pc.run.validity, Current(s).uid, cfg.parse(Current(s).raw))
    requires |actions| == 4 && actions[0] == File(now) && actions[1].Check? && actions[2].MarkSeen? && actions[3].Advance?
    ensures Exec(cfg, s, actions) ==
            Some(AfterClosing(cfg, AtStage(s, Covered(Outcome(0, 1, 0, 0))).(files := s.files[path := Current(s).raw])))
  {
    var covered := AtStage(s, Covered(Outcome(0, 1, 0, 0))).(files := s.files[path := Current(s).raw]);
    FiledAndChecked(cfg, s, now, path, actions[0], actions[1]);
    MarkedAndPassed(cfg, covered, actions[2], actions[3]);
    FourActions(actions);
    Joined(cfg, s, [actions[0]] + [actions[1]], covered, [actions[2]] + [actions[3]], actions);
  }

  // ----- over all runs

  /** No other message on record has the same Message-ID. */
  ghost predicate OnlyOneWithItsId(cfg: Config, issued: map<Key, Bytes>, k: Key)
    requires k in issued
  {
    var p := cfg.parse(issued[k]);
    p.Parsed? && p.messageId != "" ==>
      forall k' :: k' in issued && k' != k ==>
        cfg.parse(issued[k']).ParseError? || cfg.parse(issued[k']).messageId != p.messageId
  }

  lemma CoveredBy(cfg: Config, rows: seq<Row>, k: Key, raw: Bytes) returns (i: nat)
    requires RowExists(rows, k.0, k.1, MessageId(cfg, raw))
    ensures i < |rows|
    ensures (rows[i].uidValidity, rows[i].imapUid) == k ||
            (cfg.parse(raw).Parsed? && cfg.parse(raw).messageId != "" && rows[i].messageId == Some(cfg.parse(raw).messageId))
  {
    i :| 0 <= i < |rows| && Matches(rows[i], k.0, k.1, MessageId(cfg, raw));
  }

  /**
   A message whose Message-ID no other message has, or that has none, never passes for a
   duplicate: once it was marked it has a row of its own, in every reachable state.
   */
  lemma OwnRow(cfg: Config, s: Sys, k: Key)
    requires Reachable(cfg, s) && k in s.hist.marked && k in s.hist.issued && OnlyOneWithItsId(cfg, s.hist.issued, k)
    ensures exists i :: 0 <= i < |s.db.emails| && s.db.emails[i].uidValidity == k.0 && s.db.emails[i].imapUid == k.1
  {
    MarkedIsDurable(cfg, s, k);
    var i := CoveredBy(cfg, s.db.emails, k, s.hist.issued[k]);
    RowsPointAtTheirBytes(cfg, s, i);
    assert (s.db.emails[i].uidValidity, s.db.emails[i].imapUid) == k;
  }
}

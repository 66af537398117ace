/**
 The poll job as a program. Its loop and its calls on database, archive and mail
 server are a run of the pipeline's machine, whatever fails and whatever the rest of
 the world does between two calls; so every promise about runs holds of it.
 */
module PollJob {
  import opened Common
  import opened Archive
  import opened Database
  import opened Mailbox
  import opened Pipeline
  import opened NoGaps
  import opened Guarantees
  import opened JobBodies

  /** The poll job and the world, without a digest, lead from a to b. */
  ghost predicate Reaches(cfg: Config, a: Sys, b: Sys) {
    exists actions :: PollHistory(cfg, a, actions, b)
  }

  lemma ReachesItself(cfg: Config, s: Sys)
    ensures Reaches(cfg, s, s)
  {
    assert PollHistory(cfg, s, [], s);
  }

  lemma HistoryThen(cfg: Config, a: Sys, actions: seq<Action>, b: Sys, action: Action, c: Sys)
    requires PollHistory(cfg, a, actions, b) && !action.SendDigest? && Step(cfg, b, action) == Some(c)
    ensures PollHistory(cfg, a, actions + [action], c)
  {
    ExecThen(cfg, a, actions, action);
    NoDigestJoins(actions, [action]);
  }

  lemma ReachesStep(cfg: Config, a: Sys, b: Sys, action: Action, c: Sys)
    requires Reaches(cfg, a, b) && !action.SendDigest? && Step(cfg, b, action) == Some(c)
    ensures Reaches(cfg, a, c)
  {
    var actions :| PollHistory(cfg, a, actions, b);
    HistoryThen(cfg, a, actions, b, action, c);
  }

  lemma ReachesOne(cfg: Config, s: Sys, action: Action, c: Sys)
    requires !action.SendDigest? && Step(cfg, s, action) == Some(c)
    ensures Reaches(cfg, s, c)
  {
    ReachesItself(cfg, s);
    ReachesStep(cfg, s, s, action, c);
  }

  lemma HistoriesJoin(cfg: Config, a: Sys, first: seq<Action>, b: Sys, second: seq<Action>, c: Sys)
    requires PollHistory(cfg, a, first, b) && PollHistory(cfg, b, second, c)
    ensures PollHistory(cfg, a, first + second, c)
  {
    ExecJoins(cfg, a, first, second);
    NoDigestJoins(first, second);
  }

  lemma ReachesTransitive(cfg: Config, a: Sys, b: Sys, c: Sys)
    requires Reaches(cfg, a, b) && Reaches(cfg, b, c)
    ensures Reaches(cfg, a, c)
  {
    var first :| PollHistory(cfg, a, first, b);
    var second :| PollHistory(cfg, b, second, c);
    HistoriesJoin(cfg, a, first, b, second, c);
  }

  lemma ReachableAfter(cfg: Config, a: Sys, b: Sys)
    requires Reachable(cfg, a) && Reaches(cfg, a, b)
    ensures Reachable(cfg, b) && ValidBox(b.box)
  {
    var actions :| PollHistory(cfg, a, actions, b);
    ReachableOn(cfg, a, actions);
    ReachableInv(cfg, b);
  }

  lemma PublishOne(cfg: Config, a: Sys, b: Sys, p: Path, raw: Bytes)
    requires Reaches(cfg, a, b) && p !in b.files && IsPublished(p)
    ensures Reaches(cfg, a, b.(files := b.files[p := raw]))
  {
    ReachesStep(cfg, a, b, Action.OthersPublish(p, raw), b.(files := b.files[p := raw]));
  }

  lemma OneFewer(added: Files, p: Path)
    requires p in added
    ensures |added - {p}| < |added|
  {
    assert (added - {p}).Keys == added.Keys - {p};
  }

  /** Several files published by others, one after the other. */
  lemma {:induction false} PublishAll(cfg: Config, s: Sys, added: Files)
    requires added.Keys !! s.files.Keys && forall p <- added :: IsPublished(p)
    ensures Reaches(cfg, s, s.(files := s.files + added))
    decreases |added|
  {
    if added == map[] {
      assert s.files + added == s.files;
      ReachesItself(cfg, s);
    } else {
      var p :| p in added;
      var rest := added - {p};
      OneFewer(added, p);
      PublishAll(cfg, s, rest);
      PublishOne(cfg, s, s.(files := s.files + rest), p, added[p]);
      PutBack(s.files, added, p);
    }
  }

  lemma PutBack(files: Files, added: Files, p: Path)
    requires p in added
    ensures (files + (added - {p}))[p := added[p]] == files + added
  {
  }

  /** The published part of a directory that grew by other publications. */
  lemma OthersArePublished(before: Files, others: Files, after: Files)
    requires (forall p <- after :: IsPublished(p)) && Preserves(before + others, after)
    ensures forall p <- others :: IsPublished(p)
  {
    forall p <- others
      ensures IsPublished(p)
    {
      assert p in before + others;
      assert p in after;
    }
  }

  /** Only others published. */
  lemma OthersPublished(cfg: Config, s: Sys, others: Files, after: Files)
    requires others.Keys !! s.files.Keys && after == s.files + others && forall p <- after :: IsPublished(p)
    ensures Reaches(cfg, s, s.(files := after))
  {
    OthersArePublished(s.files, others, after);
    PublishAll(cfg, s, others);
  }

  lemma FileReaches(cfg: Config, s: Sys, s1: Sys, now: Stamp, written: Written)
    requires Reaches(cfg, s, s1) && IsAt(s1, AtMessage)
    requires Write(s1.files, SlotFor(cfg, Current(s1), now), Current(s1).raw, cfg.digest) == Ok(written)
    ensures Reaches(cfg, s, AtStage(s1, Filed(written.path, ReceivedAt(cfg, Current(s1).raw, now), now)).(files := written.files))
  {
    FileSucceeds(cfg, s1, now, written);
    ReachesStep(cfg, s, s1, File(now),
                AtStage(s1, Filed(written.path, ReceivedAt(cfg, Current(s1).raw, now), now)).(files := written.files));
  }

  /** Others published while the job wrote, then its own file appeared. */
  lemma FiledAfterOthers(cfg: Config, s: Sys, others: Files, now: Stamp, written: Written)
    requires IsAt(s, AtMessage) && others.Keys !! s.files.Keys && forall p <- written.files :: IsPublished(p)
    requires Write(s.files + others, SlotFor(cfg, Current(s), now), Current(s).raw, cfg.digest) == Ok(written)
    ensures Reaches(cfg, s, AtStage(s, Filed(written.path, ReceivedAt(cfg, Current(s).raw, now), now)).(files := written.files))
  {
    WriteStores(s.files + others, SlotFor(cfg, Current(s), now), Current(s).raw, cfg.digest);
    OthersArePublished(s.files, others, written.files);
    PublishAll(cfg, s, others);
    FileReaches(cfg, s, s.(files := s.files + others), now, written);
  }

  lemma StepStoreIs(cfg: Config, s: Sys, summary: Summary)
    requires InMessage(s) && s.pc.run.stage.Fresh?
    ensures var (email, outcome) := Verdict(cfg, s, summary); var (db, inserted) := InsertEmail(s.db, email);
      StepStore(cfg, s, summary) ==
      Some(AtStage(s, Covered(if inserted then outcome else outcome.(processed := 0, duplicate := 1))).(db := db))
  {
    var stage := s.pc.run.stage;
    assert Verdict(cfg, s, summary) ==
           RowToInsert(cfg, s.pc.run.validity, Current(s), stage.path, stage.receivedAt, stage.processedAt, summary);
  }

  lemma StoreIs(cfg: Config, s: Sys, summary: Summary, email: NewEmail, outcome: Outcome, db: Db, inserted: bool)
    requires InMessage(s) && s.pc.run.stage.Fresh? && (email, outcome) == Verdict(cfg, s, summary)
    requires (db, inserted) == InsertEmail(s.db, email)
    ensures Step(cfg, s, Action.Store(summary)) ==
            Some(AtStage(s, Covered(if inserted then outcome else outcome.(processed := 0, duplicate := 1))).(db := db))
  {
    StepStoreIs(cfg, s, summary);
  }

  lemma StoreReaches(cfg: Config, s: Sys, summary: Summary, email: NewEmail, outcome: Outcome, db: Db, inserted: bool)
    requires InMessage(s) && s.pc.run.stage.Fresh? && (email, outcome) == Verdict(cfg, s, summary)
    requires (db, inserted) == InsertEmail(s.db, email)
    ensures Reaches(cfg, s,
                    AtStage(s, Covered(if inserted then outcome else outcome.(processed := 0, duplicate := 1))).(db := db))
  {
    StoreIs(cfg, s, summary, email, outcome, db, inserted);
    ReachesOne(cfg, s, Action.Store(summary),
               AtStage(s, Covered(if inserted then outcome else outcome.(processed := 0, duplicate := 1))).(db := db));
  }

  // ----- the rest of the world

  /** What a server event makes of the mailbox. */
  function BoxAfter(box: Box, a: Action): Option<Box> {
    match a
    case Arrive(raw) =>
      if box.uidNext == MAX_UINT32 then None
      else Some(box.(held := box.held[box.uidNext := raw], uidNext := box.uidNext + 1))
    case Expunge(u) => if u !in box.held then None else Some(box.(held := box.held - {u}, seen := box.seen - {u}))
    case Reset(renewed) => if !ValidBox(renewed) || renewed.validity <= box.validity then None else Some(renewed)
    case OthersFlag(u) => if u !in box.held then None else Some(box.(seen := box.seen + {u}))
    case OthersUnflag(u) => Some(box.(seen := box.seen - {u}))
    case _ => None
  }

  lemma ServerEvent(cfg: Config, s: Sys, a: Action)
    requires BoxAfter(s.box, a).Some?
    ensures Step(cfg, s, a).Some?
    ensures var s' := Step(cfg, s, a).value; s' == s.(box := BoxAfter(s.box, a).value, hist := s'.hist)
  {
  }

  lemma FetchedStep(cfg: Config, s: Sys, known: Uint32, last: Uint32)
    requires s.pc.Idle? && LastUid(s.db, cfg.folder) == Ok((known, last)) && ValidBox(s.box)
    ensures Step(cfg, s, Action.Fetch).Some?
    ensures var s' := Step(cfg, s, Action.Fetch).value; var r := Fetched(s.box, known, last);
      && s' == s.(pc := s'.pc, hist := s'.hist)
      && (r.baseline ==> s'.pc == Baselining(r.uidValidity, r.lastUid))
      && (!r.baseline ==> s'.pc == Polling(Run(known, r.messages, 0, NothingYet(|r.messages|), AtMessage,
                                               Start(|s.db.emails|, last, s.box.uidNext)))
                          && r.uidValidity == known && Ascending(r.messages))
  {
    HeldBetweenIsExact(s.box.held, last + 1, s.box.uidNext);
  }

  /** A run that has fetched and processed nothing. */
  function Begun(r: FetchResult, start: Start): Run {
    Run(r.uidValidity, r.messages, 0, NothingYet(|r.messages|), AtMessage, start)
  }

  function NothingYet(fetched: nat): Tally {
    Tally(false, fetched, 0, 0, 0, 0)
  }

  /** A batch worked through can be finished. */
  lemma FinishOrNot(cfg: Config, s: Sys, end: Sys)
    requires Reaches(cfg, s, end) && end.pc.Polling?
    ensures end.pc.run.next == |end.pc.run.batch| && end.pc.run.stage.AtMessage? ==>
            Reaches(cfg, s, end.(pc := Finished(end.pc.run)))
  {
    if end.pc.run.next == |end.pc.run.batch| && end.pc.run.stage.AtMessage? {
      ReachesStep(cfg, s, end, Finish, end.(pc := Finished(end.pc.run)));
    }
  }

  ghost predicate Counted(t: Tally, before: nat, rows: seq<Row>, finished: bool) {
    && !t.initialized && t.processed + t.duplicates <= t.fetched && t.errors + t.outOfScope <= t.processed
    && before + t.processed <= |rows| <= before + t.processed + 1 && RowsCounted(t, before, rows)
    && (finished ==> t.processed + t.duplicates == t.fetched && |rows| == before + t.processed)
  }

  lemma FinishedCounts(cfg: Config, s: Sys)
    requires Reachable(cfg, s) && s.pc.Finished?
    ensures Counted(s.pc.run.tally, s.pc.run.start.rows, s.db.emails, true)
  {
    CountersAddUp(cfg, s);
  }

  lemma PollingCounts(cfg: Config, s: Sys)
    requires Reachable(cfg, s) && s.pc.Polling?
    ensures Counted(s.pc.run.tally, s.pc.run.start.rows, s.db.emails, false)
  {
    CountersSoFar(cfg, s);
  }

  lemma RunCounts(cfg: Config, s: Sys, end: Sys)
    requires Reachable(cfg, s) && Reaches(cfg, s, end)
    ensures end.pc.Polling? || end.pc.Finished? ==>
            Counted(end.pc.run.tally, end.pc.run.start.rows, end.db.emails, end.pc.Finished?)
  {
    ReachableAfter(cfg, s, end);
    if end.pc.Polling? {
      PollingCounts(cfg, end);
    } else if end.pc.Finished? {
      FinishedCounts(cfg, end);
    }
  }

  class Job {
    const cfg: Config
    const store: Store
    const server: Server
    const disk: Disk
    ghost var pc: Pc
    ghost var hist: Hist

    constructor (cfg: Config, store: Store, server: Server, disk: Disk, ghost hist: Hist)
      ensures this.cfg == cfg && this.store == store && this.server == server && this.disk == disk
      ensures pc == Idle && this.hist == hist
    {
      this.cfg, this.store, this.server, this.disk := cfg, store, server, disk;
      this.pc, this.hist := Idle, hist;
    }

    /** The system's state as the machine sees it. */
    ghost function View(): Sys
      reads this, store, server, disk
    {
      Sys(server.box, disk.Published(), store.Contents(), pc, hist)
    }

    /** Others use the mailbox and publish files while the job is between two calls. */
    method Interfere()
      modifies `hist, server, disk
      ensures Reaches(cfg, old(View()), View())
      ensures View() == old(View()).(box := server.box, files := disk.Published(), hist := hist)
    {
      ReachesItself(cfg, View());
      var events: int := *;
      for i := 0 to if events < 0 then 0 else events
        invariant Reaches(cfg, old(View()), View())
      {
        var a: Action := *;
        ghost var s := View();
        if BoxAfter(server.box, a).Some? {
          ServerEvent(cfg, s, a);
          server.box := BoxAfter(server.box, a).value;
          hist := Step(cfg, s, a).value.hist;
          ReachesStep(cfg, old(View()), s, a, View());
        } else {
          var added := disk.OthersPublish();
          PublishAll(cfg, s, added);
          ReachesTransitive(cfg, old(View()), s, View());
        }
      }
    }

    // ----- the calls of one message

    /** archive.Write on the message at hand, with what others published meanwhile. */
    method WriteFile(m: Message, now: Stamp) returns (path: Option<Path>, ghost others: Files)
      requires IsAt(View(), AtMessage) && m == Current(View())
      modifies `pc, disk
      ensures View() == old(View()).(files := disk.Published(), pc := pc) && others.Keys !! old(disk.Published()).Keys
      ensures path.None? ==> pc == old(pc) && disk.Published() == old(disk.Published()) + others
      ensures path.Some? ==>
        && pc == Polling(old(pc).run.(stage := Filed(path.value, ReceivedAt(cfg, m.raw, now), now)))
        && Write(old(disk.Published()) + others, SlotFor(cfg, m, now), m.raw, cfg.digest)
           == Ok(Written(path.value, disk.Published()))
    {
      var written;
      written, others := disk.WriteMessage(SlotFor(cfg, m, now), m.raw, cfg.digest);
      if written.Err? {
        return None, others;
      }
      pc := Polling(pc.run.(stage := Filed(written.value, ReceivedAt(cfg, m.raw, now), now)));
      path := Some(written.value);
    }

    /** Filing the message at hand is a run of the machine. */
    method FileMessage(m: Message, now: Stamp) returns (path: Option<Path>)
      requires IsAt(View(), AtMessage) && m == Current(View())
      modifies `pc, disk
      ensures Reaches(cfg, old(View()), View())
      ensures View() == old(View()).(files := disk.Published(), pc := pc)
      ensures path.None? ==> pc == old(pc)
      ensures path.Some? ==> pc == Polling(old(pc).run.(stage := Filed(path.value, ReceivedAt(cfg, m.raw, now), now)))
    {
      ghost var s := View();
      ghost var others;
      path, others := WriteFile(m, now);
      if path.None? {
        OthersPublished(cfg, s, others, disk.Published());
      } else {
        FiledAfterOthers(cfg, s, others, now, Written(path.value, disk.Published()));
      }
    }

    /**
     EmailExists on the message at hand: it is known exactly when a row has its validity and
     UID, or it parsed with a Message-ID that some row has.
     */
    method CheckMessage(validity: Uint32, m: Message) returns (known: Option<bool>)
      requires InMessage(View()) && pc.run.stage.Filed? && m == Current(View()) && validity == pc.run.validity
      modifies `pc
      ensures Reaches(cfg, old(View()), View()) && View() == old(View()).(pc := pc)
      ensures known.None? ==> pc == old(pc)
      ensures known.Some? ==> (known.value <==> exists row ::
        row in store.emails &&
        ((row.uidValidity == validity && row.imapUid == m.uid) ||
         (cfg.parse(m.raw).Parsed? && cfg.parse(m.raw).messageId != "" && row.messageId == Some(cfg.parse(m.raw).messageId))))
      ensures known == Some(true) ==> pc == Polling(old(pc).run.(stage := Covered(DUPLICATE)))
      ensures known == Some(false) ==>
        var filed := old(pc).run.stage; pc == Polling(old(pc).run.(stage := Fresh(filed.path, filed.receivedAt, filed.processedAt)))
    {
      ghost var s := View();
      ReachesItself(cfg, s);
      var found := store.Exists(validity, m.uid, MessageId(cfg, m.raw));
      if found.Err? {
        return None;
      }
      pc := StepCheck(cfg, s).value.pc;
      ReachesStep(cfg, s, s, Check, View());
      known := Some(found.value);
    }

    /**
     The row to insert and its outcome; the model may answer anything. The row names the
     message and its file. It is in scope exactly when parsing failed, there is no
     allowlist, or the folded sender is listed; a parsed message in scope has the model's
     text and status, any other the fixed ones; and the outcome counts what the row says.
     */
    method Summarize(validity: Uint32, m: Message, path: Path, receivedAt: Stamp, processedAt: Stamp)
      returns (email: NewEmail, outcome: Outcome, summary: Summary)
      ensures (email, outcome) == RowToInsert(cfg, validity, m, path, receivedAt, processedAt, summary)
      ensures outcome == Outcome(1, 0, if email.llmStatus == "error" then 1 else 0, if email.inScope then 0 else 1)
      ensures email.uidValidity == validity && email.imapUid == m.uid
      ensures email.messageId == if cfg.parse(m.raw).ParseError? then "" else cfg.parse(m.raw).messageId
      ensures email.rawPath == path && email.receivedAt == receivedAt.instant && email.processedAt == processedAt.instant
      ensures email.inScope <==>
        cfg.parse(m.raw).ParseError? || cfg.allowlist == {} || cfg.fold(cfg.parse(m.raw).fromAddr) in cfg.allowlist
      ensures cfg.parse(m.raw).ParseError? ==>
        email.summary == "could not summarize - read original" && email.llmStatus == "error"
      ensures !email.inScope ==> email.summary == "out of scope - not summarized" && email.llmStatus == "ok"
      ensures cfg.parse(m.raw).Parsed? && email.inScope ==> email.summary == summary.text && email.llmStatus == summary.status
    {
      summary := *;
      email := NewEmail(validity, m.uid, MessageId(cfg, m.raw), receivedAt.instant, path, "", true, "", processedAt.instant);
      outcome := Outcome(1, 0, 0, 0);
      var parsed := cfg.parse(m.raw);
      if parsed.ParseError? {
        email := email.(summary := "could not summarize - read original", llmStatus := "error");
        outcome := outcome.(failed := 1);
      } else if !InScope(cfg, parsed.fromAddr) {
        email := email.(summary := "out of scope - not summarized", inScope := false, llmStatus := "ok");
        outcome := outcome.(outOfScope := 1);
      } else {
        email := email.(summary := summary.text, llmStatus := summary.status);
        if summary.status == "error" {
          outcome := outcome.(failed := 1);
        }
      }
    }

    /** Summarize and InsertEmail on the message at hand. */
    method StoreMessage(validity: Uint32, m: Message, path: Path, receivedAt: Stamp, processedAt: Stamp)
      returns (outcome: Option<Outcome>)
      requires InMessage(View()) && pc.run.stage == Fresh(path, receivedAt, processedAt)
      requires m == Current(View()) && validity == pc.run.validity
      modifies `pc, store
      ensures Reaches(cfg, old(View()), View()) && View() == old(View()).(db := store.Contents(), pc := pc)
      ensures outcome.None? ==> pc == old(pc)
      ensures outcome.Some? ==> pc == Polling(old(pc).run.(stage := Covered(outcome.value)))
    {
      ghost var s := View();
      var email, verdict, summary := Summarize(validity, m, path, receivedAt, processedAt);
      var counted := verdict;
      var inserted := store.Insert(email);
      if inserted.Err? {
        ReachesItself(cfg, s);
        return None;
      }
      if !inserted.value {
        counted := counted.(processed := 0, duplicate := 1);
      }
      pc := Polling(pc.run.(stage := Covered(counted)));
      StoreReaches(cfg, s, summary, email, verdict, store.Contents(), inserted.value);
      outcome := Some(counted);
    }

    /** Fetcher.MarkSeen on the message at hand; after a lost answer the flag may be set all the same. */
    method MarkMessage(validity: Uint32, m: Message) returns (ok: bool)
      requires InMessage(View()) && pc.run.stage.Covered? && m == Current(View()) && validity == pc.run.validity
      requires ValidBox(server.box)
      modifies `pc, `hist, server
      ensures Reaches(cfg, old(View()), View()) && View() == old(View()).(box := server.box, pc := pc, hist := hist)
      ensures pc.Polling? && pc.run == old(pc).run.(stage := pc.run.stage)
      ensures ok ==> pc.run.stage == Marked(old(pc).run.stage.outcome)
      ensures ok ==> old(server.box).validity == validity && (m.uid in old(server.box).held ==> m.uid in server.box.seen)
      ensures server.box == old(server.box).(seen := server.box.seen)
      ensures forall u :: u != m.uid ==> (u in server.box.seen <==> u in old(server.box).seen)
    {
      ghost var s := View();
      ReachesItself(cfg, s);
      ok := server.MarkSeen(validity, m.uid);
      if ok || server.box != s.box {
        pc, hist := StepMarkSeen(s).value.pc, StepMarkSeen(s).value.hist;
        ReachesStep(cfg, s, s, Action.MarkSeen, View());
      }
    }

    /** SetLastUID after the message at hand. */
    method AdvanceCursor(validity: Uint32, m: Message) returns (ok: bool)
      requires InMessage(View()) && pc.run.stage.Marked? && m == Current(View()) && validity == pc.run.validity
      modifies `pc, store
      ensures Reaches(cfg, old(View()), View()) && View() == old(View()).(db := store.Contents(), pc := pc)
      ensures !ok ==> pc == old(pc)
      ensures ok ==> var run := old(pc).run;
        pc == Polling(run.(next := run.next + 1, tally := Add(run.tally, run.stage.outcome), stage := AtMessage))
    {
      ghost var s := View();
      ReachesItself(cfg, s);
      ok := store.SaveLastUid(cfg.folder, validity, m.uid);
      if ok {
        pc := StepAdvance(cfg, s).value.pc;
        ReachesStep(cfg, s, s, Advance, View());
      }
    }

    // ----- processOne

    /** Archive, check, summarize and insert. */
    method CoverMessage(validity: Uint32, m: Message) returns (outcome: Option<Outcome>)
      requires IsAt(View(), AtMessage) && m == Current(View()) && validity == pc.run.validity
      modifies `pc, `hist, store, server, disk
      ensures Reaches(cfg, old(View()), View())
      ensures pc.Polling? && pc.run == old(pc).run.(stage := pc.run.stage)
      ensures outcome.Some? ==> pc.run.stage == Covered(outcome.value)
    {
      ghost var s := View();
      var processedAt: Stamp := *;
      var receivedAt := ReceivedAt(cfg, m.raw, processedAt);
      Interfere();
      ghost var s1 := View();
      var path := FileMessage(m, processedAt);
      ReachesTransitive(cfg, s, s1, View());
      if path.None? {
        return None;
      }
      ghost var s2 := View();
      Interfere();
      ReachesTransitive(cfg, s, s2, View());
      ghost var s3 := View();
      var known := CheckMessage(validity, m);
      ReachesTransitive(cfg, s, s3, View());
      if known.None? {
        return None;
      }
      if known.value {
        return Some(DUPLICATE);
      }
      ghost var s4 := View();
      Interfere();
      ReachesTransitive(cfg, s, s4, View());
      ghost var s5 := View();
      outcome := StoreMessage(validity, m, path.value, receivedAt, processedAt);
      ReachesTransitive(cfg, s, s5, View());
    }

    /** MarkSeen, then the cursor. */
    method CloseMessage(validity: Uint32, m: Message) returns (ok: bool)
      requires Reachable(cfg, View())
      requires InMessage(View()) && pc.run.stage.Covered? && m == Current(View()) && validity == pc.run.validity
      modifies `pc, `hist, store, server, disk
      ensures Reaches(cfg, old(View()), View())
      ensures pc.Polling?
      ensures !ok ==> pc.run == old(pc).run.(stage := pc.run.stage)
      ensures ok ==> var run := old(pc).run;
        pc.run == run.(next := run.next + 1, tally := Add(run.tally, run.stage.outcome), stage := AtMessage)
    {
      ghost var s := View();
      Interfere();
      ghost var s1 := View();
      ReachableAfter(cfg, s, s1);
      var marked := MarkMessage(validity, m);
      ReachesTransitive(cfg, s, s1, View());
      if !marked {
        return false;
      }
      ghost var s2 := View();
      Interfere();
      ReachesTransitive(cfg, s, s2, View());
      ghost var s3 := View();
      ok := AdvanceCursor(validity, m);
      ReachesTransitive(cfg, s, s3, View());
    }

    /** processOne: the outcome, or None for an error. */
    method ProcessOne(validity: Uint32, m: Message) returns (outcome: Option<Outcome>)
      requires Reachable(cfg, View())
      requires IsAt(View(), AtMessage) && m == Current(View()) && validity == pc.run.validity
      modifies `pc, `hist, store, server, disk
      ensures Reaches(cfg, old(View()), View())
      ensures pc.Polling?
      ensures outcome.None? ==> pc.run == old(pc).run.(stage := pc.run.stage)
      ensures outcome.Some? ==> var run := old(pc).run;
        pc.run == run.(next := run.next + 1, tally := Add(run.tally, outcome.value), stage := AtMessage)
    {
      ghost var s := View();
      outcome := CoverMessage(validity, m);
      if outcome.None? {
        return;
      }
      ghost var s1 := View();
      ReachableAfter(cfg, s, s1);
      var closed := CloseMessage(validity, m);
      ReachesTransitive(cfg, s, s1, View());
      if !closed {
        outcome := None;
      }
    }

    // ----- Run

    /** The loop over a fetched batch; on an error, the tally so far. */
    method ProcessAll(validity: Uint32, messages: seq<Message>) returns (tally: Tally, ok: bool)
      requires Reachable(cfg, View()) && pc.Polling? && pc.run.validity == validity && pc.run.batch == messages
      requires pc.run.next == 0 && pc.run.stage.AtMessage? && pc.run.tally == NothingYet(|messages|)
      modifies `pc, `hist, store, server, disk
      ensures Reaches(cfg, old(View()), View()) && pc.Polling?
      ensures pc.run.tally == tally && pc.run.start == old(pc).run.start
      ensures ok ==> pc.run.next == |pc.run.batch| && pc.run.stage.AtMessage?
    {
      ghost var s := View();
      ReachesItself(cfg, s);
      tally := NothingYet(|messages|);
      for i := 0 to |messages|
        invariant Reaches(cfg, s, View()) && pc.Polling?
        invariant pc.run == s.pc.run.(next := i, tally := tally)
      {
        var cancelled: bool := *;
        if cancelled {
          return tally, false;
        }
        ghost var before := View();
        ReachableAfter(cfg, s, before);
        var outcome := ProcessOne(validity, messages[i]);
        ReachesTransitive(cfg, s, before, View());
        if outcome.None? {
          return tally, false;
        }
        tally := tally.(processed := tally.processed + outcome.value.processed,
                        duplicates := tally.duplicates + outcome.value.duplicate,
                        errors := tally.errors + outcome.value.failed,
                        outOfScope := tally.outOfScope + outcome.value.outOfScope);
      }
      ok := true;
    }

    /** The cursor and the fetch. */
    method FetchNew() returns (fetched: Option<FetchResult>)
      requires Reachable(cfg, View()) && pc.Idle?
      modifies `pc, `hist, server, disk
      ensures Reaches(cfg, old(View()), View())
      ensures fetched.None? ==> pc.Idle?
      ensures fetched.Some? ==> var r := fetched.value;
        if r.baseline then pc == Baselining(r.uidValidity, r.lastUid)
        else
          && pc.Polling? && pc.run == Begun(r, pc.run.start)
          && pc.run.start.rows == |store.emails| && Ascending(r.messages)
    {
      ghost var s := View();
      ReachesItself(cfg, s);
      var cursor := store.LastUidOf(cfg.folder);
      if cursor.Err? {
        return None;
      }
      var (known, sinceUid) := cursor.value;
      Interfere();
      ghost var s1 := View();
      ReachableAfter(cfg, s, s1);
      var answer := server.Fetch(known, sinceUid);
      if answer.Err? {
        return None;
      }
      FetchedStep(cfg, s1, known, sinceUid);
      pc, hist := Step(cfg, s1, Action.Fetch).value.pc, Step(cfg, s1, Action.Fetch).value.hist;
      ReachesStep(cfg, s, s1, Action.Fetch, View());
      fetched := Some(answer.value);
    }

    /** SetLastUID with a new epoch's baseline. */
    method KeepBaseline(validity: Uint32, lastUid: Uint32) returns (ok: bool)
      requires pc == Baselining(validity, lastUid)
      modifies `pc, `hist, store, server, disk
      ensures Reaches(cfg, old(View()), View())
      ensures pc == if ok then Idle else old(pc)
      ensures store.emails == old(store.emails)
    {
      ghost var s := View();
      Interfere();
      ghost var s1 := View();
      ok := store.SaveLastUid(cfg.folder, validity, lastUid);
      assert store.emails == store.Contents().emails;
      if ok {
        pc, hist := StepSaveBaseline(cfg, s1).value.pc, StepSaveBaseline(cfg, s1).value.hist;
        ReachesStep(cfg, s, s1, Action.SaveBaseline, View());
      }
    }

    /** The run is over, well or with an error. */
    ghost method Leave(s: Sys)
      requires Reachable(cfg, s) && Reaches(cfg, s, View())
      modifies `pc
      ensures View() == old(View()).(pc := Idle) && Reachable(cfg, View()) && Reaches(cfg, s, View())
    {
      ghost var end := View();
      pc := Idle;
      ReachesStep(cfg, s, end, Crash, View());
      ReachableAfter(cfg, s, View());
    }

    /**
     Job.Run: the counters and whether it succeeded. The ghost results are the machine's
     state when the run returned and the history of the run, whose job steps are one body.
     */
    method Run() returns (tally: Tally, ok: bool, ghost end: Sys, ghost actions: seq<Action>)
      requires Reachable(cfg, View()) && pc.Idle?
      modifies `pc, `hist, store, server, disk
      ensures Reaches(cfg, old(View()), end) && View() == end.(pc := Idle) && Reachable(cfg, View())
      ensures PollHistory(cfg, old(View()), actions, View()) && PollBody(JobSteps(actions))
      ensures ok ==> if tally.initialized then end.pc.Idle? && tally == NothingYet(0).(initialized := true)
                     else end.pc.Finished? && end.pc.run.tally == tally
      ensures !ok ==> !end.pc.Finished? && tally == if end.pc.Polling? then end.pc.run.tally else NothingYet(0)
      ensures ok ==> tally.processed + tally.duplicates == tally.fetched
      ensures tally.processed + tally.duplicates <= tally.fetched && tally.errors + tally.outOfScope <= tally.processed
      ensures RowsCounted(tally, |old(store.emails)|, store.emails)
      ensures |old(store.emails)| + tally.processed <= |store.emails| <= |old(store.emails)| + tally.processed + if ok then 0 else 1
    {
      ghost var s := View();
      tally, ok := NothingYet(0), false;
      var fetched := FetchNew();
      ghost var s1 := View();
      ReachableAfter(cfg, s, s1);
      if fetched.Some? && fetched.value.baseline {
        ok := KeepBaseline(fetched.value.uidValidity, fetched.value.lastUid);
        ReachesTransitive(cfg, s, s1, View());
        if ok {
          tally := tally.(initialized := true);
        }
      } else if fetched.Some? {
        var messages := SortByUid(fetched.value.messages);
        SortedStaysPut(fetched.value.messages);
        tally, ok := ProcessAll(fetched.value.uidValidity, messages);
        ReachesTransitive(cfg, s, s1, View());
        FinishOrNot(cfg, s, View());
        if ok {
          pc := Finished(pc.run);
        }
      }
      end := View();
      RunCounts(cfg, s, end);
      Leave(s);
      actions :| PollHistory(cfg, s, actions, View());
      WholePollIsBody(cfg, s, actions, View());
    }
  }

  /** A service that never ran before: its job is in a state from which every promise holds. */
  method StartService(cfg: Config, box: Box) returns (job: Job)
    requires ValidBox(box)
    ensures fresh(job) && fresh(job.store) && fresh(job.server) && fresh(job.disk) && job.cfg == cfg
    ensures job.View() == Init(box) && job.pc.Idle? && Reachable(cfg, job.View())
  {
    var store := new Store();
    var server := new Server(box);
    var disk := new Disk();
    job := new Job(cfg, store, server, disk, Init(box).hist);
    assert Exec(cfg, Init(box), []) == Some(job.View());
  }
}

/**
 Uninterrupted runs. From any state between runs a fault-free run can finish unless
 two files clash, and what any crash-ridden history ends with is what one such run
 over the same mail ends with.
 */
module CleanRuns {
  import opened Common
  import opened Archive
  import opened Database
  import opened Mailbox
  import opened Pipeline
  import opened Guarantees
  import opened CrashRefinement
  import opened RowColumns

  /** The steps of one run after its fetch, without a fault. */
  predicate JobStep(a: Action) {
    a.File? || a.Check? || a.Store? || a.MarkSeen? || a.Advance? || a.Finish?
  }

  predicate JobOnly(actions: seq<Action>) {
    forall a <- actions :: JobStep(a)
  }

  /** The job alone acts on the same batch. */
  predicate Onward(s: Sys, s': Sys) {
    && s.pc.Polling? && s'.pc.Polling?
    && s'.pc.run.validity == s.pc.run.validity && s'.pc.run.batch == s.pc.run.batch && s'.pc.run.start == s.pc.run.start
    && s'.box.validity == s.box.validity && s'.box.held == s.box.held
  }

  // ----- one message

  lemma DriveFile(cfg: Config, s: Sys, now: Stamp)
    requires IsAt(s, AtMessage)
    requires Write(s.files, SlotFor(cfg, Current(s), now), Current(s).raw, cfg.digest).Ok?
    ensures Step(cfg, s, File(now)).Some?
    ensures var s' := Step(cfg, s, File(now)).value;
      && Onward(s, s') && s'.pc.run.next == s.pc.run.next && s'.pc.run.stage.Filed?
      && s'.files == Write(s.files, SlotFor(cfg, Current(s), now), Current(s).raw, cfg.digest).value.files
  {
    FileSucceeds(cfg, s, now, Write(s.files, SlotFor(cfg, Current(s), now), Current(s).raw, cfg.digest).value);
  }

  lemma DriveCheck(cfg: Config, s: Sys)
    requires InMessage(s) && s.pc.run.stage.Filed?
    ensures Step(cfg, s, Check).Some?
    ensures var s' := Step(cfg, s, Check).value;
      && Onward(s, s') && s'.pc.run.next == s.pc.run.next && s'.files == s.files
      && (s'.pc.run.stage.Covered? || s'.pc.run.stage.Fresh?)
  {
  }

  lemma DriveStore(cfg: Config, s: Sys, summary: Summary)
    requires InMessage(s) && s.pc.run.stage.Fresh?
    ensures Step(cfg, s, Action.Store(summary)).Some?
    ensures var s' := Step(cfg, s, Action.Store(summary)).value;
      && Onward(s, s') && s'.pc.run.next == s.pc.run.next && s'.files == s.files && s'.pc.run.stage.Covered?
  {
  }

  lemma DriveCover(cfg: Config, s: Sys, summary: Summary) returns (actions: seq<Action>, s': Sys)
    requires InMessage(s) && s.pc.run.stage.Filed?
    ensures JobOnly(actions) && Exec(cfg, s, actions) == Some(s')
    ensures Onward(s, s') && s'.pc.run.next == s.pc.run.next && s'.pc.run.stage.Covered? && s'.files == s.files
  {
    DriveCheck(cfg, s);
    ExecOne(cfg, s, Check);
    actions, s' := [Check], Step(cfg, s, Check).value;
    if s'.pc.run.stage.Fresh? {
      DriveStore(cfg, s', summary);
      ExecThen(cfg, s, actions, Action.Store(summary));
      actions, s' := actions + [Action.Store(summary)], Step(cfg, s', Action.Store(summary)).value;
    }
  }

  lemma DriveMark(cfg: Config, s: Sys)
    requires InMessage(s) && s.pc.run.stage.Covered? && s.box.validity == s.pc.run.validity
    ensures Step(cfg, s, Action.MarkSeen).Some?
    ensures var s' := Step(cfg, s, Action.MarkSeen).value;
      && Onward(s, s') && s'.pc.run.next == s.pc.run.next && s'.pc.run.stage.Marked? && s'.files == s.files
  {
  }

  lemma DriveAdvance(cfg: Config, s: Sys)
    requires InMessage(s) && s.pc.run.stage.Marked?
    ensures Step(cfg, s, Advance).Some?
    ensures var s' := Step(cfg, s, Advance).value;
      && Onward(s, s') && s'.pc.run.next == s.pc.run.next + 1 && s'.pc.run.stage.AtMessage? && s'.files == s.files
  {
  }

  lemma DriveClose(cfg: Config, s: Sys) returns (actions: seq<Action>, s': Sys)
    requires InMessage(s) && s.pc.run.stage.Covered? && s.box.validity == s.pc.run.validity
    ensures JobOnly(actions) && Exec(cfg, s, actions) == Some(s')
    ensures Onward(s, s') && s'.pc.run.next == s.pc.run.next + 1 && s'.pc.run.stage.AtMessage? && s'.files == s.files
  {
    DriveMark(cfg, s);
    ExecOne(cfg, s, Action.MarkSeen);
    var marked := Step(cfg, s, Action.MarkSeen).value;
    DriveAdvance(cfg, marked);
    ExecThen(cfg, s, [Action.MarkSeen], Advance);
    actions, s' := [Action.MarkSeen] + [Advance], Step(cfg, marked, Advance).value;
  }

  lemma DriveMessage(cfg: Config, s: Sys, now: Stamp, summary: Summary) returns (actions: seq<Action>, s': Sys)
    requires IsAt(s, AtMessage) && s.box.validity == s.pc.run.validity
    requires Write(s.files, SlotFor(cfg, Current(s), now), Current(s).raw, cfg.digest).Ok?
    ensures JobOnly(actions) && Exec(cfg, s, actions) == Some(s')
    ensures Onward(s, s') && s'.pc.run.next == s.pc.run.next + 1 && s'.pc.run.stage.AtMessage?
    ensures s'.files == Write(s.files, SlotFor(cfg, Current(s), now), Current(s).raw, cfg.digest).value.files
  {
    DriveFile(cfg, s, now);
    ExecOne(cfg, s, File(now));
    var filed := Step(cfg, s, File(now)).value;
    var cover, covered := DriveCover(cfg, filed, summary);
    ExecJoins(cfg, s, [File(now)], cover);
    var close;
    close, s' := DriveClose(cfg, covered);
    ExecJoins(cfg, s, [File(now)] + cover, close);
    actions := [File(now)] + cover + close;
  }

  // ----- a whole run

  /** The archive after filing this mail in order, at a given time for undated mail. */
  function FiledAt(cfg: Config, files: Files, mail: seq<Message>, now: Stamp): Result<Files>
    decreases |mail|
  {
    if mail == [] then Ok(files)
    else
      match Write(files, SlotFor(cfg, mail[0], now), mail[0].raw, cfg.digest)
      case Err => Err
      case Ok(w) => FiledAt(cfg, w.files, mail[1..], now)
  }

  lemma {:induction false} DriveRest(cfg: Config, s: Sys, now: Stamp, summary: Summary) returns (actions: seq<Action>, s': Sys)
    requires s.pc.Polling? && s.pc.run.stage.AtMessage? && s.pc.run.next <= |s.pc.run.batch|
    requires s.box.validity == s.pc.run.validity && FiledAt(cfg, s.files, s.pc.run.batch[s.pc.run.next..], now).Ok?
    ensures JobOnly(actions) && Exec(cfg, s, actions) == Some(s')
    ensures s'.pc.Finished? && s'.pc.run.start == s.pc.run.start && s'.box.held == s.box.held
    decreases |s.pc.run.batch| - s.pc.run.next
  {
    var run := s.pc.run;
    if run.next == |run.batch| {
      actions, s' := [Finish], StepFinish(s).value;
      ExecOne(cfg, s, Finish);
    } else {
      assert run.batch[run.next..][0] == Current(s) && run.batch[run.next..][1..] == run.batch[run.next + 1..];
      var first, mid := DriveMessage(cfg, s, now, summary);
      var rest;
      rest, s' := DriveRest(cfg, mid, now, summary);
      ExecJoins(cfg, s, first, rest);
      actions := first + rest;
    }
  }

  /** One run without a fault: the fetch, the job's steps, nothing else. */
  predicate Uninterrupted(actions: seq<Action>) {
    actions != [] && actions[0].Fetch? && JobOnly(actions[1..])
  }

  lemma FetchNow(cfg: Config, s: Sys)
    requires s.pc.Idle? && LastUid(s.db, cfg.folder) == Ok((s.box.validity, Cursor(cfg, s).1)) && s.box.validity > 0
    ensures Step(cfg, s, Action.Fetch).Some?
    ensures var s' := Step(cfg, s, Action.Fetch).value;
      && s'.box == s.box && s'.files == s.files && s'.pc.Polling?
      && s'.pc.run.validity == s.box.validity && s'.pc.run.batch == NewMail(s.box, Cursor(cfg, s).1)
      && s'.pc.run.next == 0 && s'.pc.run.stage.AtMessage? && s'.pc.run.start.horizon == s.box.uidNext
  {
  }

  lemma CleanRun(cfg: Config, s: Sys, now: Stamp, summary: Summary) returns (actions: seq<Action>, s': Sys)
    requires s.pc.Idle? && LastUid(s.db, cfg.folder) == Ok((s.box.validity, Cursor(cfg, s).1)) && s.box.validity > 0
    requires FiledAt(cfg, s.files, NewMail(s.box, Cursor(cfg, s).1), now).Ok?
    ensures Uninterrupted(actions) && Exec(cfg, s, actions) == Some(s')
    ensures s'.pc.Finished? && s'.pc.run.start.horizon == s.box.uidNext && s'.box.held == s.box.held
  {
    FetchNow(cfg, s);
    var mid := Step(cfg, s, Action.Fetch).value;
    assert mid.pc.run.batch[0..] == mid.pc.run.batch;
    var rest;
    rest, s' := DriveRest(cfg, mid, now, summary);
    ExecOne(cfg, s, Action.Fetch);
    ExecJoins(cfg, s, [Action.Fetch], rest);
    actions := [Action.Fetch] + rest;
  }

  // ----- a fault-free run finishes unless two files clash

  lemma {:induction false} FiledLast(cfg: Config, files: Files, front: seq<Message>, m: Message, now: Stamp)
    ensures FiledAt(cfg, files, front + [m], now) ==
            match FiledAt(cfg, files, front, now)
            case Err => Err
            case Ok(before) =>
              match Write(before, SlotFor(cfg, m, now), m.raw, cfg.digest)
              case Err => Err
              case Ok(w) => Ok(w.files)
    decreases |front|
  {
    if front == [] {
      assert front + [m] == [m] && [m][1..] == [];
    } else {
      assert (front + [m])[0] == front[0] && (front + [m])[1..] == front[1..] + [m];
      var w := Write(files, SlotFor(cfg, front[0], now), front[0].raw, cfg.digest);
      if w.Ok? {
        FiledLast(cfg, w.value.files, front[1..], m, now);
      }
    }
  }

  /** For dated mail the time of filing does not matter. */
  lemma {:induction false} FiledIsArchived(cfg: Config, files: Files, mail: seq<Message>, now: Stamp)
    requires AllDated(cfg, mail)
    ensures FiledAt(cfg, files, mail, now) == Archived(cfg, files, mail)
  {
    if mail != [] {
      var last := |mail| - 1;
      assert mail == mail[..last] + [mail[last]];
      FiledIsArchived(cfg, files, mail[..last], now);
      FiledLast(cfg, files, mail[..last], mail[last], now);
      assert SlotFor(cfg, mail[last], now) == DatedSlot(cfg, mail[last]);
    }
  }

  lemma UninterruptedIsKeeping(actions: seq<Action>)
    requires Uninterrupted(actions)
    ensures forall a <- actions :: Keeping(a) && !a.OthersPublish? && !a.Arrive?
  {
    forall a <- actions
      ensures Keeping(a) && !a.OthersPublish? && !a.Arrive?
    {
      assert actions == [actions[0]] + actions[1..];
    }
  }

  /** A restart within the epoch resumes: without faults and name clashes the run handles all the new mail. */
  lemma RunCanFinish(cfg: Config, s: Sys, now: Stamp, summary: Summary) returns (actions: seq<Action>)
    requires UnderWay(cfg, s) && FiledAt(cfg, s.files, NewMail(s.box, Cursor(cfg, s).1), now).Ok?
    ensures Uninterrupted(actions) && Exec(cfg, s, actions).Some? && Exec(cfg, s, actions).value.pc.Finished?
    ensures HandledOnce(cfg, s, Exec(cfg, s, actions).value, NewMail(s.box, Cursor(cfg, s).1))
  {
    var s';
    UnderWayFacts(cfg, s);
    actions, s' := CleanRun(cfg, s, now, summary);
    CleanRunHandlesAll(cfg, s, actions);
  }

  lemma UnderWayFacts(cfg: Config, s: Sys)
    requires UnderWay(cfg, s)
    ensures LastUid(s.db, cfg.folder) == Ok((s.box.validity, Cursor(cfg, s).1)) && ValidBox(s.box)
  {
    ReachableInv(cfg, s);
  }

  ghost predicate SomeRunFinishes(cfg: Config, s: Sys) {
    exists actions :: Uninterrupted(actions) && Exec(cfg, s, actions).Some? && Exec(cfg, s, actions).value.pc.Finished?
  }

  /** Over dated mail a fault-free run finishes exactly when no two files clash. */
  lemma FinishesUnlessClash(cfg: Config, s: Sys, now: Stamp, summary: Summary)
    requires UnderWay(cfg, s) && AllDated(cfg, NewMail(s.box, Cursor(cfg, s).1))
    ensures SomeRunFinishes(cfg, s) <==> Archived(cfg, s.files, NewMail(s.box, Cursor(cfg, s).1)).Ok?
  {
    var mail := NewMail(s.box, Cursor(cfg, s).1);
    FiledIsArchived(cfg, s.files, mail, now);
    if Archived(cfg, s.files, mail).Ok? {
      var actions := RunCanFinish(cfg, s, now, summary);
    }
    if actions :| Uninterrupted(actions) && Exec(cfg, s, actions).Some? && Exec(cfg, s, actions).value.pc.Finished? {
      CleanRunHandlesAll(cfg, s, actions);
    }
  }

  // ----- the mailbox during a run

  /** No message below UIDNEXT came, went or changed. */
  predicate Extends(a: Box, b: Box) {
    && b.validity == a.validity && a.uidNext <= b.uidNext
    && forall u: Uint32 | u < a.uidNext :: (u in a.held <==> u in b.held) && (u in a.held ==> a.held[u] == b.held[u])
  }

  lemma StepExtends(cfg: Config, s: Sys, a: Action)
    requires Keeping(a) && Step(cfg, s, a).Some?
    ensures Extends(s.box, Step(cfg, s, a).value.box)
  {
    if !a.Arrive? {
      HeldStays(cfg, s, a);
    }
  }

  /** The mailbox but for its flags. */
  predicate SameMail(a: Box, b: Box) {
    b.held == a.held && b.uidNext == a.uidNext && b.validity == a.validity
  }

  lemma BoxUntouched(cfg: Config, s: Sys, a: Action)
    requires Step(cfg, s, a).Some?
    requires a.Fetch? || a.SaveBaseline? || a.File? || a.Check? || a.Store? || a.Advance? || a.Finish?
    ensures Step(cfg, s, a).value.box == s.box
  {
  }

  lemma MarkHolds(cfg: Config, s: Sys, a: Action)
    requires Step(cfg, s, a).Some? && a.MarkSeen?
    ensures SameMail(s.box, Step(cfg, s, a).value.box)
  {
  }

  lemma RunHolds(cfg: Config, s: Sys, a: Action)
    requires Step(cfg, s, a).Some? && (JobStep(a) || a.Fetch? || a.SaveBaseline?)
    ensures SameMail(s.box, Step(cfg, s, a).value.box)
  {
    if a.MarkSeen? {
      MarkHolds(cfg, s, a);
    } else {
      BoxUntouched(cfg, s, a);
    }
  }

  lemma WorldHolds(cfg: Config, s: Sys, a: Action)
    requires Step(cfg, s, a).Some?
    requires a.Return? || a.Crash? || a.SendDigest? || a.OthersPublish? || a.OthersFlag? || a.OthersUnflag?
    ensures SameMail(s.box, Step(cfg, s, a).value.box)
  {
    match a
    case Return =>
    case Crash =>
    case SendDigest(windowEnd, weekBack) => assert Step(cfg, s, a) == StepDigest(s, windowEnd, weekBack);
    case OthersPublish(_, _) =>
    case OthersFlag(_) => assert Step(cfg, s, a) == ServerStep(s, a);
    case OthersUnflag(_) => assert Step(cfg, s, a) == ServerStep(s, a);
  }

  lemma HeldStays(cfg: Config, s: Sys, a: Action)
    requires Keeping(a) && !a.Arrive? && Step(cfg, s, a).Some?
    ensures SameMail(s.box, Step(cfg, s, a).value.box)
  {
    if JobStep(a) || a.Fetch? || a.SaveBaseline? {
      RunHolds(cfg, s, a);
    } else {
      WorldHolds(cfg, s, a);
    }
  }

  lemma {:induction false} SameRange(a: map<Uint32, Bytes>, b: map<Uint32, Bytes>, first: nat, bound: Uint32)
    requires forall u: Uint32 | u < bound :: (u in a <==> u in b) && (u in a ==> a[u] == b[u])
    ensures HeldBetween(a, first, bound) == HeldBetween(b, first, bound)
    decreases bound - first
  {
    if first < bound {
      SameRange(a, b, first + 1, bound);
    }
  }

  /** Where a running or finished job fetched: its horizon was UIDNEXT, and nothing below it changed since. */
  lemma {:induction false} FetchPoint(cfg: Config, s: Sys, actions: seq<Action>) returns (n: nat)
    requires s.pc.Idle? && (forall a <- actions :: Keeping(a)) && Exec(cfg, s, actions).Some?
    requires Exec(cfg, s, actions).value.pc.Polling? || Exec(cfg, s, actions).value.pc.Finished?
    ensures n < |actions| && Exec(cfg, s, actions[..n]).Some?
    ensures var mid, end := Exec(cfg, s, actions[..n]).value, Exec(cfg, s, actions).value;
      mid.box.uidNext == end.pc.run.start.horizon && Extends(mid.box, end.box)
  {
    var last := |actions| - 1;
    var before, end := Exec(cfg, s, actions[..last]).value, Exec(cfg, s, actions).value;
    StepExtends(cfg, before, actions[last]);
    if actions[last].Fetch? {
      n := last;
      FetchHorizon(cfg, before);
    } else {
      StartStays(cfg, before, actions[last]);
      n := FetchPoint(cfg, s, actions[..last]);
      assert actions[..last][..n] == actions[..n];
    }
  }

  lemma FetchHorizon(cfg: Config, s: Sys)
    requires StepFetch(cfg, s).Some? && StepFetch(cfg, s).value.pc.Polling?
    ensures StepFetch(cfg, s).value.pc.run.start.horizon == s.box.uidNext
  {
  }

  lemma StartStays(cfg: Config, s: Sys, a: Action)
    requires Step(cfg, s, a).Some? && !a.Fetch?
    requires var s' := Step(cfg, s, a).value; s'.pc.Polling? || s'.pc.Finished?
    ensures s.pc.Polling? || s.pc.Finished?
    ensures Step(cfg, s, a).value.pc.run.start == s.pc.run.start
  {
  }

  lemma CleanRunReadsAll(cfg: Config, s: Sys, actions: seq<Action>)
    requires s.pc.Idle? && Uninterrupted(actions) && Exec(cfg, s, actions).Some? && Exec(cfg, s, actions).value.pc.Finished?
    ensures MailOf(cfg, s, Exec(cfg, s, actions).value) == NewMail(s.box, Cursor(cfg, s).1)
  {
    UninterruptedIsKeeping(actions);
    var n := FetchPoint(cfg, s, actions);
    var mid, end := Exec(cfg, s, actions[..n]).value, Exec(cfg, s, actions).value;
    NoArrivals(cfg, s, actions[..n]);
    MailAtFetch(cfg, s, mid, end, s);
  }

  lemma CleanRunHandlesAll(cfg: Config, s: Sys, actions: seq<Action>)
    requires UnderWay(cfg, s) && Uninterrupted(actions) && Exec(cfg, s, actions).Some? && Exec(cfg, s, actions).value.pc.Finished?
    ensures HandledOnce(cfg, s, Exec(cfg, s, actions).value, NewMail(s.box, Cursor(cfg, s).1))
    ensures var mail := NewMail(s.box, Cursor(cfg, s).1);
      AllDated(cfg, mail) ==> Archived(cfg, s.files, mail) == Ok(Exec(cfg, s, actions).value.files)
  {
    UninterruptedIsKeeping(actions);
    CleanRunReadsAll(cfg, s, actions);
    CrashesDoNotMatter(cfg, s, actions);
  }

  lemma {:induction false} NoArrivals(cfg: Config, s: Sys, actions: seq<Action>)
    requires (forall a <- actions :: Keeping(a) && !a.Arrive?) && Exec(cfg, s, actions).Some?
    ensures var box' := Exec(cfg, s, actions).value.box; box'.held == s.box.held && box'.uidNext == s.box.uidNext
  {
    if actions != [] {
      var last := |actions| - 1;
      NoArrivals(cfg, s, actions[..last]);
      HeldStays(cfg, Exec(cfg, s, actions[..last]).value, actions[last]);
    }
  }

  // ----- crashes against one clean run

  predicate SameOutcome(cfg: Config, a: Sys, b: Sys) {
    && Faces(a.db.emails) == Faces(b.db.emails) && a.hist.marked == b.hist.marked && Cursor(cfg, a) == Cursor(cfg, b)
  }

  /**
   Any two histories that finish over the same mail agree; over dated mail that nobody
   else published into, on every column the mail determines and on the archive too.
   */
  lemma FinishersAgree(cfg: Config, s: Sys, one: seq<Action>, other: seq<Action>)
    requires UnderWay(cfg, s) && (forall a <- one + other :: Keeping(a))
    requires Exec(cfg, s, one).Some? && Exec(cfg, s, one).value.pc.Finished?
    requires Exec(cfg, s, other).Some? && Exec(cfg, s, other).value.pc.Finished?
    requires MailOf(cfg, s, Exec(cfg, s, one).value) == MailOf(cfg, s, Exec(cfg, s, other).value)
    ensures SameOutcome(cfg, Exec(cfg, s, one).value, Exec(cfg, s, other).value)
    ensures AllDated(cfg, MailOf(cfg, s, Exec(cfg, s, one).value)) && (forall a <- one + other :: !a.OthersPublish?) ==>
            && AllSameColumns(Exec(cfg, s, one).value.db.emails, Exec(cfg, s, other).value.db.emails)
            && Exec(cfg, s, one).value.files == Exec(cfg, s, other).value.files
  {
    assert forall a <- one :: a in one + other;
    assert forall a <- other :: a in one + other;
    CrashesDoNotMatter(cfg, s, one);
    CrashesDoNotMatter(cfg, s, other);
    if AllDated(cfg, MailOf(cfg, s, Exec(cfg, s, one).value)) && (forall a <- one + other :: !a.OthersPublish?) {
      DatedRowsAgree(cfg, s, one, other);
    }
  }

  predicate OnlyArrivals(actions: seq<Action>) {
    forall a <- actions :: a.Arrive?
  }

  /** t is s with more mail. */
  predicate MoreMail(s: Sys, t: Sys) {
    && t.files == s.files && t.db == s.db && t.pc == s.pc && t.hist == s.hist.(issued := t.hist.issued)
    && t.box.validity == s.box.validity
  }

  /** The arrivals of a history alone. */
  lemma {:induction false} ArrivalsAlone(cfg: Config, s: Sys, actions: seq<Action>) returns (arrivals: seq<Action>, t: Sys)
    requires (forall a <- actions :: Keeping(a)) && Exec(cfg, s, actions).Some?
    ensures OnlyArrivals(arrivals) && Exec(cfg, s, arrivals) == Some(t) && MoreMail(s, t)
    ensures var end := Exec(cfg, s, actions).value; t.box.held == end.box.held && t.box.uidNext == end.box.uidNext
  {
    if actions == [] {
      arrivals, t := [], s;
    } else {
      var last := |actions| - 1;
      var before := Exec(cfg, s, actions[..last]).value;
      arrivals, t := ArrivalsAlone(cfg, s, actions[..last]);
      if actions[last].Arrive? {
        ArriveBoth(cfg, before, t, actions[last]);
        ExecThen(cfg, s, arrivals, actions[last]);
        arrivals, t := arrivals + [actions[last]], Step(cfg, t, actions[last]).value;
      } else {
        HeldStays(cfg, before, actions[last]);
      }
    }
  }

  lemma ArriveBoth(cfg: Config, s: Sys, t: Sys, a: Action)
    requires a.Arrive? && Step(cfg, s, a).Some? && t.box.held == s.box.held && t.box.uidNext == s.box.uidNext
    ensures Step(cfg, t, a).Some? && MoreMail(t, Step(cfg, t, a).value)
    ensures var s', t' := Step(cfg, s, a).value, Step(cfg, t, a).value;
      t'.box.held == s'.box.held && t'.box.uidNext == s'.box.uidNext
  {
  }

  lemma MailAtFetch(cfg: Config, s: Sys, mid: Sys, end: Sys, t: Sys)
    requires end.pc.Finished? && mid.box.uidNext == end.pc.run.start.horizon && Extends(mid.box, end.box)
    requires t.box.held == mid.box.held && t.box.uidNext == mid.box.uidNext && t.db == s.db
    ensures MailOf(cfg, s, end) == NewMail(t.box, Cursor(cfg, t).1)
  {
    SameRange(mid.box.held, end.box.held, Cursor(cfg, s).1 + 1, mid.box.uidNext);
  }

  lemma UnderWayWithMail(cfg: Config, s: Sys, arrivals: seq<Action>)
    requires UnderWay(cfg, s) && Exec(cfg, s, arrivals).Some? && MoreMail(s, Exec(cfg, s, arrivals).value)
    ensures UnderWay(cfg, Exec(cfg, s, arrivals).value)
  {
    ReachableOn(cfg, s, arrivals);
  }

  lemma ArrivalsThenRun(cfg: Config, arrivals: seq<Action>, run: seq<Action>)
    requires OnlyArrivals(arrivals) && Uninterrupted(run)
    ensures forall a <- arrivals + run :: Keeping(a) && !a.OthersPublish?
  {
    UninterruptedIsKeeping(run);
  }

  lemma SameCursorSameMail(cfg: Config, s: Sys, t: Sys, end: Sys)
    requires t.db == s.db && end.pc.Finished?
    ensures MailOf(cfg, s, end) == MailOf(cfg, t, end)
  {
  }

  /** A clean run from t reads what is new in t, also as seen from where t's arrivals started. */
  lemma MailOfCleanRun(cfg: Config, s: Sys, t: Sys, run: seq<Action>)
    requires t.pc.Idle? && t.db == s.db && Uninterrupted(run) && Exec(cfg, t, run).Some? && Exec(cfg, t, run).value.pc.Finished?
    ensures MailOf(cfg, s, Exec(cfg, t, run).value) == NewMail(t.box, Cursor(cfg, t).1)
  {
    CleanRunReadsAll(cfg, t, run);
    SameCursorSameMail(cfg, s, t, Exec(cfg, t, run).value);
  }

  /** The uninterrupted run over the mail of a finished history. */
  lemma CleanRunFor(cfg: Config, s: Sys, messy: seq<Action>, now: Stamp, summary: Summary)
    returns (arrivals: seq<Action>, run: seq<Action>)
    requires UnderWay(cfg, s) && (forall a <- messy :: Keeping(a) && !a.OthersPublish?)
    requires Exec(cfg, s, messy).Some? && Exec(cfg, s, messy).value.pc.Finished?
    requires AllDated(cfg, MailOf(cfg, s, Exec(cfg, s, messy).value))
    ensures OnlyArrivals(arrivals) && Uninterrupted(run)
    ensures Exec(cfg, s, arrivals + run).Some? && Exec(cfg, s, arrivals + run).value.pc.Finished?
    ensures MailOf(cfg, s, Exec(cfg, s, arrivals + run).value) == MailOf(cfg, s, Exec(cfg, s, messy).value)
  {
    var end := Exec(cfg, s, messy).value;
    var n := FetchPoint(cfg, s, messy);
    var t;
    arrivals, t := ArrivalsAlone(cfg, s, messy[..n]);
    MailAtFetch(cfg, s, Exec(cfg, s, messy[..n]).value, end, t);
    UnderWayWithMail(cfg, s, arrivals);
    CrashesDoNotMatter(cfg, s, messy);
    FiledIsArchived(cfg, s.files, NewMail(t.box, Cursor(cfg, t).1), now);
    run := RunCanFinish(cfg, t, now, summary);
    MailOfCleanRun(cfg, s, t, run);
    ExecJoins(cfg, s, arrivals, run);
  }

  /**
   Crash refinement: whatever failed, crashed or was repeated on the way, a history
   that finishes over dated mail ends with the rows, marks, cursor and archive of one
   uninterrupted run after the same arrivals. Of a row only the model's answer and the
   two times of processing and of the digest may differ.
   */
  lemma EqualsOneCleanRun(cfg: Config, s: Sys, messy: seq<Action>, now: Stamp, summary: Summary)
    returns (arrivals: seq<Action>, run: seq<Action>)
    requires UnderWay(cfg, s) && (forall a <- messy :: Keeping(a) && !a.OthersPublish?)
    requires Exec(cfg, s, messy).Some? && Exec(cfg, s, messy).value.pc.Finished?
    requires AllDated(cfg, MailOf(cfg, s, Exec(cfg, s, messy).value))
    ensures OnlyArrivals(arrivals) && Uninterrupted(run)
    ensures Exec(cfg, s, arrivals + run).Some? && Exec(cfg, s, arrivals + run).value.pc.Finished?
    ensures var a, b := Exec(cfg, s, messy).value, Exec(cfg, s, arrivals + run).value;
      SameOutcome(cfg, a, b) && AllSameColumns(a.db.emails, b.db.emails) && a.files == b.files
  {
    arrivals, run := CleanRunFor(cfg, s, messy, now, summary);
    ArrivalsThenRun(cfg, arrivals, run);
    FinishersAgree(cfg, s, messy, arrivals + run);
  }

  // ----- a new epoch

  lemma BaselineFetched(cfg: Config, s: Sys)
    requires s.pc.Idle? && ValidBox(s.box) && LastUid(s.db, cfg.folder) == Ok(Cursor(cfg, s)) && Cursor(cfg, s).0 != s.box.validity
    ensures Step(cfg, s, Action.Fetch) == Some(s.(pc := Baselining(s.box.validity, LatestUid(s.box.uidNext))))
  {
  }

  lemma BaselineSaved(cfg: Config, s: Sys)
    requires s.pc.Baselining?
    ensures Step(cfg, s, Action.SaveBaseline).Some?
    ensures var s' := Step(cfg, s, Action.SaveBaseline).value;
      && s'.pc.Idle? && Cursor(cfg, s') == (s.pc.validity, s.pc.lastUid)
      && s'.box == s.box && s'.files == s.files && s'.db.emails == s.db.emails && s'.hist.marked == s.hist.marked
  {
    CursorIsIsolated(s.db, cfg.folder, s.pc.validity, s.pc.lastUid, cfg.folder);
  }

  const BASELINE := [Action.Fetch, Action.SaveBaseline]

  lemma BaselineRun(cfg: Config, s: Sys)
    requires s.pc.Idle? && ValidBox(s.box) && LastUid(s.db, cfg.folder) == Ok(Cursor(cfg, s)) && Cursor(cfg, s).0 != s.box.validity
    ensures Exec(cfg, s, BASELINE).Some?
    ensures var s' := Exec(cfg, s, BASELINE).value;
      && s'.pc.Idle? && Cursor(cfg, s') == (s.box.validity, LatestUid(s.box.uidNext))
      && s'.box == s.box && s'.files == s.files && s'.db.emails == s.db.emails && s'.hist.marked == s.hist.marked
  {
    BaselineFetched(cfg, s);
    ExecOne(cfg, s, Action.Fetch);
    BaselineSaved(cfg, Step(cfg, s, Action.Fetch).value);
    ExecThen(cfg, s, [Action.Fetch], Action.SaveBaseline);
    assert [Action.Fetch] + [Action.SaveBaseline] == BASELINE;
  }

  /** Nothing is new, and nothing was stored, filed or marked for it. */
  ghost predicate SkippedTo(cfg: Config, s: Sys, s': Sys) {
    && UnderWay(cfg, s') && s'.box == s.box && Cursor(cfg, s') == (s.box.validity, LatestUid(s.box.uidNext))
    && NewMail(s'.box, Cursor(cfg, s').1) == []
    && s'.files == s.files && s'.db.emails == s.db.emails && s'.hist.marked == s.hist.marked
  }

  /**
   When the mailbox is in an epoch the cursor does not belong to, at the very first poll
   or after UIDVALIDITY was renewed, the poll leaves the backlog alone.
   */
  lemma NewEpochSkipsBacklog(cfg: Config, s: Sys)
    requires Reachable(cfg, s) && s.pc.Idle? && Cursor(cfg, s).0 != s.box.validity
    ensures Exec(cfg, s, BASELINE).Some? && SkippedTo(cfg, s, Exec(cfg, s, BASELINE).value)
  {
    ReachableInv(cfg, s);
    BaselineRun(cfg, s);
    ReachableOn(cfg, s, BASELINE);
    NothingAboveLargestUid(s.box);
  }

  /** The first poll leaves the backlog alone: it stores and marks nothing, and nothing is new after it. */
  lemma FirstPollSkipsBacklog(cfg: Config, box: Box)
    requires ValidBox(box)
    ensures Exec(cfg, Init(box), BASELINE).Some? && SkippedTo(cfg, Init(box), Exec(cfg, Init(box), BASELINE).value)
    ensures Exec(cfg, Init(box), BASELINE).value.db.emails == []
  {
    assert Exec(cfg, Init(box), []) == Some(Init(box));
    KeysNeverCollide(cfg.folder, cfg.folder);
    NewEpochSkipsBacklog(cfg, Init(box));
  }

  /**
   From every state between runs a fault-free run gets through. In the cursor's own
   epoch it handles all the new mail unless two files clash; in a new one it saves the
   baseline.
   */
  lemma RestartCanFinish(cfg: Config, s: Sys, now: Stamp, summary: Summary) returns (actions: seq<Action>)
    requires Reachable(cfg, s) && s.pc.Idle?
    requires Cursor(cfg, s).0 == s.box.validity ==> FiledAt(cfg, s.files, NewMail(s.box, Cursor(cfg, s).1), now).Ok?
    ensures Exec(cfg, s, actions).Some?
    ensures if Cursor(cfg, s).0 == s.box.validity
            then Uninterrupted(actions) && Exec(cfg, s, actions).value.pc.Finished?
                 && HandledOnce(cfg, s, Exec(cfg, s, actions).value, NewMail(s.box, Cursor(cfg, s).1))
            else actions == BASELINE && SkippedTo(cfg, s, Exec(cfg, s, actions).value)
  {
    if Cursor(cfg, s).0 == s.box.validity {
      actions := RunCanFinish(cfg, s, now, summary);
    } else {
      actions := BASELINE;
      NewEpochSkipsBacklog(cfg, s);
    }
  }
}

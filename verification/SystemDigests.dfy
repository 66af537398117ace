/**
 Digests within the whole system: every run of the pipeline is, for the database, a
 digest history, so what holds of all histories holds of every reachable state.
 */
module SystemDigests {
  import opened Common
  import opened Timestamps
  import opened Database
  import opened Mailbox
  import opened Pipeline
  import opened NoGaps
  import opened Guarantees
  import Digests
  import DigestResults

  /** What a step of the system means to the database. */
  function EventOf(cfg: Config, s: Sys, a: Action): Option<Digests.Event> {
    match a
    case Store(summary) =>
      if InMessage(s) && s.pc.run.stage.Fresh? then Some(Digests.Insert(Verdict(cfg, s, summary).0)) else None
    case SaveBaseline =>
      if s.pc.Baselining? then Some(Digests.SaveCursor(cfg.folder, s.pc.validity, s.pc.lastUid)) else None
    case Advance =>
      if InMessage(s) then Some(Digests.SaveCursor(cfg.folder, s.pc.run.validity, Current(s).uid)) else None
    case SendDigest(windowEnd, weekBack) => Some(Digests.Digest(windowEnd, weekBack, Digests.Completed))
    case _ => None
  }

  lemma StoreProjects(cfg: Config, s: Sys, summary: Summary, h: Digests.History)
    requires StepStore(cfg, s, summary).Some? && h.db == s.db
    ensures var e := Digests.Insert(Verdict(cfg, s, summary).0);
      Digests.Step(h, e).Some? && Digests.Step(h, e).value.db == StepStore(cfg, s, summary).value.db
  {
  }

  lemma BaselineProjects(cfg: Config, s: Sys, h: Digests.History)
    requires StepSaveBaseline(cfg, s).Some? && h.db == s.db
    ensures var e := Digests.SaveCursor(cfg.folder, s.pc.validity, s.pc.lastUid);
      Digests.Step(h, e).Some? && Digests.Step(h, e).value.db == StepSaveBaseline(cfg, s).value.db
  {
  }

  lemma AdvanceProjects(cfg: Config, s: Sys, h: Digests.History)
    requires StepAdvance(cfg, s).Some? && h.db == s.db
    ensures var e := Digests.SaveCursor(cfg.folder, s.pc.run.validity, Current(s).uid);
      Digests.Step(h, e).Some? && Digests.Step(h, e).value.db == StepAdvance(cfg, s).value.db
  {
  }

  lemma DigestProjects(s: Sys, e: Digests.Event, h: Digests.History)
    requires e.Digest? && e.sending.Completed? && StepDigest(s, e.windowEnd, e.weekBack).Some? && h.db == s.db
    ensures Digests.Step(h, e).Some? && Digests.Step(h, e).value.db == StepDigest(s, e.windowEnd, e.weekBack).value.db
  {
    Digests.CompletedIs(h, e);
  }

  lemma QuietProjects(cfg: Config, s: Sys, a: Action)
    requires Step(cfg, s, a).Some? && EventOf(cfg, s, a).None?
    ensures Step(cfg, s, a).value.db == s.db
  {
  }

  lemma StepProjects(cfg: Config, s: Sys, a: Action, h: Digests.History)
    requires Step(cfg, s, a).Some? && EventOf(cfg, s, a).Some? && h.db == s.db
    ensures Digests.Step(h, EventOf(cfg, s, a).value).Some?
    ensures Digests.Step(h, EventOf(cfg, s, a).value).value.db == Step(cfg, s, a).value.db
  {
    match a
    case Store(summary) => StoreProjects(cfg, s, summary, h);
    case SaveBaseline => BaselineProjects(cfg, s, h);
    case Advance => AdvanceProjects(cfg, s, h);
    case SendDigest(windowEnd, weekBack) => DigestProjects(s, Digests.Digest(windowEnd, weekBack, Digests.Completed), h);
  }

  lemma {:induction false} RunProjects(cfg: Config, s: Sys, h: Digests.History, actions: seq<Action>)
    returns (events: seq<Digests.Event>)
    requires Exec(cfg, s, actions).Some? && h.db == s.db
    ensures Digests.Exec(h, events).Some? && Digests.Exec(h, events).value.db == Exec(cfg, s, actions).value.db
  {
    if actions == [] {
      events := [];
    } else {
      var last := |actions| - 1;
      var mid := Exec(cfg, s, actions[..last]).value;
      events := RunProjects(cfg, s, h, actions[..last]);
      var e := EventOf(cfg, mid, actions[last]);
      if e.None? {
        QuietProjects(cfg, mid, actions[last]);
      } else {
        StepProjects(cfg, mid, actions[last], Digests.Exec(h, events).value);
        assert (events + [e.value])[..|events|] == events;
        events := events + [e.value];
      }
    }
  }

  /** The database of a reachable state is that of some digest history. */
  lemma StateHasHistory(cfg: Config, s: Sys) returns (events: seq<Digests.Event>)
    requires Reachable(cfg, s)
    ensures Digests.Exec(Digests.EMPTY, events).Some? && Digests.Exec(Digests.EMPTY, events).value.db == s.db
  {
    var box, actions :| ValidBox(box) && Exec(cfg, Init(box), actions) == Some(s);
    events := RunProjects(cfg, Init(box), Digests.EMPTY, actions);
  }

  lemma LastDigestCanBeRead(cfg: Config, s: Sys)
    requires Reachable(cfg, s)
    ensures LastDigestAt(s.db).Ok?
  {
    var events := StateHasHistory(cfg, s);
    Digests.EveryHistory(events);
    Digests.LastDigestIsReadable(s.db);
  }

  /** Between polls a digest can always be completed, whatever happened before. */
  lemma DigestCanComplete(cfg: Config, s: Sys, a: Action)
    requires Reachable(cfg, s) && s.pc.Idle? && a.SendDigest?
    requires FourDigitYear(a.windowEnd) && Seconds(a.weekBack) < Seconds(a.windowEnd)
    ensures LastDigestAt(s.db).Ok?
    ensures Step(cfg, s, a) == Some(s.(db := Digests.Delivered(s.db, a.windowEnd, a.weekBack)))
  {
    LastDigestCanBeRead(cfg, s);
  }

  /** A digest record that accounts for a marked row. */
  ghost predicate AccountsFor(d: DigestRow, row: Row) {
    row.digestedAt == Some(d.sentAt) && Digests.Inside(row, d)
  }

  /**
   In every state of the service the counts of the digests sent add up to the number
   of marked rows, and each marked row has a digest sent at its digested_at whose
   window contains its received_at.
   */
  lemma EveryMarkedRowWasSent(cfg: Config, s: Sys)
    requires Reachable(cfg, s)
    ensures Digests.TotalCount(s.db.digests) == Digests.DigestedCount(s.db.emails)
    ensures forall i :: 0 <= i < |s.db.emails| && s.db.emails[i].digestedAt.Some? ==>
              exists k :: 0 <= k < |s.db.digests| && AccountsFor(s.db.digests[k], s.db.emails[i])
  {
    var events := StateHasHistory(cfg, s);
    DigestResults.DigestsAreConserved(events);
    var t := Digests.TrailOf(Digests.Exec(Digests.EMPTY, events).value);
    forall i | 0 <= i < |s.db.emails| && s.db.emails[i].digestedAt.Some?
      ensures exists k :: 0 <= k < |s.db.digests| && AccountsFor(s.db.digests[k], s.db.emails[i])
    {
      assert t.emails[i].digestedAt.Some?;
      var k :| 0 <= k < |t.log| && Digests.Reported(t, i, k) && Digests.Inside(t.emails[i], t.digests[k])
               && t.digests[k].sentAt == t.emails[i].digestedAt.value;
      assert AccountsFor(s.db.digests[k], s.db.emails[i]);
    }
  }

  // ----- one stored row and the digests after it

  /** A row stored by this step; where its history stands at the end of any continuation. */
  lemma StoredRowHistory(cfg: Config, s: Sys, summary: Summary, later: seq<Action>) returns (events: seq<Digests.Event>)
    requires Reachable(cfg, s) && Step(cfg, s, Action.Store(summary)).Some?
    requires Exec(cfg, Step(cfg, s, Action.Store(summary)).value, later).Some?
    ensures Digests.Exec(Digests.EMPTY, events).Some?
    ensures var h := Digests.Exec(Digests.EMPTY, events).value;
      && h.db == Exec(cfg, Step(cfg, s, Action.Store(summary)).value, later).value.db
      && |s.db.emails| < |h.db.emails| == |h.arrival| && h.arrival[|s.db.emails|] == |s.db.digests|
  {
    var stored := Step(cfg, s, Action.Store(summary)).value;
    var e := Digests.Insert(Verdict(cfg, s, summary).0);
    var before := StateHasHistory(cfg, s);
    var h := Digests.Exec(Digests.EMPTY, before).value;
    InsertNeverConflicts(cfg, s, summary);
    assert Step(cfg, s, Action.Store(summary)) == StepStore(cfg, s, summary);
    var mid := InsertedHistory(before, e.email);
    var after := RunProjects(cfg, stored, mid, later);
    DigestResults.ExecExtends(mid, after);
    DigestResults.ExecConcat(Digests.EMPTY, before + [e], after);
    events := before + [e] + after;
  }

  lemma InsertedHistory(before: seq<Digests.Event>, email: NewEmail) returns (h: Digests.History)
    requires Digests.Exec(Digests.EMPTY, before).Some? && InsertEmail(Digests.Exec(Digests.EMPTY, before).value.db, email).1
    ensures Digests.Exec(Digests.EMPTY, before + [Digests.Insert(email)]) == Some(h)
    ensures var b := Digests.Exec(Digests.EMPTY, before).value;
      && h.db == InsertEmail(b.db, email).0 && h.db.digests == b.db.digests
      && |h.arrival| == |h.db.emails| == |b.db.emails| + 1 && h.arrival[|b.db.emails|] == |b.db.digests|
  {
    Digests.EveryHistory(before);
    assert (before + [Digests.Insert(email)])[..|before|] == before;
    h := Digests.Step(Digests.Exec(Digests.EMPTY, before).value, Digests.Insert(email)).value;
  }

  /** The first digest completed since the row was stored whose window contains it. */
  ghost predicate FirstSince(db: Db, i: nat, from: nat, k: nat)
    requires i < |db.emails| && k < |db.digests|
  {
    && from <= k && Digests.Inside(db.emails[i], db.digests[k])
    && forall j :: from <= j < k ==> !Digests.Inside(db.emails[i], db.digests[j])
  }

  /**
   Whatever happens after a row was stored, and whatever the clock does: it is
   unreported exactly when no digest since then had a window containing it, and it
   carries the time of the first that had.
   */
  lemma StoredRowIsReportedByFirstWindow(cfg: Config, s: Sys, summary: Summary, later: seq<Action>)
    requires Reachable(cfg, s) && Step(cfg, s, Action.Store(summary)).Some?
    requires Exec(cfg, Step(cfg, s, Action.Store(summary)).value, later).Some?
    ensures var db := Exec(cfg, Step(cfg, s, Action.Store(summary)).value, later).value.db;
      var i, from := |s.db.emails|, |s.db.digests|;
      && i < |db.emails|
      && (db.emails[i].digestedAt.None? <==>
           forall k :: from <= k < |db.digests| ==> !Digests.Inside(db.emails[i], db.digests[k]))
      && forall k :: 0 <= k < |db.digests| && FirstSince(db, i, from, k) ==>
           db.emails[i].digestedAt == Some(db.digests[k].sentAt)
  {
    var events := StoredRowHistory(cfg, s, summary, later);
    RowFollowsWindows(events, |s.db.emails|);
  }

  lemma RowFollowsWindows(events: seq<Digests.Event>, i: nat)
    requires Digests.Exec(Digests.EMPTY, events).Some?
    requires var h := Digests.Exec(Digests.EMPTY, events).value; i < |h.db.emails| == |h.arrival|
    ensures var h := Digests.Exec(Digests.EMPTY, events).value; var db, from := h.db, h.arrival[i];
      && (db.emails[i].digestedAt.None? <==>
           forall k :: from <= k < |db.digests| ==> !Digests.Inside(db.emails[i], db.digests[k]))
      && forall k :: 0 <= k < |db.digests| && FirstSince(db, i, from, k) ==>
           db.emails[i].digestedAt == Some(db.digests[k].sentAt)
  {
    var t := Digests.TrailOf(Digests.Exec(Digests.EMPTY, events).value);
    DigestResults.UnreportedExactlyWhenNeverInside(events, i);
    forall k | 0 <= k < |t.digests| && FirstSince(Digests.Exec(Digests.EMPTY, events).value.db, i, t.arrival[i], k)
      ensures t.emails[i].digestedAt == Some(t.digests[k].sentAt)
    {
      DigestResults.ReportedExactlyWhenFirstInside(events, i, k);
    }
  }
}

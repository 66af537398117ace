/**
 What was mailed, as opposed to what was recorded. A digest whose mail went out but
 whose record failed leaves its rows pending, so a later digest mails them again;
 these are the exact conditions.
 */
module Mailings {
  import opened Common
  import opened Text
  import opened Timestamps
  import opened Database
  import opened Digests

  predicate Lists(m: Mail, i: nat) {
    i + 1 in m.ids
  }

  predicate MailHolds(m: Mail, row: Row) {
    LexLeq(m.windowStart, row.receivedAt) && LexLess(row.receivedAt, m.windowEnd)
  }

  /** Some recorded mail before the k-th lists row i. */
  predicate RecordedBefore(mails: seq<Mail>, i: nat, k: nat)
    requires k <= |mails|
  {
    exists j :: 0 <= j < k && mails[j].completed && Lists(mails[j], i)
  }

  /** A mail lists a row stored by then, inside its window, that no recorded mail had listed. */
  predicate ListedRight(emails: seq<Row>, mails: seq<Mail>, i: nat, k: nat)
    requires i < |emails| && k < |mails|
  {
    Lists(mails[k], i) <==> i < mails[k].stored && MailHolds(mails[k], emails[i]) && !RecordedBefore(mails, i, k)
  }

  ghost predicate ListsExactly(emails: seq<Row>, mails: seq<Mail>) {
    forall i, k :: 0 <= i < |emails| && 0 <= k < |mails| ==> ListedRight(emails, mails, i, k)
  }

  ghost predicate MarkedIffRecorded(emails: seq<Row>, mails: seq<Mail>) {
    forall i :: 0 <= i < |emails| ==> (emails[i].digestedAt.Some? <==> RecordedBefore(mails, i, |mails|))
  }

  ghost predicate RowsExist(emails: seq<Row>, mails: seq<Mail>) {
    forall k :: 0 <= k < |mails| ==>
      mails[k].stored <= |emails| && forall n <- mails[k].ids :: 1 <= n <= |emails|
  }

  /** The lists of the recorded mails. */
  function Recorded(mails: seq<Mail>): seq<seq<nat>> {
    if mails == [] then []
    else
      var last := mails[|mails| - 1];
      Recorded(mails[..|mails| - 1]) + if last.completed then [last.ids] else []
  }

  ghost predicate MailInv(emails: seq<Row>, mails: seq<Mail>, log: seq<seq<nat>>) {
    RowsExist(emails, mails) && ListsExactly(emails, mails) && MarkedIffRecorded(emails, mails) && Recorded(mails) == log
  }

  ghost predicate MailInvOf(h: History) {
    MailInv(h.db.emails, h.mails, h.log)
  }

  // ----- a new row

  lemma NewRowUnlisted(emails: seq<Row>, mails: seq<Mail>)
    requires RowsExist(emails, mails)
    ensures forall k :: 0 <= k < |mails| ==> !Lists(mails[k], |emails|)
  {
  }

  lemma NewRowListsExactly(emails: seq<Row>, mails: seq<Mail>, row: Row)
    requires RowsExist(emails, mails) && ListsExactly(emails, mails)
    requires forall k :: 0 <= k < |mails| ==> !Lists(mails[k], |emails|)
    ensures ListsExactly(emails + [row], mails)
  {
    forall i, k | 0 <= i < |emails + [row]| && 0 <= k < |mails|
      ensures ListedRight(emails + [row], mails, i, k)
    {
      if i < |emails| {
        assert ListedRight(emails, mails, i, k);
      }
    }
  }

  lemma NewRowUnrecorded(emails: seq<Row>, mails: seq<Mail>, row: Row)
    requires MarkedIffRecorded(emails, mails) && row.digestedAt.None?
    requires forall k :: 0 <= k < |mails| ==> !Lists(mails[k], |emails|)
    ensures MarkedIffRecorded(emails + [row], mails)
  {
  }

  lemma NewRowKeepsMails(emails: seq<Row>, mails: seq<Mail>, log: seq<seq<nat>>, row: Row)
    requires MailInv(emails, mails, log) && row.digestedAt.None?
    ensures MailInv(emails + [row], mails, log)
  {
    NewRowUnlisted(emails, mails);
    NewRowListsExactly(emails, mails, row);
    NewRowUnrecorded(emails, mails, row);
  }

  // ----- a new mail

  lemma RecordedStays(mails: seq<Mail>, m: Mail, i: nat, k: nat)
    requires k <= |mails|
    ensures RecordedBefore(mails + [m], i, k) == RecordedBefore(mails, i, k)
    ensures RecordedBefore(mails + [m], i, |mails| + 1) <==> RecordedBefore(mails, i, |mails|) || (m.completed && Lists(m, i))
  {
    var more := mails + [m];
    assert forall j :: 0 <= j < |mails| ==> more[j] == mails[j];
    if RecordedBefore(mails, i, k) {
      var j :| 0 <= j < k && mails[j].completed && Lists(mails[j], i);
      assert more[j].completed && Lists(more[j], i);
    }
    if RecordedBefore(mails, i, |mails|) {
      var j :| 0 <= j < |mails| && mails[j].completed && Lists(mails[j], i);
      assert more[j].completed && Lists(more[j], i);
    }
    if m.completed && Lists(m, i) {
      assert more[|mails|].completed && Lists(more[|mails|], i);
    }
  }

  /** Marking changes neither keys nor times, and marks exactly the listed rows. */
  ghost predicate MarkedBy(emails: seq<Row>, emails': seq<Row>, m: Mail) {
    && |emails'| == |emails|
    && forall i :: 0 <= i < |emails| ==>
         && emails'[i].receivedAt == emails[i].receivedAt
         && (emails'[i].digestedAt.Some? <==> emails[i].digestedAt.Some? || (m.completed && Lists(m, i)))
  }

  ghost predicate PicksPending(emails: seq<Row>, m: Mail) {
    && m.stored == |emails| && (forall n <- m.ids :: 1 <= n <= |emails|)
    && forall i :: 0 <= i < |emails| ==> (Lists(m, i) <==> MailHolds(m, emails[i]) && emails[i].digestedAt.None?)
  }

  lemma NewMailListsExactly(emails: seq<Row>, emails': seq<Row>, mails: seq<Mail>, m: Mail)
    requires ListsExactly(emails, mails) && MarkedIffRecorded(emails, mails)
    requires MarkedBy(emails, emails', m) && PicksPending(emails, m)
    ensures ListsExactly(emails', mails + [m])
  {
    var more := mails + [m];
    forall i, k | 0 <= i < |emails'| && 0 <= k < |more|
      ensures ListedRight(emails', more, i, k)
    {
      RecordedStays(mails, m, i, k);
      if k < |mails| {
        assert ListedRight(emails, mails, i, k);
      }
      assert MailHolds(more[k], emails'[i]) == MailHolds(more[k], emails[i]);
    }
  }

  lemma NewMailKeepsMarks(emails: seq<Row>, emails': seq<Row>, mails: seq<Mail>, m: Mail)
    requires MarkedIffRecorded(emails, mails) && MarkedBy(emails, emails', m)
    ensures MarkedIffRecorded(emails', mails + [m])
  {
    forall i | 0 <= i < |emails'|
      ensures emails'[i].digestedAt.Some? <==> RecordedBefore(mails + [m], i, |mails + [m]|)
    {
      RecordedStays(mails, m, i, |mails|);
    }
  }

  lemma NewMailKeepsInv(emails: seq<Row>, emails': seq<Row>, mails: seq<Mail>, m: Mail, log: seq<seq<nat>>)
    requires MailInv(emails, mails, log) && MarkedBy(emails, emails', m) && PicksPending(emails, m)
    ensures MailInv(emails', mails + [m], if m.completed then log + [m.ids] else log)
  {
    NewMailListsExactly(emails, emails', mails, m);
    NewMailKeepsMarks(emails, emails', mails, m);
    assert (mails + [m])[..|mails|] == mails;
  }

  // ----- every history

  lemma DuePicksPending(db: Db, e: Event)
    requires ValidDb(db) && e.Digest? && LastDigestAt(db).Ok?
    ensures PicksPending(db.emails, MailFor(db, e.windowEnd, e.weekBack, e.sending.Completed?))
  {
    PendingPicks(db, StartText(db, e.weekBack), FormatTime(e.windowEnd));
    var ids := DueIds(db, e.windowEnd, e.weekBack);
    forall n <- ids
      ensures 1 <= n <= |db.emails|
    {
      var k :| 0 <= k < |ids| && ids[k] == n;
    }
  }

  lemma CompletedMarks(db: Db, m: Mail, sentAt: string, start: string, end: string)
    requires ValidDb(db) && m.completed
    ensures MarkedBy(db.emails, CompleteDigest(db, m.ids, sentAt, start, end).emails, m)
  {
  }

  lemma DeliveredMarks(db: Db, windowEnd: Instant, weekBack: Instant)
    requires ValidDb(db) && LastDigestAt(db).Ok?
    ensures MarkedBy(db.emails, Delivered(db, windowEnd, weekBack).emails, MailFor(db, windowEnd, weekBack, true))
  {
    var start, end := StartText(db, weekBack), FormatTime(windowEnd);
    CompletedMarks(db, MailFor(db, windowEnd, weekBack, true), end, start, end);
  }

  lemma UnrecordedIs(h: History, e: Event)
    requires e.Digest? && PlausibleClock(e) && e.sending.MailedOnly? && LastDigestAt(h.db).Ok?
    ensures Step(h, e) == Some(h.(mails := h.mails + [MailFor(h.db, e.windowEnd, e.weekBack, false)]))
  {
  }

  lemma MailIs(h: History, e: Event)
    requires e.Digest? && PlausibleClock(e) && !e.sending.Unsent? && LastDigestAt(h.db).Ok?
    ensures Step(h, e).Some?
    ensures var m, h' := MailFor(h.db, e.windowEnd, e.weekBack, e.sending.Completed?), Step(h, e).value;
      && h'.mails == h.mails + [m] && h'.log == (if m.completed then h.log + [m.ids] else h.log)
      && h'.db == if m.completed then Delivered(h.db, e.windowEnd, e.weekBack) else h.db
  {
    if e.sending.Completed? {
      CompletedIs(h, e);
    } else {
      UnrecordedIs(h, e);
    }
  }

  lemma MailStep(h: History, e: Event)
    requires ValidDb(h.db) && MailInvOf(h) && e.Digest? && PlausibleClock(e) && !e.sending.Unsent? && LastDigestAt(h.db).Ok?
    ensures Step(h, e).Some? && MailInvOf(Step(h, e).value)
  {
    var m := MailFor(h.db, e.windowEnd, e.weekBack, e.sending.Completed?);
    MailIs(h, e);
    assert PicksPending(h.db.emails, m) by {
      DuePicksPending(h.db, e);
    }
    assert MarkedBy(h.db.emails, Step(h, e).value.db.emails, m) by {
      DeliveredMarks(h.db, e.windowEnd, e.weekBack);
    }
    NewMailKeepsInv(h.db.emails, Step(h, e).value.db.emails, h.mails, m, h.log);
  }

  lemma OtherStep(h: History, e: Event)
    requires MailInvOf(h) && Step(h, e).Some?
    requires e.Insert? || e.SaveCursor? || e.sending.Unsent? || LastDigestAt(h.db).Err?
    ensures MailInvOf(Step(h, e).value)
  {
    if e.Insert? && InsertEmail(h.db, e.email).1 {
      NewRowKeepsMails(h.db.emails, h.mails, h.log, RowFor(e.email, |h.db.emails| + 1));
    }
  }

  lemma {:induction false} EveryMail(events: seq<Event>)
    requires Exec(EMPTY, events).Some?
    ensures MailInvOf(Exec(EMPTY, events).value)
  {
    if events != [] {
      var last := |events| - 1;
      EveryMail(events[..last]);
      EveryHistory(events[..last]);
      var mid, e := Exec(EMPTY, events[..last]).value, events[last];
      if e.Digest? && !e.sending.Unsent? && LastDigestAt(mid.db).Ok? {
        MailStep(mid, e);
      } else {
        OtherStep(mid, e);
      }
    }
  }

  // ----- results

  lemma ListedIs(emails: seq<Row>, mails: seq<Mail>, i: nat, k: nat)
    requires ListsExactly(emails, mails) && i < |emails| && k < |mails|
    ensures Lists(mails[k], i) <==> i < mails[k].stored && MailHolds(mails[k], emails[i]) && !RecordedBefore(mails, i, k)
  {
    assert ListedRight(emails, mails, i, k);
  }

  /**
   The k-th mail lists exactly the rows stored by then whose received_at its window
   contains and that no recorded mail before it listed.
   */
  lemma MailListsExactly(events: seq<Event>, i: nat, k: nat)
    requires Exec(EMPTY, events).Some?
    requires i < |Exec(EMPTY, events).value.db.emails| && k < |Exec(EMPTY, events).value.mails|
    ensures var h := Exec(EMPTY, events).value;
      Lists(h.mails[k], i) <==>
      i < h.mails[k].stored && MailHolds(h.mails[k], h.db.emails[i]) && !RecordedBefore(h.mails, i, k)
  {
    EveryMail(events);
    ListedIs(Exec(EMPTY, events).value.db.emails, Exec(EMPTY, events).value.mails, i, k);
  }

  /** A row is marked exactly when a mail that listed it was recorded; the log is the recorded mails. */
  lemma MarkedRowsWereMailed(events: seq<Event>, i: nat)
    requires Exec(EMPTY, events).Some? && i < |Exec(EMPTY, events).value.db.emails|
    ensures var h := Exec(EMPTY, events).value;
      && (h.db.emails[i].digestedAt.Some? <==> exists k :: 0 <= k < |h.mails| && h.mails[k].completed && Lists(h.mails[k], i))
      && Recorded(h.mails) == h.log
  {
    EveryMail(events);
  }

  lemma LaterMailLists(emails: seq<Row>, mails: seq<Mail>, i: nat, j: nat, k: nat)
    requires ListsExactly(emails, mails) && i < |emails| && j < k < |mails| && mails[j].stored <= mails[k].stored
    requires Lists(mails[j], i)
    ensures Lists(mails[k], i) <==>
            MailHolds(mails[k], emails[i]) && forall m :: j <= m < k && Lists(mails[m], i) ==> !mails[m].completed
  {
    assert ListedRight(emails, mails, i, j) && ListedRight(emails, mails, i, k);
    if m :| j <= m < k && Lists(mails[m], i) && mails[m].completed {
      assert RecordedBefore(mails, i, k);
    }
  }

  /**
   A row that one mail listed is listed by a later mail exactly when the later window
   still contains it and neither the first mail nor one between that listed it was
   recorded. So only unrecorded mails are ever repeated.
   */
  lemma MailedAgainExactly(events: seq<Event>, i: nat, j: nat, k: nat)
    requires Exec(EMPTY, events).Some?
    requires var h := Exec(EMPTY, events).value;
      i < |h.db.emails| && j < k < |h.mails| && Lists(h.mails[j], i)
    ensures var h := Exec(EMPTY, events).value;
      Lists(h.mails[k], i) <==>
      MailHolds(h.mails[k], h.db.emails[i]) && forall m :: j <= m < k && Lists(h.mails[m], i) ==> !h.mails[m].completed
  {
    EveryMail(events);
    StoredAscends(events, j, k);
    LaterMailLists(Exec(EMPTY, events).value.db.emails, Exec(EMPTY, events).value.mails, i, j, k);
  }

  lemma {:induction false} StoredAscends(events: seq<Event>, j: nat, k: nat)
    requires Exec(EMPTY, events).Some? && j < k < |Exec(EMPTY, events).value.mails|
    ensures Exec(EMPTY, events).value.mails[j].stored <= Exec(EMPTY, events).value.mails[k].stored
  {
    var last := |events| - 1;
    var mid, h := Exec(EMPTY, events[..last]).value, Exec(EMPTY, events).value;
    EveryMail(events[..last]);
    if k < |mid.mails| {
      StoredAscends(events[..last], j, k);
    }
  }
}

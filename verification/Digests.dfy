/**
 Weekly digests over unbounded histories. Windows are half open and chained through
 last_digest_at; the clock may jump in either direction; sends may fail.
 */
module Digests {
  import opened Common
  import opened Text
  import opened Timestamps
  import opened Database

  // ----- one digest job

  /** The previous window's end; a week back when the store reports Go's zero time. */
  function WindowStart(lastDigest: nat, weekBack: Instant): Instant {
    if lastDigest == ZERO_TIME then weekBack else lastDigest * NANOS_PER_SECOND
  }

  /** The window a digest covers, as stored. */
  function StartText(db: Db, weekBack: Instant): string
    requires LastDigestAt(db).Ok?
  {
    FormatTime(WindowStart(LastDigestAt(db).value, weekBack))
  }

  /** The rows a digest lists. */
  function DueIds(db: Db, windowEnd: Instant, weekBack: Instant): seq<nat>
    requires LastDigestAt(db).Ok?
  {
    IdsOf(Pending(db, StartText(db, weekBack), FormatTime(windowEnd)))
  }

  /** The database after a completed digest. */
  function Delivered(db: Db, windowEnd: Instant, weekBack: Instant): Db
    requires LastDigestAt(db).Ok?
  {
    CompleteDigest(db, DueIds(db, windowEnd, weekBack), FormatTime(windowEnd), StartText(db, weekBack), FormatTime(windowEnd))
  }

  method CollectIds(rows: seq<Row>) returns (ids: array<nat>)
    ensures fresh(ids) && ids[..] == IdsOf(rows)
  {
    ids := new nat[|rows|];
    for i := 0 to ids.Length
      invariant forall k :: 0 <= k < i ==> ids[k] == rows[k].id
    {
      ids[i] := rows[i].id;
    }
  }

  /** What became of a digest: not mailed, mailed but not recorded, or mailed and recorded. */
  datatype Sending = Unsent | MailedOnly | Completed

  /** What the mail relay accepted: for each mail the ids of the rows it listed. */
  class Outbox {
    var sent: seq<seq<nat>>

    /** Rendering and mailer.Send; the relay may have accepted a mail whose answer was lost. */
    method Send(rows: seq<Row>) returns (ok: bool)
      modifies this
      ensures sent == old(sent) || sent == old(sent) + [IdsOf(rows)]
      ensures ok ==> sent == old(sent) + [IdsOf(rows)]
    {
      var accepted: bool := *;
      if accepted {
        sent := sent + [IdsOf(rows)];
      }
      ok := *;
      ok := ok && accepted;
    }
  }

  /**
   runDigest. The clock reading and the same wall-clock time seven days earlier are
   inputs.
   */
  method RunDigest(store: Store, outbox: Outbox, windowEnd: Instant, weekBack: Instant) returns (ok: bool, ghost sending: Sending)
    modifies store, outbox
    ensures ok <==> sending.Completed?
    ensures !sending.Unsent? ==> LastDigestAt(old(store.Contents())).Ok?
    ensures outbox.sent == old(outbox.sent)
                           + if sending.Unsent? then [] else [DueIds(old(store.Contents()), windowEnd, weekBack)]
    ensures store.Contents() == if sending.Completed? then Delivered(old(store.Contents()), windowEnd, weekBack)
                                else old(store.Contents())
  {
    ok, sending := false, Unsent;
    var last := store.LastDigest();
    if last.Err? {
      return;
    }
    var windowStart := WindowStart(last.value, weekBack);
    var rows := store.PendingForDigest(windowStart, windowEnd);
    if rows.Err? {
      return;
    }
    ghost var before := outbox.sent;
    var mailed := outbox.Send(rows.value);
    if outbox.sent != before {
      sending := MailedOnly;
    }
    if !mailed {
      return;
    }
    var ids := CollectIds(rows.value);
    ok := store.Complete(ids[..], windowEnd, windowStart, windowEnd);
    if ok {
      sending := Completed;
    }
  }

  // ----- histories

  /** One accepted mail: its rows, its window, the number of rows stored then, and whether it was recorded. */
  datatype Mail = Mail(ids: seq<nat>, windowStart: string, windowEnd: string, stored: nat, completed: bool)

  /**
   log[k] lists the rows of the k-th completed digest; arrival[i] is the number of
   digests completed when row i was inserted; mails are all accepted mails.
   */
  datatype History = History(db: Db, log: seq<seq<nat>>, arrival: seq<nat>, mails: seq<Mail>)

  datatype Event =
    | Insert(email: NewEmail)
    | SaveCursor(folder: string, uidValidity: Uint32, lastUid: Uint32)
    | Digest(windowEnd: Instant, weekBack: Instant, sending: Sending)

  const EMPTY := History(EMPTY_DB, [], [], [])

  /** Clock readings have four-digit years, and a week back is earlier. */
  predicate PlausibleClock(e: Event)
    requires e.Digest?
  {
    FourDigitYear(e.windowEnd) && Seconds(e.weekBack) < Seconds(e.windowEnd)
  }

  function MailFor(db: Db, windowEnd: Instant, weekBack: Instant, completed: bool): Mail
    requires LastDigestAt(db).Ok?
  {
    Mail(DueIds(db, windowEnd, weekBack), StartText(db, weekBack), FormatTime(windowEnd), |db.emails|, completed)
  }

  function Step(h: History, e: Event): Option<History> {
    match e
    case Insert(email) =>
      var (db, inserted) := InsertEmail(h.db, email);
      Some(h.(db := db, arrival := if inserted then h.arrival + [|h.db.digests|] else h.arrival))
    case SaveCursor(folder, uidValidity, lastUid) =>
      Some(h.(db := SetLastUid(h.db, folder, uidValidity, lastUid)))
    case Digest(windowEnd, weekBack, sending) =>
      if !PlausibleClock(e) then None
      else if sending.Unsent? || LastDigestAt(h.db).Err? then Some(h)
      else
        var mails := h.mails + [MailFor(h.db, windowEnd, weekBack, sending.Completed?)];
        if sending.MailedOnly? then Some(h.(mails := mails))
        else Some(History(Delivered(h.db, windowEnd, weekBack), h.log + [DueIds(h.db, windowEnd, weekBack)], h.arrival, mails))
  }

  function Exec(h: History, events: seq<Event>): Option<History> {
    if events == [] then Some(h)
    else match Exec(h, events[..|events| - 1])
      case None => None
      case Some(mid) => Step(mid, events[|events| - 1])
  }

  // ----- what holds of every history

  /** The part of a history the digest properties speak about. */
  datatype Trail = Trail(emails: seq<Row>, digests: seq<DigestRow>, log: seq<seq<nat>>, arrival: seq<nat>)

  function TrailOf(h: History): Trail {
    Trail(h.db.emails, h.db.digests, h.log, h.arrival)
  }

  ghost predicate Stamped(s: string) {
    exists t: Instant :: FourDigitYear(t) && s == FormatTime(t)
  }

  /** last_digest_at is the end of the last completed window, and readable. */
  ghost predicate StateIsLastEnd(db: Db) {
    && (db.digests == [] <==> LAST_DIGEST_KEY !in db.state)
    && (db.digests != [] ==> db.state[LAST_DIGEST_KEY] == db.digests[|db.digests| - 1].windowEnd)
    && (db.digests != [] ==> Stamped(db.digests[|db.digests| - 1].windowEnd))
  }

  predicate Aligned(t: Trail) {
    && |t.arrival| == |t.emails| && |t.log| == |t.digests|
    && forall i :: 0 <= i < |t.arrival| ==> t.arrival[i] <= |t.log|
  }

  /** The window ends at Go's zero time, 0001-01-01T00:00:00Z, which reads back as "no digest yet". */
  predicate EndsAtZero(d: DigestRow) {
    d.windowEnd == FormatSeconds(ZERO_TIME)
  }

  /** Each window starts where the one before it ended, unless that was the zero time. */
  ghost predicate Chained(digests: seq<DigestRow>) {
    forall k :: 0 < k < |digests| && !EndsAtZero(digests[k - 1]) ==> digests[k].windowStart == digests[k - 1].windowEnd
  }

  predicate Reported(t: Trail, i: nat, k: nat)
    requires k < |t.log|
  {
    i + 1 in t.log[k]
  }

  predicate Inside(row: Row, d: DigestRow) {
    LexLeq(d.windowStart, row.receivedAt) && LexLess(row.receivedAt, d.windowEnd)
  }

  /** A digest's list names existing rows, each once, as many as its record counts. */
  ghost predicate ListsAreSound(t: Trail)
    requires Aligned(t)
  {
    && (forall k, n :: 0 <= k < |t.log| && 0 <= n < |t.log[k]| ==> 1 <= t.log[k][n] <= |t.emails|)
    && (forall k, m, n :: 0 <= k < |t.log| && 0 <= m < n < |t.log[k]| ==> t.log[k][m] != t.log[k][n])
    && (forall k :: 0 <= k < |t.log| ==> |t.log[k]| == t.digests[k].emailCount)
  }

  /** A reported row carries the time of its digest. */
  ghost predicate MarksAreSound(t: Trail)
    requires Aligned(t)
  {
    forall i, k :: 0 <= i < |t.emails| && 0 <= k < |t.log| && Reported(t, i, k) ==>
      t.emails[i].digestedAt == Some(t.digests[k].sentAt)
  }

  ghost predicate MarkedWereReported(t: Trail) {
    forall i :: 0 <= i < |t.emails| && t.emails[i].digestedAt.Some? ==>
      exists k :: 0 <= k < |t.log| && Reported(t, i, k)
  }

  /** Digest k is the first since row i arrived whose window contains its received_at. */
  ghost predicate FirstInside(t: Trail, i: nat, k: nat)
    requires Aligned(t) && i < |t.emails| && k < |t.log|
  {
    && t.arrival[i] <= k && Inside(t.emails[i], t.digests[k])
    && forall j :: t.arrival[i] <= j < k ==> !Inside(t.emails[i], t.digests[j])
  }

  /** A digest reports exactly the rows it is the first to contain. */
  ghost predicate ReportedIsFirstInside(t: Trail)
    requires Aligned(t)
  {
    forall i, k :: 0 <= i < |t.emails| && 0 <= k < |t.log| ==> (Reported(t, i, k) <==> FirstInside(t, i, k))
  }

  function TotalCount(digests: seq<DigestRow>): nat {
    if digests == [] then 0 else TotalCount(digests[..|digests| - 1]) + digests[|digests| - 1].emailCount
  }

  function DigestedCount(rows: seq<Row>): nat {
    if rows == [] then 0
    else DigestedCount(rows[..|rows| - 1]) + (if rows[|rows| - 1].digestedAt.Some? then 1 else 0)
  }

  ghost predicate TrailInv(t: Trail) {
    && Aligned(t)
    && ListsAreSound(t)
    && MarksAreSound(t)
    && MarkedWereReported(t)
    && ReportedIsFirstInside(t)
    && TotalCount(t.digests) == DigestedCount(t.emails)
    && Chained(t.digests)
  }

  ghost predicate Inv(h: History) {
    ValidDb(h.db) && StateIsLastEnd(h.db) && TrailInv(TrailOf(h))
  }

  // ----- inserts and cursor moves

  /** A new undigested row arrives. */
  function WithRow(t: Trail, row: Row): Trail {
    t.(emails := t.emails + [row], arrival := t.arrival + [|t.digests|])
  }

  lemma NewRowUnreported(t: Trail, row: Row, k: nat)
    requires Aligned(t) && ListsAreSound(t) && k < |t.log|
    ensures !Reported(WithRow(t, row), |t.emails|, k)
  {
  }

  lemma NewRowKeepsTrail(t: Trail, row: Row)
    requires TrailInv(t) && row.digestedAt.None?
    ensures TrailInv(WithRow(t, row))
  {
    var t' := WithRow(t, row);
    var n := |t.emails|;
    assert t'.emails[..n] == t.emails;
    forall k | 0 <= k < |t.log|
      ensures !Reported(t', n, k)
    {
      NewRowUnreported(t, row, k);
    }
    forall i, k | 0 <= i < n && 0 <= k < |t.log|
      ensures Reported(t', i, k) == Reported(t, i, k)
    {
    }
    NewRowKeepsMarks(t, row);
    NewRowKeepsReports(t, row);
  }

  lemma NewRowKeepsMarks(t: Trail, row: Row)
    requires Aligned(t) && MarkedWereReported(t) && row.digestedAt.None?
    ensures MarkedWereReported(WithRow(t, row))
  {
    var t' := WithRow(t, row);
    forall i | 0 <= i < |t'.emails| && t'.emails[i].digestedAt.Some?
      ensures exists k :: 0 <= k < |t'.log| && Reported(t', i, k)
    {
      assert t.emails[i].digestedAt.Some?;
      var k :| 0 <= k < |t.log| && Reported(t, i, k);
      assert Reported(t', i, k);
    }
  }

  lemma NewRowKeepsReports(t: Trail, row: Row)
    requires Aligned(t) && ListsAreSound(t) && ReportedIsFirstInside(t)
    ensures ReportedIsFirstInside(WithRow(t, row))
  {
    var t' := WithRow(t, row);
    forall i, k | 0 <= i < |t'.emails| && 0 <= k < |t'.log|
      ensures Reported(t', i, k) <==> FirstInside(t', i, k)
    {
      if i < |t.emails| {
        assert Reported(t', i, k) == Reported(t, i, k);
        assert FirstInside(t', i, k) <==> FirstInside(t, i, k);
      } else {
        NewRowUnreported(t, row, k);
      }
    }
  }

  /** What an insert means to the trail. */
  lemma InsertIs(h: History, email: NewEmail)
    ensures var h' := Step(h, Insert(email)).value;
      && h'.db == InsertEmail(h.db, email).0 && h'.db.state == h.db.state && h'.db.digests == h.db.digests
      && TrailOf(h') == if InsertEmail(h.db, email).1 then WithRow(TrailOf(h), RowFor(email, |h.db.emails| + 1)) else TrailOf(h)
  {
  }

  lemma SameStateIsLastEnd(db: Db, db': Db)
    requires StateIsLastEnd(db) && db'.state == db.state && db'.digests == db.digests
    ensures StateIsLastEnd(db')
  {
  }

  lemma InsertStep(h: History, email: NewEmail)
    requires Inv(h)
    ensures Inv(Step(h, Insert(email)).value)
  {
    InsertIs(h, email);
    InsertKeepsValid(h.db, email);
    SameStateIsLastEnd(h.db, Step(h, Insert(email)).value.db);
    NewRowKeepsTrail(TrailOf(h), RowFor(email, |h.db.emails| + 1));
  }

  lemma CursorKeepsState(db: Db, folder: string, uidValidity: Uint32, lastUid: Uint32)
    requires StateIsLastEnd(db)
    ensures StateIsLastEnd(SetLastUid(db, folder, uidValidity, lastUid))
  {
    KeysNeverCollide(folder, folder);
  }

  lemma CursorIs(h: History, folder: string, uidValidity: Uint32, lastUid: Uint32)
    ensures var h' := Step(h, SaveCursor(folder, uidValidity, lastUid)).value;
      && h'.db == SetLastUid(h.db, folder, uidValidity, lastUid) && h'.db.emails == h.db.emails && TrailOf(h') == TrailOf(h)
  {
  }

  lemma SameRowsAreValid(db: Db, db': Db)
    requires ValidDb(db) && db'.emails == db.emails
    ensures ValidDb(db')
  {
  }

  lemma CursorStep(h: History, folder: string, uidValidity: Uint32, lastUid: Uint32)
    requires Inv(h)
    ensures Inv(Step(h, SaveCursor(folder, uidValidity, lastUid)).value)
  {
    CursorIs(h, folder, uidValidity, lastUid);
    CursorKeepsState(h.db, folder, uidValidity, lastUid);
    SameRowsAreValid(h.db, SetLastUid(h.db, folder, uidValidity, lastUid));
  }

  // ----- the rows a digest picks

  lemma LastDigestIsReadable(db: Db)
    requires StateIsLastEnd(db)
    ensures LastDigestAt(db).Ok?
    ensures db.digests == [] ==> LastDigestAt(db).value == ZERO_TIME
    ensures db.digests != [] ==>
            FormatTime(LastDigestAt(db).value * NANOS_PER_SECOND) == db.digests[|db.digests| - 1].windowEnd
  {
    if db.digests != [] {
      var end := db.digests[|db.digests| - 1].windowEnd;
      var t: Instant :| FourDigitYear(t) && end == FormatTime(t);
      StoredTextSurvives(t);
    }
  }

  lemma {:induction false} SelectedMarks(rows: seq<Row>, start: string, end: string, ids: seq<nat>, at: string)
    requires forall i :: 0 <= i < |rows| ==> (rows[i].id in ids <==> InWindow(rows[i], start, end))
    ensures DigestedCount(MarkIds(rows, ids, at)) == DigestedCount(rows) + |Selected(rows, start, end)|
  {
    if rows != [] {
      var last := |rows| - 1;
      SelectedMarks(rows[..last], start, end, ids, at);
      assert MarkIds(rows, ids, at)[..last] == MarkIds(rows[..last], ids, at);
    }
  }

  lemma PendingRow(db: Db, start: string, end: string, n: nat)
    requires n < |Pending(db, start, end)|
    ensures Pending(db, start, end)[n] in db.emails && InWindow(Pending(db, start, end)[n], start, end)
    ensures IdsOf(Pending(db, start, end))[n] == Pending(db, start, end)[n].id
  {
    PendingIsExact(db, start, end);
  }

  lemma PendingIdsInWindow(db: Db, start: string, end: string, n: nat)
    requires ValidDb(db) && n < |Pending(db, start, end)|
    ensures var id := IdsOf(Pending(db, start, end))[n];
      1 <= id <= |db.emails| && InWindow(db.emails[id - 1], start, end)
  {
    PendingRow(db, start, end, n);
    var i :| 0 <= i < |db.emails| && db.emails[i] == Pending(db, start, end)[n];
  }

  lemma WindowRowsArePending(db: Db, start: string, end: string, i: nat)
    requires ValidDb(db) && i < |db.emails| && InWindow(db.emails[i], start, end)
    ensures i + 1 in IdsOf(Pending(db, start, end))
  {
    var pending := Pending(db, start, end);
    PendingIsExact(db, start, end);
    assert db.emails[i] in pending;
    var n :| 0 <= n < |pending| && pending[n] == db.emails[i];
    assert IdsOf(pending)[n] == i + 1;
  }

  ghost predicate DistinctIds(rows: seq<Row>) {
    forall i, j :: 0 <= i < j < |rows| ==> rows[i].id != rows[j].id
  }

  lemma LastIsNew(rows: seq<Row>)
    requires rows != [] && DistinctIds(rows)
    ensures DistinctIds(rows[..|rows| - 1]) && rows[|rows| - 1] !in rows[..|rows| - 1]
  {
  }

  lemma OneMore<T>(s: seq<T>, last: T, x: T)
    requires last !in s && multiset(s)[x] <= 1
    ensures multiset(s + [last])[x] <= 1
  {
    assert multiset(s)[last] == 0;
  }

  lemma SelectedAreRows(rows: seq<Row>, start: string, end: string, row: Row)
    requires row !in rows
    ensures row !in Selected(rows, start, end)
  {
  }

  lemma SelectedLast(rows: seq<Row>, start: string, end: string)
    requires rows != []
    ensures Selected(rows, start, end) ==
            Selected(rows[..|rows| - 1], start, end) + if InWindow(rows[|rows| - 1], start, end) then [rows[|rows| - 1]] else []
  {
  }

  lemma {:induction false} SelectedOnce(rows: seq<Row>, start: string, end: string, row: Row)
    requires DistinctIds(rows)
    ensures multiset(Selected(rows, start, end))[row] <= 1
  {
    if rows != [] {
      var front, last := rows[..|rows| - 1], rows[|rows| - 1];
      LastIsNew(rows);
      SelectedOnce(front, start, end, row);
      SelectedAreRows(front, start, end, last);
      SelectedLast(rows, start, end);
      if InWindow(last, start, end) {
        OneMore(Selected(front, start, end), last, row);
      } else {
        assert Selected(front, start, end) + [] == Selected(front, start, end);
      }
    }
  }

  lemma TwicePresent<T>(s: seq<T>, m: nat, n: nat)
    requires m < n < |s| && s[m] == s[n]
    ensures multiset(s)[s[m]] >= 2
  {
    assert s == s[..n] + s[n..];
    assert s[m] in s[..n] && s[n] in s[n..];
  }

  lemma SameIdSameRow(db: Db, a: Row, b: Row)
    requires ValidDb(db) && a in db.emails && b in db.emails && a.id == b.id
    ensures a == b
  {
    var i :| 0 <= i < |db.emails| && db.emails[i] == a;
    var j :| 0 <= j < |db.emails| && db.emails[j] == b;
  }

  lemma ValidIdsAreDistinct(db: Db)
    requires ValidDb(db)
    ensures DistinctIds(db.emails)
  {
  }

  lemma PendingOnce(db: Db, start: string, end: string, row: Row)
    requires ValidDb(db)
    ensures multiset(Pending(db, start, end))[row] <= 1
  {
    ValidIdsAreDistinct(db);
    SelectedOnce(db.emails, start, end, row);
  }

  lemma PendingIdsAreDistinct(db: Db, start: string, end: string, m: nat, n: nat)
    requires ValidDb(db) && m < n < |Pending(db, start, end)|
    ensures IdsOf(Pending(db, start, end))[m] != IdsOf(Pending(db, start, end))[n]
  {
    var pending := Pending(db, start, end);
    PendingRow(db, start, end, m);
    PendingRow(db, start, end, n);
    if pending[m].id == pending[n].id {
      SameIdSameRow(db, pending[m], pending[n]);
      TwicePresent(pending, m, n);
      PendingOnce(db, start, end, pending[m]);
    }
  }

  /** ids are the undigested rows inside the window, each once. */
  ghost predicate Picks(rows: seq<Row>, ids: seq<nat>, start: string, end: string) {
    && (forall i :: 0 <= i < |rows| ==> rows[i].id == i + 1)
    && (forall i :: 0 <= i < |rows| ==> (i + 1 in ids <==> InWindow(rows[i], start, end)))
    && (forall n :: 0 <= n < |ids| ==> 1 <= ids[n] <= |rows|)
    && (forall m, n :: 0 <= m < n < |ids| ==> ids[m] != ids[n])
    && |ids| == |Selected(rows, start, end)|
  }

  lemma PendingIdsExist(db: Db, start: string, end: string)
    requires ValidDb(db)
    ensures var ids := IdsOf(Pending(db, start, end)); forall n :: 0 <= n < |ids| ==> 1 <= ids[n] <= |db.emails|
  {
    forall n | 0 <= n < |IdsOf(Pending(db, start, end))|
      ensures 1 <= IdsOf(Pending(db, start, end))[n] <= |db.emails|
    {
      PendingIdsInWindow(db, start, end, n);
    }
  }

  lemma PendingIffInWindow(db: Db, start: string, end: string, i: nat)
    requires ValidDb(db) && i < |db.emails|
    ensures i + 1 in IdsOf(Pending(db, start, end)) <==> InWindow(db.emails[i], start, end)
  {
    if InWindow(db.emails[i], start, end) {
      WindowRowsArePending(db, start, end, i);
    } else if i + 1 in IdsOf(Pending(db, start, end)) {
      var n :| 0 <= n < |Pending(db, start, end)| && IdsOf(Pending(db, start, end))[n] == i + 1;
      PendingIdsInWindow(db, start, end, n);
    }
  }

  lemma PendingIdsOnce(db: Db, start: string, end: string)
    requires ValidDb(db)
    ensures var ids := IdsOf(Pending(db, start, end)); forall m, n :: 0 <= m < n < |ids| ==> ids[m] != ids[n]
  {
    forall m, n | 0 <= m < n < |IdsOf(Pending(db, start, end))|
      ensures IdsOf(Pending(db, start, end))[m] != IdsOf(Pending(db, start, end))[n]
    {
      PendingIdsAreDistinct(db, start, end, m, n);
    }
  }

  lemma PendingCount(db: Db, start: string, end: string)
    ensures |IdsOf(Pending(db, start, end))| == |Selected(db.emails, start, end)|
  {
    PendingIsExact(db, start, end);
  }

  lemma PendingPicks(db: Db, start: string, end: string)
    requires ValidDb(db)
    ensures Picks(db.emails, IdsOf(Pending(db, start, end)), start, end)
  {
    PendingIdsExist(db, start, end);
    PendingIdsOnce(db, start, end);
    PendingCount(db, start, end);
    forall i | 0 <= i < |db.emails|
      ensures i + 1 in IdsOf(Pending(db, start, end)) <==> InWindow(db.emails[i], start, end)
    {
      PendingIffInWindow(db, start, end, i);
    }
  }

  // ----- a delivered digest

  /** The window starts at the recorded end of the last one; a week back without a record, or with the zero time in it. */
  lemma StartIs(db: Db, weekBack: Instant, start: Instant)
    requires if "last_digest_at" in db.state then
               ParseTime(db.state["last_digest_at"]).Some? &&
               var last := ParseTime(db.state["last_digest_at"]).value;
               start == if last == 31_622_400 then weekBack else last * 1_000_000_000
             else start == weekBack
    ensures LastDigestAt(db).Ok? && WindowStart(LastDigestAt(db).value, weekBack) == start
  {
  }

  lemma MarkedInWindow(rows: seq<Row>, ids: seq<nat>, start: string, end: string, i: nat)
    requires i < |rows| && rows[i].id == i + 1 && (i + 1 in ids <==> InWindow(rows[i], start, end))
    ensures MarkIds(rows, ids, end)[i] ==
            if rows[i].digestedAt == None && !LexLess(rows[i].receivedAt, start) && LexLess(rows[i].receivedAt, end)
            then rows[i].(digestedAt := Some(end)) else rows[i]
  {
  }

  lemma DeliveredEmails(db: Db, windowEnd: Instant, weekBack: Instant)
    requires LastDigestAt(db).Ok?
    ensures Delivered(db, windowEnd, weekBack).emails == MarkIds(db.emails, DueIds(db, windowEnd, weekBack), FormatTime(windowEnd))
  {
  }

  lemma DeliveredRow(db: Db, windowEnd: Instant, weekBack: Instant, i: nat)
    requires ValidDb(db) && LastDigestAt(db).Ok? && i < |db.emails|
    ensures |Delivered(db, windowEnd, weekBack).emails| == |db.emails|
    ensures var row, start, end := db.emails[i], StartText(db, weekBack), FormatTime(windowEnd);
      Delivered(db, windowEnd, weekBack).emails[i] ==
      if row.digestedAt == None && !LexLess(row.receivedAt, start) && LexLess(row.receivedAt, end)
      then row.(digestedAt := Some(end)) else row
  {
    DeliveredEmails(db, windowEnd, weekBack);
    DueIffInWindow(db, windowEnd, weekBack, i);
    MarkedInWindow(db.emails, DueIds(db, windowEnd, weekBack), StartText(db, weekBack), FormatTime(windowEnd), i);
  }

  lemma DueIffInWindow(db: Db, windowEnd: Instant, weekBack: Instant, i: nat)
    requires ValidDb(db) && LastDigestAt(db).Ok? && i < |db.emails|
    ensures db.emails[i].id == i + 1
    ensures i + 1 in DueIds(db, windowEnd, weekBack) <==> InWindow(db.emails[i], StartText(db, weekBack), FormatTime(windowEnd))
  {
    PendingIffInWindow(db, StartText(db, weekBack), FormatTime(windowEnd), i);
  }

  lemma DeliveredRecord(db: Db, windowEnd: Instant, weekBack: Instant)
    requires LastDigestAt(db).Ok?
    ensures var start, end, after := StartText(db, weekBack), FormatTime(windowEnd), Delivered(db, windowEnd, weekBack);
      && after.state == db.state["last_digest_at" := end]
      && after.digests == db.digests + [DigestRow(end, start, end, |DueIds(db, windowEnd, weekBack)|)]
  {
  }

  /**
   A completed digest in full: every undigested row of its half-open window, and no other,
   is marked with the window's end; that end is recorded and becomes last_digest_at.
   */
  lemma DeliveredIs(db: Db, windowEnd: Instant, weekBack: Instant, start: Instant)
    requires ValidDb(db)
    requires if "last_digest_at" in db.state then
               ParseTime(db.state["last_digest_at"]).Some? &&
               var last := ParseTime(db.state["last_digest_at"]).value;
               start == if last == 31_622_400 then weekBack else last * 1_000_000_000
             else start == weekBack
    ensures LastDigestAt(db).Ok?
    ensures var from, end, after := FormatTime(start), FormatTime(windowEnd), Delivered(db, windowEnd, weekBack);
      && after.state == db.state["last_digest_at" := end]
      && after.digests == db.digests + [DigestRow(end, from, end, |DueIds(db, windowEnd, weekBack)|)]
      && |after.emails| == |db.emails|
      && forall i :: 0 <= i < |db.emails| ==>
           (var row := db.emails[i];
            after.emails[i] == if row.digestedAt == None && !LexLess(row.receivedAt, from) && LexLess(row.receivedAt, end)
                               then row.(digestedAt := Some(end)) else row)
  {
    StartIs(db, weekBack, start);
    DeliveredRecord(db, windowEnd, weekBack);
    forall i | 0 <= i < |db.emails|
      ensures var row, from, end := db.emails[i], FormatTime(start), FormatTime(windowEnd);
        Delivered(db, windowEnd, weekBack).emails[i] ==
        if row.digestedAt == None && !LexLess(row.receivedAt, from) && LexLess(row.receivedAt, end)
        then row.(digestedAt := Some(end)) else row
    {
      DeliveredRow(db, windowEnd, weekBack, i);
    }
  }

  function WithDigest(t: Trail, ids: seq<nat>, start: string, end: string): Trail {
    Trail(MarkIds(t.emails, ids, end), t.digests + [DigestRow(end, start, end, |ids|)], t.log + [ids], t.arrival)
  }

  lemma DigestKeepsLists(t: Trail, ids: seq<nat>, start: string, end: string)
    requires Aligned(t) && ListsAreSound(t) && Picks(t.emails, ids, start, end)
    ensures ListsAreSound(WithDigest(t, ids, start, end))
  {
  }

  lemma DigestKeepsSound(t: Trail, ids: seq<nat>, start: string, end: string)
    requires Aligned(t) && MarksAreSound(t) && Picks(t.emails, ids, start, end)
    ensures MarksAreSound(WithDigest(t, ids, start, end))
  {
    var t' := WithDigest(t, ids, start, end);
    forall i, k | 0 <= i < |t'.emails| && 0 <= k < |t'.log| && Reported(t', i, k)
      ensures t'.emails[i].digestedAt == Some(t'.digests[k].sentAt)
    {
      if k < |t.log| {
        assert Reported(t, i, k);
      } else {
        assert InWindow(t.emails[i], start, end);
      }
    }
  }

  lemma DigestKeepsMarks(t: Trail, ids: seq<nat>, start: string, end: string)
    requires Aligned(t) && MarkedWereReported(t) && Picks(t.emails, ids, start, end)
    ensures MarkedWereReported(WithDigest(t, ids, start, end))
  {
    var t' := WithDigest(t, ids, start, end);
    forall i | 0 <= i < |t'.emails| && t'.emails[i].digestedAt.Some?
      ensures exists k :: 0 <= k < |t'.log| && Reported(t', i, k)
    {
      if t.emails[i].digestedAt.Some? {
        var k :| 0 <= k < |t.log| && Reported(t, i, k);
        assert Reported(t', i, k);
      } else {
        assert Reported(t', i, |t.log|);
      }
    }
  }

  /** Walking from the row's arrival, some window is the first to contain it. */
  lemma {:induction false} FirstWindow(t: Trail, i: nat, j: nat) returns (k: nat)
    requires Aligned(t) && i < |t.emails| && t.arrival[i] <= j < |t.log| && Inside(t.emails[i], t.digests[j])
    ensures k <= j && FirstInside(t, i, k)
    decreases j
  {
    if m :| t.arrival[i] <= m < j && Inside(t.emails[i], t.digests[m]) {
      k := FirstWindow(t, i, m);
    } else {
      k := j;
    }
  }

  /** No window completed since the row arrived contains it. */
  ghost predicate NeverInside(t: Trail, i: nat)
    requires Aligned(t) && i < |t.emails|
  {
    forall j :: t.arrival[i] <= j < |t.log| ==> !Inside(t.emails[i], t.digests[j])
  }

  /** A row is unmarked exactly when no window since its arrival contains it, whatever the clock did. */
  lemma PendingIffNeverInside(t: Trail, i: nat)
    requires Aligned(t) && MarksAreSound(t) && MarkedWereReported(t) && ReportedIsFirstInside(t) && i < |t.emails|
    ensures t.emails[i].digestedAt.None? <==> NeverInside(t, i)
  {
    if t.emails[i].digestedAt.Some? {
      var k :| 0 <= k < |t.log| && Reported(t, i, k);
      assert FirstInside(t, i, k);
    }
    if j :| t.arrival[i] <= j < |t.log| && Inside(t.emails[i], t.digests[j]) {
      var k := FirstWindow(t, i, j);
      assert Reported(t, i, k);
    }
  }

  lemma LatestIsFirstInside(t: Trail, ids: seq<nat>, start: string, end: string, i: nat)
    requires Aligned(t) && i < |t.emails| && Aligned(WithDigest(t, ids, start, end))
    ensures FirstInside(WithDigest(t, ids, start, end), i, |t.log|) <==>
            LexLeq(start, t.emails[i].receivedAt) && LexLess(t.emails[i].receivedAt, end) && NeverInside(t, i)
  {
    var t' := WithDigest(t, ids, start, end);
    assert forall j :: 0 <= j < |t.log| ==> t'.digests[j] == t.digests[j];
    assert t'.emails[i].receivedAt == t.emails[i].receivedAt;
    if FirstInside(t', i, |t.log|) {
      forall j | t.arrival[i] <= j < |t.log|
        ensures !Inside(t.emails[i], t.digests[j])
      {
        assert !Inside(t'.emails[i], t'.digests[j]);
      }
    }
  }

  lemma EarlierDigestsUnchanged(t: Trail, ids: seq<nat>, start: string, end: string, i: nat, k: nat)
    requires Aligned(t) && Aligned(WithDigest(t, ids, start, end)) && i < |t.emails| && k < |t.log|
    ensures var t' := WithDigest(t, ids, start, end);
      Reported(t', i, k) == Reported(t, i, k) && FirstInside(t', i, k) == FirstInside(t, i, k)
  {
    var t' := WithDigest(t, ids, start, end);
    assert forall j :: 0 <= j <= k ==> t'.digests[j] == t.digests[j];
    assert t'.emails[i].receivedAt == t.emails[i].receivedAt;
  }

  lemma DigestKeepsReports(t: Trail, ids: seq<nat>, start: string, end: string)
    requires Aligned(t) && MarksAreSound(t) && MarkedWereReported(t) && ReportedIsFirstInside(t)
    requires Picks(t.emails, ids, start, end)
    ensures ReportedIsFirstInside(WithDigest(t, ids, start, end))
  {
    var t' := WithDigest(t, ids, start, end);
    forall i, k | 0 <= i < |t'.emails| && 0 <= k < |t'.log|
      ensures Reported(t', i, k) <==> FirstInside(t', i, k)
    {
      if k < |t.log| {
        EarlierDigestsUnchanged(t, ids, start, end, i, k);
      } else {
        PendingIffNeverInside(t, i);
        LatestIsFirstInside(t, ids, start, end, i);
      }
    }
  }

  /** A new window starts at the last end, unless there is none or it is the zero time. */
  ghost predicate Seamless(digests: seq<DigestRow>, start: string) {
    digests != [] && !EndsAtZero(digests[|digests| - 1]) ==> start == digests[|digests| - 1].windowEnd
  }

  lemma DigestKeepsChain(t: Trail, ids: seq<nat>, start: string, end: string)
    requires Chained(t.digests) && Seamless(t.digests, start)
    ensures Chained(WithDigest(t, ids, start, end).digests)
  {
    var all := WithDigest(t, ids, start, end).digests;
    assert forall k :: 0 <= k < |t.digests| ==> all[k] == t.digests[k];
  }

  lemma DigestKeepsCounts(t: Trail, ids: seq<nat>, start: string, end: string)
    requires Aligned(t) && TotalCount(t.digests) == DigestedCount(t.emails) && Picks(t.emails, ids, start, end)
    ensures TotalCount(WithDigest(t, ids, start, end).digests) == DigestedCount(WithDigest(t, ids, start, end).emails)
  {
    SelectedMarks(t.emails, start, end, ids, end);
    assert WithDigest(t, ids, start, end).digests[..|t.digests|] == t.digests;
  }

  lemma DigestKeepsTrail(t: Trail, ids: seq<nat>, start: string, end: string)
    requires TrailInv(t) && Picks(t.emails, ids, start, end) && Seamless(t.digests, start)
    ensures TrailInv(WithDigest(t, ids, start, end))
  {
    DigestKeepsLists(t, ids, start, end);
    DigestKeepsSound(t, ids, start, end);
    DigestKeepsMarks(t, ids, start, end);
    DigestKeepsReports(t, ids, start, end);
    DigestKeepsCounts(t, ids, start, end);
    DigestKeepsChain(t, ids, start, end);
  }

  lemma StartIsSeamless(db: Db, weekBack: Instant)
    requires StateIsLastEnd(db)
    ensures LastDigestAt(db).Ok? && Seamless(db.digests, StartText(db, weekBack))
  {
    LastDigestIsReadable(db);
    if db.digests != [] && LastDigestAt(db).value == ZERO_TIME {
      WholeSeconds(ZERO_TIME);
    }
  }

  lemma MarkedDbIsValid(db: Db, ids: seq<nat>, sentAt: string, start: string, end: string)
    requires ValidDb(db)
    ensures ValidDb(CompleteDigest(db, ids, sentAt, start, end))
  {
    var db' := CompleteDigest(db, ids, sentAt, start, end);
    forall i, j | 0 <= i < j < |db'.emails|
      ensures !Conflict(db'.emails[i], db'.emails[j])
    {
      assert !Conflict(db.emails[i], db.emails[j]);
    }
  }

  lemma EndBecomesState(db: Db, ids: seq<nat>, sentAt: string, start: string, end: string)
    requires Stamped(end)
    ensures StateIsLastEnd(CompleteDigest(db, ids, sentAt, start, end))
  {
  }

  lemma DeliveredKeepsDb(db: Db, windowEnd: Instant, weekBack: Instant)
    requires ValidDb(db) && LastDigestAt(db).Ok? && FourDigitYear(windowEnd)
    ensures ValidDb(Delivered(db, windowEnd, weekBack)) && StateIsLastEnd(Delivered(db, windowEnd, weekBack))
  {
    var ids, start, end := DueIds(db, windowEnd, weekBack), StartText(db, weekBack), FormatTime(windowEnd);
    assert Stamped(end);
    MarkedDbIsValid(db, ids, end, start, end);
    EndBecomesState(db, ids, end, start, end);
  }

  lemma CompletedIs(h: History, e: Event)
    requires e.Digest? && PlausibleClock(e) && e.sending.Completed? && LastDigestAt(h.db).Ok?
    ensures Step(h, e) == Some(History(
                Delivered(h.db, e.windowEnd, e.weekBack), h.log + [DueIds(h.db, e.windowEnd, e.weekBack)], h.arrival,
                h.mails + [MailFor(h.db, e.windowEnd, e.weekBack, true)]))
  {
  }

  lemma CompletedTrail(h: History, e: Event)
    requires e.Digest? && PlausibleClock(e) && e.sending.Completed? && LastDigestAt(h.db).Ok?
    ensures Step(h, e).Some?
    ensures TrailOf(Step(h, e).value) ==
            WithDigest(TrailOf(h), DueIds(h.db, e.windowEnd, e.weekBack), StartText(h.db, e.weekBack), FormatTime(e.windowEnd))
  {
    CompletedIs(h, e);
  }

  lemma CompletedStep(h: History, e: Event)
    requires Inv(h) && e.Digest? && PlausibleClock(e) && e.sending.Completed? && LastDigestAt(h.db).Ok?
    ensures Step(h, e).Some? && Inv(Step(h, e).value)
  {
    var start, end := StartText(h.db, e.weekBack), FormatTime(e.windowEnd);
    PendingPicks(h.db, start, end);
    StartIsSeamless(h.db, e.weekBack);
    CompletedTrail(h, e);
    CompletedIs(h, e);
    DigestKeepsTrail(TrailOf(h), DueIds(h.db, e.windowEnd, e.weekBack), start, end);
    DeliveredKeepsDb(h.db, e.windowEnd, e.weekBack);
  }

  lemma OtherDigestStep(h: History, e: Event)
    requires e.Digest? && Step(h, e).Some? && (!e.sending.Completed? || LastDigestAt(h.db).Err?)
    ensures TrailOf(Step(h, e).value) == TrailOf(h) && Step(h, e).value.db == h.db
  {
  }

  lemma DigestStep(h: History, e: Event)
    requires Inv(h) && e.Digest? && Step(h, e).Some?
    ensures Inv(Step(h, e).value)
  {
    if e.sending.Completed? && LastDigestAt(h.db).Ok? {
      CompletedStep(h, e);
    } else {
      OtherDigestStep(h, e);
    }
  }

  // ----- every history

  lemma {:induction false} EveryHistory(events: seq<Event>)
    requires Exec(EMPTY, events).Some?
    ensures Inv(Exec(EMPTY, events).value)
  {
    if events != [] {
      var last := |events| - 1;
      EveryHistory(events[..last]);
      var mid := Exec(EMPTY, events[..last]).value;
      match events[last]
      case Insert(email) => InsertStep(mid, email);
      case SaveCursor(folder, v, u) => CursorStep(mid, folder, v, u);
      case Digest(_, _, _) => DigestStep(mid, events[last]);
    }
  }
}

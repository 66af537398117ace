/**
 Histories that reach what the digests do not promise: a row that is left behind, a
 row lost behind the zero time, a row behind its entry that a clock going back brings
 into a digest after all, and a row that is mailed twice.
 */
module DigestWitnesses {
  import opened Common
  import opened Text
  import opened Timestamps
  import opened Database
  import opened Digests
  import opened DigestResults
  import opened Mailings

  function At(seconds: nat): Instant {
    seconds * NANOS_PER_SECOND
  }

  const WEEK := 604_800

  predicate Plausible(seconds: nat) {
    WEEK <= seconds < YEAR_10000
  }

  /** A digest at the given second, mailed and recorded. */
  function DigestAt(seconds: nat): Event
    requires seconds >= WEEK
  {
    Digest(At(seconds), At(seconds - WEEK), Completed)
  }

  function MailOf(received: nat): NewEmail {
    NewEmail(1, 1, "", At(received), "", "", true, "ok", At(received))
  }

  function HistoryOf(events: seq<Event>): History {
    match Exec(EMPTY, events) case None => EMPTY case Some(h) => h
  }

  /** The ends of all windows, in seconds. */
  function Ends(digests: seq<DigestRow>): (r: seq<nat>)
    ensures |r| == |digests|
  {
    if digests == [] then []
    else Ends(digests[..|digests| - 1]) + [SecondsOf(digests[|digests| - 1].windowEnd)]
  }

  lemma {:induction false} EndAt(digests: seq<DigestRow>, k: nat)
    requires k < |digests|
    ensures Ends(digests)[k] == SecondsOf(digests[k].windowEnd)
  {
    if k < |digests| - 1 {
      EndAt(digests[..|digests| - 1], k);
    }
  }

  lemma EndsGrow(digests: seq<DigestRow>, d: DigestRow)
    ensures Ends(digests + [d]) == Ends(digests) + [SecondsOf(d.windowEnd)]
  {
    assert (digests + [d])[..|digests|] == digests;
  }

  /** One row, received at the given second and stored after one digest; the windows' ends in seconds. */
  ghost predicate OneRow(h: History, received: nat, ends: seq<nat>) {
    && |h.db.emails| == 1 && h.arrival == [1] && h.db.emails[0].receivedAt == FormatTime(At(received))
    && Ends(h.db.digests) == ends
  }

  // ----- runs step by step

  lemma ExecLast(events: seq<Event>, e: Event)
    requires Exec(EMPTY, events).Some?
    ensures Exec(EMPTY, events + [e]) == Step(Exec(EMPTY, events).value, e)
  {
    assert (events + [e])[..|events|] == events;
  }

  lemma PlausibleDigest(seconds: nat)
    requires Plausible(seconds)
    ensures PlausibleClock(DigestAt(seconds))
  {
    WholeSeconds(seconds);
    WholeSeconds(seconds - WEEK);
  }

  lemma EndOfDigest(seconds: nat)
    requires Plausible(seconds)
    ensures SecondsOf(FormatTime(At(seconds))) == seconds
  {
    WholeSeconds(seconds);
    FormatTimeRoundTrip(At(seconds));
  }

  function RecordOf(h: History, seconds: nat): DigestRow
    requires seconds >= WEEK && LastDigestAt(h.db).Ok?
  {
    var end, start := FormatTime(At(seconds)), StartText(h.db, At(seconds - WEEK));
    DigestRow(end, start, end, |DueIds(h.db, At(seconds), At(seconds - WEEK))|)
  }

  lemma RecordInSeconds(h: History, seconds: nat)
    requires StateIsLastEnd(h.db) && Plausible(seconds)
    ensures LastDigestAt(h.db).Ok?
    ensures SecondsOf(RecordOf(h, seconds).windowEnd) == seconds
    ensures SecondsOf(RecordOf(h, seconds).windowStart) == NextStart(h.db, At(seconds - WEEK))
  {
    PlausibleDigest(seconds);
    NextStartIs(h.db, At(seconds), At(seconds - WEEK));
    EndOfDigest(seconds);
  }

  /** A digest adds its record and keeps the rows' times. */
  lemma DigestHappens(h: History, seconds: nat)
    requires StateIsLastEnd(h.db) && Plausible(seconds)
    ensures Step(h, DigestAt(seconds)).Some? && LastDigestAt(h.db).Ok?
    ensures var h' := Step(h, DigestAt(seconds)).value;
      && h'.arrival == h.arrival && h'.db.digests == h.db.digests + [RecordOf(h, seconds)]
      && |h'.db.emails| == |h.db.emails|
      && forall i :: 0 <= i < |h.db.emails| ==> h'.db.emails[i].receivedAt == h.db.emails[i].receivedAt
  {
    var e := DigestAt(seconds);
    PlausibleDigest(seconds);
    LastDigestIsReadable(h.db);
    CompletedIs(h, e);
  }

  lemma MoreWindows(h: History, received: nat, ends: seq<nat>, seconds: nat)
    requires StateIsLastEnd(h.db) && OneRow(h, received, ends) && Plausible(seconds)
    ensures Step(h, DigestAt(seconds)).Some? && LastDigestAt(h.db).Ok?
    ensures var h' := Step(h, DigestAt(seconds)).value;
      OneRow(h', received, ends + [seconds]) && h'.db.digests == h.db.digests + [RecordOf(h, seconds)]
  {
    DigestHappens(h, seconds);
    RecordInSeconds(h, seconds);
    EndsGrow(h.db.digests, RecordOf(h, seconds));
  }

  lemma FirstRow(h: History, received: nat)
    requires h.db.emails == []
    ensures var h' := Step(h, Insert(MailOf(received))).value;
      && h'.db.digests == h.db.digests && h'.arrival == h.arrival + [|h.db.digests|]
      && |h'.db.emails| == 1 && h'.db.emails[0].receivedAt == FormatTime(At(received))
  {
  }

  function DigestThenRow(first: nat, received: nat): seq<Event>
    requires first >= WEEK
  {
    [DigestAt(first)] + [Insert(MailOf(received))]
  }

  lemma FirstDigest(first: nat)
    requires Plausible(first)
    ensures Exec(EMPTY, [DigestAt(first)]).Some?
    ensures var h := HistoryOf([DigestAt(first)]);
      h.db.emails == [] && h.arrival == [] && Ends(h.db.digests) == [first]
  {
    EveryHistory([]);
    ExecLast([], DigestAt(first));
    assert [] + [DigestAt(first)] == [DigestAt(first)];
    DigestHappens(EMPTY, first);
    RecordInSeconds(EMPTY, first);
    EndsGrow([], RecordOf(EMPTY, first));
  }

  lemma DigestThenRowRuns(first: nat, received: nat)
    requires Plausible(first)
    ensures Exec(EMPTY, DigestThenRow(first, received)).Some?
    ensures OneRow(HistoryOf(DigestThenRow(first, received)), received, [first])
  {
    FirstDigest(first);
    ExecLast([DigestAt(first)], Insert(MailOf(received)));
    FirstRow(HistoryOf([DigestAt(first)]), received);
  }

  /** The history goes on with one more digest. */
  lemma OneMoreDigest(events: seq<Event>, received: nat, ends: seq<nat>, seconds: nat)
    requires Exec(EMPTY, events).Some? && OneRow(HistoryOf(events), received, ends) && Plausible(seconds)
    ensures Exec(EMPTY, events + [DigestAt(seconds)]).Some? && LastDigestAt(HistoryOf(events).db).Ok?
    ensures var h, h' := HistoryOf(events), HistoryOf(events + [DigestAt(seconds)]);
      OneRow(h', received, ends + [seconds]) && h'.db.digests == h.db.digests + [RecordOf(h, seconds)]
  {
    EveryHistory(events);
    ExecLast(events, DigestAt(seconds));
    MoreWindows(HistoryOf(events), received, ends, seconds);
  }

  lemma LastEndIs(h: History, received: nat, ends: seq<nat>)
    requires StateIsLastEnd(h.db) && OneRow(h, received, ends) && ends != []
    ensures LastDigestAt(h.db) == Ok(ends[|ends| - 1])
  {
    LastEndInSeconds(h.db);
    EndAt(h.db.digests, |ends| - 1);
  }

  /** Where the next window starts after a row's history. */
  lemma NextStartAfter(h: History, ends: seq<nat>, seconds: nat)
    requires StateIsLastEnd(h.db) && Plausible(seconds) && ends != [] && LastDigestAt(h.db) == Ok(ends[|ends| - 1])
    ensures SecondsOf(RecordOf(h, seconds).windowStart) ==
            if ends[|ends| - 1] == ZERO_TIME then seconds - WEEK else ends[|ends| - 1]
  {
    RecordInSeconds(h, seconds);
    WholeSeconds(seconds - WEEK);
  }

  lemma RowInside(h: History, received: nat, ends: seq<nat>, k: nat)
    requires AllStamped(h.db.digests) && OneRow(h, received, ends) && k < |ends| && received < YEAR_10000
    ensures Inside(h.db.emails[0], h.db.digests[k]) <==> SecondsOf(h.db.digests[k].windowStart) <= received < ends[k]
  {
    WholeSeconds(received);
    EndAt(h.db.digests, k);
    InsideBySeconds(h.db.emails[0], h.db.digests[k], At(received));
  }

  /** The starts of all windows, in seconds. */
  function Starts(digests: seq<DigestRow>): (r: seq<nat>)
    ensures |r| == |digests|
  {
    if digests == [] then []
    else Starts(digests[..|digests| - 1]) + [SecondsOf(digests[|digests| - 1].windowStart)]
  }

  lemma {:induction false} StartAt(digests: seq<DigestRow>, k: nat)
    requires k < |digests|
    ensures Starts(digests)[k] == SecondsOf(digests[k].windowStart)
  {
    if k < |digests| - 1 {
      StartAt(digests[..|digests| - 1], k);
    }
  }

  predicate Holds(start: nat, received: nat, end: nat) {
    start <= received < end
  }

  lemma RowInsideHolds(h: History, received: nat, ends: seq<nat>, k: nat)
    requires AllStamped(h.db.digests) && OneRow(h, received, ends) && k < |ends| && received < YEAR_10000
    ensures Inside(h.db.emails[0], h.db.digests[k]) <==> Holds(Starts(h.db.digests)[k], received, ends[k])
  {
    RowInside(h, received, ends, k);
    StartAt(h.db.digests, k);
  }

  // ----- a row inserted after its window closed

  lemma SecondMissesRow(h: History, received: nat, first: nat, second: nat, start: nat)
    requires AllStamped(h.db.digests) && OneRow(h, received, [first] + [second])
    requires Starts(h.db.digests)[1] == start && received < YEAR_10000 && !Holds(start, received, second)
    ensures |h.db.emails| == 1 && |h.db.digests| == 2 && !Inside(h.db.emails[0], h.db.digests[1])
  {
    RowInsideHolds(h, received, [first] + [second], 1);
  }

  lemma MissedByBoth(t: Trail)
    requires TrailInv(t) && |t.emails| == 1 && t.arrival == [1] && |t.digests| == 2 && !Inside(t.emails[0], t.digests[1])
    ensures t.emails[0].digestedAt.None? && forall k :: 0 <= k < |t.log| ==> !Reported(t, 0, k)
  {
    PendingIffNeverInside(t, 0);
    forall k | 0 <= k < |t.log|
      ensures !Reported(t, 0, k)
    {
      assert !FirstInside(t, 0, k);
    }
  }

  /** With two digests, one before the row: unreported when the second window does not hold it. */
  lemma UnreportedInSeconds(events: seq<Event>, received: nat, first: nat, second: nat, start: nat)
    requires Exec(EMPTY, events).Some? && OneRow(HistoryOf(events), received, [first] + [second])
    requires Starts(HistoryOf(events).db.digests)[1] == start && received < YEAR_10000 && !Holds(start, received, second)
    ensures var t := TrailOf(HistoryOf(events));
      t.emails[0].digestedAt.None? && forall k :: 0 <= k < |t.log| ==> !Reported(t, 0, k)
  {
    EveryHistory(events);
    WindowsAreStamped(events);
    SecondMissesRow(HistoryOf(events), received, first, second, start);
    MissedByBoth(TrailOf(HistoryOf(events)));
  }

  lemma TwoDigests(first: nat, received: nat, second: nat)
    requires Plausible(first) && Plausible(second)
    ensures Exec(EMPTY, DigestThenRow(first, received) + [DigestAt(second)]).Some?
    ensures var h := HistoryOf(DigestThenRow(first, received) + [DigestAt(second)]);
      OneRow(h, received, [first] + [second])
      && Starts(h.db.digests)[1] == if first == ZERO_TIME then second - WEEK else first
  {
    var before := DigestThenRow(first, received);
    DigestThenRowRuns(first, received);
    OneMoreDigest(before, received, [first], second);
    EveryHistory(before);
    LastEndIs(HistoryOf(before), received, [first]);
    NextStartAfter(HistoryOf(before), [first], second);
    StartAt(HistoryOf(before + [DigestAt(second)]).db.digests, 1);
  }

  /** Whatever the next digest's time, a row received before the last one and stored after it is in neither. */
  lemma LateRowIsLeftBehind(first: nat, received: nat, second: nat)
    requires Plausible(first) && Plausible(second) && received < first && first != ZERO_TIME
    ensures Exec(EMPTY, DigestThenRow(first, received) + [DigestAt(second)]).Some?
    ensures var t := TrailOf(HistoryOf(DigestThenRow(first, received) + [DigestAt(second)]));
      |t.emails| == 1 && t.emails[0].digestedAt.None? && forall k :: 0 <= k < |t.log| ==> !Reported(t, 0, k)
  {
    TwoDigests(first, received, second);
    UnreportedInSeconds(DigestThenRow(first, received) + [DigestAt(second)], received, first, second, first);
  }

  /** For example: received 50,000 seconds before a digest in 2024 and stored after it. */
  lemma LateRowExample()
    ensures var events := DigestThenRow(63_900_000_000, 63_899_950_000) + [DigestAt(63_900_604_800)];
      && Exec(EMPTY, events).Some? && |HistoryOf(events).db.emails| == 1
      && HistoryOf(events).db.emails[0].digestedAt.None?
  {
    LateRowIsLeftBehind(63_900_000_000, 63_899_950_000, 63_900_604_800);
  }

  // ----- a window that ended at the zero time

  lemma TwoEnds(digests: seq<DigestRow>, first: nat, second: nat)
    requires Ends(digests) == [first] + [second]
    ensures |digests| == 2 && SecondsOf(digests[0].windowEnd) == first && SecondsOf(digests[1].windowEnd) == second
  {
    EndAt(digests, 0);
    EndAt(digests, 1);
  }

  lemma ZeroWindow(zero: nat, received: nat, second: nat)
    requires Plausible(second) && zero == ZERO_TIME
    ensures var h := HistoryOf(DigestThenRow(zero, received) + [DigestAt(second)]);
      && |h.db.digests| == 2 && EndsAtZero(h.db.digests[0]) && SecondsOf(h.db.digests[0].windowEnd) == zero
      && SecondsOf(h.db.digests[1].windowEnd) == second
  {
    var events := DigestThenRow(zero, received) + [DigestAt(second)];
    TwoDigests(zero, received, second);
    TwoEnds(HistoryOf(events).db.digests, zero, second);
    WindowsAreStamped(events);
    ZeroEndInSeconds(HistoryOf(events).db.digests[0]);
  }

  /** A row stored at last_digest_at or later, which a later end has passed, is skipped behind the zero time. */
  lemma ZeroTimeLosesRow(zero: nat, received: nat, second: nat)
    requires Plausible(second) && zero == ZERO_TIME <= received < second - WEEK
    ensures Exec(EMPTY, DigestThenRow(zero, received) + [DigestAt(second)]).Some?
    ensures var h := HistoryOf(DigestThenRow(zero, received) + [DigestAt(second)]);
      && |h.db.emails| == 1 && |h.db.digests| == 2 && EndsAtZero(h.db.digests[0])
      && SecondsOf(h.db.digests[0].windowEnd) <= received < SecondsOf(h.db.digests[1].windowEnd)
      && h.db.emails[0].digestedAt.None?
  {
    TwoDigests(zero, received, second);
    ZeroWindow(zero, received, second);
    UnreportedInSeconds(DigestThenRow(zero, received) + [DigestAt(second)], received, zero, second, second - WEEK);
  }

  /** For example: received a year after that window, while the next digest is of year 9. */
  lemma ZeroTimeExample()
    ensures var events := DigestThenRow(ZERO_TIME, 63_158_400) + [DigestAt(315_360_000)];
      && Exec(EMPTY, events).Some? && |HistoryOf(events).db.emails| == 1
      && HistoryOf(events).db.emails[0].digestedAt.None?
  {
    ZeroTimeLosesRow(ZERO_TIME, 63_158_400, 315_360_000);
  }

  // ----- a clock that goes back

  lemma ThirdStartsAtSecond(h: History, received: nat, first: nat, second: nat, third: nat)
    requires StateIsLastEnd(h.db) && OneRow(h, received, [first] + [second]) && Plausible(third) && second != ZERO_TIME
    ensures LastDigestAt(h.db).Ok? && SecondsOf(RecordOf(h, third).windowStart) == second
  {
    LastEndIs(h, received, [first] + [second]);
    NextStartAfter(h, [first] + [second], third);
  }

  lemma ThreeDigests(first: nat, received: nat, second: nat, third: nat)
    requires Plausible(first) && Plausible(second) && Plausible(third) && second != ZERO_TIME
    ensures Exec(EMPTY, DigestThenRow(first, received) + [DigestAt(second)] + [DigestAt(third)]).Some?
    ensures var h := HistoryOf(DigestThenRow(first, received) + [DigestAt(second)] + [DigestAt(third)]);
      OneRow(h, received, [first] + [second] + [third]) && SecondsOf(h.db.digests[2].windowStart) == second
  {
    var before := DigestThenRow(first, received);
    var mid := before + [DigestAt(second)];
    DigestThenRowRuns(first, received);
    OneMoreDigest(before, received, [first], second);
    EveryHistory(mid);
    ThirdStartsAtSecond(HistoryOf(mid), received, first, second, third);
    OneMoreDigest(mid, received, [first] + [second], third);
  }

  lemma ThirdHoldsRow(h: History, received: nat, first: nat, second: nat, third: nat)
    requires AllStamped(h.db.digests) && OneRow(h, received, [first] + [second] + [third])
    requires Starts(h.db.digests)[2] <= received < third && second <= received < YEAR_10000
    ensures |h.db.emails| == 1 && |h.db.digests| == 3
    ensures Inside(h.db.emails[0], h.db.digests[2]) && !Inside(h.db.emails[0], h.db.digests[1])
  {
    var ends := [first] + [second] + [third];
    RowInsideHolds(h, received, ends, 1);
    RowInsideHolds(h, received, ends, 2);
  }

  lemma CaughtByThird(t: Trail)
    requires TrailInv(t) && |t.emails| == 1 && t.arrival == [1] && |t.digests| == 3
    requires Inside(t.emails[0], t.digests[2]) && !Inside(t.emails[0], t.digests[1])
    ensures |t.log| == 3 && Reported(t, 0, 2)
  {
    assert FirstInside(t, 0, 2);
  }

  lemma HeldByThird(events: seq<Event>, received: nat, first: nat, second: nat, third: nat)
    requires Exec(EMPTY, events).Some? && OneRow(HistoryOf(events), received, [first] + [second] + [third])
    requires Starts(HistoryOf(events).db.digests)[2] <= received < third && second <= received < YEAR_10000
    ensures |HistoryOf(events).log| == 3 && Reported(TrailOf(HistoryOf(events)), 0, 2)
  {
    EveryHistory(events);
    WindowsAreStamped(events);
    ThirdHoldsRow(HistoryOf(events), received, first, second, third);
    CaughtByThird(TrailOf(HistoryOf(events)));
  }

  lemma ThirdReports(first: nat, received: nat, second: nat, third: nat)
    requires Plausible(first) && Plausible(second) && Plausible(third) && second != ZERO_TIME
    requires second <= received < first && received < third
    ensures var h := HistoryOf(DigestThenRow(first, received) + [DigestAt(second)] + [DigestAt(third)]);
      |h.log| == 3 && Reported(TrailOf(h), 0, 2)
  {
    var events := DigestThenRow(first, received) + [DigestAt(second)] + [DigestAt(third)];
    ThreeDigests(first, received, second, third);
    StartAt(HistoryOf(events).db.digests, 2);
    HeldByThird(events, received, first, second, third);
  }

  lemma FirstEndsAfterRow(first: nat, received: nat, second: nat, third: nat)
    requires Plausible(first) && Plausible(second) && Plausible(third) && second != ZERO_TIME && received < first
    ensures Exec(EMPTY, DigestThenRow(first, received) + [DigestAt(second)] + [DigestAt(third)]).Some?
    ensures var h := HistoryOf(DigestThenRow(first, received) + [DigestAt(second)] + [DigestAt(third)]);
      |h.db.emails| == 1 && h.arrival == [1] && |h.db.digests| == 3 && received < SecondsOf(h.db.digests[0].windowEnd)
  {
    var events := DigestThenRow(first, received) + [DigestAt(second)] + [DigestAt(third)];
    ThreeDigests(first, received, second, third);
    EndAt(HistoryOf(events).db.digests, 0);
  }

  /** Stored behind last_digest_at, yet reported: a window that ends early lets the next one start before the row. */
  lemma ClockGoingBackReportsLateRow(first: nat, received: nat, second: nat, third: nat)
    requires Plausible(first) && Plausible(second) && Plausible(third)
    requires second <= received < first && received < third && second != ZERO_TIME
    ensures Exec(EMPTY, DigestThenRow(first, received) + [DigestAt(second)] + [DigestAt(third)]).Some?
    ensures var h := HistoryOf(DigestThenRow(first, received) + [DigestAt(second)] + [DigestAt(third)]);
      && |h.db.emails| == 1 && h.arrival == [1] && |h.db.digests| == 3 && |h.log| == 3
      && received < SecondsOf(h.db.digests[0].windowEnd) && Reported(TrailOf(h), 0, 2)
  {
    FirstEndsAfterRow(first, received, second, third);
    ThirdReports(first, received, second, third);
  }

  // ----- a mail that went out and was not recorded

  /** A digest whose mail goes out and whose record fails. */
  function MailedAt(seconds: nat): Event
    requires seconds >= WEEK
  {
    Digest(At(seconds), At(seconds - WEEK), MailedOnly)
  }

  predicate WithinWeek(received: nat, seconds: nat) {
    seconds - WEEK <= received < seconds
  }

  /** One row and nothing recorded yet; the mails so far. */
  ghost predicate Unrecorded(h: History, received: nat, mails: seq<Mail>) {
    && h.db.digests == [] && |h.db.emails| == 1 && h.db.emails[0].receivedAt == FormatTime(At(received)) && h.mails == mails
  }

  /** The mail a digest sends while nothing is recorded: one week up to now. */
  lemma FirstWindowTexts(db: Db, seconds: nat, completed: bool)
    requires StateIsLastEnd(db) && db.digests == [] && seconds >= WEEK
    ensures LastDigestAt(db).Ok?
    ensures var m := MailFor(db, At(seconds), At(seconds - WEEK), completed);
      && m.windowStart == FormatTime(At(seconds - WEEK)) && m.windowEnd == FormatTime(At(seconds))
      && m.stored == |db.emails| && m.completed == completed
  {
    LastDigestIsReadable(db);
  }

  lemma StartsBefore(received: nat, seconds: nat)
    requires Plausible(seconds) && WithinWeek(received, seconds)
    ensures LexLeq(FormatTime(At(seconds - WEEK)), FormatTime(At(received)))
  {
    WholeSeconds(received);
    WholeSeconds(seconds - WEEK);
    FormatTimeOrder(At(received), At(seconds - WEEK));
  }

  lemma EndsAfter(received: nat, seconds: nat)
    requires Plausible(seconds) && WithinWeek(received, seconds)
    ensures LexLess(FormatTime(At(received)), FormatTime(At(seconds)))
  {
    WholeSeconds(received);
    WholeSeconds(seconds);
    FormatTimeOrder(At(received), At(seconds));
  }

  lemma WeekHolds(m: Mail, row: Row, received: nat, seconds: nat)
    requires Plausible(seconds) && WithinWeek(received, seconds) && row.receivedAt == FormatTime(At(received))
    requires m.windowStart == FormatTime(At(seconds - WEEK)) && m.windowEnd == FormatTime(At(seconds))
    ensures MailHolds(m, row)
  {
    StartsBefore(received, seconds);
    EndsAfter(received, seconds);
  }

  lemma MailGoesOut(h: History, received: nat, seconds: nat)
    requires StateIsLastEnd(h.db) && Unrecorded(h, received, []) && Plausible(seconds) && WithinWeek(received, seconds)
    ensures Step(h, MailedAt(seconds)).Some?
    ensures var h' := Step(h, MailedAt(seconds)).value;
      && |h'.mails| == 1 && Unrecorded(h', received, [h'.mails[0]])
      && h'.mails[0].stored == 1 && !h'.mails[0].completed && MailHolds(h'.mails[0], h'.db.emails[0])
  {
    PlausibleDigest(seconds);
    FirstWindowTexts(h.db, seconds, false);
    MailIs(h, MailedAt(seconds));
    WeekHolds(MailFor(h.db, At(seconds), At(seconds - WEEK), false), h.db.emails[0], received, seconds);
  }

  /** Both mails hold the row and were sent with it stored, the first without a record. */
  ghost predicate BothHold(h: History) {
    && |h.db.emails| == 1 && |h.mails| == 2 && !h.mails[0].completed
    && (forall k :: 0 <= k < 2 ==> h.mails[k].stored == 1 && MailHolds(h.mails[k], h.db.emails[0]))
  }

  lemma RecordedMail(h: History, e: Event)
    requires e.Digest? && PlausibleClock(e) && e.sending.Completed? && LastDigestAt(h.db).Ok?
    ensures Step(h, e).Some? && Step(h, e).value.mails == h.mails + [MailFor(h.db, e.windowEnd, e.weekBack, true)]
  {
    MailIs(h, e);
  }

  lemma MailAdded(h: History, received: nat, m: Mail, seconds: nat)
    requires StateIsLastEnd(h.db) && Unrecorded(h, received, [m]) && Plausible(seconds) && WithinWeek(received, seconds)
    ensures Step(h, DigestAt(seconds)).Some? && LastDigestAt(h.db).Ok?
    ensures var more := MailFor(h.db, At(seconds), At(seconds - WEEK), true);
      && Step(h, DigestAt(seconds)).value.mails == [m] + [more]
      && more.stored == 1 && MailHolds(more, h.db.emails[0])
  {
    PlausibleDigest(seconds);
    FirstWindowTexts(h.db, seconds, true);
    RecordedMail(h, DigestAt(seconds));
    WeekHolds(MailFor(h.db, At(seconds), At(seconds - WEEK), true), h.db.emails[0], received, seconds);
  }

  lemma BothStillHold(h: History, row: Row)
    requires |h.db.emails| == 1 && h.db.emails[0].receivedAt == row.receivedAt && |h.mails| == 2
    requires !h.mails[0].completed && h.mails[0].stored == h.mails[1].stored == 1
    requires MailHolds(h.mails[0], row) && MailHolds(h.mails[1], row)
    ensures BothHold(h)
  {
  }

  lemma MailGoesOutAgain(h: History, received: nat, m: Mail, seconds: nat)
    requires StateIsLastEnd(h.db) && Unrecorded(h, received, [m]) && Plausible(seconds) && WithinWeek(received, seconds)
    requires m.stored == 1 && !m.completed && MailHolds(m, h.db.emails[0])
    ensures Step(h, DigestAt(seconds)).Some? && BothHold(Step(h, DigestAt(seconds)).value)
  {
    MailAdded(h, received, m, seconds);
    DigestHappens(h, seconds);
    BothStillHold(Step(h, DigestAt(seconds)).value, h.db.emails[0]);
  }

  function MailedThenSent(received: nat, first: nat, second: nat): seq<Event>
    requires first >= WEEK && second >= WEEK
  {
    [Insert(MailOf(received))] + [MailedAt(first)] + [DigestAt(second)]
  }

  lemma RowAlone(received: nat)
    ensures Exec(EMPTY, [Insert(MailOf(received))]).Some?
    ensures Unrecorded(HistoryOf([Insert(MailOf(received))]), received, [])
  {
    ExecLast([], Insert(MailOf(received)));
    assert [] + [Insert(MailOf(received))] == [Insert(MailOf(received))];
    FirstRow(EMPTY, received);
  }

  lemma FirstMail(received: nat, first: nat)
    requires Plausible(first) && WithinWeek(received, first)
    ensures Exec(EMPTY, [Insert(MailOf(received))] + [MailedAt(first)]).Some?
    ensures var h := HistoryOf([Insert(MailOf(received))] + [MailedAt(first)]);
      && |h.mails| == 1 && Unrecorded(h, received, [h.mails[0]])
      && h.mails[0].stored == 1 && !h.mails[0].completed && MailHolds(h.mails[0], h.db.emails[0])
  {
    var events := [Insert(MailOf(received))];
    RowAlone(received);
    EveryHistory(events);
    ExecLast(events, MailedAt(first));
    MailGoesOut(HistoryOf(events), received, first);
  }

  lemma SecondMail(received: nat, first: nat, second: nat)
    requires Plausible(first) && Plausible(second) && WithinWeek(received, first) && WithinWeek(received, second)
    ensures Exec(EMPTY, MailedThenSent(received, first, second)).Some?
    ensures BothHold(HistoryOf(MailedThenSent(received, first, second)))
  {
    var events := [Insert(MailOf(received))] + [MailedAt(first)];
    FirstMail(received, first);
    EveryHistory(events);
    ExecLast(events, DigestAt(second));
    MailGoesOutAgain(HistoryOf(events), received, HistoryOf(events).mails[0], second);
  }

  lemma BothList(h: History)
    requires MailInvOf(h) && BothHold(h)
    ensures Lists(h.mails[0], 0) && Lists(h.mails[1], 0)
  {
    ListedIs(h.db.emails, h.mails, 0, 0);
    ListedIs(h.db.emails, h.mails, 0, 1);
  }

  /** A row in the week before both digests, the first of which is not recorded: both mails list it. */
  lemma RowMailedTwice(received: nat, first: nat, second: nat)
    requires Plausible(first) && Plausible(second) && WithinWeek(received, first) && WithinWeek(received, second)
    ensures Exec(EMPTY, MailedThenSent(received, first, second)).Some?
    ensures var h := HistoryOf(MailedThenSent(received, first, second));
      && |h.db.emails| == 1 && |h.mails| == 2 && Lists(h.mails[0], 0) && Lists(h.mails[1], 0)
  {
    SecondMail(received, first, second);
    EveryMail(MailedThenSent(received, first, second));
    BothList(HistoryOf(MailedThenSent(received, first, second)));
  }
}

/** Which rows are reported, by which digest, and which never are. */
module DigestResults {
  import opened Common
  import opened Text
  import opened Timestamps
  import opened Database
  import opened Digests

  // ----- stored times as numbers

  /** The instant, in seconds, that a stored text denotes. */
  function SecondsOf(s: string): nat {
    match ParseTime(s)
    case None => 0
    case Some(n) => n
  }

  lemma StampOrder(a: string, b: string)
    requires Stamped(a) && Stamped(b)
    ensures LexLess(a, b) <==> SecondsOf(a) < SecondsOf(b)
  {
    var t: Instant :| FourDigitYear(t) && a == FormatTime(t);
    var u: Instant :| FourDigitYear(u) && b == FormatTime(u);
    FormatTimeOrder(t, u);
    FormatTimeRoundTrip(t);
    FormatTimeRoundTrip(u);
  }

  ghost predicate AllStamped(digests: seq<DigestRow>) {
    forall k :: 0 <= k < |digests| ==> Stamped(digests[k].windowStart) && Stamped(digests[k].windowEnd)
  }

  lemma EarlierHasFourDigitYear(t: Instant, u: Instant)
    requires Seconds(t) < Seconds(u) && FourDigitYear(u)
    ensures FourDigitYear(t) && Stamped(FormatTime(t))
  {
  }

  lemma StartIsStamped(db: Db, windowEnd: Instant, weekBack: Instant)
    requires StateIsLastEnd(db) && FourDigitYear(windowEnd) && Seconds(weekBack) < Seconds(windowEnd)
    ensures LastDigestAt(db).Ok? && Stamped(StartText(db, weekBack))
    ensures Stamped(FormatTime(windowEnd))
  {
    LastDigestIsReadable(db);
    EarlierHasFourDigitYear(weekBack, windowEnd);
  }

  /** One event adds at most one digest record, whose window is the chained one. */
  lemma StepDigests(h: History, e: Event)
    requires Step(h, e).Some?
    ensures Step(h, e).value.db.digests != h.db.digests ==>
      && e.Digest? && LastDigestAt(h.db).Ok? && PlausibleClock(e)
      && var start, end := StartText(h.db, e.weekBack), FormatTime(e.windowEnd);
         Step(h, e).value.db.digests == h.db.digests + [DigestRow(end, start, end, |DueIds(h.db, e.windowEnd, e.weekBack)|)]
  {
  }

  lemma AppendStamped(digests: seq<DigestRow>, d: DigestRow)
    requires AllStamped(digests) && Stamped(d.windowStart) && Stamped(d.windowEnd)
    ensures AllStamped(digests + [d])
  {
    var all := digests + [d];
    forall k | 0 <= k < |all|
      ensures Stamped(all[k].windowStart) && Stamped(all[k].windowEnd)
    {
      assert all[k] == if k < |digests| then digests[k] else d;
    }
  }

  lemma StepKeepsStamps(h: History, e: Event)
    requires StateIsLastEnd(h.db) && AllStamped(h.db.digests) && Step(h, e).Some?
    ensures AllStamped(Step(h, e).value.db.digests)
  {
    StepDigests(h, e);
    if Step(h, e).value.db.digests != h.db.digests {
      StartIsStamped(h.db, e.windowEnd, e.weekBack);
      var all := Step(h, e).value.db.digests;
      assert all == h.db.digests + [all[|h.db.digests|]];
      AppendStamped(h.db.digests, all[|h.db.digests|]);
    }
  }

  lemma {:induction false} WindowsAreStamped(events: seq<Event>)
    requires Exec(EMPTY, events).Some?
    ensures AllStamped(Exec(EMPTY, events).value.db.digests)
  {
    if events != [] {
      var last := |events| - 1;
      WindowsAreStamped(events[..last]);
      EveryHistory(events[..last]);
      StepKeepsStamps(Exec(EMPTY, events[..last]).value, events[last]);
    }
  }

  // ----- the exact result, under any clock

  /**
   A digest reports a row exactly when it is the first digest completed since the row
   was stored whose window contains the row's received_at. The clock may do anything.
   */
  lemma ReportedExactlyWhenFirstInside(events: seq<Event>, i: nat, k: nat)
    requires Exec(EMPTY, events).Some?
    requires var t := TrailOf(Exec(EMPTY, events).value); i < |t.emails| && k < |t.log|
    ensures var t := TrailOf(Exec(EMPTY, events).value);
      && Aligned(t) && (Reported(t, i, k) <==> FirstInside(t, i, k))
      && (Reported(t, i, k) ==> t.emails[i].digestedAt == Some(t.digests[k].sentAt))
  {
    EveryHistory(events);
  }

  /** A row is unreported exactly when no window completed since it was stored contains it. */
  lemma UnreportedExactlyWhenNeverInside(events: seq<Event>, i: nat)
    requires Exec(EMPTY, events).Some? && i < |Exec(EMPTY, events).value.db.emails|
    ensures var t := TrailOf(Exec(EMPTY, events).value);
      && Aligned(t) && (t.emails[i].digestedAt.None? <==> NeverInside(t, i))
      && (NeverInside(t, i) <==> forall k :: 0 <= k < |t.log| ==> !Reported(t, i, k))
  {
    EveryHistory(events);
    var t := TrailOf(Exec(EMPTY, events).value);
    PendingIffNeverInside(t, i);
    if NeverInside(t, i) {
      forall k | 0 <= k < |t.log|
        ensures !Reported(t, i, k)
      {
        assert !FirstInside(t, i, k);
      }
    }
    if forall k :: 0 <= k < |t.log| ==> !Reported(t, i, k) {
      assert t.emails[i].digestedAt.None?;
    }
  }

  ghost predicate ReportedAtMostOnce(t: Trail) {
    forall i, j, k :: 0 <= i < |t.emails| && 0 <= j < k < |t.log| ==> !(Reported(t, i, j) && Reported(t, i, k))
  }

  lemma FirstIsOnlyOne(t: Trail)
    requires Aligned(t) && ReportedIsFirstInside(t)
    ensures ReportedAtMostOnce(t)
  {
    forall i, j, k | 0 <= i < |t.emails| && 0 <= j < k < |t.log|
      ensures !(Reported(t, i, j) && Reported(t, i, k))
    {
      assert !(FirstInside(t, i, j) && FirstInside(t, i, k));
    }
  }

  /**
   No row is reported twice, in one digest or in two; the recorded counts add up to the
   number of marked rows; each marked row has the record of a digest that was sent at
   its digested_at and whose window contains its received_at.
   */
  lemma DigestsAreConserved(events: seq<Event>)
    requires Exec(EMPTY, events).Some?
    ensures var t := TrailOf(Exec(EMPTY, events).value);
      && Aligned(t)
      && TotalCount(t.digests) == DigestedCount(t.emails)
      && ReportedAtMostOnce(t) && ListsAreSound(t)
      && forall i :: 0 <= i < |t.emails| && t.emails[i].digestedAt.Some? ==>
           exists k :: 0 <= k < |t.log| && Reported(t, i, k) && Inside(t.emails[i], t.digests[k])
                       && t.digests[k].sentAt == t.emails[i].digestedAt.value
  {
    EveryHistory(events);
    var t := TrailOf(Exec(EMPTY, events).value);
    FirstIsOnlyOne(t);
    forall i | 0 <= i < |t.emails| && t.emails[i].digestedAt.Some?
      ensures exists k :: 0 <= k < |t.log| && Reported(t, i, k) && Inside(t.emails[i], t.digests[k])
                          && t.digests[k].sentAt == t.emails[i].digestedAt.value
    {
      var k :| 0 <= k < |t.log| && Reported(t, i, k);
      assert FirstInside(t, i, k);
    }
  }

  /** Each window starts where the one before it ended, unless that was the zero time. */
  lemma WindowsTile(events: seq<Event>, k: nat)
    requires Exec(EMPTY, events).Some? && 0 < k < |Exec(EMPTY, events).value.db.digests|
    ensures var digests := Exec(EMPTY, events).value.db.digests;
      !EndsAtZero(digests[k - 1]) ==>
        && digests[k].windowStart == digests[k - 1].windowEnd
        && SecondsOf(digests[k].windowStart) == SecondsOf(digests[k - 1].windowEnd)
  {
    EveryHistory(events);
  }

  // ----- crossings: the exact result read off the window ends

  /** last_digest_at when row i was stored, or the start of the very first window. */
  function Entry(t: Trail, i: nat): string
    requires Aligned(t) && i < |t.emails| && t.digests != []
  {
    if t.arrival[i] == 0 then t.digests[0].windowStart else t.digests[t.arrival[i] - 1].windowEnd
  }

  /** The digest before row i arrived, the first whose end matters to it. */
  function EntryIndex(t: Trail, i: nat): nat
    requires i < |t.arrival|
  {
    if t.arrival[i] == 0 then 0 else t.arrival[i] - 1
  }

  /** No window from row i's entry up to digest k ends at the zero time. */
  predicate NonzeroUpTo(t: Trail, i: nat, k: nat)
    requires Aligned(t) && i < |t.emails| && k <= |t.log|
  {
    forall j :: EntryIndex(t, i) <= j < k ==> !EndsAtZero(t.digests[j])
  }

  /** Digest k is the first since row i arrived whose window ends after its received_at. */
  ghost predicate Crosses(t: Trail, i: nat, k: nat)
    requires Aligned(t) && i < |t.emails| && k < |t.log|
  {
    && t.arrival[i] <= k
    && LexLess(t.emails[i].receivedAt, t.digests[k].windowEnd)
    && forall j :: t.arrival[i] <= j < k ==> LexLeq(t.digests[j].windowEnd, t.emails[i].receivedAt)
  }

  /** Walking from the row's arrival, some digest is the first to end after it. */
  lemma {:induction false} FirstCrossing(t: Trail, i: nat, j: nat) returns (k: nat)
    requires Aligned(t) && i < |t.emails| && t.arrival[i] <= j < |t.log|
    requires LexLess(t.emails[i].receivedAt, t.digests[j].windowEnd)
    ensures k <= j && Crosses(t, i, k)
    decreases j
  {
    if m :| t.arrival[i] <= m < j && LexLess(t.emails[i].receivedAt, t.digests[m].windowEnd) {
      k := FirstCrossing(t, i, m);
    } else {
      k := j;
    }
  }

  /** Before the crossing every end is at or before the row, so the crossing window has started. */
  lemma CrossingIsInside(t: Trail, i: nat, k: nat)
    requires Aligned(t) && Chained(t.digests) && i < |t.emails| && k < |t.log| && NonzeroUpTo(t, i, k)
    requires LexLeq(Entry(t, i), t.emails[i].receivedAt) && Crosses(t, i, k)
    ensures FirstInside(t, i, k)
  {
    LexTrichotomy(t.emails[i].receivedAt, t.emails[i].receivedAt);
    if k > 0 {
      assert !EndsAtZero(t.digests[k - 1]);
      if t.arrival[i] < k {
        assert LexLeq(t.digests[k - 1].windowEnd, t.emails[i].receivedAt);
      }
    }
    forall j | t.arrival[i] <= j < k
      ensures !Inside(t.emails[i], t.digests[j])
    {
      LexTrichotomy(t.digests[j].windowEnd, t.emails[i].receivedAt);
    }
  }

  /** A row not behind its entry is first contained by the window that crosses it. */
  lemma FirstInsideIffCrosses(t: Trail, i: nat, k: nat)
    requires Aligned(t) && Chained(t.digests) && i < |t.emails| && k < |t.log| && NonzeroUpTo(t, i, k)
    requires t.digests != [] && LexLeq(Entry(t, i), t.emails[i].receivedAt)
    ensures FirstInside(t, i, k) <==> Crosses(t, i, k)
  {
    if Crosses(t, i, k) {
      CrossingIsInside(t, i, k);
    }
    if FirstInside(t, i, k) {
      var m := FirstCrossing(t, i, k);
      CrossingIsInside(t, i, m);
    }
  }

  /** The text and the second of a row's received_at. */
  predicate ReceivedIn(row: Row, received: Instant) {
    row.receivedAt == FormatTime(received) && FourDigitYear(received)
  }

  lemma ReceivedOrder(row: Row, received: Instant, bound: string)
    requires ReceivedIn(row, received) && Stamped(bound)
    ensures LexLess(row.receivedAt, bound) <==> Seconds(received) < SecondsOf(bound)
    ensures LexLeq(bound, row.receivedAt) <==> SecondsOf(bound) <= Seconds(received)
  {
    FormatTimeRoundTrip(received);
    assert Stamped(row.receivedAt);
    StampOrder(row.receivedAt, bound);
  }

  lemma EntryIsStamped(t: Trail, i: nat)
    requires Aligned(t) && AllStamped(t.digests) && i < |t.emails| && t.digests != []
    ensures Stamped(Entry(t, i))
  {
  }

  lemma CrossingOfRow(t: Trail, i: nat, received: Instant, j: nat) returns (k: nat)
    requires Aligned(t) && Chained(t.digests) && AllStamped(t.digests) && i < |t.emails| && ReceivedIn(t.emails[i], received)
    requires t.arrival[i] <= j < |t.log| && NonzeroUpTo(t, i, j)
    requires SecondsOf(Entry(t, i)) <= Seconds(received) < SecondsOf(t.digests[j].windowEnd)
    ensures t.arrival[i] <= k <= j && FirstInside(t, i, k) && Crosses(t, i, k)
  {
    EntryIsStamped(t, i);
    ReceivedOrder(t.emails[i], received, Entry(t, i));
    ReceivedOrder(t.emails[i], received, t.digests[j].windowEnd);
    k := FirstCrossing(t, i, j);
    CrossingIsInside(t, i, k);
  }

  lemma OnlyFirstReports(t: Trail, i: nat, k: nat)
    requires TrailInv(t) && i < |t.emails| && k < |t.log| && FirstInside(t, i, k)
    ensures Reported(t, i, k) && t.emails[i].digestedAt == Some(t.digests[k].sentAt)
    ensures forall m :: 0 <= m < |t.log| && Reported(t, i, m) ==> m == k
  {
    assert Reported(t, i, k);
    FirstIsOnlyOne(t);
  }

  lemma InsideInSeconds(t: Trail, i: nat, received: Instant, k: nat)
    requires AllStamped(t.digests) && i < |t.emails| && k < |t.digests| && ReceivedIn(t.emails[i], received)
    requires Inside(t.emails[i], t.digests[k])
    ensures SecondsOf(t.digests[k].windowStart) <= Seconds(received) < SecondsOf(t.digests[k].windowEnd)
  {
    ReceivedOrder(t.emails[i], received, t.digests[k].windowStart);
    ReceivedOrder(t.emails[i], received, t.digests[k].windowEnd);
  }

  /**
   A row received at or after the start of the first window open to it, last_digest_at
   when it was stored, is in exactly one completed digest as soon as any later completed
   window ends after it: the first such one. The clock may have run backwards between;
   only ends from that start up to the later window must not be the zero time.
   */
  lemma ReportedExactlyOnce(events: seq<Event>, i: nat, received: Instant, j: nat) returns (k: nat)
    requires Exec(EMPTY, events).Some?
    requires var t := TrailOf(Exec(EMPTY, events).value);
      && Aligned(t) && i < |t.emails| && t.emails[i].receivedAt == FormatTime(received) && FourDigitYear(received)
      && t.arrival[i] <= j < |t.log| && NonzeroUpTo(t, i, j)
      && SecondsOf(Entry(t, i)) <= Seconds(received) < SecondsOf(t.digests[j].windowEnd)
    ensures var t := TrailOf(Exec(EMPTY, events).value);
      && t.arrival[i] <= k <= j && Reported(t, i, k) && Crosses(t, i, k)
      && SecondsOf(t.digests[k].windowStart) <= Seconds(received) < SecondsOf(t.digests[k].windowEnd)
      && t.emails[i].digestedAt == Some(t.digests[k].sentAt)
      && forall m :: 0 <= m < |t.log| && Reported(t, i, m) ==> m == k
  {
    var t := TrailOf(Exec(EMPTY, events).value);
    EveryHistory(events);
    WindowsAreStamped(events);
    k := CrossingOfRow(t, i, received, j);
    OnlyFirstReports(t, i, k);
    InsideInSeconds(t, i, received, k);
  }

  /**
   The next window starts at the stored end, whatever the location's week back, exactly
   when that end is not Go's zero time, which the source takes for "no digest yet".
   */
  lemma ChainedExactlyWhenNonzero(db: Db)
    requires StateIsLastEnd(db) && db.digests != []
    ensures LastDigestAt(db).Ok?
    ensures (forall weekBack: Instant :: FormatTime(WindowStart(LastDigestAt(db).value, weekBack)) == db.digests[|db.digests| - 1].windowEnd)
            <==> db.digests[|db.digests| - 1].windowEnd != FormatSeconds(ZERO_TIME)
  {
    LastDigestIsReadable(db);
    var end := db.digests[|db.digests| - 1].windowEnd;
    WholeSeconds(ZERO_TIME);
    if LastDigestAt(db).value == ZERO_TIME {
      assert FormatTime(ZERO_TIME * NANOS_PER_SECOND) == end;
      FormatTimeOrder(0, ZERO_TIME * NANOS_PER_SECOND);
      assert FormatTime(WindowStart(LastDigestAt(db).value, 0)) != end;
    } else {
      var t: Instant :| FourDigitYear(t) && end == FormatTime(t);
      FormatTimeRoundTrip(t);
      FormatSecondsOrder(Seconds(t), ZERO_TIME);
    }
  }

  // ----- a forward clock: the rows that are left behind

  /** Since row i's entry the clock never went back nor read the zero time. */
  predicate ForwardSince(t: Trail, i: nat)
    requires Aligned(t) && i < |t.emails|
  {
    && (forall j, k :: EntryIndex(t, i) <= j < k < |t.digests| ==> LexLeq(t.digests[j].windowEnd, t.digests[k].windowEnd))
    && (forall j :: EntryIndex(t, i) <= j < |t.digests| - 1 ==> !EndsAtZero(t.digests[j]))
  }

  lemma LexLeqTransitive(a: string, b: string, c: string)
    requires LexLeq(a, b) && LexLeq(b, c)
    ensures LexLeq(a, c)
  {
    LexTrichotomy(a, b);
    LexTrichotomy(b, c);
    if LexLess(a, b) && LexLess(b, c) {
      LexTransitive(a, b, c);
    }
    LexTrichotomy(a, c);
  }

  lemma LexLessLeq(a: string, b: string, c: string)
    requires LexLess(a, b) && LexLeq(b, c)
    ensures LexLess(a, c)
  {
    LexTrichotomy(b, c);
    if LexLess(b, c) {
      LexTransitive(a, b, c);
    }
  }

  /** The first window starts a week before it ends; later ones may be empty or inverted. */
  ghost predicate FirstIsForward(digests: seq<DigestRow>) {
    digests != [] ==> LexLess(digests[0].windowStart, digests[0].windowEnd)
  }

  lemma FirstStartIsEarlier(db: Db, windowEnd: Instant, weekBack: Instant)
    requires StateIsLastEnd(db) && db.digests == [] && FourDigitYear(windowEnd) && Seconds(weekBack) < Seconds(windowEnd)
    ensures LastDigestAt(db).Ok? && LexLess(StartText(db, weekBack), FormatTime(windowEnd))
  {
    LastDigestIsReadable(db);
    EarlierHasFourDigitYear(weekBack, windowEnd);
    FormatTimeOrder(weekBack, windowEnd);
  }

  lemma StepKeepsForward(h: History, e: Event)
    requires StateIsLastEnd(h.db) && FirstIsForward(h.db.digests) && Step(h, e).Some?
    ensures FirstIsForward(Step(h, e).value.db.digests)
  {
    StepDigests(h, e);
    if Step(h, e).value.db.digests != h.db.digests && h.db.digests == [] {
      FirstStartIsEarlier(h.db, e.windowEnd, e.weekBack);
    }
  }

  lemma {:induction false} FirstWindowIsForward(events: seq<Event>)
    requires Exec(EMPTY, events).Some?
    ensures FirstIsForward(Exec(EMPTY, events).value.db.digests)
  {
    if events != [] {
      var last := |events| - 1;
      FirstWindowIsForward(events[..last]);
      EveryHistory(events[..last]);
      StepKeepsForward(Exec(EMPTY, events[..last]).value, events[last]);
    }
  }

  /** On a forward clock a row's entry is no later than any end completed since it arrived. */
  lemma EntryIsBeforeEnd(t: Trail, i: nat, k: nat)
    requires Aligned(t) && i < |t.emails| && ForwardSince(t, i) && FirstIsForward(t.digests)
    requires k < |t.log| && t.arrival[i] <= k + 1
    ensures LexLeq(Entry(t, i), t.digests[k].windowEnd)
  {
    var first := EntryIndex(t, i);
    LexTrichotomy(t.digests[k].windowEnd, t.digests[k].windowEnd);
    assert LexLeq(t.digests[first].windowEnd, t.digests[k].windowEnd);
    if t.arrival[i] == 0 {
      LexTrichotomy(t.digests[0].windowStart, t.digests[0].windowEnd);
      LexLeqTransitive(Entry(t, i), t.digests[0].windowEnd, t.digests[k].windowEnd);
    }
  }

  /** So every window open to the row starts no earlier than its entry. */
  lemma EntryIsBeforeStart(t: Trail, i: nat, k: nat)
    requires Aligned(t) && Chained(t.digests) && i < |t.emails| && ForwardSince(t, i) && FirstIsForward(t.digests)
    requires t.arrival[i] <= k < |t.log|
    ensures LexLeq(Entry(t, i), t.digests[k].windowStart)
  {
    if k == 0 {
      LexTrichotomy(Entry(t, i), Entry(t, i));
    } else {
      EntryIsBeforeEnd(t, i, k - 1);
    }
  }

  /** A row behind its entry is in no window. */
  lemma BehindIsNeverInside(t: Trail, i: nat)
    requires Aligned(t) && Chained(t.digests) && i < |t.emails| && ForwardSince(t, i) && FirstIsForward(t.digests)
    requires t.digests != [] && LexLess(t.emails[i].receivedAt, Entry(t, i))
    ensures NeverInside(t, i)
    ensures LexLess(t.emails[i].receivedAt, t.digests[|t.log| - 1].windowEnd)
  {
    forall k | t.arrival[i] <= k < |t.log|
      ensures !Inside(t.emails[i], t.digests[k])
    {
      EntryIsBeforeStart(t, i, k);
      LexLessLeq(t.emails[i].receivedAt, Entry(t, i), t.digests[k].windowStart);
      LexTrichotomy(t.emails[i].receivedAt, t.digests[k].windowStart);
    }
    EntryIsBeforeEnd(t, i, |t.log| - 1);
    LexLessLeq(t.emails[i].receivedAt, Entry(t, i), t.digests[|t.log| - 1].windowEnd);
  }

  /** A row in no window that the last end has passed is behind its entry. */
  lemma NeverInsideIsBehind(t: Trail, i: nat)
    requires Aligned(t) && Chained(t.digests) && i < |t.emails| && ForwardSince(t, i) && NeverInside(t, i)
    requires t.digests != [] && LexLess(t.emails[i].receivedAt, t.digests[|t.log| - 1].windowEnd)
    ensures LexLess(t.emails[i].receivedAt, Entry(t, i))
  {
    LexTrichotomy(t.emails[i].receivedAt, Entry(t, i));
    if LexLeq(Entry(t, i), t.emails[i].receivedAt) && t.arrival[i] < |t.log| {
      var k := FirstCrossing(t, i, |t.log| - 1);
      CrossingIsInside(t, i, k);
    }
  }

  /**
   On a forward clock the rows left behind, unmarked although a completed window ends
   after them, are exactly those received before their entry: inserted after their
   window had closed, or older than the start of the first completed window.
   */
  lemma UnreportedRowsExactly(events: seq<Event>, i: nat)
    requires Exec(EMPTY, events).Some?
    requires var t := TrailOf(Exec(EMPTY, events).value);
      Aligned(t) && i < |t.emails| && t.digests != [] && ForwardSince(t, i)
    ensures var t := TrailOf(Exec(EMPTY, events).value);
      (t.emails[i].digestedAt.None? && LexLess(t.emails[i].receivedAt, t.digests[|t.log| - 1].windowEnd))
      <==> LexLess(t.emails[i].receivedAt, Entry(t, i))
  {
    EveryHistory(events);
    FirstWindowIsForward(events);
    var t := TrailOf(Exec(EMPTY, events).value);
    PendingIffNeverInside(t, i);
    if LexLess(t.emails[i].receivedAt, Entry(t, i)) {
      BehindIsNeverInside(t, i);
    } else if NeverInside(t, i) && LexLess(t.emails[i].receivedAt, t.digests[|t.log| - 1].windowEnd) {
      NeverInsideIsBehind(t, i);
    }
  }

  // ----- such a row stays unreported for ever

  /** later extends earlier: old rows keep their time and arrival, old digests their record. */
  ghost predicate Extends(earlier: History, later: History) {
    && |earlier.db.emails| <= |later.db.emails| && earlier.arrival <= later.arrival
    && earlier.db.digests <= later.db.digests
    && |earlier.arrival| == |earlier.db.emails|
    && forall i :: 0 <= i < |earlier.db.emails| ==> later.db.emails[i].receivedAt == earlier.db.emails[i].receivedAt
  }

  lemma StepExtends(h: History, e: Event)
    requires |h.arrival| == |h.db.emails| && Step(h, e).Some?
    ensures Extends(h, Step(h, e).value)
  {
  }

  lemma {:induction false} ExecExtends(h: History, events: seq<Event>)
    requires |h.arrival| == |h.db.emails| && Exec(h, events).Some?
    ensures Extends(h, Exec(h, events).value)
    ensures |Exec(h, events).value.arrival| == |Exec(h, events).value.db.emails|
  {
    if events != [] {
      var last := |events| - 1;
      ExecExtends(h, events[..last]);
      StepExtends(Exec(h, events[..last]).value, events[last]);
      var mid, end := Exec(h, events[..last]).value, Exec(h, events).value;
      StepKeepsLengths(mid, events[last]);
    }
  }

  lemma StepKeepsLengths(h: History, e: Event)
    requires |h.arrival| == |h.db.emails| && Step(h, e).Some?
    ensures |Step(h, e).value.arrival| == |Step(h, e).value.db.emails|
  {
  }

  lemma {:induction false} ExecConcat(h: History, a: seq<Event>, b: seq<Event>)
    requires Exec(h, a).Some? && Exec(Exec(h, a).value, b).Some?
    ensures Exec(h, a + b) == Exec(Exec(h, a).value, b)
  {
    if b == [] {
      assert a + b == a;
    } else {
      var last := |b| - 1;
      ExecConcat(h, a, b[..last]);
      assert (a + b)[..|a + b| - 1] == a + b[..last];
    }
  }

  lemma EntryStays(h: History, h': History, i: nat)
    requires Extends(h, h') && Aligned(TrailOf(h)) && Aligned(TrailOf(h'))
    requires i < |h.db.emails| && h.db.digests != []
    ensures Entry(TrailOf(h'), i) == Entry(TrailOf(h), i)
    ensures h'.db.emails[i].receivedAt == h.db.emails[i].receivedAt
  {
  }

  /** Once behind, never reported: in no continuation on a forward clock is the row in a digest. */
  lemma BehindForever(before: seq<Event>, i: nat, after: seq<Event>)
    requires Exec(EMPTY, before).Some? && Exec(Exec(EMPTY, before).value, after).Some?
    requires var t := TrailOf(Exec(EMPTY, before).value);
      Aligned(t) && i < |t.emails| && t.digests != [] && LexLess(t.emails[i].receivedAt, Entry(t, i))
    requires var t' := TrailOf(Exec(Exec(EMPTY, before).value, after).value);
      Aligned(t') && i < |t'.emails| && ForwardSince(t', i)
    ensures var t' := TrailOf(Exec(Exec(EMPTY, before).value, after).value);
      t'.emails[i].digestedAt.None? && forall k :: 0 <= k < |t'.log| ==> !Reported(t', i, k)
  {
    var h := Exec(EMPTY, before).value;
    var h' := Exec(h, after).value;
    EveryHistory(before);
    ExecExtends(h, after);
    ExecConcat(EMPTY, before, after);
    EveryHistory(before + after);
    FirstWindowIsForward(before + after);
    EntryStays(h, h', i);
    BehindIsNeverInside(TrailOf(h'), i);
    UnreportedExactlyWhenNeverInside(before + after, i);
  }

  lemma LatestReport(t: Trail, ids: seq<nat>, start: string, end: string, i: nat)
    requires Picks(t.emails, ids, start, end) && i < |t.emails|
    ensures Reported(WithDigest(t, ids, start, end), i, |t.log|) <==> InWindow(t.emails[i], start, end)
  {
  }

  lemma NextDigestReports(h: History, i: nat, e: Event)
    requires ValidDb(h.db) && LastDigestAt(h.db).Ok?
    requires i < |h.db.emails| && e.Digest? && PlausibleClock(e) && e.sending.Completed?
    ensures Step(h, e).Some? && |Step(h, e).value.log| == |h.log| + 1
    ensures Reported(TrailOf(Step(h, e).value), i, |h.log|) <==>
            InWindow(h.db.emails[i], StartText(h.db, e.weekBack), FormatTime(e.windowEnd))
  {
    var start, end := StartText(h.db, e.weekBack), FormatTime(e.windowEnd);
    PendingPicks(h.db, start, end);
    LatestReport(TrailOf(h), DueIds(h.db, e.windowEnd, e.weekBack), start, end, i);
    CompletedIs(h, e);
    assert TrailOf(Step(h, e).value) == WithDigest(TrailOf(h), DueIds(h.db, e.windowEnd, e.weekBack), start, end);
  }

  lemma WindowBySeconds(received: Instant, start: string, windowEnd: Instant)
    requires FourDigitYear(received) && FourDigitYear(windowEnd) && Stamped(start)
    ensures LexLeq(start, FormatTime(received)) && LexLess(FormatTime(received), FormatTime(windowEnd)) <==>
            SecondsOf(start) <= Seconds(received) < Seconds(windowEnd)
  {
    var r := FormatTime(received);
    FormatTimeOrder(received, windowEnd);
    assert Stamped(r);
    StampOrder(r, start);
    FormatTimeRoundTrip(received);
  }

  /** last_digest_at is the end of the last completed window, in seconds. */
  lemma LastEndInSeconds(db: Db)
    requires StateIsLastEnd(db) && db.digests != []
    ensures LastDigestAt(db) == Ok(SecondsOf(db.digests[|db.digests| - 1].windowEnd))
  {
    var t: Instant :| FourDigitYear(t) && db.digests[|db.digests| - 1].windowEnd == FormatTime(t);
    FormatTimeRoundTrip(t);
  }

  lemma ZeroEndInSeconds(d: DigestRow)
    requires Stamped(d.windowEnd)
    ensures EndsAtZero(d) <==> SecondsOf(d.windowEnd) == ZERO_TIME
  {
    var t: Instant :| FourDigitYear(t) && d.windowEnd == FormatTime(t);
    FormatTimeRoundTrip(t);
    FormatSecondsOrder(Seconds(t), ZERO_TIME);
  }

  /** A stored row lies inside a window exactly when its second does. */
  lemma InsideBySeconds(row: Row, d: DigestRow, received: Instant)
    requires row.receivedAt == FormatTime(received) && FourDigitYear(received) && Stamped(d.windowStart) && Stamped(d.windowEnd)
    ensures Inside(row, d) <==> SecondsOf(d.windowStart) <= Seconds(received) < SecondsOf(d.windowEnd)
  {
    var end: Instant :| FourDigitYear(end) && d.windowEnd == FormatTime(end);
    WindowBySeconds(received, d.windowStart, end);
    FormatTimeRoundTrip(end);
  }

  /** The next digest starts at the last end, or a week back when the store reports the zero time. */
  function NextStart(db: Db, weekBack: Instant): nat
    requires LastDigestAt(db).Ok?
  {
    if LastDigestAt(db).value == ZERO_TIME then Seconds(weekBack) else LastDigestAt(db).value
  }

  lemma NextStartIs(db: Db, windowEnd: Instant, weekBack: Instant)
    requires StateIsLastEnd(db) && FourDigitYear(windowEnd) && Seconds(weekBack) < Seconds(windowEnd)
    ensures LastDigestAt(db).Ok? && SecondsOf(StartText(db, weekBack)) == NextStart(db, weekBack)
  {
    LastDigestIsReadable(db);
    if LastDigestAt(db).value == ZERO_TIME {
      FormatTimeRoundTrip(weekBack);
    } else {
      var end := db.digests[|db.digests| - 1].windowEnd;
      var t: Instant :| FourDigitYear(t) && end == FormatTime(t);
      FormatTimeRoundTrip(t);
      WholeSeconds(LastDigestAt(db).value);
    }
  }

  /** A pending row is within reach exactly of a digest whose window contains it, the first digest included. */
  lemma PendingRowIsReachable(events: seq<Event>, i: nat, received: Instant, e: Event)
    requires Exec(EMPTY, events).Some?
    requires var db := Exec(EMPTY, events).value.db;
      && i < |db.emails| && db.emails[i].digestedAt.None?
      && db.emails[i].receivedAt == FormatTime(received) && FourDigitYear(received)
    requires e.Digest? && PlausibleClock(e) && e.sending.Completed?
    ensures var h := Exec(EMPTY, events).value;
      && LastDigestAt(h.db).Ok? && Step(h, e).Some? && |Step(h, e).value.log| == |h.log| + 1
      && (Reported(TrailOf(Step(h, e).value), i, |h.log|) <==>
           NextStart(h.db, e.weekBack) <= Seconds(received) < Seconds(e.windowEnd))
  {
    var h := Exec(EMPTY, events).value;
    EveryHistory(events);
    LastDigestIsReadable(h.db);
    NextDigestReports(h, i, e);
    StartIsStamped(h.db, e.windowEnd, e.weekBack);
    NextStartIs(h.db, e.windowEnd, e.weekBack);
    WindowBySeconds(received, StartText(h.db, e.weekBack), e.windowEnd);
  }
}

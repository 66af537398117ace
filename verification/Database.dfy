/** The SQLite database of digestd: emails, synchronization state and digest records. */
module Database {
  import opened Common
  import opened Text
  import opened Decimal
  import opened Timestamps

  /** What the poll job stores about one message. */
  datatype NewEmail = NewEmail(
    uidValidity: Uint32, imapUid: Uint32, messageId: string, receivedAt: Instant, rawPath: string,
    summary: string, inScope: bool, llmStatus: string, processedAt: Instant)

  /** A row of the emails table; NULL is None. */
  datatype Row = Row(
    id: nat, uidValidity: Uint32, imapUid: Uint32, messageId: Option<string>, receivedAt: string, rawPath: string,
    summary: string, inScope: bool, llmStatus: string, processedAt: string, digestedAt: Option<string>)

  datatype DigestRow = DigestRow(sentAt: string, windowStart: string, windowEnd: string, emailCount: nat)

  datatype Db = Db(emails: seq<Row>, state: map<string, string>, digests: seq<DigestRow>)

  const EMPTY_DB := Db([], map[], [])

  function Nullable(s: string): Option<string> {
    if s == "" then None else Some(s)
  }

  // ----- deduplication

  predicate HasKey(row: Row, uidValidity: Uint32, imapUid: Uint32) {
    row.uidValidity == uidValidity && row.imapUid == imapUid
  }

  /** The condition of the EXISTS query. */
  predicate Matches(row: Row, uidValidity: Uint32, imapUid: Uint32, messageId: string) {
    HasKey(row, uidValidity, imapUid) || (messageId != "" && row.messageId == Some(messageId))
  }

  predicate RowExists(rows: seq<Row>, uidValidity: Uint32, imapUid: Uint32, messageId: string) {
    exists i :: 0 <= i < |rows| && Matches(rows[i], uidValidity, imapUid, messageId)
  }

  predicate EmailExists(db: Db, uidValidity: Uint32, imapUid: Uint32, messageId: string) {
    RowExists(db.emails, uidValidity, imapUid, messageId)
  }

  lemma ExistsMeans(db: Db, uidValidity: Uint32, imapUid: Uint32, messageId: string)
    ensures EmailExists(db, uidValidity, imapUid, messageId) <==> exists row ::
              row in db.emails &&
              ((row.uidValidity == uidValidity && row.imapUid == imapUid) || (messageId != "" && row.messageId == Some(messageId)))
  {
    if row :| row in db.emails &&
              ((row.uidValidity == uidValidity && row.imapUid == imapUid) || (messageId != "" && row.messageId == Some(messageId))) {
      var i :| 0 <= i < |db.emails| && db.emails[i] == row;
      assert Matches(db.emails[i], uidValidity, imapUid, messageId);
    }
  }

  /** Two rows that one UNIQUE constraint forbids together; NULLs are distinct. */
  predicate Conflict(a: Row, b: Row) {
    HasKey(a, b.uidValidity, b.imapUid) || (a.messageId.Some? && a.messageId == b.messageId)
  }

  /** Without deletions SQLite numbers rows 1, 2, 3, ... */
  function RowFor(e: NewEmail, id: nat): Row {
    Row(id, e.uidValidity, e.imapUid, Nullable(e.messageId), FormatTime(e.receivedAt), e.rawPath,
        e.summary, e.inScope, if e.llmStatus == "" then "ok" else e.llmStatus, FormatTime(e.processedAt), None)
  }

  /** INSERT ... ON CONFLICT DO NOTHING, and whether a row was added. */
  function InsertEmail(db: Db, e: NewEmail): (Db, bool) {
    var row := RowFor(e, |db.emails| + 1);
    if exists i :: 0 <= i < |db.emails| && Conflict(db.emails[i], row) then (db, false)
    else (db.(emails := db.emails + [row]), true)
  }

  /** Ids count up from one, and no two rows conflict. */
  ghost predicate ValidDb(db: Db) {
    && (forall i :: 0 <= i < |db.emails| ==> db.emails[i].id == i + 1)
    && (forall i, j :: 0 <= i < j < |db.emails| ==> !Conflict(db.emails[i], db.emails[j]))
  }

  /** The insert succeeds exactly when the existence check just before it says no. */
  lemma InsertedIffNew(db: Db, e: NewEmail)
    ensures InsertEmail(db, e).1 <==> !EmailExists(db, e.uidValidity, e.imapUid, e.messageId)
  {
    var row := RowFor(e, |db.emails| + 1);
    forall i | 0 <= i < |db.emails|
      ensures Conflict(db.emails[i], row) <==> Matches(db.emails[i], e.uidValidity, e.imapUid, e.messageId)
    {
    }
  }

  /** Both uniqueness keys survive every insert, and afterwards the message is covered. */
  lemma InsertKeepsValid(db: Db, e: NewEmail)
    requires ValidDb(db)
    ensures ValidDb(InsertEmail(db, e).0)
    ensures EmailExists(InsertEmail(db, e).0, e.uidValidity, e.imapUid, e.messageId)
  {
    var db' := InsertEmail(db, e).0;
    InsertedIffNew(db, e);
    if InsertEmail(db, e).1 {
      assert Matches(db'.emails[|db.emails|], e.uidValidity, e.imapUid, e.messageId);
    }
  }

  /** Messages without a Message-ID never conflict unless validity and UID agree. */
  lemma MissingMessageIdsNeverConflict(db: Db, e: NewEmail)
    requires e.messageId == ""
    ensures InsertEmail(db, e).1 <==>
            forall i :: 0 <= i < |db.emails| ==> !HasKey(db.emails[i], e.uidValidity, e.imapUid)
  {
    InsertedIffNew(db, e);
    forall i | 0 <= i < |db.emails|
      ensures Matches(db.emails[i], e.uidValidity, e.imapUid, "") <==> HasKey(db.emails[i], e.uidValidity, e.imapUid)
    {
    }
  }

  // ----- the state table

  const LAST_DIGEST_KEY := "last_digest_at"

  function ValidityKey(folder: string): string {
    "uid_validity:" + folder
  }

  function UidKey(folder: string): string {
    "last_uid:" + folder
  }

  /** A missing key reads as zero; text that is no uint32 is an error. */
  function StateUint(db: Db, key: string): Result<Uint32> {
    if key !in db.state then Ok(0)
    else match ParseUint32(db.state[key])
      case None => Err
      case Some(n) => Ok(n)
  }

  function LastUid(db: Db, folder: string): Result<(Uint32, Uint32)> {
    match StateUint(db, ValidityKey(folder))
    case Err => Err
    case Ok(validity) =>
      match StateUint(db, UidKey(folder))
      case Err => Err
      case Ok(uid) => Ok((validity, uid))
  }

  function SetLastUid(db: Db, folder: string, uidValidity: Uint32, lastUid: Uint32): Db {
    db.(state := db.state[ValidityKey(folder) := FormatUint(uidValidity)][UidKey(folder) := FormatUint(lastUid)])
  }

  /** The zero time when no digest is recorded, exactly as the source reports it. */
  function LastDigestAt(db: Db): Result<nat> {
    if LAST_DIGEST_KEY !in db.state then Ok(ZERO_TIME)
    else match ParseTime(db.state[LAST_DIGEST_KEY])
      case None => Err
      case Some(seconds) => Ok(seconds)
  }

  /** No two of the three key forms ever coincide, whatever the folder names. */
  lemma KeysNeverCollide(folder: string, other: string)
    ensures ValidityKey(folder) != UidKey(other)
    ensures ValidityKey(folder) != LAST_DIGEST_KEY && UidKey(folder) != LAST_DIGEST_KEY
    ensures ValidityKey(folder) == ValidityKey(other) <==> folder == other
    ensures UidKey(folder) == UidKey(other) <==> folder == other
  {
    assert ValidityKey(folder)[0] == 'u' && UidKey(other)[0] == 'l';
    assert UidKey(folder)[5] == 'u' && LAST_DIGEST_KEY[5] == 'd';
    assert ValidityKey(folder)[13..] == folder && ValidityKey(other)[13..] == other;
    assert UidKey(folder)[9..] == folder && UidKey(other)[9..] == other;
  }

  /** A saved cursor reads back, and no other folder's cursor nor the digest time moves. */
  lemma CursorIsIsolated(db: Db, folder: string, uidValidity: Uint32, lastUid: Uint32, other: string)
    ensures var db' := SetLastUid(db, folder, uidValidity, lastUid);
      && LastUid(db', folder) == Ok((uidValidity, lastUid))
      && (other != folder ==> LastUid(db', other) == LastUid(db, other))
      && LastDigestAt(db') == LastDigestAt(db)
      && db'.emails == db.emails && db'.digests == db.digests
  {
    KeysNeverCollide(folder, folder);
    KeysNeverCollide(folder, other);
    KeysNeverCollide(other, folder);
    Uint32RoundTrip(uidValidity);
    Uint32RoundTrip(lastUid);
  }

  // ----- digests

  /** The WHERE clause: inside the half-open window, by text, and not digested yet. */
  predicate InWindow(row: Row, windowStart: string, windowEnd: string) {
    LexLeq(windowStart, row.receivedAt) && LexLess(row.receivedAt, windowEnd) && row.digestedAt.None?
  }

  function Selected(rows: seq<Row>, windowStart: string, windowEnd: string): (r: seq<Row>)
    ensures forall row :: row in r <==> row in rows && InWindow(row, windowStart, windowEnd)
  {
    if rows == [] then []
    else
      var last := |rows| - 1;
      Selected(rows[..last], windowStart, windowEnd) + (if InWindow(rows[last], windowStart, windowEnd) then [rows[last]] else [])
  }

  /** ORDER BY received_at, id */
  predicate Before(a: Row, b: Row) {
    LexLess(a.receivedAt, b.receivedAt) || (a.receivedAt == b.receivedAt && a.id <= b.id)
  }

  ghost predicate Ordered(rows: seq<Row>) {
    forall i, j :: 0 <= i < j < |rows| ==> Before(rows[i], rows[j])
  }

  function Place(row: Row, rows: seq<Row>): (r: seq<Row>)
    ensures multiset(r) == multiset(rows) + multiset{row}
  {
    if rows == [] || Before(row, rows[0]) then [row] + rows
    else
      assert rows == [rows[0]] + rows[1..];
      [rows[0]] + Place(row, rows[1..])
  }

  function InOrder(rows: seq<Row>): (r: seq<Row>)
    ensures multiset(r) == multiset(rows)
  {
    if rows == [] then []
    else
      assert rows == [rows[0]] + rows[1..];
      Place(rows[0], InOrder(rows[1..]))
  }

  lemma BeforeIsTotalOrder(a: Row, b: Row, c: Row)
    ensures Before(a, b) || Before(b, a)
    ensures Before(a, b) && Before(b, c) ==> Before(a, c)
  {
    LexTrichotomy(a.receivedAt, b.receivedAt);
    if LexLess(a.receivedAt, b.receivedAt) && LexLess(b.receivedAt, c.receivedAt) {
      LexTransitive(a.receivedAt, b.receivedAt, c.receivedAt);
    }
  }

  lemma {:induction false} PlaceKeepsOrder(row: Row, rows: seq<Row>)
    requires Ordered(rows)
    ensures Ordered(Place(row, rows))
  {
    if rows != [] {
      BeforeIsTotalOrder(row, rows[0], rows[0]);
      if Before(row, rows[0]) {
        forall i | 0 <= i < |rows|
          ensures Before(row, rows[i])
        {
          BeforeIsTotalOrder(row, rows[0], rows[i]);
        }
      } else {
        var rest := Place(row, rows[1..]);
        PlaceKeepsOrder(row, rows[1..]);
        forall i | 0 <= i < |rest|
          ensures Before(rows[0], rest[i])
        {
          assert rest[i] in multiset(rest);
          if rest[i] != row {
            var k :| 0 <= k < |rows[1..]| && rows[1..][k] == rest[i];
          }
        }
      }
    }
  }

  lemma {:induction false} InOrderIsOrdered(rows: seq<Row>)
    ensures Ordered(InOrder(rows))
  {
    if rows != [] {
      InOrderIsOrdered(rows[1..]);
      PlaceKeepsOrder(rows[0], InOrder(rows[1..]));
    }
  }

  function Pending(db: Db, windowStart: string, windowEnd: string): seq<Row> {
    InOrder(Selected(db.emails, windowStart, windowEnd))
  }

  /** Exactly the undigested rows of the half-open window, by receipt and then by id. */
  lemma PendingIsExact(db: Db, windowStart: string, windowEnd: string)
    ensures forall row :: row in Pending(db, windowStart, windowEnd) <==>
                          row in db.emails && InWindow(row, windowStart, windowEnd)
    ensures forall row :: row in Pending(db, windowStart, windowEnd) <==>
                          row in db.emails && row.digestedAt == None
                          && !LexLess(row.receivedAt, windowStart) && LexLess(row.receivedAt, windowEnd)
    ensures |Pending(db, windowStart, windowEnd)| == |Selected(db.emails, windowStart, windowEnd)|
    ensures var rows := Pending(db, windowStart, windowEnd);
      forall i, j :: 0 <= i < j < |rows| ==>
        LexLess(rows[i].receivedAt, rows[j].receivedAt) ||
        (rows[i].receivedAt == rows[j].receivedAt && rows[i].id <= rows[j].id)
  {
    var chosen := Selected(db.emails, windowStart, windowEnd);
    InOrderIsOrdered(chosen);
    var sorted := InOrder(chosen);
    assert |multiset(sorted)| == |multiset(chosen)|;
    assert forall row :: row in sorted <==> row in multiset(sorted);
    assert forall row :: row in chosen <==> row in multiset(chosen);
  }

  function IdsOf(rows: seq<Row>): (ids: seq<nat>)
    ensures |ids| == |rows| && forall i :: 0 <= i < |ids| ==> ids[i] == rows[i].id
  {
    seq(|rows|, i requires 0 <= i < |rows| => rows[i].id)
  }

  /** digested_at = COALESCE(digested_at, at) */
  function Mark(row: Row, at: string): Row {
    if row.digestedAt.None? then row.(digestedAt := Some(at)) else row
  }

  function MarkIds(rows: seq<Row>, ids: seq<nat>, at: string): (r: seq<Row>)
    ensures |r| == |rows|
    ensures forall i :: 0 <= i < |r| ==> r[i] == if rows[i].id in ids then Mark(rows[i], at) else rows[i]
  {
    seq(|rows|, i requires 0 <= i < |rows| => if rows[i].id in ids then Mark(rows[i], at) else rows[i])
  }

  function CompleteDigest(db: Db, ids: seq<nat>, sentAt: string, windowStart: string, windowEnd: string): Db {
    Db(MarkIds(db.emails, ids, sentAt),
       db.state[LAST_DIGEST_KEY := windowEnd],
       db.digests + [DigestRow(sentAt, windowStart, windowEnd, |ids|)])
  }

  /** The database handle. Any call may fail; a failed write leaves the tables alone. */
  class Store {
    var emails: seq<Row>
    var state: map<string, string>
    var digests: seq<DigestRow>

    /** A new database file: the tables exist and are empty. */
    constructor ()
      ensures Contents() == EMPTY_DB
    {
      emails, state, digests := [], map[], [];
    }

    function Contents(): Db
      reads this
    {
      Db(emails, state, digests)
    }

    /** A key that is missing reads as zero, and any other as the number its text denotes. */
    method LastUidOf(folder: string) returns (r: Result<(Uint32, Uint32)>)
      ensures r.Ok? ==> r == LastUid(Contents(), folder)
      ensures r.Ok? ==>
        && (if "uid_validity:" + folder in state then ParseUint32(state["uid_validity:" + folder]) == Some(r.value.0)
            else r.value.0 == 0)
        && (if "last_uid:" + folder in state then ParseUint32(state["last_uid:" + folder]) == Some(r.value.1)
            else r.value.1 == 0)
    {
      var fails: bool := *;
      r := if fails then Err else LastUid(Contents(), folder);
    }

    method SaveLastUid(folder: string, uidValidity: Uint32, lastUid: Uint32) returns (ok: bool)
      modifies this
      ensures Contents() == if ok then SetLastUid(old(Contents()), folder, uidValidity, lastUid) else old(Contents())
      ensures emails == old(emails) && digests == old(digests)
      ensures state == if ok
        then old(state)["uid_validity:" + folder := FormatUint(uidValidity)]["last_uid:" + folder := FormatUint(lastUid)]
        else old(state)
    {
      ok := *;
      if ok {
        state := state[ValidityKey(folder) := FormatUint(uidValidity)];
        state := state[UidKey(folder) := FormatUint(lastUid)];
      }
    }

    method Exists(uidValidity: Uint32, imapUid: Uint32, messageId: string) returns (r: Result<bool>)
      ensures r.Ok? ==> r.value == EmailExists(Contents(), uidValidity, imapUid, messageId)
      ensures r.Ok? ==> (r.value <==> exists row ::
        row in emails &&
        ((row.uidValidity == uidValidity && row.imapUid == imapUid) || (messageId != "" && row.messageId == Some(messageId))))
    {
      ExistsMeans(Contents(), uidValidity, imapUid, messageId);
      var fails: bool := *;
      r := if fails then Err else Ok(EmailExists(Contents(), uidValidity, imapUid, messageId));
    }

    method Insert(e: NewEmail) returns (r: Result<bool>)
      modifies this
      ensures r.Ok? ==> (Contents(), r.value) == InsertEmail(old(Contents()), e)
      ensures r.Err? ==> Contents() == old(Contents())
      ensures state == old(state) && digests == old(digests)
      ensures r.Ok? ==> (r.value <==> forall row :: row in old(emails) ==>
        !(row.uidValidity == e.uidValidity && row.imapUid == e.imapUid) &&
        (e.messageId != "" ==> row.messageId != Some(e.messageId)))
      ensures emails == if r != Ok(true) then old(emails)
        else old(emails) + [Row(|old(emails)| + 1, e.uidValidity, e.imapUid,
                                if e.messageId == "" then None else Some(e.messageId), FormatTime(e.receivedAt), e.rawPath,
                                e.summary, e.inScope, if e.llmStatus == "" then "ok" else e.llmStatus,
                                FormatTime(e.processedAt), None)]
    {
      var fails: bool := *;
      if fails {
        return Err;
      }
      InsertedIffNew(Contents(), e);
      ExistsMeans(Contents(), e.uidValidity, e.imapUid, e.messageId);
      var (db, inserted) := InsertEmail(Contents(), e);
      emails := db.emails;
      r := Ok(inserted);
    }

    method PendingForDigest(windowStart: Instant, windowEnd: Instant) returns (r: Result<seq<Row>>)
      ensures r.Ok? ==> r.value == Pending(Contents(), FormatTime(windowStart), FormatTime(windowEnd))
    {
      var fails: bool := *;
      r := if fails then Err else Ok(Pending(Contents(), FormatTime(windowStart), FormatTime(windowEnd)));
    }

    method LastDigest() returns (r: Result<nat>)
      ensures r.Ok? ==> r == LastDigestAt(Contents())
      ensures r.Ok? ==> if "last_digest_at" in state then ParseTime(state["last_digest_at"]) == Some(r.value)
                        else r.value == 31_622_400
    {
      var fails: bool := *;
      r := if fails then Err else LastDigestAt(Contents());
    }

    /** One UPDATE per id, inside the caller's transaction. */
    static method MarkDigested(rows: seq<Row>, ids: seq<nat>, at: string) returns (r: seq<Row>)
      ensures r == MarkIds(rows, ids, at)
    {
      r := rows;
      for k := 0 to |ids|
        invariant r == MarkIds(rows, ids[..k], at)
      {
        assert forall id :: id in ids[..k + 1] <==> id in ids[..k] || id == ids[k];
        r := MarkIds(r, [ids[k]], at);
      }
      assert ids[..|ids|] == ids;
    }

    /** All three effects in one transaction, or none. */
    method Complete(ids: seq<nat>, sentAt: Instant, windowStart: Instant, windowEnd: Instant) returns (ok: bool)
      modifies this
      ensures Contents() == if ok
        then CompleteDigest(old(Contents()), ids, FormatTime(sentAt), FormatTime(windowStart), FormatTime(windowEnd))
        else old(Contents())
      ensures ok ==> |emails| == |old(emails)| && forall i :: 0 <= i < |emails| ==>
        (var was := old(emails)[i];
         emails[i] == if was.id in ids && was.digestedAt == None then was.(digestedAt := Some(FormatTime(sentAt))) else was)
      ensures ok ==> state == old(state)["last_digest_at" := FormatTime(windowEnd)]
      ensures ok ==> digests == old(digests) + [DigestRow(FormatTime(sentAt), FormatTime(windowStart), FormatTime(windowEnd), |ids|)]
    {
      var marked := MarkDigested(emails, ids, FormatTime(sentAt));
      var record := DigestRow(FormatTime(sentAt), FormatTime(windowStart), FormatTime(windowEnd), |ids|);
      ok := *;
      if ok {
        emails := marked;
        digests := digests + [record];
        state := state[LAST_DIGEST_KEY := FormatTime(windowEnd)];
      }
    }
  }
}

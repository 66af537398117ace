/**
 Crashes do not matter. Over one mailbox epoch in which no message is removed, a poll
 run that finishes leaves the same rows, marks, cursor and, when every message is
 dated, the same archive as handling the new mail once, message by message, however
 many earlier attempts failed or died between any two steps.
 */
module CrashRefinement {
  import opened Common
  import opened Timestamps
  import opened Archive
  import opened Database
  import opened Mailbox
  import opened Pipeline
  import opened NoGaps
  import opened Guarantees

  // ----- the reference: the mail handled once, in order

  /** What identifies a row. */
  datatype Face = Face(uidValidity: Uint32, imapUid: Uint32, messageId: Option<string>)

  function FaceOf(row: Row): Face {
    Face(row.uidValidity, row.imapUid, row.messageId)
  }

  function Faces(rows: seq<Row>): (r: seq<Face>)
    ensures |r| == |rows| && forall i :: 0 <= i < |r| ==> r[i] == FaceOf(rows[i])
  {
    seq(|rows|, i requires 0 <= i < |rows| => FaceOf(rows[i]))
  }

  predicate Covers(f: Face, validity: Uint32, uid: Uint32, messageId: string) {
    (f.uidValidity == validity && f.imapUid == uid) || (messageId != "" && f.messageId == Some(messageId))
  }

  predicate Covering(faces: seq<Face>, validity: Uint32, uid: Uint32, messageId: string) {
    exists i :: 0 <= i < |faces| && Covers(faces[i], validity, uid, messageId)
  }

  /** One row for each message that nothing covers yet. */
  function Stored(cfg: Config, validity: Uint32, faces: seq<Face>, mail: seq<Message>): seq<Face> {
    if mail == [] then faces
    else
      var before, m := Stored(cfg, validity, faces, mail[..|mail| - 1]), mail[|mail| - 1];
      if Covering(before, validity, m.uid, MessageId(cfg, m.raw)) then before
      else before + [Face(validity, m.uid, Nullable(MessageId(cfg, m.raw)))]
  }

  function Marks(validity: Uint32, marked: set<Key>, mail: seq<Message>): set<Key> {
    marked + set m <- mail :: (validity, m.uid)
  }

  function LastOf(cursor: Uint32, mail: seq<Message>): Uint32 {
    if mail == [] then cursor else mail[|mail| - 1].uid
  }

  predicate AllDated(cfg: Config, mail: seq<Message>) {
    forall m <- mail :: Dated(cfg, m.raw)
  }

  function DatedSlot(cfg: Config, m: Message): Slot
    requires Dated(cfg, m.raw)
  {
    Slot(cfg.parse(m.raw).date.value.month, NameFor(MessageId(cfg, m.raw), m.uid))
  }

  /** One file for each message whose bytes are not filed yet; Err on a clash of names. */
  function Archived(cfg: Config, files: Files, mail: seq<Message>): Result<Files>
    requires AllDated(cfg, mail)
  {
    if mail == [] then Ok(files)
    else
      var m := mail[|mail| - 1];
      match Archived(cfg, files, mail[..|mail| - 1])
      case Err => Err
      case Ok(before) =>
        match Write(before, DatedSlot(cfg, m), m.raw, cfg.digest)
        case Err => Err
        case Ok(w) => Ok(w.files)
  }

  lemma FacesCover(rows: seq<Row>, validity: Uint32, uid: Uint32, messageId: string)
    ensures Covering(Faces(rows), validity, uid, messageId) <==> RowExists(rows, validity, uid, messageId)
  {
    var faces := Faces(rows);
    forall i | 0 <= i < |rows|
      ensures Covers(faces[i], validity, uid, messageId) <==> Matches(rows[i], validity, uid, messageId)
    {
    }
  }

  lemma StoredCoversLast(cfg: Config, validity: Uint32, faces: seq<Face>, mail: seq<Message>)
    requires mail != []
    ensures var m := mail[|mail| - 1]; Covering(Stored(cfg, validity, faces, mail), validity, m.uid, MessageId(cfg, m.raw))
  {
    var m := mail[|mail| - 1];
    var before, after := Stored(cfg, validity, faces, mail[..|mail| - 1]), Stored(cfg, validity, faces, mail);
    if after != before {
      assert Covers(after[|before|], validity, m.uid, MessageId(cfg, m.raw));
    }
  }

  // ----- where a run stands against the reference

  /** The state in which the epoch's first attempt starts. */
  datatype Origin = Origin(validity: Uint32, cursor: Uint32, faces: seq<Face>, marked: set<Key>, files: Files)

  /**
   The new mail so far, and how much of it is behind the cursor, marked seen, covered
   by a row, and filed.
   */
  datatype Place = Place(mail: seq<Message>, done: nat, marked: nat, stored: nat, filed: nat)

  /** At most one message is ahead of the cursor, and its effects came in order. */
  predicate Steady(w: Place) {
    w.done <= w.marked <= w.stored <= w.filed <= w.done + 1 && w.filed <= |w.mail|
  }

  /** The new mail of an origin: what is held above its cursor. */
  ghost predicate MailInv(o: Origin, box: Box, mail: seq<Message>) {
    && ValidBox(box) && box.validity == o.validity && o.cursor < box.uidNext
    && mail == HeldBetween(box.held, o.cursor + 1, box.uidNext)
  }

  ghost predicate CursorOf(cfg: Config, o: Origin, db: Db, w: Place)
    requires Steady(w)
  {
    LastUid(db, cfg.folder) == Ok((o.validity, LastOf(o.cursor, w.mail[..w.done])))
  }

  /** Rows and marks are those of the reference for as much mail as the place says. */
  ghost predicate EffectsOf(cfg: Config, o: Origin, rows: seq<Row>, marked: set<Key>, w: Place)
    requires Steady(w)
  {
    && Faces(rows) == Stored(cfg, o.validity, o.faces, w.mail[..w.stored])
    && marked == Marks(o.validity, o.marked, w.mail[..w.marked])
  }

  ghost predicate FilesInv(cfg: Config, before: Files, mail: seq<Message>, files: Files) {
    AllDated(cfg, mail) ==> Archived(cfg, before, mail) == Ok(files)
  }

  /** The batch is the mail from the cursor it started at up to its horizon. */
  ghost predicate BatchOf(run: Run, w: Place)
    requires Steady(w)
  {
    && run.next <= |run.batch| && run.next <= w.done
    && var end := w.done - run.next + |run.batch|;
       && w.filed <= end <= |w.mail|
       && run.batch == w.mail[w.done - run.next..end]
       && (forall i :: 0 <= i < |w.mail| ==> (w.mail[i].uid < run.start.horizon <==> i < end))
  }

  ghost predicate StageOf(cfg: Config, run: Run, rows: seq<Row>, w: Place)
    requires Steady(w)
  {
    !run.stage.AtMessage? ==>
      && run.next < |run.batch| && w.filed == w.done + 1
      && (run.stage.Fresh? ==> var m := run.batch[run.next];
           w.stored == w.done && !RowExists(rows, run.validity, m.uid, MessageId(cfg, m.raw)))
      && (run.stage.Covered? ==> w.stored == w.done + 1)
      && (run.stage.Marked? ==> w.marked == w.done + 1)
  }

  ghost predicate PcOf(cfg: Config, o: Origin, pc: Pc, uidNext: Uint32, rows: seq<Row>, w: Place)
    requires Steady(w)
  {
    match pc
    case Idle => true
    case Baselining(_, _) => false
    case Polling(run) =>
      run.validity == o.validity && run.start.horizon <= uidNext && BatchOf(run, w) && StageOf(cfg, run, rows, w)
    case Finished(run) =>
      && run.validity == o.validity && run.start.horizon <= uidNext && BatchOf(run, w)
      && run.next == |run.batch| && run.stage.AtMessage?
  }

  ghost predicate Tracks(cfg: Config, o: Origin, rows: seq<Row>, marked: set<Key>, pc: Pc, uidNext: Uint32, w: Place) {
    Steady(w) && EffectsOf(cfg, o, rows, marked, w) && PcOf(cfg, o, pc, uidNext, rows, w)
  }

  ghost predicate TracksSys(cfg: Config, o: Origin, s: Sys, w: Place) {
    Tracks(cfg, o, s.db.emails, s.hist.marked, s.pc, s.box.uidNext, w)
  }

  ghost predicate Follows(cfg: Config, o: Origin, s: Sys, w: Place) {
    TracksSys(cfg, o, s, w) && MailInv(o, s.box, w.mail) && CursorOf(cfg, o, s.db, w)
  }

  /** Nothing disappears from the mailbox. */
  predicate Keeping(a: Action) {
    !a.Expunge? && !a.Reset?
  }

  function NextPlace(cfg: Config, s: Sys, a: Action, w: Place): Place {
    match a
    case Arrive(raw) => w.(mail := w.mail + [Message(s.box.uidNext, raw)])
    case File(_) => w.(filed := w.done + 1)
    case Check =>
      if InMessage(s) && EmailExists(s.db, s.pc.run.validity, Current(s).uid, MessageId(cfg, Current(s).raw))
      then w.(stored := w.done + 1) else w
    case Store(_) => w.(stored := w.done + 1)
    case MarkSeen => w.(marked := w.done + 1)
    case Advance => w.(done := w.done + 1)
    case _ => w
  }

  // ----- the server

  lemma HeldGrows(held: map<Uint32, Bytes>, first: nat, next: Uint32, raw: Bytes)
    requires first <= next < MAX_UINT32 && forall u <- held :: u < next
    ensures HeldBetween(held[next := raw], first, next + 1) == HeldBetween(held, first, next) + [Message(next, raw)]
  {
    var before := HeldBetween(held, first, next);
    HeldBetweenIsExact(held, first, next);
    HeldBetweenIsExact(held[next := raw], first, next + 1);
    forall i | 0 <= i < |before|
      ensures before[i].uid < next
    {
      assert before[i] in before;
    }
    AscendingIsUnique(HeldBetween(held[next := raw], first, next + 1), before + [Message(next, raw)]);
  }

  lemma ArrivedBoxIsValid(box: Box, raw: Bytes)
    requires ValidBox(box) && box.uidNext < MAX_UINT32
    ensures ValidBox(box.(held := box.held[box.uidNext := raw], uidNext := box.uidNext + 1))
  {
  }

  lemma ListGrows(o: Origin, box: Box, box': Box, mail: seq<Message>, raw: Bytes)
    requires ValidBox(box) && box.uidNext < MAX_UINT32 && o.cursor < box.uidNext
    requires mail == HeldBetween(box.held, o.cursor + 1, box.uidNext)
    requires box'.held == box.held[box.uidNext := raw] && box'.uidNext == box.uidNext + 1
    ensures mail + [Message(box.uidNext, raw)] == HeldBetween(box'.held, o.cursor + 1, box'.uidNext)
  {
    HeldGrows(box.held, o.cursor + 1, box.uidNext, raw);
  }

  lemma MailArrives(o: Origin, box: Box, box': Box, mail: seq<Message>, raw: Bytes)
    requires MailInv(o, box, mail) && box.uidNext < MAX_UINT32
    requires box' == box.(held := box.held[box.uidNext := raw], uidNext := box.uidNext + 1)
    ensures MailInv(o, box', mail + [Message(box.uidNext, raw)])
  {
    ListGrows(o, box, box', mail, raw);
    ArrivedBoxIsValid(box, raw);
  }

  lemma TracksArrival(cfg: Config, o: Origin, rows: seq<Row>, marked: set<Key>, pc: Pc, next: Uint32, raw: Bytes, w: Place)
    requires Tracks(cfg, o, rows, marked, pc, next, w) && next < MAX_UINT32
    ensures Tracks(cfg, o, rows, marked, pc, next + 1, w.(mail := w.mail + [Message(next, raw)]))
  {
    PrefixesStay(w, w.(mail := w.mail + [Message(next, raw)]));
    if pc.Polling? || pc.Finished? {
      LaterMailStaysOut(pc.run, next, raw, w);
    }
  }

  lemma PrefixesStay(w: Place, w': Place)
    requires Steady(w) && w.mail <= w'.mail
    ensures forall n :: 0 <= n <= |w.mail| ==> w'.mail[..n] == w.mail[..n]
  {
  }

  lemma LaterMailStaysOut(run: Run, uid: Uint32, raw: Bytes, w: Place)
    requires Steady(w) && BatchOf(run, w) && run.start.horizon <= uid
    ensures BatchOf(run, w.(mail := w.mail + [Message(uid, raw)]))
  {
  }

  /** Flags change; the messages stay. */
  lemma MailStays(o: Origin, box: Box, box': Box, mail: seq<Message>)
    requires MailInv(o, box, mail)
    requires box' == box.(seen := box'.seen) && box'.seen <= box.held.Keys
    ensures MailInv(o, box', mail)
  {
  }

  lemma BoxSteps(s: Sys, a: Action, cfg: Config)
    requires ValidBox(s.box) && Keeping(a) && Step(cfg, s, a).Some? && !a.Arrive?
    ensures var box' := Step(cfg, s, a).value.box; box' == s.box.(seen := box'.seen) && box'.seen <= s.box.held.Keys
  {
  }

  lemma StepMail(cfg: Config, o: Origin, s: Sys, a: Action, w: Place)
    requires MailInv(o, s.box, w.mail) && Keeping(a) && Step(cfg, s, a).Some?
    ensures MailInv(o, Step(cfg, s, a).value.box, NextPlace(cfg, s, a, w).mail)
  {
    if a.Arrive? {
      MailArrives(o, s.box, ServerStep(s, a).value.box, w.mail, a.raw);
    } else {
      BoxSteps(s, a, cfg);
      MailStays(o, s.box, Step(cfg, s, a).value.box, w.mail);
    }
  }

  // ----- digests

  lemma DigestTracks(cfg: Config, o: Origin, s: Sys, windowEnd: Instant, weekBack: Instant, w: Place)
    requires TracksSys(cfg, o, s, w) && StepDigest(s, windowEnd, weekBack).Some? && ValidDb(s.db)
    ensures TracksSys(cfg, o, StepDigest(s, windowEnd, weekBack).value, w)
  {
    DeliveredKeepsCursor(s.db, cfg.folder, windowEnd, weekBack);
    assert Faces(StepDigest(s, windowEnd, weekBack).value.db.emails) == Faces(s.db.emails);
  }

  // ----- fetching

  lemma NewBatchOf(run: Run, next: Uint32, w: Place)
    requires Steady(w) && run.next == 0 && run.batch == w.mail[w.done..] && run.start.horizon == next
    requires forall m <- w.mail :: m.uid < next
    ensures BatchOf(run, w)
  {
    assert w.mail[w.done..|w.mail|] == w.mail[w.done..];
  }

  lemma FetchIs(cfg: Config, s: Sys, last: Uint32)
    requires LastUid(s.db, cfg.folder) == Ok((s.box.validity, last)) && s.box.validity > 0 && StepFetch(cfg, s).Some?
    ensures var s' := StepFetch(cfg, s).value;
      && s' == s.(pc := s'.pc, hist := s.hist.(lost := s'.hist.lost))
      && s'.pc == Polling(Run(s.box.validity, NewMail(s.box, last), 0, Tally(false, |NewMail(s.box, last)|, 0, 0, 0, 0), AtMessage,
                              Start(|s.db.emails|, last, s.box.uidNext)))
  {
  }

  lemma MailBelowNext(o: Origin, box: Box, mail: seq<Message>)
    requires MailInv(o, box, mail)
    ensures box.validity == o.validity > 0 && forall m <- mail :: m.uid < box.uidNext
  {
    HeldBetweenIsExact(box.held, o.cursor + 1, box.uidNext);
  }

  /** A fetch reads exactly the mail behind the cursor. */
  lemma FetchReadsRest(cfg: Config, o: Origin, s: Sys, w: Place)
    requires Steady(w) && CursorOf(cfg, o, s.db, w) && StepFetch(cfg, s).Some?
    requires s.box.validity == o.validity > 0 && forall m <- w.mail :: m.uid < s.box.uidNext
    requires HeldBetween(s.box.held, LastOf(o.cursor, w.mail[..w.done]) + 1, s.box.uidNext) == w.mail[w.done..]
    ensures FetchedRest(o, s, StepFetch(cfg, s).value, w)
  {
    FetchIs(cfg, s, LastOf(o.cursor, w.mail[..w.done]));
  }

  ghost predicate FetchedRest(o: Origin, s: Sys, s': Sys, w: Place)
    requires Steady(w)
  {
    && s' == s.(pc := s'.pc, hist := s.hist.(lost := s'.hist.lost))
    && s'.pc.Polling? && s'.pc.run.validity == o.validity && s'.pc.run.next == 0 && s'.pc.run.stage.AtMessage?
    && s'.pc.run.batch == w.mail[w.done..] && s'.pc.run.start.horizon == s.box.uidNext
    && (forall m <- w.mail :: m.uid < s.box.uidNext)
  }

  lemma FetchFollows(cfg: Config, o: Origin, s: Sys, w: Place)
    requires Follows(cfg, o, s, w) && StepFetch(cfg, s).Some?
    ensures TracksSys(cfg, o, StepFetch(cfg, s).value, w)
  {
    MailBelowNext(o, s.box, w.mail);
    RestOfMail(s.box.held, o.cursor, s.box.uidNext, w.done);
    FetchReadsRest(cfg, o, s, w);
    FetchTracks(cfg, o, s, StepFetch(cfg, s).value, w);
  }

  lemma FetchTracks(cfg: Config, o: Origin, s: Sys, s': Sys, w: Place)
    requires TracksSys(cfg, o, s, w) && FetchedRest(o, s, s', w)
    ensures TracksSys(cfg, o, s', w)
  {
    NewBatchOf(s'.pc.run, s.box.uidNext, w);
  }

  lemma HeldMember(held: map<Uint32, Bytes>, first: nat, bound: Uint32, m: Message)
    ensures m in HeldBetween(held, first, bound) <==> first <= m.uid < bound && m.uid in held && held[m.uid] == m.raw
  {
    HeldBetweenIsExact(held, first, bound);
  }

  lemma MailAscends(held: map<Uint32, Bytes>, cursor: Uint32, bound: Uint32)
    ensures var mail := HeldBetween(held, cursor + 1, bound);
      Ascending(mail) && forall m <- mail :: cursor < m.uid < bound
  {
    HeldBetweenIsExact(held, cursor + 1, bound);
  }

  lemma CutAbove(mail: seq<Message>, rest: seq<Message>, cursor: Uint32, n: nat)
    requires n <= |mail| && Ascending(mail) && Ascending(rest) && forall x <- mail :: cursor < x.uid
    requires forall m :: m in rest <==> m in mail && LastOf(cursor, mail[..n]) < m.uid
    ensures rest == mail[n..]
  {
    forall m
      ensures m in rest <==> m in mail[n..]
    {
      RestMembers(cursor, mail, n, m);
    }
    AscendingIsUnique(rest, mail[n..]);
  }

  lemma RestHeld(held: map<Uint32, Bytes>, cursor: Uint32, last: Uint32, next: Uint32, m: Message)
    requires cursor <= last
    ensures m in HeldBetween(held, last + 1, next) <==> m in HeldBetween(held, cursor + 1, next) && last < m.uid
  {
    HeldMember(held, cursor + 1, next, m);
    HeldMember(held, last + 1, next, m);
  }

  lemma RestMembersHeld(held: map<Uint32, Bytes>, cursor: Uint32, last: Uint32, next: Uint32, mail: seq<Message>, rest: seq<Message>)
    requires cursor <= last && mail == HeldBetween(held, cursor + 1, next) && rest == HeldBetween(held, last + 1, next)
    ensures forall m :: m in rest <==> m in mail && last < m.uid
  {
    forall m
      ensures m in rest <==> m in mail && last < m.uid
    {
      RestHeld(held, cursor, last, next, m);
    }
  }

  lemma LastIsAbove(cursor: Uint32, mail: seq<Message>, n: nat)
    requires n <= |mail| && forall x <- mail :: cursor < x.uid
    ensures cursor <= LastOf(cursor, mail[..n])
  {
    if n > 0 {
      assert mail[n - 1] in mail;
    }
  }

  /** The mail above the n-th message is what is left of the list. */
  lemma RestOfMail(held: map<Uint32, Bytes>, cursor: Uint32, next: Uint32, n: nat)
    requires cursor < next && n <= |HeldBetween(held, cursor + 1, next)|
    ensures var mail := HeldBetween(held, cursor + 1, next);
      HeldBetween(held, LastOf(cursor, mail[..n]) + 1, next) == mail[n..]
  {
    var mail := HeldBetween(held, cursor + 1, next);
    var last := LastOf(cursor, mail[..n]);
    MailAscends(held, cursor, next);
    MailAscends(held, last, next);
    LastIsAbove(cursor, mail, n);
    var rest := HeldBetween(held, last + 1, next);
    RestMembersHeld(held, cursor, last, next, mail, rest);
    CutAbove(mail, rest, cursor, n);
  }

  lemma RestMembers(cursor: Uint32, mail: seq<Message>, n: nat, m: Message)
    requires n <= |mail| && Ascending(mail) && forall x <- mail :: cursor < x.uid
    ensures m in mail[n..] <==> m in mail && LastOf(cursor, mail[..n]) < m.uid
  {
    if n > 0 {
      assert mail[n - 1] in mail;
    }
    if m in mail && LastOf(cursor, mail[..n]) < m.uid {
      var i :| 0 <= i < |mail| && mail[i] == m;
      assert i >= n;
      assert mail[n..][i - n] == m;
    }
  }

  // ----- processing one message

  lemma CurrentIsNext(run: Run, w: Place)
    requires Steady(w) && BatchOf(run, w) && run.next < |run.batch|
    ensures w.done < |w.mail| && run.batch[run.next] == w.mail[w.done]
    ensures w.mail[..w.done + 1] == w.mail[..w.done] + [w.mail[w.done]]
    ensures w.mail[..w.done + 1][..w.done] == w.mail[..w.done]
  {
  }

  /** Within one message the batch stays in place. */
  lemma BatchStays(run: Run, stage: Stage, w: Place, w': Place)
    requires Steady(w) && BatchOf(run, w) && run.next < |run.batch|
    requires Steady(w') && w'.mail == w.mail && w'.done == w.done
    ensures BatchOf(run.(stage := stage), w')
  {
  }

  lemma FiledTracks(cfg: Config, o: Origin, s: Sys, stage: Stage, files: Files, w: Place)
    requires TracksSys(cfg, o, s, w) && IsAt(s, AtMessage) && stage.Filed?
    ensures TracksSys(cfg, o, AtStage(s, stage).(files := files), w.(filed := w.done + 1))
  {
    CurrentIsNext(s.pc.run, w);
    BatchStays(s.pc.run, stage, w, w.(filed := w.done + 1));
  }

  lemma FilingMoves(cfg: Config, s: Sys, now: Stamp) returns (stage: Stage, files: Files)
    requires StepFile(cfg, s, now).Some?
    ensures IsAt(s, AtMessage) && stage.Filed? && StepFile(cfg, s, now) == Some(AtStage(s, stage).(files := files))
  {
    var w := Write(s.files, SlotFor(cfg, Current(s), now), Current(s).raw, cfg.digest).value;
    stage, files := Filed(w.path, ReceivedAt(cfg, Current(s).raw, now), now), w.files;
  }

  lemma CoveredStaysStored(cfg: Config, o: Origin, rows: seq<Row>, w: Place)
    requires w.done <= w.stored <= w.done + 1 <= |w.mail|
    requires Faces(rows) == Stored(cfg, o.validity, o.faces, w.mail[..w.stored])
    requires var m := w.mail[w.done]; RowExists(rows, o.validity, m.uid, MessageId(cfg, m.raw))
    ensures Faces(rows) == Stored(cfg, o.validity, o.faces, w.mail[..w.done + 1])
  {
    var m := w.mail[w.done];
    FacesCover(rows, o.validity, m.uid, MessageId(cfg, m.raw));
    assert w.mail[..w.done + 1][..w.done] == w.mail[..w.done];
  }

  lemma UncoveredIsNotStored(cfg: Config, o: Origin, rows: seq<Row>, w: Place)
    requires w.done <= w.stored <= w.done + 1 <= |w.mail|
    requires Faces(rows) == Stored(cfg, o.validity, o.faces, w.mail[..w.stored])
    requires var m := w.mail[w.done]; !RowExists(rows, o.validity, m.uid, MessageId(cfg, m.raw))
    ensures w.stored == w.done
  {
    var m := w.mail[w.done];
    FacesCover(rows, o.validity, m.uid, MessageId(cfg, m.raw));
    if w.stored == w.done + 1 {
      StoredCoversLast(cfg, o.validity, o.faces, w.mail[..w.stored]);
    }
  }

  /** Found in the table: whether this attempt or an earlier one stored it, the reference covers it too. */
  lemma KnownTracks(cfg: Config, o: Origin, s: Sys, w: Place)
    requires TracksSys(cfg, o, s, w) && InMessage(s) && s.pc.run.stage.Filed?
    requires RowExists(s.db.emails, o.validity, Current(s).uid, MessageId(cfg, Current(s).raw))
    ensures TracksSys(cfg, o, AtStage(s, Covered(DUPLICATE)), w.(stored := w.done + 1))
  {
    CurrentIsNext(s.pc.run, w);
    CoveredStaysStored(cfg, o, s.db.emails, w);
    BatchStays(s.pc.run, Covered(DUPLICATE), w, w.(stored := w.done + 1));
  }

  lemma UnknownTracks(cfg: Config, o: Origin, s: Sys, stage: Stage, w: Place)
    requires TracksSys(cfg, o, s, w) && InMessage(s) && s.pc.run.stage.Filed? && stage.Fresh?
    requires !RowExists(s.db.emails, o.validity, Current(s).uid, MessageId(cfg, Current(s).raw))
    ensures TracksSys(cfg, o, AtStage(s, stage), w)
  {
    CurrentIsNext(s.pc.run, w);
    UncoveredIsNotStored(cfg, o, s.db.emails, w);
    BatchStays(s.pc.run, stage, w, w);
  }

  lemma StoredNext(cfg: Config, o: Origin, rows: seq<Row>, w: Place, faces: seq<Face>)
    requires w.done < |w.mail|
    requires Faces(rows) == Stored(cfg, o.validity, o.faces, w.mail[..w.done])
    requires var m := w.mail[w.done];
      && !RowExists(rows, o.validity, m.uid, MessageId(cfg, m.raw))
      && faces == Faces(rows) + [Face(o.validity, m.uid, Nullable(MessageId(cfg, m.raw)))]
    ensures faces == Stored(cfg, o.validity, o.faces, w.mail[..w.done + 1])
  {
    var m := w.mail[w.done];
    FacesCover(rows, o.validity, m.uid, MessageId(cfg, m.raw));
    assert w.mail[..w.done + 1][..w.done] == w.mail[..w.done];
  }

  lemma FacesGrow(rows: seq<Row>, row: Row)
    ensures Faces(rows + [row]) == Faces(rows) + [FaceOf(row)]
  {
  }

  lemma InsertedFace(db: Db, email: NewEmail)
    ensures Faces(WithEmail(db, email).emails) ==
            Faces(db.emails) + [Face(email.uidValidity, email.imapUid, Nullable(email.messageId))]
  {
    FacesGrow(db.emails, RowFor(email, |db.emails| + 1));
  }

  lemma InsertTracks(cfg: Config, o: Origin, s: Sys, email: NewEmail, outcome: Outcome, w: Place)
    requires TracksSys(cfg, o, s, w) && InMessage(s) && s.pc.run.stage.Fresh? && NamesCurrent(cfg, s, email)
    ensures TracksSys(cfg, o, AtStage(s, Covered(outcome)).(db := WithEmail(s.db, email)), w.(stored := w.done + 1))
  {
    CurrentIsNext(s.pc.run, w);
    InsertedFace(s.db, email);
    StoredNext(cfg, o, s.db.emails, w, Faces(WithEmail(s.db, email).emails));
    BatchStays(s.pc.run, Covered(outcome), w, w.(stored := w.done + 1));
  }

  lemma MarksNext(o: Origin, marked: set<Key>, w: Place)
    requires w.done <= w.marked <= w.done + 1 <= |w.mail| && marked == Marks(o.validity, o.marked, w.mail[..w.marked])
    ensures marked + {(o.validity, w.mail[w.done].uid)} == Marks(o.validity, o.marked, w.mail[..w.done + 1])
  {
    assert forall m :: m in w.mail[..w.done + 1] <==> m in w.mail[..w.done] || m == w.mail[w.done];
  }

  lemma MarkTracks(cfg: Config, o: Origin, s: Sys, w: Place)
    requires TracksSys(cfg, o, s, w) && StepMarkSeen(s).Some?
    ensures TracksSys(cfg, o, StepMarkSeen(s).value, NextPlace(cfg, s, Action.MarkSeen, w))
  {
    CurrentIsNext(s.pc.run, w);
    MarksNext(o, s.hist.marked, w);
    BatchStays(s.pc.run, StepMarkSeen(s).value.pc.run.stage, w, NextPlace(cfg, s, Action.MarkSeen, w));
  }

  lemma BatchAdvances(run: Run, run': Run, w: Place)
    requires Steady(w) && BatchOf(run, w) && run.next < |run.batch|
    requires Steady(w.(done := w.done + 1)) && run' == run.(next := run.next + 1, tally := run'.tally, stage := run'.stage)
    ensures BatchOf(run', w.(done := w.done + 1))
  {
  }

  lemma AdvancedTracks(cfg: Config, o: Origin, rows: seq<Row>, marked: set<Key>, run: Run, run': Run, uidNext: Uint32, w: Place)
    requires Tracks(cfg, o, rows, marked, Polling(run), uidNext, w) && run.next < |run.batch| && run.stage.Marked?
    requires run' == run.(next := run.next + 1, tally := run'.tally, stage := AtMessage)
    ensures Tracks(cfg, o, rows, marked, Polling(run'), uidNext, w.(done := w.done + 1))
  {
    CurrentIsNext(run, w);
    BatchAdvances(run, run', w);
  }

  lemma AdvanceIs(cfg: Config, s: Sys)
    requires StepAdvance(cfg, s).Some?
    ensures var s' := StepAdvance(cfg, s).value;
      && s'.db.emails == s.db.emails && s'.hist == s.hist && s'.box == s.box && s'.pc.Polling?
      && s'.pc.run == s.pc.run.(next := s.pc.run.next + 1, tally := s'.pc.run.tally, stage := AtMessage)
  {
  }

  lemma AdvanceTracks(cfg: Config, o: Origin, s: Sys, w: Place)
    requires TracksSys(cfg, o, s, w) && StepAdvance(cfg, s).Some?
    ensures TracksSys(cfg, o, StepAdvance(cfg, s).value, w.(done := w.done + 1))
  {
    AdvanceIs(cfg, s);
    AdvancedTracks(cfg, o, s.db.emails, s.hist.marked, s.pc.run, StepAdvance(cfg, s).value.pc.run, s.box.uidNext, w);
  }

  lemma AdvancedCursor(cfg: Config, o: Origin, s: Sys, w: Place)
    requires TracksSys(cfg, o, s, w) && StepAdvance(cfg, s).Some?
    requires Steady(NextPlace(cfg, s, Advance, w))
    ensures CursorOf(cfg, o, StepAdvance(cfg, s).value.db, NextPlace(cfg, s, Advance, w))
  {
    CurrentIsNext(s.pc.run, w);
    CursorIsIsolated(s.db, cfg.folder, s.pc.run.validity, Current(s).uid, cfg.folder);
  }

  lemma CheckIs(cfg: Config, s: Sys, w: Place)
    requires InMessage(s) && s.pc.run.stage.Filed?
    ensures var m, filed := Current(s), s.pc.run.stage;
      var known := RowExists(s.db.emails, s.pc.run.validity, m.uid, MessageId(cfg, m.raw));
      && StepCheck(cfg, s) ==
           Some(AtStage(s, if known then Covered(DUPLICATE) else Fresh(filed.path, filed.receivedAt, filed.processedAt)))
      && NextPlace(cfg, s, Check, w) == if known then w.(stored := w.done + 1) else w
  {
  }

  lemma CheckTracks(cfg: Config, o: Origin, s: Sys, w: Place)
    requires TracksSys(cfg, o, s, w) && StepCheck(cfg, s).Some?
    ensures TracksSys(cfg, o, StepCheck(cfg, s).value, NextPlace(cfg, s, Check, w))
  {
    var m, filed := Current(s), s.pc.run.stage;
    RunIsOfOrigin(cfg, o, s, w);
    CheckIs(cfg, s, w);
    if RowExists(s.db.emails, o.validity, m.uid, MessageId(cfg, m.raw)) {
      KnownTracks(cfg, o, s, w);
    } else {
      UnknownTracks(cfg, o, s, Fresh(filed.path, filed.receivedAt, filed.processedAt), w);
    }
  }

  lemma RunIsOfOrigin(cfg: Config, o: Origin, s: Sys, w: Place)
    requires TracksSys(cfg, o, s, w) && s.pc.Polling?
    ensures s.pc.run.validity == o.validity
  {
  }

  lemma StoreTracks(cfg: Config, o: Origin, s: Sys, summary: Summary, w: Place)
    requires TracksSys(cfg, o, s, w) && StepStore(cfg, s, summary).Some?
    ensures TracksSys(cfg, o, StepStore(cfg, s, summary).value, w.(stored := w.done + 1))
  {
    var v := Verdict(cfg, s, summary);
    FreshIsInserted(cfg, s, summary);
    VerdictNamesMessage(cfg, s, summary);
    InsertTracks(cfg, o, s, v.0, v.1, w);
  }

  // ----- every step

  /** The steps that change neither rows, marks nor UIDNEXT, and leave or end a run. */
  lemma QuietTracks(cfg: Config, o: Origin, s: Sys, a: Action, w: Place)
    requires TracksSys(cfg, o, s, w) && Step(cfg, s, a).Some?
    requires a.OthersFlag? || a.OthersUnflag? || a.OthersPublish? || a.SaveBaseline? || a.Finish? || a.Return? || a.Crash?
    ensures TracksSys(cfg, o, Step(cfg, s, a).value, w)
  {
    var s' := Step(cfg, s, a).value;
    assert s'.db == s.db && s'.box.uidNext == s.box.uidNext && s'.hist.marked == s.hist.marked;
  }

  lemma FilingTracks(cfg: Config, o: Origin, s: Sys, a: Action, w: Place)
    requires TracksSys(cfg, o, s, w) && a.File? && Step(cfg, s, a).Some?
    ensures TracksSys(cfg, o, Step(cfg, s, a).value, NextPlace(cfg, s, a, w))
  {
    var stage, files := FilingMoves(cfg, s, a.now);
    FiledTracks(cfg, o, s, stage, files, w);
  }

  lemma StoringTracks(cfg: Config, o: Origin, s: Sys, a: Action, w: Place)
    requires TracksSys(cfg, o, s, w) && a.Store? && Step(cfg, s, a).Some?
    ensures TracksSys(cfg, o, Step(cfg, s, a).value, NextPlace(cfg, s, a, w))
  {
    StoreTracks(cfg, o, s, a.summary, w);
  }

  lemma ClosingTracks(cfg: Config, o: Origin, s: Sys, a: Action, w: Place)
    requires TracksSys(cfg, o, s, w) && (a.Check? || a.MarkSeen? || a.Advance?) && Step(cfg, s, a).Some?
    ensures TracksSys(cfg, o, Step(cfg, s, a).value, NextPlace(cfg, s, a, w))
  {
    if a.Check? {
      CheckTracks(cfg, o, s, w);
    } else if a.MarkSeen? {
      MarkTracks(cfg, o, s, w);
    } else {
      AdvanceTracks(cfg, o, s, w);
    }
  }

  lemma MessageTracks(cfg: Config, o: Origin, s: Sys, a: Action, w: Place)
    requires TracksSys(cfg, o, s, w) && Step(cfg, s, a).Some?
    requires a.File? || a.Check? || a.Store? || a.MarkSeen? || a.Advance?
    ensures TracksSys(cfg, o, Step(cfg, s, a).value, NextPlace(cfg, s, a, w))
  {
    if a.File? {
      FilingTracks(cfg, o, s, a, w);
    } else if a.Store? {
      StoringTracks(cfg, o, s, a, w);
    } else {
      ClosingTracks(cfg, o, s, a, w);
    }
  }

  lemma ArrivalTracks(cfg: Config, o: Origin, s: Sys, raw: Bytes, w: Place)
    requires TracksSys(cfg, o, s, w) && Step(cfg, s, Arrive(raw)).Some?
    ensures TracksSys(cfg, o, Step(cfg, s, Arrive(raw)).value, NextPlace(cfg, s, Arrive(raw), w))
  {
    TracksArrival(cfg, o, s.db.emails, s.hist.marked, s.pc, s.box.uidNext, raw, w);
  }

  lemma StepTracks(cfg: Config, o: Origin, s: Sys, a: Action, w: Place)
    requires Follows(cfg, o, s, w) && ValidDb(s.db) && Keeping(a) && Step(cfg, s, a).Some?
    ensures TracksSys(cfg, o, Step(cfg, s, a).value, NextPlace(cfg, s, a, w))
  {
    if a.File? || a.Check? || a.Store? || a.MarkSeen? || a.Advance? {
      MessageTracks(cfg, o, s, a, w);
    } else if a.Arrive? {
      ArrivalTracks(cfg, o, s, a.raw, w);
    } else if a.SendDigest? {
      DigestTracks(cfg, o, s, a.windowEnd, a.weekBack, w);
    } else if a.Fetch? {
      FetchFollows(cfg, o, s, w);
    } else {
      QuietTracks(cfg, o, s, a, w);
    }
  }

  /** Only saving a baseline and advancing move the cursor. */
  lemma CursorStands(cfg: Config, s: Sys, a: Action)
    requires ValidDb(s.db) && Step(cfg, s, a).Some? && !a.SaveBaseline? && !a.Advance?
    ensures LastUid(Step(cfg, s, a).value.db, cfg.folder) == LastUid(s.db, cfg.folder)
  {
    if a.SendDigest? {
      DeliveredKeepsCursor(s.db, cfg.folder, a.windowEnd, a.weekBack);
    } else if a.Store? {
      RowsKeepCursor(s.db, Step(cfg, s, a).value.db.emails, cfg.folder);
    } else {
      assert Step(cfg, s, a).value.db == s.db;
    }
  }

  lemma PlaceStands(cfg: Config, s: Sys, a: Action, w: Place)
    requires !a.Advance? && Steady(w)
    ensures var w' := NextPlace(cfg, s, a, w); w'.done == w.done && w.mail <= w'.mail && w'.mail[..w.done] == w.mail[..w.done]
  {
  }

  lemma StepCursor(cfg: Config, o: Origin, s: Sys, a: Action, w: Place)
    requires TracksSys(cfg, o, s, w) && CursorOf(cfg, o, s.db, w) && ValidDb(s.db) && Step(cfg, s, a).Some?
    requires Steady(NextPlace(cfg, s, a, w))
    ensures CursorOf(cfg, o, Step(cfg, s, a).value.db, NextPlace(cfg, s, a, w))
  {
    if a.Advance? {
      AdvancedCursor(cfg, o, s, w);
    } else if !a.SaveBaseline? {
      CursorStands(cfg, s, a);
      PlaceStands(cfg, s, a, w);
    }
  }

  lemma StepFollows(cfg: Config, o: Origin, s: Sys, a: Action, w: Place)
    requires Follows(cfg, o, s, w) && ValidDb(s.db) && Keeping(a) && Step(cfg, s, a).Some?
    ensures Follows(cfg, o, Step(cfg, s, a).value, NextPlace(cfg, s, a, w))
  {
    StepTracks(cfg, o, s, a, w);
    StepMail(cfg, o, s, a, w);
    StepCursor(cfg, o, s, a, w);
  }

  // ----- the archive

  lemma ArchivedNext(cfg: Config, files: Files, mail: seq<Message>, n: nat)
    requires n < |mail| && AllDated(cfg, mail[..n + 1])
    ensures AllDated(cfg, mail[..n]) && Dated(cfg, mail[n].raw)
    ensures Archived(cfg, files, mail[..n + 1]) ==
            match Archived(cfg, files, mail[..n])
            case Err => Err
            case Ok(before) =>
              match Write(before, DatedSlot(cfg, mail[n]), mail[n].raw, cfg.digest)
              case Err => Err
              case Ok(w) => Ok(w.files)
  {
    var upTo := mail[..n + 1];
    assert upTo[n] == mail[n] && upTo[..n] == mail[..n];
    assert mail[n] in upTo;
    assert forall m <- mail[..n] :: m in upTo;
  }

  lemma FiledFirst(cfg: Config, files0: Files, files: Files, mail: seq<Message>, n: nat)
    requires n < |mail| && AllDated(cfg, mail[..n + 1])
    requires AllDated(cfg, mail[..n]) ==> Archived(cfg, files0, mail[..n]) == Ok(files)
    requires Dated(cfg, mail[n].raw) ==> Write(files, DatedSlot(cfg, mail[n]), mail[n].raw, cfg.digest).Ok?
    ensures Dated(cfg, mail[n].raw)
    ensures Archived(cfg, files0, mail[..n + 1]) == Ok(Write(files, DatedSlot(cfg, mail[n]), mail[n].raw, cfg.digest).value.files)
  {
    ArchivedNext(cfg, files0, mail, n);
  }

  lemma FiledAgain(cfg: Config, files0: Files, files: Files, mail: seq<Message>, n: nat)
    requires n < |mail| && AllDated(cfg, mail[..n + 1]) && Archived(cfg, files0, mail[..n + 1]) == Ok(files)
    ensures Dated(cfg, mail[n].raw)
    ensures Write(files, DatedSlot(cfg, mail[n]), mail[n].raw, cfg.digest).Ok?
    ensures Write(files, DatedSlot(cfg, mail[n]), mail[n].raw, cfg.digest).value.files == files
  {
    ArchivedNext(cfg, files0, mail, n);
    var before := Archived(cfg, files0, mail[..n]).value;
    WriteIsStable(before, DatedSlot(cfg, mail[n]), mail[n].raw, cfg.digest, files);
  }

  /** Filing a message once more, or for the first time, follows the reference. */
  lemma FiledNext(cfg: Config, files0: Files, files: Files, mail: seq<Message>, n: nat, filed: nat, now: Stamp)
    requires n < |mail| && n <= filed <= n + 1 && FilesInv(cfg, files0, mail[..filed], files)
    requires Write(files, SlotFor(cfg, mail[n], now), mail[n].raw, cfg.digest).Ok?
    ensures FilesInv(cfg, files0, mail[..n + 1], Write(files, SlotFor(cfg, mail[n], now), mail[n].raw, cfg.digest).value.files)
  {
    if AllDated(cfg, mail[..n + 1]) {
      assert Dated(cfg, mail[n].raw) ==> SlotFor(cfg, mail[n], now) == DatedSlot(cfg, mail[n]);
      if filed == n {
        FiledFirst(cfg, files0, files, mail, n);
      } else {
        FiledAgain(cfg, files0, files, mail, n);
      }
    }
  }

  /** The steps that leave the archive alone. */
  lemma OtherFiles(cfg: Config, s: Sys, a: Action, w: Place)
    requires Steady(w) && Keeping(a) && !a.OthersPublish? && !a.File? && Step(cfg, s, a).Some?
    ensures Step(cfg, s, a).value.files == s.files
    ensures var w' := NextPlace(cfg, s, a, w); w'.filed <= |w'.mail| && w'.mail[..w'.filed] == w.mail[..w.filed]
  {
    PlaceOfOthers(cfg, s, a, w);
    assert NextPlace(cfg, s, a, w).mail[..w.filed] == w.mail[..w.filed];
  }

  lemma PlaceOfOthers(cfg: Config, s: Sys, a: Action, w: Place)
    requires !a.File?
    ensures w.mail <= NextPlace(cfg, s, a, w).mail && NextPlace(cfg, s, a, w).filed == w.filed
  {
  }

  lemma FileStepFiles(cfg: Config, files0: Files, s: Sys, now: Stamp, w: Place)
    requires Steady(w) && FilesInv(cfg, files0, w.mail[..w.filed], s.files) && StepFile(cfg, s, now).Some?
    requires w.done < |w.mail| && Current(s) == w.mail[w.done]
    ensures FilesInv(cfg, files0, w.mail[..w.done + 1], StepFile(cfg, s, now).value.files)
  {
    FiledNext(cfg, files0, s.files, w.mail, w.done, w.filed, now);
  }

  /** The job works on the message just behind the cursor. */
  predicate AtNext(s: Sys, w: Place) {
    InMessage(s) ==> w.done < |w.mail| && Current(s) == w.mail[w.done]
  }

  lemma TracksAtNext(cfg: Config, o: Origin, s: Sys, w: Place)
    requires TracksSys(cfg, o, s, w)
    ensures AtNext(s, w)
  {
    if InMessage(s) {
      CurrentIsNext(s.pc.run, w);
    }
  }

  lemma FileStepIs(cfg: Config, s: Sys, a: Action, w: Place)
    requires a.File? && Step(cfg, s, a).Some?
    ensures Step(cfg, s, a) == StepFile(cfg, s, a.now) && NextPlace(cfg, s, a, w) == w.(filed := w.done + 1)
  {
  }

  lemma SameFiled(cfg: Config, files0: Files, mail: seq<Message>, files: Files, mail': seq<Message>, files': Files)
    requires FilesInv(cfg, files0, mail, files) && mail' == mail && files' == files
    ensures FilesInv(cfg, files0, mail', files')
  {
  }

  lemma FilingStepFiles(cfg: Config, files0: Files, s: Sys, a: Action, w: Place)
    requires Steady(w) && Steady(NextPlace(cfg, s, a, w)) && AtNext(s, w)
    requires FilesInv(cfg, files0, w.mail[..w.filed], s.files)
    requires a.File? && Step(cfg, s, a).Some?
    ensures var w' := NextPlace(cfg, s, a, w); FilesInv(cfg, files0, w'.mail[..w'.filed], Step(cfg, s, a).value.files)
  {
    var w' := NextPlace(cfg, s, a, w);
    FileStepIs(cfg, s, a, w);
    FileStepFiles(cfg, files0, s, a.now, w);
    SameFiled(cfg, files0, w.mail[..w.done + 1], StepFile(cfg, s, a.now).value.files, w'.mail[..w'.filed], Step(cfg, s, a).value.files);
  }

  lemma OtherStepFiles(cfg: Config, files0: Files, s: Sys, a: Action, w: Place)
    requires Steady(w) && Steady(NextPlace(cfg, s, a, w))
    requires FilesInv(cfg, files0, w.mail[..w.filed], s.files)
    requires Keeping(a) && !a.OthersPublish? && !a.File? && Step(cfg, s, a).Some?
    ensures var w' := NextPlace(cfg, s, a, w); FilesInv(cfg, files0, w'.mail[..w'.filed], Step(cfg, s, a).value.files)
  {
    var w' := NextPlace(cfg, s, a, w);
    OtherFiles(cfg, s, a, w);
    SameFiled(cfg, files0, w.mail[..w.filed], s.files, w'.mail[..w'.filed], Step(cfg, s, a).value.files);
  }

  lemma StepFiles(cfg: Config, files0: Files, s: Sys, a: Action, w: Place)
    requires Steady(w) && Steady(NextPlace(cfg, s, a, w)) && AtNext(s, w)
    requires FilesInv(cfg, files0, w.mail[..w.filed], s.files)
    requires Keeping(a) && !a.OthersPublish? && Step(cfg, s, a).Some?
    ensures var w' := NextPlace(cfg, s, a, w); FilesInv(cfg, files0, w'.mail[..w'.filed], Step(cfg, s, a).value.files)
  {
    if a.File? {
      FilingStepFiles(cfg, files0, s, a, w);
    } else {
      OtherStepFiles(cfg, files0, s, a, w);
    }
  }

  // ----- every run

  /** The epoch is under way: no job is running and the stored cursor belongs to the mailbox. */
  ghost predicate UnderWay(cfg: Config, s: Sys) {
    Reachable(cfg, s) && s.pc.Idle? && Cursor(cfg, s).0 == s.box.validity
  }

  function OriginOf(cfg: Config, s: Sys): Origin {
    Origin(s.box.validity, Cursor(cfg, s).1, Faces(s.db.emails), s.hist.marked, s.files)
  }

  lemma OriginFollows(cfg: Config, s: Sys) returns (w: Place)
    requires UnderWay(cfg, s)
    ensures Follows(cfg, OriginOf(cfg, s), s, w) && FilesInv(cfg, s.files, w.mail[..w.filed], s.files)
  {
    ReachableInv(cfg, s);
    w := Place(HeldBetween(s.box.held, Cursor(cfg, s).1 + 1, s.box.uidNext), 0, 0, 0, 0);
  }

  lemma {:induction false} RunFollows(cfg: Config, s: Sys, actions: seq<Action>) returns (w: Place)
    requires UnderWay(cfg, s) && Exec(cfg, s, actions).Some? && forall a <- actions :: Keeping(a)
    ensures Follows(cfg, OriginOf(cfg, s), Exec(cfg, s, actions).value, w)
    ensures (forall a <- actions :: !a.OthersPublish?) ==>
            FilesInv(cfg, s.files, w.mail[..w.filed], Exec(cfg, s, actions).value.files)
  {
    if actions == [] {
      w := OriginFollows(cfg, s);
    } else {
      var last := |actions| - 1;
      var mid := Exec(cfg, s, actions[..last]).value;
      var before := RunFollows(cfg, s, actions[..last]);
      ReachableOn(cfg, s, actions[..last]);
      ReachableInv(cfg, mid);
      w := NextPlace(cfg, mid, actions[last], before);
      StepFollows(cfg, OriginOf(cfg, s), mid, actions[last], before);
      if forall a <- actions :: !a.OthersPublish? {
        TracksAtNext(cfg, OriginOf(cfg, s), mid, before);
        StepFiles(cfg, s.files, mid, actions[last], before);
      }
    }
  }

  // ----- a run that finishes

  /** The new mail a run was to handle. */
  function MailOf(cfg: Config, s0: Sys, s: Sys): seq<Message>
    requires s.pc.Finished?
  {
    HeldBetween(s.box.held, Cursor(cfg, s0).1 + 1, s.pc.run.start.horizon)
  }

  lemma BelowAndIn(mail: seq<Message>, horizon: Uint32, n: nat, m: Message)
    requires n <= |mail| && forall i :: 0 <= i < |mail| ==> (mail[i].uid < horizon <==> i < n)
    ensures m in mail[..n] <==> m in mail && m.uid < horizon
  {
    if m in mail && m.uid < horizon {
      var i :| 0 <= i < |mail| && mail[i] == m;
      assert mail[..n][i] == m;
    }
  }

  lemma HeldBelow(held: map<Uint32, Bytes>, first: nat, horizon: Uint32, next: Uint32, m: Message)
    requires horizon <= next
    ensures m in HeldBetween(held, first, horizon) <==> m in HeldBetween(held, first, next) && m.uid < horizon
  {
    HeldMember(held, first, horizon, m);
    HeldMember(held, first, next, m);
  }

  lemma FrontAscends(mail: seq<Message>, n: nat)
    requires Ascending(mail) && n <= |mail|
    ensures Ascending(mail[..n])
  {
  }

  lemma HeldAscends(held: map<Uint32, Bytes>, first: nat, bound: Uint32)
    ensures Ascending(HeldBetween(held, first, bound))
  {
    HeldBetweenIsExact(held, first, bound);
  }

  lemma BelowHorizon(held: map<Uint32, Bytes>, first: nat, horizon: Uint32, next: Uint32, n: nat)
    requires first <= next && horizon <= next && n <= |HeldBetween(held, first, next)|
    requires var mail := HeldBetween(held, first, next);
      forall i :: 0 <= i < |mail| ==> (mail[i].uid < horizon <==> i < n)
    ensures HeldBetween(held, first, next)[..n] == HeldBetween(held, first, horizon)
  {
    var mail, below := HeldBetween(held, first, next), HeldBetween(held, first, horizon);
    HeldAscends(held, first, next);
    HeldAscends(held, first, horizon);
    FrontAscends(mail, n);
    forall m
      ensures m in mail[..n] <==> m in below
    {
      BelowAndIn(mail, horizon, n, m);
      HeldBelow(held, first, horizon, next, m);
    }
    AscendingIsUnique(mail[..n], below);
  }

  lemma FinishedTracks(cfg: Config, o: Origin, s: Sys, w: Place)
    requires TracksSys(cfg, o, s, w) && s.pc.Finished?
    ensures w.marked == w.stored == w.filed == w.done && s.pc.run.start.horizon <= s.box.uidNext
    ensures forall i :: 0 <= i < |w.mail| ==> (w.mail[i].uid < s.pc.run.start.horizon <==> i < w.done)
  {
  }

  lemma FinishedMail(o: Origin, box: Box, horizon: Uint32, w: Place)
    requires Steady(w) && MailInv(o, box, w.mail) && horizon <= box.uidNext
    requires forall i :: 0 <= i < |w.mail| ==> (w.mail[i].uid < horizon <==> i < w.done)
    ensures w.mail[..w.done] == HeldBetween(box.held, o.cursor + 1, horizon)
  {
    BelowHorizon(box.held, o.cursor + 1, horizon, box.uidNext, w.done);
  }

  /** Rows, marks and cursor are those of handling this mail once, in order. */
  ghost predicate HandledOnce(cfg: Config, s0: Sys, s: Sys, mail: seq<Message>) {
    && Faces(s.db.emails) == Stored(cfg, s0.box.validity, Faces(s0.db.emails), mail)
    && s.hist.marked == Marks(s0.box.validity, s0.hist.marked, mail)
    && Cursor(cfg, s) == (s0.box.validity, LastOf(Cursor(cfg, s0).1, mail))
  }

  lemma AllHandledOnce(cfg: Config, s0: Sys, s: Sys, w: Place)
    requires Steady(w) && w.marked == w.stored == w.done
    requires var o := OriginOf(cfg, s0); EffectsOf(cfg, o, s.db.emails, s.hist.marked, w) && CursorOf(cfg, o, s.db, w)
    ensures HandledOnce(cfg, s0, s, w.mail[..w.done])
  {
  }

  lemma FinishedOutcome(cfg: Config, s0: Sys, s: Sys, w: Place)
    requires Follows(cfg, OriginOf(cfg, s0), s, w) && s.pc.Finished?
    ensures HandledOnce(cfg, s0, s, MailOf(cfg, s0, s)) && w.mail[..w.filed] == MailOf(cfg, s0, s)
  {
    FinishedTracks(cfg, OriginOf(cfg, s0), s, w);
    AllHandledOnce(cfg, s0, s, w);
    assert w.mail[..w.done] == MailOf(cfg, s0, s) by {
      FinishedMail(OriginOf(cfg, s0), s.box, s.pc.run.start.horizon, w);
    }
  }

  /**
   Rows, marks and cursor after a finished run are those of handling its mail once in
   order, however many attempts failed or crashed before it; the archive is too when
   all the mail is dated and nobody else published.
   */
  lemma CrashesDoNotMatter(cfg: Config, s0: Sys, actions: seq<Action>)
    requires UnderWay(cfg, s0) && (forall a <- actions :: Keeping(a))
    requires Exec(cfg, s0, actions).Some? && Exec(cfg, s0, actions).value.pc.Finished?
    ensures var s := Exec(cfg, s0, actions).value; var mail := MailOf(cfg, s0, s);
      && HandledOnce(cfg, s0, s, mail)
      && (AllDated(cfg, mail) && (forall a <- actions :: !a.OthersPublish?) ==> Archived(cfg, s0.files, mail) == Ok(s.files))
  {
    var s := Exec(cfg, s0, actions).value;
    var w := RunFollows(cfg, s0, actions);
    FinishedOutcome(cfg, s0, s, w);
  }
}

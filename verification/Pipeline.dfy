/**
 The whole service as one step machine: the mail server, the archive, the database
 and the poll job's program counter. The job's durable steps interleave with server
 events, other archive writers and crashes at every point. A digest runs only between
 poll jobs, which the run lock guarantees.
 */
module Pipeline {
  import opened Common
  import opened Timestamps
  import opened Archive
  import opened Database
  import opened Mailbox
  import Digests

  // ----- what the job computes from one message

  /** An instant and the YYYY/MM directory of its own time zone. */
  datatype Stamp = Stamp(instant: Instant, month: string)

  /** The result of parsing; a failed parse leaves every field empty. */
  datatype Parsed = ParseError | Parsed(messageId: string, date: Option<Stamp>, fromAddr: string)

  /** Parsing, hashing and address folding are deterministic functions of their input. */
  datatype Config = Config(
    folder: string, parse: Bytes -> Parsed, digest: Digest6, allowlist: set<string>, fold: string -> string)

  /** What the language model answered. */
  datatype Summary = Summary(text: string, status: string)

  function MessageId(cfg: Config, raw: Bytes): string {
    var p := cfg.parse(raw);
    if p.ParseError? then "" else p.messageId
  }

  predicate Dated(cfg: Config, raw: Bytes) {
    var p := cfg.parse(raw);
    p.Parsed? && p.date.Some?
  }

  /** The Date header, or the processing time without one. */
  function ReceivedAt(cfg: Config, raw: Bytes, now: Stamp): Stamp {
    if Dated(cfg, raw) then cfg.parse(raw).date.value else now
  }

  function SlotFor(cfg: Config, m: Message, now: Stamp): Slot {
    Slot(ReceivedAt(cfg, m.raw, now).month, NameFor(MessageId(cfg, m.raw), m.uid))
  }

  predicate InScope(cfg: Config, address: string) {
    cfg.allowlist == {} || cfg.fold(address) in cfg.allowlist
  }

  /** messageOutcome */
  datatype Outcome = Outcome(processed: nat, duplicate: nat, failed: nat, outOfScope: nat)

  /** poll.Result */
  datatype Tally = Tally(initialized: bool, fetched: nat, processed: nat, duplicates: nat, errors: nat, outOfScope: nat)

  function Add(t: Tally, o: Outcome): Tally {
    t.(processed := t.processed + o.processed, duplicates := t.duplicates + o.duplicate,
       errors := t.errors + o.failed, outOfScope := t.outOfScope + o.outOfScope)
  }

  /** The row to insert and what to count if it is inserted. */
  function RowToInsert(cfg: Config, validity: Uint32, m: Message, path: Path, receivedAt: Stamp, processedAt: Stamp,
                       summary: Summary): (NewEmail, Outcome)
  {
    var email := NewEmail(validity, m.uid, MessageId(cfg, m.raw), receivedAt.instant, path, "", true, "", processedAt.instant);
    match cfg.parse(m.raw)
    case ParseError =>
      (email.(summary := "could not summarize - read original", llmStatus := "error"), Outcome(1, 0, 1, 0))
    case Parsed(_, _, fromAddr) =>
      if !InScope(cfg, fromAddr) then
        (email.(summary := "out of scope - not summarized", inScope := false, llmStatus := "ok"), Outcome(1, 0, 0, 1))
      else
        (email.(summary := summary.text, llmStatus := summary.status),
         Outcome(1, 0, if summary.status == "error" then 1 else 0, 0))
  }

  /** One message processed; it failed, or was out of scope, exactly when its row says so, and never both. */
  predicate OutcomeOf(email: NewEmail, o: Outcome) {
    && o.processed == 1 && o.duplicate == 0
    && o.failed == (if email.llmStatus == "error" then 1 else 0)
    && o.outOfScope == (if email.inScope then 0 else 1)
    && (email.inScope || email.llmStatus != "error")
  }

  const DUPLICATE := Outcome(0, 1, 0, 0)

  // ----- the machine

  /** Where the job stands with the message at hand. */
  datatype Stage =
    | AtMessage
    | Filed(path: Path, receivedAt: Stamp, processedAt: Stamp)    // archived; existence not checked yet
    | Fresh(path: Path, receivedAt: Stamp, processedAt: Stamp)      // not in the database: summarize and insert
    | Covered(outcome: Outcome)                                   // a row covers it; not marked seen yet
    | Marked(outcome: Outcome)                                    // marked seen; cursor not advanced yet

  /** How things stood when the run fetched: rows stored, the cursor, the server's UIDNEXT. */
  datatype Start = Start(rows: nat, cursor: Uint32, horizon: Uint32)

  datatype Run = Run(validity: Uint32, batch: seq<Message>, next: nat, tally: Tally, stage: Stage, start: Start)

  datatype Pc = Idle | Baselining(validity: Uint32, lastUid: Uint32) | Polling(run: Run) | Finished(run: Run)

  /** UIDVALIDITY and UID name a message for ever. */
  type Key = (Uint32, Uint32)

  /**
   Histories: the bytes of every message ever given a UID, the baseline saved for each
   epoch, the messages digestd and others marked seen, those whose flag another client
   took away and nobody set since, and those already gone from the mailbox when a fetch
   passed over them.
   */
  datatype Hist = Hist(
    issued: map<Key, Bytes>, floor: map<Uint32, Uint32>, marked: set<Key>, othersSeen: set<Key>, unflagged: set<Key>,
    lost: set<Key>)

  datatype Sys = Sys(box: Box, files: Files, db: Db, pc: Pc, hist: Hist)

  datatype Action =
    // the server and its other clients
    | Arrive(raw: Bytes) | Expunge(uid: Uint32) | Reset(box: Box) | OthersFlag(uid: Uint32) | OthersUnflag(uid: Uint32)
    // other archive writers
    | OthersPublish(path: Path, raw: Bytes)
    // the digest job
    | SendDigest(windowEnd: Instant, weekBack: Instant)
    // the poll job
    | Fetch | SaveBaseline | File(now: Stamp) | Check | Store(summary: Summary) | MarkSeen | Advance | Finish | Return
    // an error return, or the death of the process
    | Crash

  function KeysOf(validity: Uint32, held: map<Uint32, Bytes>): (r: map<Key, Bytes>)
    ensures forall k :: k in r <==> k.0 == validity && k.1 in held
    ensures forall k :: k in r ==> r[k] == held[k.1]
  {
    map u | u in held :: (validity, u) := held[u]
  }

  function Init(box: Box): Sys {
    Sys(box, map[], EMPTY_DB, Idle,
        Hist(KeysOf(box.validity, box.held), map[], {}, set u <- box.seen :: (box.validity, u), {}, {}))
  }

  predicate IsAt(s: Sys, stage: Stage) {
    s.pc.Polling? && s.pc.run.stage == stage && s.pc.run.next < |s.pc.run.batch|
  }

  predicate InMessage(s: Sys) {
    s.pc.Polling? && s.pc.run.next < |s.pc.run.batch|
  }

  function Current(s: Sys): Message
    requires InMessage(s)
  {
    s.pc.run.batch[s.pc.run.next]
  }

  function CurrentKey(s: Sys): Key
    requires InMessage(s)
  {
    (s.pc.run.validity, Current(s).uid)
  }

  function AtStage(s: Sys, stage: Stage): Sys
    requires s.pc.Polling?
  {
    s.(pc := Polling(s.pc.run.(stage := stage)))
  }

  // ----- server events

  function ServerStep(s: Sys, a: Action): Option<Sys>
    requires a.Arrive? || a.Expunge? || a.Reset? || a.OthersFlag? || a.OthersUnflag?
  {
    var box := s.box;
    match a
    case Arrive(raw) =>
      if box.uidNext == MAX_UINT32 then None
      else Some(s.(box := box.(held := box.held[box.uidNext := raw], uidNext := box.uidNext + 1),
                   hist := s.hist.(issued := s.hist.issued[(box.validity, box.uidNext) := raw])))
    case Expunge(u) =>
      if u !in box.held then None
      else Some(s.(box := box.(held := box.held - {u}, seen := box.seen - {u})))
    case Reset(renewed) =>
      if !ValidBox(renewed) || renewed.validity <= box.validity then None
      else Some(s.(box := renewed,
                   hist := s.hist.(issued := s.hist.issued + KeysOf(renewed.validity, renewed.held),
                                   othersSeen := s.hist.othersSeen + set v <- renewed.seen :: (renewed.validity, v))))
    case OthersFlag(u) =>
      if u !in box.held then None
      else Some(s.(box := box.(seen := box.seen + {u}),
                   hist := s.hist.(othersSeen := s.hist.othersSeen + {(box.validity, u)},
                                   unflagged := s.hist.unflagged - {(box.validity, u)})))
    case OthersUnflag(u) =>
      Some(s.(box := box.(seen := box.seen - {u}),
              hist := s.hist.(unflagged := s.hist.unflagged + {(box.validity, u)})))
  }

  // ----- the poll job

  function StepFetch(cfg: Config, s: Sys): Option<Sys> {
    if !s.pc.Idle? then None
    else match LastUid(s.db, cfg.folder)
      case Err => None
      case Ok((known, last)) =>
        var r := Fetched(s.box, known, last);
        if r.baseline then Some(s.(pc := Baselining(r.uidValidity, r.lastUid)))
        else
          var gone := set k | k in s.hist.issued && k.0 == known && k.1 > last && k.1 !in s.box.held;
          Some(s.(pc := Polling(Run(known, r.messages, 0, Tally(false, |r.messages|, 0, 0, 0, 0), AtMessage,
                                    Start(|s.db.emails|, last, s.box.uidNext))),
                  hist := s.hist.(lost := s.hist.lost + gone)))
  }

  function StepSaveBaseline(cfg: Config, s: Sys): Option<Sys> {
    if !s.pc.Baselining? then None
    else Some(s.(db := SetLastUid(s.db, cfg.folder, s.pc.validity, s.pc.lastUid),
                 hist := s.hist.(floor := s.hist.floor[s.pc.validity := s.pc.lastUid]),
                 pc := Idle))
  }

  function StepFile(cfg: Config, s: Sys, now: Stamp): Option<Sys> {
    if !IsAt(s, AtMessage) then None
    else
      var m := Current(s);
      match Write(s.files, SlotFor(cfg, m, now), m.raw, cfg.digest)
      case Err => None
      case Ok(w) => Some(AtStage(s, Filed(w.path, ReceivedAt(cfg, m.raw, now), now)).(files := w.files))
  }

  function StepCheck(cfg: Config, s: Sys): Option<Sys> {
    if !InMessage(s) || !s.pc.run.stage.Filed? then None
    else
      var m, stage := Current(s), s.pc.run.stage;
      Some(AtStage(s,
        if EmailExists(s.db, s.pc.run.validity, m.uid, MessageId(cfg, m.raw)) then Covered(DUPLICATE)
        else Fresh(stage.path, stage.receivedAt, stage.processedAt)))
  }

  function StepStore(cfg: Config, s: Sys, summary: Summary): Option<Sys> {
    if !InMessage(s) || !s.pc.run.stage.Fresh? then None
    else
      var m, stage := Current(s), s.pc.run.stage;
      var (email, outcome) :=
        RowToInsert(cfg, s.pc.run.validity, m, stage.path, stage.receivedAt, stage.processedAt, summary);
      var (db, inserted) := InsertEmail(s.db, email);
      Some(AtStage(s, Covered(if inserted then outcome else outcome.(processed := 0, duplicate := 1))).(db := db))
  }

  function StepMarkSeen(s: Sys): Option<Sys> {
    if !InMessage(s) || !s.pc.run.stage.Covered? || s.box.validity != s.pc.run.validity then None
    else Some(AtStage(s, Marked(s.pc.run.stage.outcome)).(
                box := Flagged(s.box, Current(s).uid),
                hist := s.hist.(marked := s.hist.marked + {CurrentKey(s)},
                                unflagged := s.hist.unflagged - {CurrentKey(s)})))
  }

  function StepAdvance(cfg: Config, s: Sys): Option<Sys> {
    if !InMessage(s) || !s.pc.run.stage.Marked? then None
    else
      var run := s.pc.run;
      Some(s.(db := SetLastUid(s.db, cfg.folder, run.validity, Current(s).uid),
              pc := Polling(run.(next := run.next + 1, tally := Add(run.tally, run.stage.outcome), stage := AtMessage))))
  }

  function StepFinish(s: Sys): Option<Sys> {
    if s.pc.Polling? && s.pc.run.stage.AtMessage? && s.pc.run.next == |s.pc.run.batch|
    then Some(s.(pc := Finished(s.pc.run)))
    else None
  }

  function StepDigest(s: Sys, windowEnd: Instant, weekBack: Instant): Option<Sys> {
    if s.pc.Idle? && LastDigestAt(s.db).Ok? && Digests.PlausibleClock(Digests.Digest(windowEnd, weekBack, Digests.Completed))
    then Some(s.(db := Digests.Delivered(s.db, windowEnd, weekBack)))
    else None
  }

  /** One step of the whole system; None when it cannot happen. */
  function Step(cfg: Config, s: Sys, a: Action): (r: Option<Sys>)
    ensures a.File? ==> r == StepFile(cfg, s, a.now)
    ensures a.Store? ==> r == StepStore(cfg, s, a.summary)
  {
    match a
    case Fetch => StepFetch(cfg, s)
    case SaveBaseline => StepSaveBaseline(cfg, s)
    case File(now) => StepFile(cfg, s, now)
    case Check => StepCheck(cfg, s)
    case Store(summary) => StepStore(cfg, s, summary)
    case MarkSeen => StepMarkSeen(s)
    case Advance => StepAdvance(cfg, s)
    case Finish => StepFinish(s)
    case Return => if s.pc.Finished? then Some(s.(pc := Idle)) else None
    case Crash => Some(s.(pc := Idle))
    case SendDigest(windowEnd, weekBack) => StepDigest(s, windowEnd, weekBack)
    case OthersPublish(p, raw) =>
      if p in s.files || !IsPublished(p) then None else Some(s.(files := s.files[p := raw]))
    case _ => ServerStep(s, a)
  }

  function Exec(cfg: Config, s: Sys, actions: seq<Action>): Option<Sys> {
    if actions == [] then Some(s)
    else match Exec(cfg, s, actions[..|actions| - 1])
      case None => None
      case Some(mid) => Step(cfg, mid, actions[|actions| - 1])
  }
}

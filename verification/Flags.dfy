/**
 What the seen flags of the mailbox tell: a message that is there is read exactly when
 digestd or another client marked it and no client took the flag away since.
 */
module Flags {
  import opened Common
  import opened Mailbox
  import opened Pipeline
  import opened NoGaps
  import opened Guarantees

  ghost predicate FlagInv(box: Box, h: Hist) {
    && (forall k :: k in h.othersSeen ==> k in h.issued)
    && (forall k :: k in h.unflagged ==> k.0 <= box.validity)
    && (forall u :: u in box.held ==> FlagIsRight(box, h, u))
  }

  predicate FlagIsRight(box: Box, h: Hist, u: Uint32) {
    var k := (box.validity, u);
    u in box.seen <==> (k in h.marked || k in h.othersSeen) && k !in h.unflagged
  }

  // ----- every step

  lemma ServerFlags(cfg: Config, s: Sys, a: Action)
    requires BoxInv(s.box, s.hist.issued) && (forall k :: k in s.hist.marked ==> k in s.hist.issued)
    requires FlagInv(s.box, s.hist) && IsServerAction(a) && ServerStep(s, a).Some?
    ensures FlagInv(ServerStep(s, a).value.box, ServerStep(s, a).value.hist)
  {
    var s' := ServerStep(s, a).value;
    forall u | u in s'.box.held
      ensures FlagIsRight(s'.box, s'.hist, u)
    {
      if u in s.box.held && !a.Reset? {
        assert FlagIsRight(s.box, s.hist, u);
      }
    }
  }

  lemma MarkFlags(s: Sys)
    requires FlagInv(s.box, s.hist) && StepMarkSeen(s).Some?
    ensures FlagInv(StepMarkSeen(s).value.box, StepMarkSeen(s).value.hist)
  {
    var s' := StepMarkSeen(s).value;
    forall u | u in s'.box.held
      ensures FlagIsRight(s'.box, s'.hist, u)
    {
      assert FlagIsRight(s.box, s.hist, u);
    }
  }

  /** Nobody's flag is set or taken away. */
  predicate FlagsKept(s: Sys, s': Sys) {
    && s'.box == s.box && s'.hist.issued == s.hist.issued && s'.hist.marked == s.hist.marked
    && s'.hist.othersSeen == s.hist.othersSeen && s'.hist.unflagged == s.hist.unflagged
  }

  lemma FlagsKeptInMessage(cfg: Config, s: Sys, a: Action)
    requires (a.File? || a.Check? || a.Store? || a.Advance?) && Step(cfg, s, a).Some?
    ensures FlagsKept(s, Step(cfg, s, a).value)
  {
  }

  lemma FlagsKeptAround(cfg: Config, s: Sys, a: Action)
    requires (a.Fetch? || a.SaveBaseline? || a.Finish? || a.Return? || a.Crash?) && Step(cfg, s, a).Some?
    ensures FlagsKept(s, Step(cfg, s, a).value)
  {
  }

  lemma FlagsKeptByOthers(cfg: Config, s: Sys, a: Action)
    requires (a.OthersPublish? || a.SendDigest?) && Step(cfg, s, a).Some?
    ensures FlagsKept(s, Step(cfg, s, a).value)
  {
  }

  /** The steps of nobody who sets or takes away a flag. */
  lemma FlagsUntouched(cfg: Config, s: Sys, a: Action)
    requires Step(cfg, s, a).Some? && !IsServerAction(a) && !a.MarkSeen?
    ensures FlagsKept(s, Step(cfg, s, a).value)
  {
    if a.File? || a.Check? || a.Store? || a.Advance? {
      FlagsKeptInMessage(cfg, s, a);
    } else if a.OthersPublish? || a.SendDigest? {
      FlagsKeptByOthers(cfg, s, a);
    } else {
      FlagsKeptAround(cfg, s, a);
    }
  }

  lemma SameFlags(box: Box, h: Hist, h': Hist)
    requires FlagInv(box, h) && h'.issued == h.issued && h'.marked == h.marked
    requires h'.othersSeen == h.othersSeen && h'.unflagged == h.unflagged
    ensures FlagInv(box, h')
  {
    forall u | u in box.held
      ensures FlagIsRight(box, h', u)
    {
      assert FlagIsRight(box, h, u);
    }
  }

  lemma MarkedAreIssued(cfg: Config, s: Sys)
    requires Inv(cfg, s)
    ensures BoxInv(s.box, s.hist.issued) && forall k :: k in s.hist.marked ==> k in s.hist.issued
  {
  }

  lemma StepFlags(cfg: Config, s: Sys, a: Action)
    requires BoxInv(s.box, s.hist.issued) && (forall k :: k in s.hist.marked ==> k in s.hist.issued)
    requires FlagInv(s.box, s.hist) && Step(cfg, s, a).Some?
    ensures FlagInv(Step(cfg, s, a).value.box, Step(cfg, s, a).value.hist)
  {
    if IsServerAction(a) {
      ServerFlags(cfg, s, a);
    } else if a.MarkSeen? {
      MarkFlags(s);
    } else {
      FlagsUntouched(cfg, s, a);
      SameFlags(s.box, s.hist, Step(cfg, s, a).value.hist);
    }
  }

  lemma InitFlags(box: Box)
    ensures FlagInv(Init(box).box, Init(box).hist) || !ValidBox(box)
  {
    var h := Init(box).hist;
    forall u | u in box.held
      ensures FlagIsRight(box, h, u)
    {
      assert u in box.seen <==> (box.validity, u) in h.othersSeen;
    }
  }

  lemma {:induction false} RunFlags(cfg: Config, box: Box, actions: seq<Action>)
    requires ValidBox(box) && Exec(cfg, Init(box), actions).Some?
    ensures var s := Exec(cfg, Init(box), actions).value; FlagInv(s.box, s.hist)
  {
    if actions == [] {
      InitFlags(box);
    } else {
      var last := |actions| - 1;
      var mid := Exec(cfg, Init(box), actions[..last]).value;
      RunFlags(cfg, box, actions[..last]);
      InitInv(cfg, box);
      RunKeeps(cfg, Init(box), actions[..last]);
      MarkedAreIssued(cfg, mid);
      StepFlags(cfg, mid, actions[last]);
    }
  }

  // ----- what the flags tell

  /** In every reachable state a message in the mailbox is read exactly when somebody marked it and nobody took that back. */
  lemma FlagsAreExact(cfg: Config, s: Sys, uid: Uint32)
    requires Reachable(cfg, s) && uid in s.box.held
    ensures var k := (s.box.validity, uid);
      uid in s.box.seen <==> (k in s.hist.marked || k in s.hist.othersSeen) && k !in s.hist.unflagged
  {
    var box, actions :| ValidBox(box) && Exec(cfg, Init(box), actions) == Some(s);
    RunFlags(cfg, box, actions);
    assert FlagIsRight(s.box, s.hist, uid);
  }

  /** Whatever is left in the mailbox between baseline and cursor is read, unless another client unflagged it. */
  lemma HeldMailIsRead(cfg: Config, s: Sys, uid: Uint32)
    requires Reachable(cfg, s) && uid in s.box.held && s.box.validity in s.hist.floor
    requires s.box.validity == Cursor(cfg, s).0 && s.hist.floor[s.box.validity] < uid <= Cursor(cfg, s).1
    ensures uid in s.box.seen || (s.box.validity, uid) in s.hist.unflagged
  {
    HeldMailIsHandled(cfg, s, uid);
    FlagsAreExact(cfg, s, uid);
  }

  /** A message counts as unflagged only from the step in which another client took its flag away. */
  lemma OnlyOthersUnflag(cfg: Config, s: Sys, a: Action, k: Key)
    requires Step(cfg, s, a).Some? && k in Step(cfg, s, a).value.hist.unflagged && k !in s.hist.unflagged
    ensures a == OthersUnflag(k.1) && k.0 == s.box.validity
  {
    if !IsServerAction(a) && !a.MarkSeen? {
      FlagsUntouched(cfg, s, a);
    }
  }

  lemma {:induction false} StaysFlagged(cfg: Config, s: Sys, later: seq<Action>, k: Key)
    requires Exec(cfg, s, later).Some? && k !in s.hist.unflagged && forall a <- later :: a != OthersUnflag(k.1)
    ensures k !in Exec(cfg, s, later).value.hist.unflagged
  {
    if later != [] {
      var last := |later| - 1;
      assert later[last] in later && forall a :: a in later[..last] ==> a in later;
      StaysFlagged(cfg, s, later[..last], k);
      var mid := Exec(cfg, s, later[..last]).value;
      if k in Step(cfg, mid, later[last]).value.hist.unflagged {
        OnlyOthersUnflag(cfg, mid, later[last], k);
      }
    }
  }

  /** A message once read stays read while it is in the mailbox, if no other client takes its flag away. */
  lemma ReadStaysRead(cfg: Config, s: Sys, later: seq<Action>, uid: Uint32)
    requires Reachable(cfg, s) && uid in s.box.held && uid in s.box.seen
    requires Exec(cfg, s, later).Some? && forall a <- later :: a != OthersUnflag(uid)
    ensures var end := Exec(cfg, s, later).value;
      end.box.validity == s.box.validity && uid in end.box.held ==> uid in end.box.seen
  {
    var end := Exec(cfg, s, later).value;
    FlagsAreExact(cfg, s, uid);
    StaysFlagged(cfg, s, later, (s.box.validity, uid));
    NothingIsUndone(cfg, s, later);
    ReachableOn(cfg, s, later);
    if end.box.validity == s.box.validity && uid in end.box.held {
      FlagsAreExact(cfg, end, uid);
    }
  }
}

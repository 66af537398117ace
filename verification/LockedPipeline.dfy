/**
 Why the machine may run digests only between polls: without that condition, and with
 job bodies taken under the run lock, every history is one of the machine's.
 */
module LockedPipeline {
  import opened Common
  import opened Archive
  import opened Database
  import opened Mailbox
  import opened Pipeline
  import opened Guarantees
  import opened JobBodies
  import Digests
  import RunLock

  /** What a body still running has done. */
  predicate BodySoFar(steps: seq<Action>) {
    PollSteps(steps) || DigestBody(steps)
  }

  // ----- the machine without its condition on digests

  function FreeStep(cfg: Config, s: Sys, a: Action): Option<Sys> {
    match a
    case SendDigest(windowEnd, weekBack) =>
      if LastDigestAt(s.db).Ok? && Digests.PlausibleClock(Digests.Digest(windowEnd, weekBack, Digests.Completed))
      then Some(s.(db := Digests.Delivered(s.db, windowEnd, weekBack)))
      else None
    case _ => Step(cfg, s, a)
  }

  function FreeExec(cfg: Config, s: Sys, actions: seq<Action>): Option<Sys> {
    if actions == [] then Some(s)
    else match FreeExec(cfg, s, actions[..|actions| - 1])
      case None => None
      case Some(mid) => FreeStep(cfg, mid, actions[|actions| - 1])
  }

  // ----- whole bodies leave no digest inside a poll

  function Effects(log: seq<(nat, Action)>): (r: seq<Action>)
    ensures |r| == |log| && forall i :: 0 <= i < |r| ==> r[i] == log[i].1
  {
    seq(|log|, i requires 0 <= i < |log| => log[i].1)
  }

  /** Each digest comes first, or right after a step that ended a job. */
  ghost predicate DigestsApart(steps: seq<Action>) {
    forall i :: 0 <= i < |steps| && steps[i].SendDigest? ==> i == 0 || Ends(steps[i - 1])
  }

  lemma BodyKeepsApart(steps: seq<Action>, body: seq<Action>)
    requires DigestsApart(steps) && Rested(steps) && BodySoFar(body)
    ensures DigestsApart(steps + body)
    ensures Rested(body) ==> Rested(steps + body)
  {
    var all := steps + body;
    forall i | 0 <= i < |all| && all[i].SendDigest?
      ensures i == 0 || Ends(all[i - 1])
    {
      if i >= |steps| {
        assert all[i] == body[i - |steps|];
        assert body[i - |steps|] in body;
      }
    }
  }

  lemma {:induction false} SerialKeepsApart(jobs: seq<RunLock.Job<Action>>)
    requires forall i :: 0 <= i < |jobs| ==> PollBody(jobs[i].effects) || DigestBody(jobs[i].effects)
    ensures DigestsApart(Effects(RunLock.Serial(jobs))) && Rested(Effects(RunLock.Serial(jobs)))
  {
    if jobs != [] {
      var front, last := jobs[..|jobs| - 1], jobs[|jobs| - 1];
      SerialKeepsApart(front);
      BodyKeepsApart(Effects(RunLock.Serial(front)), last.effects);
      assert Effects(RunLock.Serial(jobs)) == Effects(RunLock.Serial(front)) + last.effects;
    }
  }

  /** The job steps of a poll that went from no job under way to no job under way, as a run of the poll job does. */
  ghost predicate PollRun(cfg: Config, steps: seq<Action>) {
    exists s, actions, s' :: PollHistory(cfg, s, actions, s') && s.pc.Idle? && s'.pc.Idle? && steps == JobSteps(actions)
  }

  ghost predicate PollRunSoFar(cfg: Config, steps: seq<Action>) {
    exists s, actions, s' :: PollHistory(cfg, s, actions, s') && s.pc.Idle? && steps == JobSteps(actions)
  }

  /** Every body that finished under the lock is a poll or a digest, and the running one is part of one. */
  ghost predicate RunsJobs(cfg: Config, lock: RunLock.State<Action>) {
    && (forall i :: 0 <= i < |lock.done| ==> PollRun(cfg, lock.done[i].effects) || DigestBody(lock.done[i].effects))
    && (forall t :: t in lock.threads && lock.threads[t].Running? ==>
         PollRunSoFar(cfg, lock.threads[t].effects) || DigestBody(lock.threads[t].effects))
  }

  lemma PollRunIsBody(cfg: Config, steps: seq<Action>)
    requires PollRun(cfg, steps)
    ensures PollBody(steps)
  {
    var s, actions, s' :| PollHistory(cfg, s, actions, s') && s.pc.Idle? && s'.pc.Idle? && steps == JobSteps(actions);
    WholePollIsBody(cfg, s, actions, s');
  }

  lemma PollRunSoFarPolls(cfg: Config, steps: seq<Action>)
    requires PollRunSoFar(cfg, steps)
    ensures PollSteps(steps)
  {
    var s, actions, s' :| PollHistory(cfg, s, actions, s') && s.pc.Idle? && steps == JobSteps(actions);
    PollStepsOf(actions);
  }

  lemma FinishedKeepApart(cfg: Config, jobs: seq<RunLock.Job<Action>>)
    requires forall i :: 0 <= i < |jobs| ==> PollRun(cfg, jobs[i].effects) || DigestBody(jobs[i].effects)
    ensures DigestsApart(Effects(RunLock.Serial(jobs))) && Rested(Effects(RunLock.Serial(jobs)))
  {
    forall i | 0 <= i < |jobs|
      ensures PollBody(jobs[i].effects) || DigestBody(jobs[i].effects)
    {
      if !DigestBody(jobs[i].effects) {
        PollRunIsBody(cfg, jobs[i].effects);
      }
    }
    SerialKeepsApart(jobs);
  }

  lemma LogKeepsApart(lock: RunLock.State<Action>, t: nat, body: seq<Action>)
    requires DigestsApart(Effects(RunLock.Serial(lock.done))) && Rested(Effects(RunLock.Serial(lock.done)))
    requires BodySoFar(body) && lock.log == RunLock.Serial(lock.done) + RunLock.Tagged(t, body)
    ensures DigestsApart(Effects(lock.log))
  {
    BodyKeepsApart(Effects(RunLock.Serial(lock.done)), body);
    assert Effects(lock.log) == Effects(RunLock.Serial(lock.done)) + body;
  }

  lemma RunningIsPart(cfg: Config, lock: RunLock.State<Action>, t: nat)
    requires RunsJobs(cfg, lock) && t in lock.threads && lock.threads[t].Running?
    ensures BodySoFar(lock.threads[t].effects)
  {
    if !DigestBody(lock.threads[t].effects) {
      PollRunSoFarPolls(cfg, lock.threads[t].effects);
    }
  }

  lemma LockKeepsApart(cfg: Config, turns: seq<RunLock.Action<Action>>)
    requires RunLock.Exec(RunLock.Init(), turns).Some? && RunsJobs(cfg, RunLock.Exec(RunLock.Init(), turns).value)
    ensures DigestsApart(Effects(RunLock.Exec(RunLock.Init(), turns).value.log))
  {
    var lock := RunLock.Exec(RunLock.Init(), turns).value;
    RunLock.JobsAreSerial(turns);
    FinishedKeepApart(cfg, lock.done);
    if t :| t in lock.threads && lock.threads[t].Running? {
      RunningIsPart(cfg, lock, t);
      LogKeepsApart(lock, t, lock.threads[t].effects);
    } else {
      assert RunLock.NoneRunning(lock);
    }
  }

  // ----- so the condition always holds

  lemma IdleDigest(cfg: Config, s: Sys, a: Action)
    requires a.SendDigest? && s.pc.Idle?
    ensures FreeStep(cfg, s, a) == Step(cfg, s, a)
    ensures Step(cfg, s, a).Some? ==> Step(cfg, s, a).value.pc.Idle?
  {
    assert Step(cfg, s, a) == StepDigest(s, a.windowEnd, a.weekBack);
  }

  lemma FrontStaysApart(front: seq<Action>, a: Action)
    requires DigestsApart(front + [a])
    ensures DigestsApart(front) && (a.SendDigest? ==> Rested(front))
  {
    var all := front + [a];
    assert forall i :: 0 <= i < |front| ==> front[i] == all[i];
    assert all[|front|] == a;
  }

  lemma NextStepAgrees(cfg: Config, s: Sys, front: seq<Action>, a: Action)
    requires DigestsApart(front + if IsJobs(a) then [a] else [])
    requires Rested(front) ==> s.pc.Idle?
    requires FreeStep(cfg, s, a).Some?
    ensures DigestsApart(front) && FreeStep(cfg, s, a) == Step(cfg, s, a)
    ensures Rested(front + if IsJobs(a) then [a] else []) ==> Step(cfg, s, a).value.pc.Idle?
  {
    if !IsJobs(a) {
      assert front + [] == front;
      WorldKeepsJob(cfg, s, a);
    } else {
      FrontStaysApart(front, a);
      if a.SendDigest? {
        IdleDigest(cfg, s, a);
      } else if Ends(a) {
        EndIsIdle(cfg, s, a);
      }
    }
  }

  lemma {:induction false} ApartAgrees(cfg: Config, s: Sys, actions: seq<Action>)
    requires s.pc.Idle? && DigestsApart(JobSteps(actions)) && FreeExec(cfg, s, actions).Some?
    ensures Exec(cfg, s, actions) == FreeExec(cfg, s, actions)
    ensures Rested(JobSteps(actions)) ==> FreeExec(cfg, s, actions).value.pc.Idle?
  {
    if actions != [] {
      var last := |actions| - 1;
      var front := JobSteps(actions[..last]);
      JobStepsApart(front, actions[last]);
      ApartAgrees(cfg, s, actions[..last]);
      NextStepAgrees(cfg, FreeExec(cfg, s, actions[..last]).value, front, actions[last]);
    }
  }

  lemma JobStepsApart(front: seq<Action>, a: Action)
    requires DigestsApart(front + if IsJobs(a) then [a] else [])
    ensures DigestsApart(front)
  {
    if IsJobs(a) {
      FrontStaysApart(front, a);
    } else {
      assert front + [] == front;
    }
  }

  /**
   One life of the process: the jobs take their steps under the lock, in the order of
   the lock's log, and the world acts in between at will. Then a machine that would let
   a digest run at any time does what the machine with the condition does.
   */
  lemma LockMakesDigestsWait(cfg: Config, s: Sys, turns: seq<RunLock.Action<Action>>, actions: seq<Action>)
    requires s.pc.Idle? && FreeExec(cfg, s, actions).Some?
    requires RunLock.Exec(RunLock.Init(), turns).Some? && RunsJobs(cfg, RunLock.Exec(RunLock.Init(), turns).value)
    requires JobSteps(actions) == Effects(RunLock.Exec(RunLock.Init(), turns).value.log)
    ensures Exec(cfg, s, actions) == FreeExec(cfg, s, actions)
  {
    LockKeepsApart(cfg, turns);
    ApartAgrees(cfg, s, actions);
  }

  /** So from any reachable state between jobs the locked service stays within the reachable states. */
  lemma LockedStaysReachable(cfg: Config, s: Sys, turns: seq<RunLock.Action<Action>>, actions: seq<Action>)
    requires Reachable(cfg, s) && s.pc.Idle? && FreeExec(cfg, s, actions).Some?
    requires RunLock.Exec(RunLock.Init(), turns).Some? && RunsJobs(cfg, RunLock.Exec(RunLock.Init(), turns).value)
    requires JobSteps(actions) == Effects(RunLock.Exec(RunLock.Init(), turns).value.log)
    ensures Reachable(cfg, FreeExec(cfg, s, actions).value)
  {
    LockMakesDigestsWait(cfg, s, turns, actions);
    ReachableOn(cfg, s, actions);
  }

  // ----- after Stop

  /** What only the mail server, its other clients and other archive writers can have done. */
  ghost predicate OnlyTheWorld(s: Sys, actions: seq<Action>, s': Sys) {
    && s'.db == s.db && s'.pc == s.pc && s'.hist.marked == s.hist.marked
    && Preserves(s.files, s'.files)
    && (forall p <- s'.files :: p in s.files || OthersPublish(p, s'.files[p]) in actions)
    && s.hist.othersSeen <= s'.hist.othersSeen
    && (forall u <- s'.box.seen ::
         (s'.box.validity, u) in s'.hist.othersSeen || (s'.box.validity == s.box.validity && u in s.box.seen))
  }

  lemma WorldFiles(cfg: Config, s: Sys, a: Action)
    requires !IsJobs(a) && Step(cfg, s, a).Some?
    ensures var s' := Step(cfg, s, a).value;
      && s'.db == s.db && s'.pc == s.pc && s'.hist.marked == s.hist.marked && Preserves(s.files, s'.files)
      && forall p <- s'.files :: p in s.files || a == OthersPublish(p, s'.files[p])
  {
  }

  lemma WorldFlags(cfg: Config, s: Sys, a: Action)
    requires !IsJobs(a) && Step(cfg, s, a).Some? && ValidBox(s.box)
    ensures var s' := Step(cfg, s, a).value;
      && ValidBox(s'.box) && s.box.validity <= s'.box.validity && s.hist.othersSeen <= s'.hist.othersSeen
      && forall u <- s'.box.seen ::
           (s'.box.validity, u) in s'.hist.othersSeen || (s'.box.validity == s.box.validity && u in s.box.seen)
  {
  }

  lemma WorldStep(cfg: Config, s: Sys, a: Action)
    requires !IsJobs(a) && Step(cfg, s, a).Some? && ValidBox(s.box)
    ensures OnlyTheWorld(s, [a], Step(cfg, s, a).value)
    ensures ValidBox(Step(cfg, s, a).value.box) && s.box.validity <= Step(cfg, s, a).value.box.validity
  {
    WorldFiles(cfg, s, a);
    WorldFlags(cfg, s, a);
  }

  lemma NoJobStep(front: seq<Action>, a: Action)
    requires front + (if IsJobs(a) then [a] else []) == []
    ensures front == [] && !IsJobs(a)
  {
    assert |front + (if IsJobs(a) then [a] else [])| == |front| + if IsJobs(a) then 1 else 0;
  }

  lemma WorldGoesOn(s: Sys, actions: seq<Action>, mid: Sys, a: Action, s': Sys)
    requires OnlyTheWorld(s, actions, mid) && OnlyTheWorld(mid, [a], s')
    requires s.box.validity <= mid.box.validity <= s'.box.validity
    ensures OnlyTheWorld(s, actions + [a], s')
  {
    PreservesTransitive(s.files, mid.files, s'.files);
    forall p <- s'.files
      ensures p in s.files || OthersPublish(p, s'.files[p]) in actions + [a]
    {
      if p in mid.files && p !in s.files {
        assert OthersPublish(p, mid.files[p]) in actions;
      }
    }
  }

  /** Only the world acted from s on, and the mailbox is one the server can have. */
  ghost predicate WorldFrom(s: Sys, actions: seq<Action>, s': Sys) {
    OnlyTheWorld(s, actions, s') && ValidBox(s'.box) && s.box.validity <= s'.box.validity
  }

  lemma WorldNext(cfg: Config, s: Sys, actions: seq<Action>, mid: Sys)
    requires actions != [] && !IsJobs(actions[|actions| - 1]) && Step(cfg, mid, actions[|actions| - 1]).Some?
    requires WorldFrom(s, actions[..|actions| - 1], mid)
    ensures WorldFrom(s, actions, Step(cfg, mid, actions[|actions| - 1]).value)
  {
    var last := |actions| - 1;
    WorldStep(cfg, mid, actions[last]);
    WorldGoesOn(s, actions[..last], mid, actions[last], Step(cfg, mid, actions[last]).value);
    assert actions == actions[..last] + [actions[last]];
  }

  lemma WorldStands(s: Sys)
    requires ValidBox(s.box)
    ensures WorldFrom(s, [], s)
  {
  }

  lemma {:induction false} WorldAlone(cfg: Config, s: Sys, actions: seq<Action>)
    requires JobSteps(actions) == [] && ValidBox(s.box) && Exec(cfg, s, actions).Some?
    ensures WorldFrom(s, actions, Exec(cfg, s, actions).value)
  {
    if actions == [] {
      WorldStands(s);
    } else {
      var last := |actions| - 1;
      NoJobStep(JobSteps(actions[..last]), actions[last]);
      WorldAlone(cfg, s, actions[..last]);
      WorldNext(cfg, s, actions, Exec(cfg, s, actions[..last]).value);
    }
  }

  /**
   Once Stop has returned nil, whatever the threads still do, the later steps of the
   service change neither the tables nor what digestd marked: files come from other
   writers, flags from other clients.
   */
  lemma NothingAfterStop(cfg: Config, s: Sys, before: seq<RunLock.Action<Action>>, stopper: nat,
                         later: seq<RunLock.Action<Action>>, actions: seq<Action>)
    requires RunLock.Exec(RunLock.Init(), before).Some?
    requires RunLock.At(RunLock.Exec(RunLock.Init(), before).value, stopper, RunLock.Stopped)
    requires RunLock.Exec(RunLock.Exec(RunLock.Init(), before).value, later).Some?
    requires var lock := RunLock.Exec(RunLock.Init(), before).value;
      Effects(RunLock.Exec(lock, later).value.log) == Effects(lock.log) + JobSteps(actions)
    requires ValidBox(s.box) && FreeExec(cfg, s, actions).Some?
    ensures OnlyTheWorld(s, actions, FreeExec(cfg, s, actions).value)
  {
    RunLock.StopIsFinal(before, stopper, later);
    assert |JobSteps(actions)| == 0;
    FreeIsWorld(cfg, s, actions);
    WorldAlone(cfg, s, actions);
  }

  lemma {:induction false} FreeIsWorld(cfg: Config, s: Sys, actions: seq<Action>)
    requires JobSteps(actions) == [] && FreeExec(cfg, s, actions).Some?
    ensures Exec(cfg, s, actions) == FreeExec(cfg, s, actions)
  {
    if actions != [] {
      var last := |actions| - 1;
      NoJobStep(JobSteps(actions[..last]), actions[last]);
      FreeIsWorld(cfg, s, actions[..last]);
    }
  }
}

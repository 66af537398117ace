/**
 What the bodies of the two jobs do. A poll that starts and ends with no job under way
 is a poll body, whatever the world does in between.
 */
module JobBodies {
  import opened Common
  import opened Pipeline

  /** What job bodies do; the mail server and other archive writers act without the lock. */
  predicate IsJobs(a: Action) {
    || a.Fetch? || a.SaveBaseline? || a.File? || a.Check? || a.Store? || a.MarkSeen? || a.Advance? || a.Finish?
    || a.Return? || a.Crash? || a.SendDigest?
  }

  /** The steps after which no job is under way; a crash here is an error return. */
  predicate Ends(a: Action) {
    a.SaveBaseline? || a.Return? || a.Crash? || a.SendDigest?
  }

  predicate Rested(steps: seq<Action>) {
    steps == [] || Ends(steps[|steps| - 1])
  }

  /** Steps of the poll job only. */
  predicate PollSteps(steps: seq<Action>) {
    forall a <- steps :: IsJobs(a) && !a.SendDigest?
  }

  /** RunPoll's body: steps of the poll job, the last of which ends it. */
  predicate PollBody(steps: seq<Action>) {
    PollSteps(steps) && Rested(steps)
  }

  /** RunDigest's body: a digest is completed, or nothing is. */
  predicate DigestBody(steps: seq<Action>) {
    steps == [] || (|steps| == 1 && steps[0].SendDigest?)
  }

  /** The steps that jobs took in a history. */
  function JobSteps(actions: seq<Action>): seq<Action> {
    if actions == [] then []
    else
      var last := actions[|actions| - 1];
      JobSteps(actions[..|actions| - 1]) + if IsJobs(last) then [last] else []
  }

  /** A history of one poll job and the world. */
  predicate NoDigest(actions: seq<Action>) {
    forall a <- actions :: !a.SendDigest?
  }

  lemma NoDigestJoins(first: seq<Action>, second: seq<Action>)
    requires NoDigest(first) && NoDigest(second)
    ensures NoDigest(first + second)
  {
  }

  lemma {:induction false} PollStepsOf(actions: seq<Action>)
    requires NoDigest(actions)
    ensures PollSteps(JobSteps(actions))
  {
    if actions != [] {
      var last := |actions| - 1;
      PollStepsOf(actions[..last]);
      assert actions[last] in actions;
    }
  }

  // ----- when no job is under way

  lemma WorldKeepsJob(cfg: Config, s: Sys, a: Action)
    requires !IsJobs(a) && Step(cfg, s, a).Some?
    ensures Step(cfg, s, a).value.pc == s.pc
  {
  }

  lemma EndIsIdle(cfg: Config, s: Sys, a: Action)
    requires Ends(a) && !a.SendDigest? && Step(cfg, s, a).Some?
    ensures Step(cfg, s, a).value.pc.Idle?
  {
  }

  lemma OtherIsNotIdle(cfg: Config, s: Sys, a: Action)
    requires IsJobs(a) && !Ends(a) && Step(cfg, s, a).Some?
    ensures !Step(cfg, s, a).value.pc.Idle?
  {
  }

  /** From a state between jobs, a poll is over exactly when its last step ended it. */
  lemma {:induction false} IdleWhenRested(cfg: Config, s: Sys, actions: seq<Action>)
    requires s.pc.Idle? && NoDigest(actions) && Exec(cfg, s, actions).Some?
    ensures Exec(cfg, s, actions).value.pc.Idle? <==> Rested(JobSteps(actions))
  {
    if actions != [] {
      var last := |actions| - 1;
      var mid, a := Exec(cfg, s, actions[..last]).value, actions[last];
      assert a in actions;
      IdleWhenRested(cfg, s, actions[..last]);
      if !IsJobs(a) {
        WorldKeepsJob(cfg, mid, a);
      } else if Ends(a) {
        EndIsIdle(cfg, mid, a);
      } else {
        OtherIsNotIdle(cfg, mid, a);
      }
    }
  }

  // ----- a run of the poll job

  /** The poll job and the world took s to s'. */
  ghost predicate PollHistory(cfg: Config, s: Sys, actions: seq<Action>, s': Sys) {
    NoDigest(actions) && Exec(cfg, s, actions) == Some(s')
  }

  /** A whole poll is a poll body. */
  lemma WholePollIsBody(cfg: Config, s: Sys, actions: seq<Action>, s': Sys)
    requires s.pc.Idle? && s'.pc.Idle? && PollHistory(cfg, s, actions, s')
    ensures PollBody(JobSteps(actions))
  {
    PollStepsOf(actions);
    IdleWhenRested(cfg, s, actions);
  }
}

/**
 The scheduler's run lock: a one-slot channel, an atomic stop flag, and a second
 look at the flag after the lock is taken. Any number of threads call RunPoll,
 RunDigest and Stop at any time; every interleaving of their atomic steps is a
 sequence of actions of this machine. Nothing is assumed of the cron library.
 */
module RunLock {
  import opened Common

  /** Where a thread stands inside withLock or Stop; E is what a job body does to the world. */
  datatype Pc<E> =
    | Called                          // withLock entered
    | SawNoStop                       // first load of the flag returned false
    | Locked                          // the send succeeded
    | BackingOut                      // second load returned true; receive pending
    | Running(effects: seq<E>)        // inside the job body
    | Releasing(effects: seq<E>)      // body over; deferred receive pending
    | Returned(ran: bool)
    | StopCalled
    | FlagSet
    | CronStopped
    | StopLocked                      // Stop's send succeeded; receive pending
    | Stopped                         // Stop returned nil
    | GaveUp                          // Stop returned the context's error

  datatype Job<E> = Job(thread: nat, effects: seq<E>)

  /**
   Histories: log and done are the effects in time order and the finished job bodies;
   sawStop and sawFull are the threads that found the flag up at one of their two looks,
   or the channel full at their send.
   */
  datatype State<E> = State(
    threads: map<nat, Pc<E>>,
    slots: nat,
    stopping: bool,
    log: seq<(nat, E)>,
    done: seq<Job<E>>,
    sawStop: set<nat>,
    sawFull: set<nat>)

  datatype Action<E> =
    | Call(t: nat) | FirstCheck(t: nat) | TryLock(t: nat) | SecondCheck(t: nat) | BackOut(t: nat)
    | Affect(t: nat, e: E) | Finish(t: nat) | Release(t: nat)
    | CallStop(t: nat) | SetFlag(t: nat) | CronDone(t: nat) | StopLock(t: nat) | StopUnlock(t: nat)
    | GiveUp(t: nat)

  function Init<E>(): State<E> {
    State(map[], 0, false, [], [], {}, {})
  }

  predicate At<E(==)>(s: State<E>, t: nat, pc: Pc<E>) {
    t in s.threads && s.threads[t] == pc
  }

  /** The place thread a.t moves to; None when the step cannot happen, so a full send or empty receive waits. */
  function NextPc<E(==)>(s: State<E>, a: Action<E>): Option<Pc<E>> {
    match a
    case Call(t) => if t !in s.threads then Some(Called) else None
    case FirstCheck(t) => if At(s, t, Called) then Some(if s.stopping then Returned(false) else SawNoStop) else None
    case TryLock(t) => if At(s, t, SawNoStop) then Some(if s.slots < 1 then Locked else Returned(false)) else None
    case SecondCheck(t) => if At(s, t, Locked) then Some(if s.stopping then BackingOut else Running([])) else None
    case BackOut(t) => if At(s, t, BackingOut) && s.slots > 0 then Some(Returned(false)) else None
    case Affect(t, e) =>
      if t in s.threads && s.threads[t].Running? then Some(Running(s.threads[t].effects + [e])) else None
    case Finish(t) =>
      if t in s.threads && s.threads[t].Running? then Some(Releasing(s.threads[t].effects)) else None
    case Release(t) =>
      if t in s.threads && s.threads[t].Releasing? && s.slots > 0 then Some(Returned(true)) else None
    case CallStop(t) => if t !in s.threads then Some(StopCalled) else None
    case SetFlag(t) => if At(s, t, StopCalled) then Some(FlagSet) else None
    case CronDone(t) => if At(s, t, FlagSet) then Some(CronStopped) else None
    case StopLock(t) => if At(s, t, CronStopped) && s.slots < 1 then Some(StopLocked) else None
    case StopUnlock(t) => if At(s, t, StopLocked) && s.slots > 0 then Some(Stopped) else None
    case GiveUp(t) => if At(s, t, FlagSet) || At(s, t, CronStopped) then Some(GaveUp) else None
  }

  /** Channel occupancy: successful sends put a token in, receives take one out. */
  function NextSlots<E>(s: State<E>, a: Action<E>): int {
    if a.TryLock? && s.slots < 1 then s.slots + 1
    else if a.StopLock? then s.slots + 1
    else if a.BackOut? || a.Release? || a.StopUnlock? then s.slots - 1
    else s.slots
  }

  /** One atomic step of the whole system. */
  function Step<E(==)>(s: State<E>, a: Action<E>): Option<State<E>> {
    match NextPc(s, a)
    case None => None
    case Some(pc) =>
      Some(State(
        s.threads[a.t := pc],
        NextSlots(s, a),
        s.stopping || a.SetFlag?,
        if a.Affect? then s.log + [(a.t, a.e)] else s.log,
        if a.Finish? then s.done + [Job(a.t, s.threads[a.t].effects)] else s.done,
        if (a.FirstCheck? || a.SecondCheck?) && s.stopping then s.sawStop + {a.t} else s.sawStop,
        if a.TryLock? && s.slots >= 1 then s.sawFull + {a.t} else s.sawFull))
  }

  /** The state after a whole interleaving. */
  function Exec<E(==)>(s: State<E>, actions: seq<Action<E>>): Option<State<E>> {
    if actions == [] then Some(s)
    else match Exec(s, actions[..|actions| - 1])
      case None => None
      case Some(mid) => Step(mid, actions[|actions| - 1])
  }

  // ----- mutual exclusion

  predicate Holds<E>(pc: Pc<E>) {
    pc.Locked? || pc.BackingOut? || pc.Running? || pc.Releasing? || pc.StopLocked?
  }

  function Holders<E>(s: State<E>): set<nat> {
    set t | t in s.threads && Holds(s.threads[t])
  }

  ghost predicate ExclusionInv<E>(s: State<E>) {
    |Holders(s)| == s.slots <= 1
  }

  lemma HoldersAfter<E>(s: State<E>, t: nat, pc: Pc<E>)
    ensures Holders(s.(threads := s.threads[t := pc])) == if Holds(pc) then Holders(s) + {t} else Holders(s) - {t}
  {
  }

  /** Occupancy changes by one exactly when the moving thread takes or gives up the lock. */
  lemma TokensFollowHolders<E>(s: State<E>, a: Action<E>)
    requires NextPc(s, a).Some?
    ensures var held, holds := a.t in Holders(s), Holds(NextPc(s, a).value);
      NextSlots(s, a) == s.slots + (if holds && !held then 1 else 0) - (if held && !holds then 1 else 0)
  {
  }

  lemma ExclusionStep<E>(s: State<E>, a: Action<E>)
    requires ExclusionInv(s) && Step(s, a).Some?
    ensures ExclusionInv(Step(s, a).value)
  {
    var pc := NextPc(s, a).value;
    TokensFollowHolders(s, a);
    HoldersAfter(s, a.t, pc);
    assert Holders(Step(s, a).value) == Holders(s.(threads := s.threads[a.t := pc]));
  }

  /** Two holders of the lock are one thread. */
  lemma OneHolder<E>(s: State<E>, t: nat, u: nat)
    requires ExclusionInv(s) && t in Holders(s) && u in Holders(s)
    ensures t == u && s.slots == 1
  {
    if t != u {
      assert {t, u} <= Holders(s);
      SubsetCardinality({t, u}, Holders(s));
    }
    SubsetCardinality({t}, Holders(s));
  }

  lemma {:induction false} SubsetCardinality(a: set<nat>, b: set<nat>)
    requires a <= b
    ensures |a| <= |b|
  {
    if a != {} {
      var x :| x in a;
      SubsetCardinality(a - {x}, b - {x});
    }
  }

  // ----- stopping

  /** Once a Stop has held the lock, the flag is up and no job body is live. */
  ghost predicate StopInv<E>(s: State<E>) {
    && (forall t :: t in s.threads && (s.threads[t].FlagSet? || s.threads[t].CronStopped?) ==> s.stopping)
    && ((exists t :: t in s.threads && (s.threads[t].StopLocked? || s.threads[t].Stopped?)) ==>
         && s.stopping
         && forall t :: t in s.threads ==> !s.threads[t].Running? && !s.threads[t].Releasing?)
  }

  lemma StopStep<E>(s: State<E>, a: Action<E>)
    requires ExclusionInv(s) && StopInv(s) && Step(s, a).Some?
    ensures StopInv(Step(s, a).value)
  {
    var s' := Step(s, a).value;
    if a.StopLock? {
      assert Holders(s) == {};
      forall t | t in s'.threads
        ensures !s'.threads[t].Running? && !s'.threads[t].Releasing?
      {
        assert t !in Holders(s);
      }
    }
    forall t | t in s'.threads && (s'.threads[t].StopLocked? || s'.threads[t].Stopped?)
      ensures t in s.threads
    {
    }
  }

  // ----- serialisability

  function Tagged<E>(t: nat, effects: seq<E>): seq<(nat, E)> {
    seq(|effects|, i requires 0 <= i < |effects| => (t, effects[i]))
  }

  /** The effects of whole jobs, one job after the other. */
  function Serial<E>(jobs: seq<Job<E>>): seq<(nat, E)> {
    if jobs == [] then []
    else Serial(jobs[..|jobs| - 1]) + Tagged(jobs[|jobs| - 1].thread, jobs[|jobs| - 1].effects)
  }

  ghost predicate NoneRunning<E>(s: State<E>) {
    forall t :: t in s.threads ==> !s.threads[t].Running?
  }

  ghost predicate LogInv<E>(s: State<E>) {
    && (NoneRunning(s) ==> s.log == Serial(s.done))
    && (forall t :: t in s.threads && s.threads[t].Running? ==>
         s.log == Serial(s.done) + Tagged(t, s.threads[t].effects))
  }

  /** A thread whose call is about to return true, or has, is on record. */
  ghost predicate OnRecord<E>(s: State<E>, t: nat) {
    exists i :: 0 <= i < |s.done| && s.done[i].thread == t
  }

  /** A job is on record exactly when its call is about to return true or has. */
  ghost predicate DoneInv<E>(s: State<E>) {
    && (forall i :: 0 <= i < |s.done| ==>
         s.done[i].thread in s.threads &&
         (s.threads[s.done[i].thread] == Releasing(s.done[i].effects) || s.threads[s.done[i].thread] == Returned(true)))
    && (forall i, j :: 0 <= i < j < |s.done| ==> s.done[i].thread != s.done[j].thread)
    && (forall t :: t in s.threads && (s.threads[t].Releasing? || s.threads[t] == Returned(true)) ==>
         OnRecord(s, t))
  }

  lemma LogAffect<E>(s: State<E>, t: nat, e: E)
    requires ExclusionInv(s) && LogInv(s) && Step(s, Affect(t, e)).Some?
    ensures LogInv(Step(s, Affect(t, e)).value)
  {
    var s' := Step(s, Affect(t, e)).value;
    forall u | u in s.threads && s.threads[u].Running?
      ensures u == t
    {
      OneHolder(s, t, u);
    }
    assert Tagged(t, s.threads[t].effects + [e]) == Tagged(t, s.threads[t].effects) + [(t, e)];
    assert s'.threads[t].Running?;
  }

  lemma LogFinish<E>(s: State<E>, t: nat)
    requires ExclusionInv(s) && LogInv(s) && Step(s, Finish(t)).Some?
    ensures LogInv(Step(s, Finish(t)).value)
  {
    var s' := Step(s, Finish(t)).value;
    forall u | u in s.threads && s.threads[u].Running?
      ensures u == t
    {
      OneHolder(s, t, u);
    }
    assert s'.done[..|s'.done| - 1] == s.done;
    assert NoneRunning(s');
  }

  lemma LogEnter<E>(s: State<E>, t: nat)
    requires ExclusionInv(s) && LogInv(s) && Step(s, SecondCheck(t)).Some?
    ensures LogInv(Step(s, SecondCheck(t)).value)
  {
    forall u | u in s.threads
      ensures !s.threads[u].Running?
    {
      if s.threads[u].Running? {
        OneHolder(s, t, u);
      }
    }
    assert NoneRunning(s);
    assert Tagged<E>(t, []) == [];
  }

  /** Every other step leaves the running job, the log and the record alone. */
  lemma LogElsewhere<E>(s: State<E>, a: Action<E>)
    requires LogInv(s) && Step(s, a).Some? && !a.Affect? && !a.Finish? && !a.SecondCheck?
    ensures LogInv(Step(s, a).value)
  {
    var s' := Step(s, a).value;
    assert !NextPc(s, a).value.Running? && !(a.t in s.threads && s.threads[a.t].Running?);
    assert forall u :: u in s.threads && s.threads[u].Running? ==> u in s'.threads && s'.threads[u] == s.threads[u];
    assert forall u :: u in s'.threads && s'.threads[u].Running? ==> u in s.threads && s.threads[u] == s'.threads[u];
  }

  lemma LogStep<E>(s: State<E>, a: Action<E>)
    requires ExclusionInv(s) && LogInv(s) && Step(s, a).Some?
    ensures LogInv(Step(s, a).value)
  {
    match a
    case Affect(t, e) => LogAffect(s, t, e);
    case Finish(t) => LogFinish(s, t);
    case SecondCheck(t) => LogEnter(s, t);
    case _ => LogElsewhere(s, a);
  }

  lemma RecordGrows<E>(s: State<E>, s': State<E>, t: nat)
    requires OnRecord(s, t) && s.done <= s'.done
    ensures OnRecord(s', t)
  {
    var i :| 0 <= i < |s.done| && s.done[i].thread == t;
    assert s'.done[i].thread == t;
  }

  lemma DoneFinish<E>(s: State<E>, t: nat)
    requires DoneInv(s) && Step(s, Finish(t)).Some?
    ensures DoneInv(Step(s, Finish(t)).value)
  {
    var s' := Step(s, Finish(t)).value;
    assert s'.done[|s.done|].thread == t;
    forall u | u in s'.threads && (s'.threads[u].Releasing? || s'.threads[u] == Returned(true))
      ensures OnRecord(s', u)
    {
      if u != t {
        RecordGrows(s, s', u);
      }
    }
  }

  lemma DoneElsewhere<E>(s: State<E>, a: Action<E>)
    requires DoneInv(s) && Step(s, a).Some? && !a.Finish?
    ensures DoneInv(Step(s, a).value)
  {
    var s' := Step(s, a).value;
    forall u | u in s'.threads && (s'.threads[u].Releasing? || s'.threads[u] == Returned(true))
      ensures OnRecord(s', u)
    {
      assert u in s.threads && (s.threads[u].Releasing? || s.threads[u] == Returned(true));
      RecordGrows(s, s', u);
    }
  }

  lemma DoneStep<E>(s: State<E>, a: Action<E>)
    requires DoneInv(s) && Step(s, a).Some?
    ensures DoneInv(Step(s, a).value)
  {
    if a.Finish? {
      DoneFinish(s, a.t);
    } else {
      DoneElsewhere(s, a);
    }
  }

  // ----- every reachable state

  ghost predicate Inv<E>(s: State<E>) {
    ExclusionInv(s) && StopInv(s) && LogInv(s) && DoneInv(s)
  }

  lemma {:induction false} Reachable<E>(s: State<E>, actions: seq<Action<E>>)
    requires Inv(s) && Exec(s, actions).Some?
    ensures Inv(Exec(s, actions).value)
  {
    if actions != [] {
      var last := |actions| - 1;
      Reachable(s, actions[..last]);
      var mid := Exec(s, actions[..last]).value;
      ExclusionStep(mid, actions[last]);
      StopStep(mid, actions[last]);
      LogStep(mid, actions[last]);
      DoneStep(mid, actions[last]);
    }
  }

  lemma InitInv<E>()
    ensures Inv(Init<E>())
  {
    assert Holders(Init<E>()) == {};
  }

  /** The channel holds as many tokens as threads hold the lock: none or one. */
  lemma MutualExclusion<E>(actions: seq<Action<E>>)
    requires Exec(Init(), actions).Some?
    ensures var s := Exec(Init(), actions).value; |Holders(s)| == s.slots <= 1
  {
    InitInv<E>();
    Reachable(Init(), actions);
  }

  lemma HolderFindsToken<E>(s: State<E>, t: nat)
    requires ExclusionInv(s) && t in s.threads && Holds(s.threads[t])
    ensures s.slots > 0
  {
    OneHolder(s, t, t);
  }

  lemma TokenIsReceived<E>(s: State<E>, t: nat)
    requires t in s.threads && s.slots > 0
    ensures s.threads[t].BackingOut? ==> Step(s, BackOut(t)).Some?
    ensures s.threads[t].Releasing? ==> Step(s, Release(t)).Some?
    ensures s.threads[t].StopLocked? ==> Step(s, StopUnlock(t)).Some?
  {
  }

  /** A thread that must receive from the channel finds its token there. */
  lemma ReleaseNeverBlocks<E>(actions: seq<Action<E>>, t: nat)
    requires Exec(Init(), actions).Some?
    requires t in Exec(Init(), actions).value.threads
    ensures var s := Exec(Init(), actions).value;
      && (s.threads[t].BackingOut? ==> Step(s, BackOut(t)).Some?)
      && (s.threads[t].Releasing? ==> Step(s, Release(t)).Some?)
      && (s.threads[t].StopLocked? ==> Step(s, StopUnlock(t)).Some?)
  {
    MutualExclusion(actions);
    var s := Exec(Init(), actions).value;
    if Holds(s.threads[t]) {
      HolderFindsToken(s, t);
      TokenIsReceived(s, t);
    }
  }

  lemma StoppedStep<E>(s: State<E>, stopper: nat, a: Action<E>)
    requires StopInv(s) && At(s, stopper, Stopped) && Step(s, a).Some?
    ensures var s' := Step(s, a).value; At(s', stopper, Stopped) && s'.log == s.log && s'.done == s.done
  {
    assert s.threads[stopper].Stopped?;
  }

  lemma {:induction false} StoppedStays<E>(s: State<E>, stopper: nat, later: seq<Action<E>>)
    requires Inv(s) && At(s, stopper, Stopped) && Exec(s, later).Some?
    ensures var s' := Exec(s, later).value;
      At(s', stopper, Stopped) && s'.log == s.log && s'.done == s.done && Inv(s')
  {
    if later != [] {
      var last := |later| - 1;
      StoppedStays(s, stopper, later[..last]);
      StoppedStep(Exec(s, later[..last]).value, stopper, later[last]);
      Reachable(s, later);
    }
  }

  /**
   After Stop has returned nil no job body is running, and in no continuation does
   one start or have an effect, even for a thread that saw the flag down before.
   */
  lemma StopIsFinal<E>(before: seq<Action<E>>, stopper: nat, later: seq<Action<E>>)
    requires Exec(Init(), before).Some? && At(Exec(Init(), before).value, stopper, Stopped)
    requires Exec(Exec(Init(), before).value, later).Some?
    ensures var s, s' := Exec(Init(), before).value, Exec(Exec(Init(), before).value, later).value;
      && s'.log == s.log && s'.done == s.done
      && forall t :: t in s'.threads ==> !s'.threads[t].Running? && !s'.threads[t].Releasing?
  {
    InitInv<E>();
    Reachable(Init(), before);
    StoppedStays(Exec(Init(), before).value, stopper, later);
  }

  /**
   The database sees whole jobs one after the other: the effect log is the finished
   jobs in turn, followed by what the one running job has done so far.
   */
  lemma JobsAreSerial<E>(actions: seq<Action<E>>)
    requires Exec(Init(), actions).Some?
    ensures var s := Exec(Init(), actions).value;
      && (NoneRunning(s) ==> s.log == Serial(s.done))
      && (forall t :: t in s.threads && s.threads[t].Running? ==>
           s.log == Serial(s.done) + Tagged(t, s.threads[t].effects))
      && (forall i, j :: 0 <= i < j < |s.done| ==> s.done[i].thread != s.done[j].thread)
  {
    InitInv<E>();
    Reachable(Init(), actions);
  }

  lemma {:induction false} SerialTags<E>(jobs: seq<Job<E>>, k: nat)
    requires k < |Serial(jobs)|
    ensures exists i :: 0 <= i < |jobs| && jobs[i].thread == Serial(jobs)[k].0
  {
    var last := |jobs| - 1;
    var front := Serial(jobs[..last]);
    if k < |front| {
      SerialTags(jobs[..last], k);
      var i :| 0 <= i < last && jobs[..last][i].thread == front[k].0;
      assert jobs[i].thread == Serial(jobs)[k].0;
    } else {
      assert jobs[last].thread == Serial(jobs)[k].0;
    }
  }

  /** A call that returned false had no effect; one that returned true ran one whole job. */
  lemma ReturnValueIsHonest<E>(actions: seq<Action<E>>, t: nat)
    requires Exec(Init(), actions).Some?
    requires t in Exec(Init(), actions).value.threads
    ensures var s := Exec(Init(), actions).value;
      && (s.threads[t] == Returned(false) ==> forall k :: 0 <= k < |s.log| ==> s.log[k].0 != t)
      && (s.threads[t] == Returned(true) ==> exists i :: 0 <= i < |s.done| && s.done[i].thread == t)
  {
    InitInv<E>();
    Reachable(Init(), actions);
    var s := Exec(Init(), actions).value;
    if s.threads[t] == Returned(false) {
      forall k | 0 <= k < |s.log|
        ensures s.log[k].0 != t
      {
        if k < |Serial(s.done)| {
          SerialTags(s.done, k);
        } else {
          assert !NoneRunning(s);
        }
      }
    }
  }

  // ----- when a call is refused, and that it is served otherwise

  /** A call is on its way out, or returned false, exactly when it saw the flag up or the channel full. */
  ghost predicate RefusalInv<E>(s: State<E>) {
    forall t :: (t in s.sawStop || t in s.sawFull) <==>
                t in s.threads && (s.threads[t].BackingOut? || s.threads[t] == Returned(false))
  }

  lemma RefusalStep<E>(s: State<E>, a: Action<E>)
    requires RefusalInv(s) && Step(s, a).Some?
    ensures RefusalInv(Step(s, a).value)
  {
    var s' := Step(s, a).value;
    forall t
      ensures (t in s'.sawStop || t in s'.sawFull) <==>
              t in s'.threads && (s'.threads[t].BackingOut? || s'.threads[t] == Returned(false))
    {
      assert (t in s.sawStop || t in s.sawFull) <==>
             t in s.threads && (s.threads[t].BackingOut? || s.threads[t] == Returned(false));
    }
  }

  lemma {:induction false} RefusalsAreSeen<E>(s: State<E>, actions: seq<Action<E>>)
    requires RefusalInv(s) && Exec(s, actions).Some?
    ensures RefusalInv(Exec(s, actions).value)
  {
    if actions != [] {
      var last := |actions| - 1;
      RefusalsAreSeen(s, actions[..last]);
      RefusalStep(Exec(s, actions[..last]).value, actions[last]);
    }
  }

  /**
   In every interleaving a withLock call that came back returned false exactly when it found
   the stop flag up at one of its two looks, or the channel full at its send.
   */
  lemma RefusedExactlyWhen<E>(actions: seq<Action<E>>, t: nat)
    requires Exec(Init(), actions).Some?
    requires t in Exec(Init(), actions).value.threads && Exec(Init(), actions).value.threads[t].Returned?
    ensures var s := Exec(Init(), actions).value;
      s.threads[t] == Returned(false) <==> t in s.sawStop || t in s.sawFull
  {
    RefusalsAreSeen(Init<E>(), actions);
  }

  lemma Then<E>(s: State<E>, actions: seq<Action<E>>, mid: State<E>, a: Action<E>, end: State<E>)
    requires Exec(s, actions) == Some(mid) && Step(mid, a) == Some(end)
    ensures Exec(s, actions + [a]) == Some(end)
  {
    assert (actions + [a])[..|actions|] == actions;
  }

  lemma One<E>(s: State<E>, a: Action<E>, end: State<E>)
    requires Step(s, a) == Some(end)
    ensures Exec(s, [a]) == Some(end)
  {
    Then(s, [], s, a, end);
    assert [] + [a] == [a];
  }

  /** The state with thread t at another place and so many tokens in the channel. */
  function Moved<E>(s: State<E>, t: nat, pc: Pc<E>, slots: nat): State<E> {
    s.(threads := s.threads[t := pc], slots := slots)
  }

  /** One more step of thread t on a path that so far changed nothing but its place and the channel. */
  lemma ThenMoves<E>(s: State<E>, actions: seq<Action<E>>, base: State<E>, t: nat, pc: Pc<E>, slots: nat, a: Action<E>, pc': Pc<E>,
                     slots': nat)
    requires Exec(s, actions) == Some(Moved(base, t, pc, slots)) && a.t == t
    requires NextPc(Moved(base, t, pc, slots), a) == Some(pc') && NextSlots(Moved(base, t, pc, slots), a) == slots'
    requires !a.Affect? && !a.Finish? && (a.SetFlag? ==> base.stopping)
    requires (a.FirstCheck? || a.SecondCheck? ==> !base.stopping) && (a.TryLock? ==> slots == 0)
    ensures Exec(s, actions + [a]) == Some(Moved(base, t, pc', slots'))
  {
    assert base.threads[t := pc][t := pc'] == base.threads[t := pc'];
    Then(s, actions, Moved(base, t, pc, slots), a, Moved(base, t, pc', slots'));
  }

  /** A call on an idle scheduler that is not stopping gets into its job body. */
  lemma IdleCallRuns<E>(s: State<E>, t: nat)
    requires !s.stopping && s.slots == 0 && t !in s.threads
    ensures Exec(s, [Call(t), FirstCheck(t), TryLock(t), SecondCheck(t)]) == Some(Moved(s, t, Running([]), 1))
  {
    One(s, Call(t), Moved(s, t, Called, 0));
    ThenMoves(s, [Call(t)], s, t, Called, 0, FirstCheck(t), SawNoStop, 0);
    ThenMoves(s, [Call(t)] + [FirstCheck(t)], s, t, SawNoStop, 0, TryLock(t), Locked, 1);
    ThenMoves(s, [Call(t)] + [FirstCheck(t)] + [TryLock(t)], s, t, Locked, 1, SecondCheck(t), Running([]), 1);
    assert [Action<E>.Call(t)] + [FirstCheck(t)] + [TryLock(t)] + [SecondCheck(t)] ==
           [Call(t), FirstCheck(t), TryLock(t), SecondCheck(t)];
  }

  function Body<E>(t: nat, effects: seq<E>): seq<Action<E>> {
    seq(|effects|, i requires 0 <= i < |effects| => Affect(t, effects[i]))
  }

  function Inside<E>(s: State<E>, t: nat, effects: seq<E>): State<E> {
    s.(threads := s.threads[t := Running(effects)], slots := 1, log := s.log + Tagged(t, effects))
  }

  lemma OneEffect<E>(s: State<E>, t: nat, front: seq<E>, e: E)
    ensures Step(Inside(s, t, front), Affect(t, e)) == Some(Inside(s, t, front + [e]))
  {
    assert s.threads[t := Running(front)][t := Running(front + [e])] == s.threads[t := Running(front + [e])];
    assert s.log + Tagged(t, front + [e]) == s.log + Tagged(t, front) + [(t, e)];
  }

  lemma BodySplits<E>(t: nat, front: seq<E>, e: E)
    ensures Body(t, front + [e]) == Body(t, front) + [Affect(t, e)]
  {
  }

  lemma {:induction false} BodyRuns<E>(s: State<E>, t: nat, effects: seq<E>)
    ensures Exec(Inside(s, t, []), Body(t, effects)) == Some(Inside(s, t, effects))
  {
    if effects != [] {
      var front, last := effects[..|effects| - 1], effects[|effects| - 1];
      BodyRuns(s, t, front);
      OneEffect(s, t, front, last);
      BodySplits(t, front, last);
      assert front + [last] == effects;
      Then(Inside(s, t, []), Body(t, front), Inside(s, t, front), Affect(t, last), Inside(s, t, effects));
    }
  }

  lemma {:induction false} Joins<E>(s: State<E>, first: seq<Action<E>>, mid: State<E>, second: seq<Action<E>>)
    requires Exec(s, first) == Some(mid)
    ensures Exec(s, first + second) == Exec(mid, second)
  {
    if second == [] {
      assert first + second == first;
    } else {
      Joins(s, first, mid, second[..|second| - 1]);
      assert (first + second)[..|first + second| - 1] == first + second[..|second| - 1];
    }
  }

  /** The state after thread t ran a whole job with these effects. */
  function RanJob<E>(s: State<E>, t: nat, effects: seq<E>): State<E> {
    s.(threads := s.threads[t := Returned(true)], log := s.log + Tagged(t, effects), done := s.done + [Job(t, effects)])
  }

  lemma JobLeaves<E>(s: State<E>, t: nat, effects: seq<E>)
    requires s.slots == 0
    ensures Exec(Inside(s, t, effects), [Finish(t), Release(t)]) == Some(RanJob(s, t, effects))
  {
    var inside := Inside(s, t, effects);
    var over := inside.(threads := inside.threads[t := Releasing(effects)], done := s.done + [Job(t, effects)]);
    One(inside, Finish(t), over);
    assert over.threads[t := Returned(true)] == s.threads[t := Returned(true)];
    Then(inside, [Finish(t)], over, Release(t), RanJob(s, t, effects));
    assert [Action<E>.Finish(t)] + [Release(t)] == [Finish(t), Release(t)];
  }

  lemma ServedInParts<E>(s: State<E>, t: nat, effects: seq<E>, enter: seq<Action<E>>, leave: seq<Action<E>>)
    requires s.slots == 0 && Exec(s, enter) == Some(Inside(s, t, []))
    requires Exec(Inside(s, t, effects), leave) == Some(RanJob(s, t, effects))
    ensures Exec(s, enter + Body(t, effects) + leave) == Some(RanJob(s, t, effects))
  {
    BodyRuns(s, t, effects);
    Joins(s, enter, Inside(s, t, []), Body(t, effects));
    Joins(s, enter + Body(t, effects), Inside(s, t, effects), leave);
  }

  /**
   An idle scheduler that is not stopping serves every call: whatever the job does, the
   call can run it to the end and return true, and leaves the lock free for the next one.
   */
  lemma IdleCallIsServed<E>(s: State<E>, t: nat, effects: seq<E>)
    requires !s.stopping && s.slots == 0 && t !in s.threads
    ensures Exec(s, [Call(t), FirstCheck(t), TryLock(t), SecondCheck(t)] + Body(t, effects) + [Finish(t), Release(t)])
            == Some(RanJob(s, t, effects))
  {
    IdleCallRuns(s, t);
    assert s.log + Tagged<E>(t, []) == s.log;
    JobLeaves(s, t, effects);
    ServedInParts(s, t, effects, [Call(t), FirstCheck(t), TryLock(t), SecondCheck(t)], [Finish(t), Release(t)]);
  }

  lemma FlagGoesUp<E>(s: State<E>, actions: seq<Action<E>>, t: nat)
    requires Exec(s, actions) == Some(Moved(s, t, StopCalled, 0))
    ensures Exec(s, actions + [SetFlag(t)]) == Some(Moved(s.(stopping := true), t, FlagSet, 0))
  {
    assert s.threads[t := StopCalled][t := FlagSet] == s.threads[t := FlagSet];
    Then(s, actions, Moved(s, t, StopCalled, 0), SetFlag(t), Moved(s.(stopping := true), t, FlagSet, 0));
  }

  lemma StopWaits<E>(s: State<E>, t: nat)
    requires s.slots == 0 && t !in s.threads
    ensures Exec(s, [CallStop(t), SetFlag(t), CronDone(t)]) == Some(Moved(s.(stopping := true), t, CronStopped, 0))
  {
    One(s, CallStop(t), Moved(s, t, StopCalled, 0));
    FlagGoesUp(s, [CallStop(t)], t);
    ThenMoves(s, [CallStop(t)] + [SetFlag(t)], s.(stopping := true), t, FlagSet, 0, CronDone(t), CronStopped, 0);
    assert [Action<E>.CallStop(t)] + [SetFlag(t)] + [CronDone(t)] == [CallStop(t), SetFlag(t), CronDone(t)];
  }

  lemma StopTakesLock<E>(s: State<E>, actions: seq<Action<E>>, base: State<E>, t: nat)
    requires Exec(s, actions) == Some(Moved(base, t, CronStopped, 0))
    ensures Exec(s, actions + [StopLock(t)] + [StopUnlock(t)]) == Some(Moved(base, t, Stopped, 0))
  {
    ThenMoves(s, actions, base, t, CronStopped, 0, StopLock(t), StopLocked, 1);
    ThenMoves(s, actions + [StopLock(t)], base, t, StopLocked, 1, StopUnlock(t), Stopped, 0);
  }

  /** Stop on an idle scheduler gets the lock and returns nil. */
  lemma IdleStopSucceeds<E>(s: State<E>, t: nat)
    requires s.slots == 0 && t !in s.threads
    ensures Exec(s, [CallStop(t), SetFlag(t), CronDone(t)] + [StopLock(t)] + [StopUnlock(t)]) ==
            Some(Moved(s.(stopping := true), t, Stopped, 0))
  {
    StopWaits(s, t);
    StopTakesLock(s, [CallStop(t), SetFlag(t), CronDone(t)], s.(stopping := true), t);
  }

  // ----- what serial jobs mean for a database

  function Replay<D, E>(db: D, log: seq<(nat, E)>, apply: (D, E) -> D): D {
    if log == [] then db else apply(Replay(db, log[..|log| - 1], apply), log[|log| - 1].1)
  }

  function ReplayJobs<D, E>(db: D, jobs: seq<Job<E>>, apply: (D, E) -> D): D {
    if jobs == [] then db
    else
      var last := jobs[|jobs| - 1];
      Replay(ReplayJobs(db, jobs[..|jobs| - 1], apply), Tagged(last.thread, last.effects), apply)
  }

  lemma {:induction false} ReplayConcat<D, E>(db: D, a: seq<(nat, E)>, b: seq<(nat, E)>, apply: (D, E) -> D)
    ensures Replay(db, a + b, apply) == Replay(Replay(db, a, apply), b, apply)
  {
    if b == [] {
      assert a + b == a;
    } else {
      assert (a + b)[..|a + b| - 1] == a + b[..|b| - 1];
      ReplayConcat(db, a, b[..|b| - 1], apply);
    }
  }

  lemma {:induction false} ReplaySerial<D, E>(db: D, jobs: seq<Job<E>>, apply: (D, E) -> D)
    ensures Replay(db, Serial(jobs), apply) == ReplayJobs(db, jobs, apply)
  {
    if jobs != [] {
      var front, last := jobs[..|jobs| - 1], jobs[|jobs| - 1];
      ReplaySerial(db, front, apply);
      ReplayConcat(db, Serial(front), Tagged(last.thread, last.effects), apply);
    }
  }

  /** Between jobs the database is what running the finished jobs alone, in order, gives. */
  lemma DatabaseSeesWholeJobs<D, E>(actions: seq<Action<E>>, db: D, apply: (D, E) -> D)
    requires Exec(Init(), actions).Some? && NoneRunning(Exec(Init(), actions).value)
    ensures var s := Exec(Init(), actions).value; Replay(db, s.log, apply) == ReplayJobs(db, s.done, apply)
  {
    JobsAreSerial(actions);
    ReplaySerial(db, Exec(Init(), actions).value.done, apply);
  }
}

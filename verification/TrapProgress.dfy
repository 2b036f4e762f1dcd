/** Progress of the trap slots: how many steps of its own and of the worker a trap
    can take before it resumes, and who is left behind when the worker stops. */
module TrapProgress {
  import opened TrapSlots

  // ---- Paths ---------------------------------------------------------------------------------

  ghost predicate StepsTo(s: State, limit: nat, registry: Registry, step: Step, s': State) {
    Shaped(s) && Enabled(s, limit, step) && s' == Next(s, limit, registry, step)
  }

  ghost predicate IsPath(path: seq<State>, steps: seq<Step>, limit: nat, registry: Registry) {
    && |path| == |steps| + 1
    && forall n :: 0 <= n < |steps| ==> StepsTo(path[n], limit, registry, steps[n], path[n + 1])
  }

  predicate IsWorkerStep(step: Step) {
    step.Look? || step.Serve? || step.Finish?
  }

  lemma {:induction false} PathInv(path: seq<State>, steps: seq<Step>, limit: nat, registry: Registry, n: nat)
    requires IsPath(path, steps, limit, registry) && n < |path| && Inv(path[0], registry)
    ensures Inv(path[n], registry)
  {
    hide Inv, Enabled, Next, Shaped;
    if n > 0 {
      PathInv(path, steps, limit, registry, n - 1);
      assert StepsTo(path[n - 1], limit, registry, steps[n - 1], path[n]);
      StepKeeps(path[n - 1], limit, registry, steps[n - 1]);
    }
  }

  // ---- A trap resumes within 278 steps ---------------------------------------------------------

  predicate PendingFor(s: State, t: nat)
    requires Shaped(s)
  {
    t in s.threads && s.threads[t].Waiting? && s.slots[s.threads[t].index].state.Pending?
  }

  // The steps that thread t waits for: its own, and the worker's while its request is pending.
  predicate Counts(s: State, step: Step, t: nat)
    requires Shaped(s)
  {
    if IsWorkerStep(step) then PendingFor(s, t) else step.thread == t
  }

  // The worker's steps until it has finished slot i, if all slots before it are pending.
  function WorkerRank(worker: Worker, i: nat): (r: nat)
    requires i < SLOTS && worker.slot < SLOTS
    ensures 1 <= r <= 3 * SLOTS
  {
    var ahead := (i - worker.slot) % SLOTS;
    3 * ahead + match worker case Looking(_) => 3 case Dispatching(_) => 2 case Dispatched(_) => 1
  }

  function Budget(s: State, t: nat): nat
    requires Shaped(s) && t in s.threads
  {
    var answer := 3 * SLOTS + 2;
    match s.threads[t]
    case Scanning(_, i) => answer + REGISTERS + 2 + (SLOTS - i)
    case Capturing(_, _, n) => answer + 1 + (REGISTERS - n)
    case Waiting(_, i) => if s.slots[i].state.Pending? then WorkerRank(s.worker, i) + 2 else 2
    case Leaving(_, _, _) => 1
  }

  lemma RankFalls(worker: Worker, i: nat)
    requires i < SLOTS && worker.slot < SLOTS && worker.slot != i
    ensures (worker.Dispatched? || worker.Looking?) ==>
              WorkerRank(Looking(After(worker.slot)), i) < WorkerRank(worker, i)
  {
  }

  lemma WorkerSpends(s: State, limit: nat, registry: Registry, step: Step, t: nat)
    requires Inv(s, registry) && Enabled(s, limit, step) && IsWorkerStep(step) && t in s.threads
    ensures var s' := Next(s, limit, registry, step);
            t in s'.threads && Shaped(s') && Budget(s', t) + (if Counts(s, step, t) then 1 else 0) <= Budget(s, t)
  {
    StepKeeps(s, limit, registry, step);
    hide Exclusive, Owned, Logged, Holder, WorkerRank, After, Served, Unserved;
    assert SlotFits(s, s.threads[t]);
    if PendingFor(s, t) {
      var i := s.threads[t].index;
      if s.worker.slot != i { RankFalls(s.worker, i); }
      WorkerRankAt(s.worker, i);
    }
  }

  lemma WorkerRankAt(worker: Worker, i: nat)
    requires i < SLOTS && worker.slot < SLOTS
    ensures worker.Looking? ==> WorkerRank(Dispatching(worker.slot), i) < WorkerRank(worker, i)
    ensures worker.Dispatching? ==> WorkerRank(Dispatched(worker.slot), i) < WorkerRank(worker, i)
  {
  }

  lemma OwnStepSpends(s: State, limit: nat, registry: Registry, step: Step, t: nat)
    requires Inv(s, registry) && Enabled(s, limit, step) && !IsWorkerStep(step) && step.thread == t
    requires t in s.threads && t in Next(s, limit, registry, step).threads
    ensures var s' := Next(s, limit, registry, step); Shaped(s') && Budget(s', t) < Budget(s, t)
  {
    StepKeeps(s, limit, registry, step);
    hide Exclusive, Owned, Logged, Holder, WorkerRank, After, Fits, WorkerFits;
  }

  // A step of another thread leaves t and the worker where they are.
  lemma OtherStepFrame(s: State, limit: nat, registry: Registry, step: Step, t: nat)
    requires Shaped(s) && Enabled(s, limit, step) && !IsWorkerStep(step) && step.thread != t && t in s.threads
    ensures var s' := Next(s, limit, registry, step);
            t in s'.threads && s'.threads[t] == s.threads[t] && s'.worker == s.worker && |s'.slots| == SLOTS
    ensures forall i :: 0 <= i < SLOTS && !s.slots[i].state.Free? &&
                        (step.thread in s.threads ==> !Holds(s.threads[step.thread], i)) ==>
              Next(s, limit, registry, step).slots[i].state == s.slots[i].state
  {
    hide Holder, After;
  }

  lemma WaiterHolds(s: State, registry: Registry, t: nat, u: nat)
    requires Inv(s, registry) && t in s.threads && s.threads[t].Waiting? && t != u
    ensures var i := s.threads[t].index; !s.slots[i].state.Free? && (u in s.threads ==> !Holds(s.threads[u], i))
  {
    hide Owned, Logged, WorkerFits, Served, Unserved;
    assert SlotFits(s, s.threads[t]) && Holds(s.threads[t], s.threads[t].index);
  }

  lemma OtherStepSpends(s: State, limit: nat, registry: Registry, step: Step, t: nat)
    requires Inv(s, registry) && Enabled(s, limit, step) && !IsWorkerStep(step) && step.thread != t && t in s.threads
    ensures var s' := Next(s, limit, registry, step); t in s'.threads && Shaped(s') && Budget(s', t) == Budget(s, t)
    ensures !Counts(s, step, t)
  {
    StepKeeps(s, limit, registry, step);
    OtherStepFrame(s, limit, registry, step, t);
    if s.threads[t].Waiting? { WaiterHolds(s, registry, t, step.thread); }
    hide Exclusive, Owned, Fits, Logged, WorkerFits, WorkerRank, Next, Enabled;
  }

  // How many steps of a path count for thread t.
  ghost function Charged(path: seq<State>, steps: seq<Step>, limit: nat, registry: Registry, t: nat, n: nat): nat
    requires IsPath(path, steps, limit, registry) && n <= |steps|
  {
    if n == 0 then 0
    else
      assert StepsTo(path[n - 1], limit, registry, steps[n - 1], path[n]);
      Charged(path, steps, limit, registry, t, n - 1) + if Counts(path[n - 1], steps[n - 1], t) then 1 else 0
  }

  lemma {:induction false} ChargesAreSpent(path: seq<State>, steps: seq<Step>, limit: nat, registry: Registry, t: nat, n: nat)
    requires IsPath(path, steps, limit, registry) && n <= |steps| && Inv(path[0], registry)
    requires forall k :: 0 <= k <= n ==> t in path[k].threads
    ensures Shaped(path[0]) && Shaped(path[n])
    ensures Charged(path, steps, limit, registry, t, n) + Budget(path[n], t) <= Budget(path[0], t)
  {
    hide Next, Enabled, Budget, Counts, Shaped;
    PathInv(path, steps, limit, registry, n);
    assert Shaped(path[0]) && Shaped(path[n]);
    hide Inv;
    if n > 0 {
      ChargesAreSpent(path, steps, limit, registry, t, n - 1);
      PathInv(path, steps, limit, registry, n - 1);
      assert StepsTo(path[n - 1], limit, registry, steps[n - 1], path[n]);
      if IsWorkerStep(steps[n - 1]) {
        WorkerSpends(path[n - 1], limit, registry, steps[n - 1], t);
      } else if steps[n - 1].thread == t {
        OwnStepSpends(path[n - 1], limit, registry, steps[n - 1], t);
      } else {
        OtherStepSpends(path[n - 1], limit, registry, steps[n - 1], t);
      }
    }
  }

  /** From any reachable state on, whatever the others do, a thread that is still in
      the handler has taken no more than 278 steps, those of the worker included
      while its request was pending. */
  lemma ServiceIsBounded(run: seq<State>, path: seq<State>, steps: seq<Step>, limit: nat, registry: Registry, t: nat)
    requires IsRun(run, limit, registry) && IsPath(path, steps, limit, registry) && path[0] == run[|run| - 1]
    requires forall k :: 0 <= k < |path| ==> t in path[k].threads
    ensures Charged(path, steps, limit, registry, t, |steps|) <= 278
  {
    hide Initial, Steps, StepsTo, Inv, Charged, Shaped;
    RunInv(run, limit, registry, |run| - 1);
    ChargesAreSpent(path, steps, limit, registry, t, |steps|);
  }

  /** ... and there is always such a step to take, so in every schedule that is fair
      to the thread and to the worker each trap resumes. */
  lemma SomethingCounts(run: seq<State>, limit: nat, registry: Registry, t: nat)
    requires IsRun(run, limit, registry) && t in run[|run| - 1].threads
    ensures var s := run[|run| - 1];
            Shaped(s) && exists step :: Enabled(s, limit, step) && Counts(s, step, t)
  {
    hide Exclusive, Owned, Logged;
    RunInv(run, limit, registry, |run| - 1);
    var s := run[|run| - 1];
    assert SlotFits(s, s.threads[t]);
    match s.threads[t]
    case Scanning(_, i) =>
      var step := if i < SLOTS then TryAcquire(t) else Drop(t);
      assert Enabled(s, limit, step) && Counts(s, step, t);
    case Capturing(_, _, n) =>
      var step := if n < REGISTERS then Capture(t) else Submit(t);
      assert Enabled(s, limit, step) && Counts(s, step, t);
    case Waiting(_, i) =>
      var step := if s.slots[i].state.Complete? then Observe(t)
                  else match s.worker case Looking(_) => Look case Dispatching(_) => Serve case Dispatched(_) => Finish;
      assert Enabled(s, limit, step) && Counts(s, step, t);
    case Leaving(_, _, _) => assert Enabled(s, limit, Release(t)) && Counts(s, Release(t), t);
  }

  // ---- When the worker has stopped ---------------------------------------------------------------

  // The answer to t's trap stands in its slot.
  predicate Answered(s: State, t: nat)
    requires Shaped(s)
  {
    t in s.threads && (s.threads[t].Leaving? || (s.threads[t].Waiting? && s.slots[s.threads[t].index].state.Complete?))
  }

  // Nobody who handles this trap has an answer, and it has not resumed with one.
  ghost predicate Unanswered(s: State, trap: nat) {
    && Shaped(s) && trap < |s.traps| && trap !in s.returned
    && forall t :: t in s.threads && s.threads[t].trap == trap ==> !Answered(s, t)
  }

  lemma OwnStepUnanswered(s: State, limit: nat, registry: Registry, step: Step, trap: nat)
    requires Shaped(s) && Enabled(s, limit, step) && !IsWorkerStep(step) && Unanswered(s, trap)
    ensures var s' := Next(s, limit, registry, step);
            trap < |s'.traps| && trap !in s'.returned && (forall u :: u in s'.threads && u != step.thread ==> u in s.threads)
    ensures var s', u := Next(s, limit, registry, step), step.thread;
            Shaped(s') && u in s'.threads && s'.threads[u].trap == trap ==> !Answered(s', u)
  {
    hide Holder, After;
  }

  lemma UnansweredStays(s: State, limit: nat, registry: Registry, step: Step, trap: nat)
    requires Inv(s, registry) && Enabled(s, limit, step) && !IsWorkerStep(step) && Unanswered(s, trap)
    ensures Unanswered(Next(s, limit, registry, step), trap)
  {
    StepKeeps(s, limit, registry, step);
    OwnStepUnanswered(s, limit, registry, step, trap);
    hide Exclusive, Owned, Logged, Fits, WorkerFits, Next, Enabled;
    var s' := Next(s, limit, registry, step);
    forall u | u in s'.threads && s'.threads[u].trap == trap ensures !Answered(s', u) {
      if u != step.thread {
        OtherStepFrame(s, limit, registry, step, u);
        assert !Answered(s, u);
        if s.threads[u].Waiting? { WaiterHolds(s, registry, u, step.thread); }
      }
    }
  }

  lemma {:induction false} UnansweredForever(path: seq<State>, steps: seq<Step>, limit: nat, registry: Registry, trap: nat, n: nat)
    requires IsPath(path, steps, limit, registry) && n <= |steps| && Inv(path[0], registry) && Unanswered(path[0], trap)
    requires forall k :: 0 <= k < |steps| ==> !IsWorkerStep(steps[k])
    ensures Unanswered(path[n], trap)
  {
    hide Inv, Next, Enabled, Unanswered, Shaped;
    if n > 0 {
      UnansweredForever(path, steps, limit, registry, trap, n - 1);
      PathInv(path, steps, limit, registry, n - 1);
      assert StepsTo(path[n - 1], limit, registry, steps[n - 1], path[n]);
      UnansweredStays(path[n - 1], limit, registry, steps[n - 1], trap);
    }
  }

  // The trap can still resume with a result, although the worker takes no more steps.
  ghost predicate CanResumeAlone(s: State, limit: nat, registry: Registry, trap: nat) {
    exists path: seq<State>, steps: seq<Step> ::
      && IsPath(path, steps, limit, registry) && path[0] == s && trap in path[|steps|].returned
      && forall k :: 0 <= k < |steps| ==> !IsWorkerStep(steps[k])
  }

  lemma ReleaseResumes(s: State, limit: nat, registry: Registry, t: nat)
    requires Shaped(s) && t in s.threads && s.threads[t].Leaving?
    ensures CanResumeAlone(s, limit, registry, s.threads[t].trap)
  {
    var steps, path := [Release(t)], [s, Next(s, limit, registry, Release(t))];
    assert StepsTo(s, limit, registry, Release(t), path[1]);
    hide Next, Enabled;
    assert IsPath(path, steps, limit, registry);
    assert s.threads[t].trap in path[|steps|].returned by { ReleaseReturns(s, limit, registry, t); }
  }

  lemma ReleaseReturns(s: State, limit: nat, registry: Registry, t: nat)
    requires Shaped(s) && t in s.threads && s.threads[t].Leaving?
    ensures s.threads[t].trap in Next(s, limit, registry, Release(t)).returned
  {
  }

  lemma ObserveLeaves(s: State, limit: nat, registry: Registry, t: nat)
    requires Shaped(s) && Answered(s, t) && s.threads[t].Waiting?
    ensures Enabled(s, limit, Observe(t))
    ensures var s' := Next(s, limit, registry, Observe(t));
            Shaped(s') && t in s'.threads && s'.threads[t].Leaving? && s'.threads[t].trap == s.threads[t].trap
  {
  }

  lemma ObserveResumes(s: State, limit: nat, registry: Registry, t: nat)
    requires Shaped(s) && Answered(s, t) && s.threads[t].Waiting?
    ensures CanResumeAlone(s, limit, registry, s.threads[t].trap)
  {
    ObserveLeaves(s, limit, registry, t);
    var s' := Next(s, limit, registry, Observe(t));
    assert Enabled(s', limit, Release(t));
    hide Next, Enabled, Shaped;
    ReleaseReturns(s', limit, registry, t);
    var s2 := Next(s', limit, registry, Release(t));
    var steps, path := [Observe(t), Release(t)], [s, s', s2];
    assert StepsTo(s, limit, registry, Observe(t), s') && StepsTo(s', limit, registry, Release(t), s2);
    hide StepsTo;
    assert IsPath(path, steps, limit, registry);
    assert path[0] == s && path[|steps|] == s2;
  }

  /** Once the worker has stopped, a trap in the handler can still resume with a
      result if and only if the answer already stands in its slot: a thread that is
      still scanning, capturing or pending then waits for ever or gives up. */
  lemma ResumesAloneIff(run: seq<State>, limit: nat, registry: Registry, t: nat)
    requires IsRun(run, limit, registry) && t in run[|run| - 1].threads
    ensures var s := run[|run| - 1];
            Shaped(s) && (CanResumeAlone(s, limit, registry, s.threads[t].trap) <==> Answered(s, t))
  {
    hide Initial, Steps, Enabled, Next, Owned, Fits, WorkerFits;
    RunInv(run, limit, registry, |run| - 1);
    var s := run[|run| - 1];
    var trap := s.threads[t].trap;
    if Answered(s, t) {
      if s.threads[t].Leaving? { ReleaseResumes(s, limit, registry, t); } else { ObserveResumes(s, limit, registry, t); }
    } else if CanResumeAlone(s, limit, registry, trap) {
      var path: seq<State>, steps: seq<Step> :|
        IsPath(path, steps, limit, registry) && path[0] == s && trap in path[|steps|].returned &&
        forall k :: 0 <= k < |steps| ==> !IsWorkerStep(steps[k]);
      assert Unanswered(s, trap);
      UnansweredForever(path, steps, limit, registry, trap, |steps|);
    }
  }

  // ---- A pass that misses a request ----------------------------------------------------------------

  // Thread 0 holds slot 0 and has captured nothing yet; the worker stands at `slot`.
  function Stranded(frame: Frame, slot: nat): State {
    var empty: Frame := seq(REGISTERS, _ => 0);
    State(seq(SLOTS, i => Slot(if i == 0 then Filling else Free, empty)), map[0 := Capturing(0, 0, 0)],
          Looking(slot), [frame], [], map[], {})
  }

  lemma LookPasses(frame: Frame, slot: nat, limit: nat, registry: Registry)
    requires slot < SLOTS
    ensures StepsTo(Stranded(frame, slot), limit, registry, Look, Stranded(frame, After(slot)))
  {
    assert Stranded(frame, slot).slots[slot].state != Pending;
  }

  function Entered(frame: Frame): State {
    var empty: Frame := seq(REGISTERS, _ => 0);
    State(seq(SLOTS, _ => Slot(Free, empty)), map[0 := Scanning(0, 0)], Looking(0), [frame], [], map[], {})
  }

  lemma EnteredReachable(frame: Frame, limit: nat, registry: Registry)
    requires limit >= 1
    ensures Reachable(Entered(frame), limit, registry)
  {
    var s0 := Entered(frame).(threads := map[], traps := []);
    assert IsRun([s0], limit, registry) && [s0][|[s0]| - 1] == s0 && Reachable(s0, limit, registry);
    hide Reachable;
    ReachStep(s0, limit, registry, Enter(0, frame));
    assert Next(s0, limit, registry, Enter(0, frame)) == Entered(frame);
  }

  lemma StrandedReachable(frame: Frame, limit: nat, registry: Registry)
    requires limit >= 1
    ensures Reachable(Stranded(frame, 0), limit, registry)
  {
    hide Reachable;
    EnteredReachable(frame, limit, registry);
    var s := Entered(frame);
    ReachStep(s, limit, registry, TryAcquire(0));
    assert s.slots[0 := Slot(Filling, s.slots[0].frame)] == Stranded(frame, 0).slots;
    assert Next(s, limit, registry, TryAcquire(0)) == Stranded(frame, 0);
  }

  // One pass of the worker over all slots.
  function Pass(): seq<Step> {
    seq(SLOTS, _ => Look)
  }

  function Turn(k: nat): (slot: nat)
    ensures slot < SLOTS
  {
    if k < SLOTS then k else 0
  }

  function PassStates(frame: Frame): (path: seq<State>)
    ensures |path| == SLOTS + 1 && forall k: nat :: k <= SLOTS ==> path[k] == Stranded(frame, Turn(k))
  {
    seq(SLOTS + 1, k requires 0 <= k <= SLOTS => Stranded(frame, Turn(k)))
  }

  lemma PassSkips(frame: Frame, limit: nat, registry: Registry)
    ensures IsPath(PassStates(frame), Pass(), limit, registry)
  {
    hide Stranded, StepsTo, PassStates;
    var path := PassStates(frame);
    forall n: nat | n < SLOTS ensures StepsTo(path[n], limit, registry, Pass()[n], path[n + 1]) {
      LookPasses(frame, n, limit, registry);
      assert Turn(n + 1) == After(n);
    }
  }

  /** A run in which the worker's last pass over all slots finds nothing to do while
      a thread is filling its slot; when the worker stops then, that trap never
      resumes. */
  lemma LastPassMayStrand(frame: Frame, limit: nat, registry: Registry)
    requires limit >= 1
    ensures exists path: seq<State> ::
              && IsPath(path, Pass(), limit, registry) && Reachable(path[0], limit, registry)
              && path[0].worker == path[SLOTS].worker == Looking(0)
              && 0 in path[SLOTS].threads && !CanResumeAlone(path[SLOTS], limit, registry, path[SLOTS].threads[0].trap)
  {
    var s := Stranded(frame, 0);
    assert s.worker == Looking(0) && 0 in s.threads && s.threads[0].Capturing?;
    hide Stranded, CanResumeAlone, Pass, PassStates, Initial, Steps, StepsTo;
    StrandedReachable(frame, limit, registry);
    var run :| IsRun(run, limit, registry) && run[|run| - 1] == s;
    ResumesAloneIff(run, limit, registry, 0);
    assert !Answered(s, 0);
    PassSkips(frame, limit, registry);
    var path := PassStates(frame);
    assert path[0] == s && path[SLOTS] == s;
  }
}

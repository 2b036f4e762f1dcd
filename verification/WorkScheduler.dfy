/** The bounded scheduler as an interleaved step system. Each critical section is
    one step; waiting on a condition, being woken and notifying outside the lock
    are steps of their own, so a notification can be in transit. */
module WorkScheduler {

  datatype Worker =
    | Ready                 // about to take the lock
    | Asleep                // waiting for work, lock released
    | Woken                 // woken, about to test its condition again
    | Popped(task: nat)     // has a task and still owes one notification of space
    | Running(task: nat)
    | Exited

  datatype Submission =
    | Arrived
    | Blocked               // waiting for space
    | Roused
    | Pushed                // still owes one notification of work
    | Accepted
    | Rejected              // the scheduler was stopping

  datatype Shutdown =
    | Called
    | WakingWorkers         // set the stop flag, owes the first notify-all
    | WakingSubmitters
    | Joining
    | Joined
    | Ignored               // found the stop flag already set

  // Submissions and shutdown calls are numbered as they arrive. `accepted`,
  // `popped` and `ran` record the order of events; `leader` set the stop flag.
  datatype State = State(
    queue: seq<nat>, stopping: bool,
    workers: seq<Worker>, submissions: seq<Submission>, shutdowns: seq<Shutdown>,
    accepted: seq<nat>, popped: seq<nat>, ran: seq<nat>, leader: nat)

  datatype Step =
    | Arrive
    | Enter(i: nat)
    | NotifyWork(i: nat, w: nat)
    | Take(w: nat)
    | NotifySpace(w: nat, i: nat)
    | Finish(w: nat)
    | CallShutdown
    | Stop(k: nat)
    | WakeWorkers(k: nat)
    | WakeSubmitters(k: nat)
    | Join(k: nat)
    | SpuriousWake(w: nat)
    | SpuriousRouse(i: nat)

  predicate Initial(s: State) {
    && s.queue == [] && !s.stopping && s.submissions == [] && s.shutdowns == []
    && s.accepted == [] && s.popped == [] && s.ran == [] && |s.workers| >= 1
    && forall w :: 0 <= w < |s.workers| ==> s.workers[w].Ready?
  }

  predicate SomeAsleep(s: State) {
    exists w :: 0 <= w < |s.workers| && s.workers[w].Asleep?
  }

  predicate SomeBlocked(s: State) {
    exists i :: 0 <= i < |s.submissions| && s.submissions[i].Blocked?
  }

  predicate AllExited(s: State) {
    forall w :: 0 <= w < |s.workers| ==> s.workers[w].Exited?
  }

  // A notification picks any one sleeper, and is lost when there is none.
  predicate Enabled(s: State, step: Step) {
    match step
    case Arrive => true
    case Enter(i) => i < |s.submissions| && (s.submissions[i].Arrived? || s.submissions[i].Roused?)
    case NotifyWork(i, w) =>
      i < |s.submissions| && s.submissions[i].Pushed? &&
      (SomeAsleep(s) ==> w < |s.workers| && s.workers[w].Asleep?)
    case Take(w) => w < |s.workers| && (s.workers[w].Ready? || s.workers[w].Woken?)
    case NotifySpace(w, i) =>
      w < |s.workers| && s.workers[w].Popped? &&
      (SomeBlocked(s) ==> i < |s.submissions| && s.submissions[i].Blocked?)
    case Finish(w) => w < |s.workers| && s.workers[w].Running?
    case CallShutdown => true
    case Stop(k) => k < |s.shutdowns| && s.shutdowns[k].Called?
    case WakeWorkers(k) => k < |s.shutdowns| && s.shutdowns[k].WakingWorkers?
    case WakeSubmitters(k) => k < |s.shutdowns| && s.shutdowns[k].WakingSubmitters?
    case Join(k) => k < |s.shutdowns| && s.shutdowns[k].Joining? && AllExited(s)
    case SpuriousWake(w) => w < |s.workers| && s.workers[w].Asleep?
    case SpuriousRouse(i) => i < |s.submissions| && s.submissions[i].Blocked?
  }

  function Wake(workers: seq<Worker>): (r: seq<Worker>)
    ensures |r| == |workers|
    ensures forall w :: 0 <= w < |r| ==> r[w] == if workers[w].Asleep? then Woken else workers[w]
  {
    seq(|workers|, w requires 0 <= w < |workers| => if workers[w].Asleep? then Woken else workers[w])
  }

  function Rouse(submissions: seq<Submission>): (r: seq<Submission>)
    ensures |r| == |submissions|
    ensures forall i :: 0 <= i < |r| ==> r[i] == if submissions[i].Blocked? then Roused else submissions[i]
  {
    seq(|submissions|, i requires 0 <= i < |submissions| =>
      if submissions[i].Blocked? then Roused else submissions[i])
  }

  function Next(s: State, capacity: nat, step: Step): State
    requires Enabled(s, step)
  {
    match step
    case Arrive => s.(submissions := s.submissions + [Arrived])
    case Enter(i) =>
      if s.stopping then s.(submissions := s.submissions[i := Rejected])
      else if |s.queue| < capacity then
        s.(queue := s.queue + [i], accepted := s.accepted + [i], submissions := s.submissions[i := Pushed])
      else s.(submissions := s.submissions[i := Blocked])
    case NotifyWork(i, w) =>
      s.(submissions := s.submissions[i := Accepted],
         workers := if SomeAsleep(s) then s.workers[w := Woken] else s.workers)
    case Take(w) =>
      if s.queue != [] then
        s.(queue := s.queue[1..], popped := s.popped + [s.queue[0]], workers := s.workers[w := Popped(s.queue[0])])
      else s.(workers := s.workers[w := if s.stopping then Exited else Asleep])
    case NotifySpace(w, i) =>
      s.(workers := s.workers[w := Running(s.workers[w].task)],
         submissions := if SomeBlocked(s) then s.submissions[i := Roused] else s.submissions)
    case Finish(w) => s.(workers := s.workers[w := Ready], ran := s.ran + [s.workers[w].task])
    case CallShutdown => s.(shutdowns := s.shutdowns + [Called])
    case Stop(k) =>
      if s.stopping then s.(shutdowns := s.shutdowns[k := Ignored])
      else s.(stopping := true, leader := k, shutdowns := s.shutdowns[k := WakingWorkers])
    case WakeWorkers(k) => s.(workers := Wake(s.workers), shutdowns := s.shutdowns[k := WakingSubmitters])
    case WakeSubmitters(k) => s.(submissions := Rouse(s.submissions), shutdowns := s.shutdowns[k := Joining])
    case Join(k) => s.(shutdowns := s.shutdowns[k := Joined])
    case SpuriousWake(w) => s.(workers := s.workers[w := Woken])
    case SpuriousRouse(i) => s.(submissions := s.submissions[i := Roused])
  }

  ghost predicate Steps(s: State, s': State, capacity: nat) {
    exists step :: Enabled(s, step) && s' == Next(s, capacity, step)
  }

  ghost predicate IsRun(run: seq<State>, capacity: nat) {
    && run != [] && Initial(run[0])
    && forall n :: 0 < n < |run| ==> Steps(run[n - 1], run[n], capacity)
  }

  // ---- Sums over threads -----------------------------------------------------------

  function Sum<T>(s: seq<T>, f: T -> nat): nat {
    if s == [] then 0 else Sum(s[..|s| - 1], f) + f(s[|s| - 1])
  }

  lemma {:induction false} SumUpdate<T>(s: seq<T>, f: T -> nat, i: nat, v: T)
    requires i < |s|
    ensures Sum(s[i := v], f) + f(s[i]) == Sum(s, f) + f(v)
  {
    var n := |s| - 1;
    if i < n {
      SumUpdate(s[..n], f, i, v);
      assert s[i := v][..n] == s[..n][i := v];
    } else {
      assert s[i := v][..n] == s[..n];
    }
  }

  lemma SumAppend<T>(s: seq<T>, f: T -> nat, v: T)
    ensures Sum(s + [v], f) == Sum(s, f) + f(v)
  {
    assert (s + [v])[..|s|] == s;
  }

  lemma {:induction false} SumZero<T>(s: seq<T>, f: T -> nat)
    requires forall i :: 0 <= i < |s| ==> f(s[i]) == 0
    ensures Sum(s, f) == 0
  {
    if s != [] { SumZero(s[..|s| - 1], f); }
  }

  // Raising every entry by at most one raises the sum by at most the length.
  lemma {:induction false} SumRaised<T>(s: seq<T>, t: seq<T>, f: T -> nat)
    requires |s| == |t| && forall i :: 0 <= i < |s| ==> f(t[i]) <= f(s[i]) + 1
    ensures Sum(t, f) <= Sum(s, f) + |s|
  {
    if s != [] { SumRaised(s[..|s| - 1], t[..|s| - 1], f); }
  }

  function IsWoken(w: Worker): nat { if w.Woken? then 1 else 0 }

  function OwesSpace(w: Worker): nat { if w.Popped? then 1 else 0 }

  function IsRoused(p: Submission): nat { if p.Roused? then 1 else 0 }

  function OwesWork(p: Submission): nat { if p.Pushed? then 1 else 0 }

  // ---- Stopping ----------------------------------------------------------------------

  // One call sets the flag; after its notify-all calls nobody sleeps any more.
  ghost predicate Stops(s: State) {
    && (!s.stopping ==> forall k :: 0 <= k < |s.shutdowns| ==> s.shutdowns[k].Called?)
    && (!s.stopping ==> forall i :: 0 <= i < |s.submissions| ==> !s.submissions[i].Rejected?)
    && (forall w :: 0 <= w < |s.workers| && s.workers[w].Exited? ==> s.stopping && s.queue == [])
    && (s.stopping ==>
          && s.leader < |s.shutdowns| && !s.shutdowns[s.leader].Called? && !s.shutdowns[s.leader].Ignored?
          && (forall k :: 0 <= k < |s.shutdowns| && k != s.leader ==> s.shutdowns[k].Called? || s.shutdowns[k].Ignored?)
          && (SomeAsleep(s) ==> s.shutdowns[s.leader].WakingWorkers?)
          && (SomeBlocked(s) ==> s.shutdowns[s.leader].WakingWorkers? || s.shutdowns[s.leader].WakingSubmitters?)
          && (s.shutdowns[s.leader].Joined? ==> AllExited(s)))
  }

  lemma SubmissionStops(s: State, capacity: nat, step: Step)
    requires Stops(s) && Enabled(s, step)
    requires step.Arrive? || step.Enter? || step.NotifyWork? || step.SpuriousRouse?
    ensures Stops(Next(s, capacity, step))
  {
  }

  lemma WorkerStops(s: State, capacity: nat, step: Step)
    requires Stops(s) && Enabled(s, step)
    requires step.Take? || step.NotifySpace? || step.Finish? || step.SpuriousWake?
    ensures Stops(Next(s, capacity, step))
  {
  }

  lemma ShutdownStops(s: State, capacity: nat, step: Step)
    requires Stops(s) && Enabled(s, step)
    requires step.CallShutdown? || step.Stop? || step.WakeWorkers? || step.WakeSubmitters? || step.Join?
    ensures Stops(Next(s, capacity, step))
  {
  }

  lemma StepStops(s: State, capacity: nat, step: Step)
    requires Stops(s) && Enabled(s, step)
    ensures Stops(Next(s, capacity, step))
  {
    hide Stops, Enabled, Next;
    if step.Arrive? || step.Enter? || step.NotifyWork? || step.SpuriousRouse? {
      SubmissionStops(s, capacity, step);
    } else if step.Take? || step.NotifySpace? || step.Finish? || step.SpuriousWake? {
      WorkerStops(s, capacity, step);
    } else {
      ShutdownStops(s, capacity, step);
    }
  }

  // ---- No lost wakeup ----------------------------------------------------------------

  ghost predicate Signals(s: State, capacity: nat) {
    && |s.queue| <= capacity && |s.workers| >= 1
    && (!s.stopping && SomeAsleep(s) ==> |s.queue| <= Sum(s.submissions, OwesWork) + Sum(s.workers, IsWoken))
    && (!s.stopping && SomeBlocked(s) ==> capacity - |s.queue| <= Sum(s.workers, OwesSpace) + Sum(s.submissions, IsRoused))
  }

  lemma MoveWorker(s: State, w: nat, v: Worker)
    requires w < |s.workers|
    ensures Sum(s.workers[w := v], IsWoken) + IsWoken(s.workers[w]) == Sum(s.workers, IsWoken) + IsWoken(v)
    ensures Sum(s.workers[w := v], OwesSpace) + OwesSpace(s.workers[w]) == Sum(s.workers, OwesSpace) + OwesSpace(v)
  {
    SumUpdate(s.workers, IsWoken, w, v);
    SumUpdate(s.workers, OwesSpace, w, v);
  }

  lemma MoveSubmission(s: State, i: nat, v: Submission)
    requires i < |s.submissions|
    ensures Sum(s.submissions[i := v], IsRoused) + IsRoused(s.submissions[i]) == Sum(s.submissions, IsRoused) + IsRoused(v)
    ensures Sum(s.submissions[i := v], OwesWork) + OwesWork(s.submissions[i]) == Sum(s.submissions, OwesWork) + OwesWork(v)
  {
    SumUpdate(s.submissions, IsRoused, i, v);
    SumUpdate(s.submissions, OwesWork, i, v);
  }

  // Nobody new falls asleep or blocks.
  ghost predicate NoNewSleeper(s: State, s': State) {
    && (SomeAsleep(s') ==> SomeAsleep(s)) && (SomeBlocked(s') ==> SomeBlocked(s))
  }

  lemma SubmissionSignals(s: State, capacity: nat, step: Step)
    requires Signals(s, capacity) && Enabled(s, step) && (step.Enter? || step.SpuriousRouse? || step.Arrive?)
    ensures Signals(Next(s, capacity, step), capacity)
  {
    hide Sum;
    var s' := Next(s, capacity, step);
    match step
    case Arrive =>
      SumAppend(s.submissions, OwesWork, Arrived);
      SumAppend(s.submissions, IsRoused, Arrived);
      assert NoNewSleeper(s, s');
    case Enter(i) => MoveSubmission(s, i, s'.submissions[i]);
    case SpuriousRouse(i) => MoveSubmission(s, i, s'.submissions[i]);
  }

  lemma WorkerSignals(s: State, capacity: nat, step: Step)
    requires Signals(s, capacity) && Enabled(s, step) && (step.Take? || step.Finish? || step.SpuriousWake?)
    ensures Signals(Next(s, capacity, step), capacity)
  {
    hide Sum;
    var s' := Next(s, capacity, step);
    match step
    case Take(w) => MoveWorker(s, w, s'.workers[w]);
    case Finish(w) => MoveWorker(s, w, s'.workers[w]);
    case SpuriousWake(w) => MoveWorker(s, w, s'.workers[w]);
  }

  lemma NotifySignals(s: State, capacity: nat, step: Step)
    requires Signals(s, capacity) && Enabled(s, step) && (step.NotifyWork? || step.NotifySpace?)
    ensures Signals(Next(s, capacity, step), capacity)
  {
    hide Sum;
    var s' := Next(s, capacity, step);
    match step
    case NotifyWork(i, w) =>
      MoveSubmission(s, i, Accepted);
      if SomeAsleep(s) { MoveWorker(s, w, Woken); }
      assert NoNewSleeper(s, s');
    case NotifySpace(w, i) =>
      MoveWorker(s, w, s'.workers[w]);
      if SomeBlocked(s) { MoveSubmission(s, i, Roused); }
      assert NoNewSleeper(s, s');
  }

  lemma StepSignals(s: State, capacity: nat, step: Step)
    requires Signals(s, capacity) && Stops(s) && Enabled(s, step)
    ensures Signals(Next(s, capacity, step), capacity)
  {
    match step
    case Arrive => SubmissionSignals(s, capacity, step);
    case Enter(_) => SubmissionSignals(s, capacity, step);
    case SpuriousRouse(_) => SubmissionSignals(s, capacity, step);
    case Take(_) => WorkerSignals(s, capacity, step);
    case Finish(_) => WorkerSignals(s, capacity, step);
    case SpuriousWake(_) => WorkerSignals(s, capacity, step);
    case NotifyWork(_, _) => NotifySignals(s, capacity, step);
    case NotifySpace(_, _) => NotifySignals(s, capacity, step);
    case CallShutdown =>
    case Stop(_) =>
    case WakeWorkers(_) =>
    case WakeSubmitters(_) =>
    case Join(_) =>
  }

  // ---- Order and conservation ----------------------------------------------------------

  ghost predicate Distinct(s: seq<nat>) {
    forall j, k :: 0 <= j < k < |s| ==> s[j] != s[k]
  }

  lemma DistinctAppend(s: seq<nat>, t: nat)
    requires Distinct(s) && t !in s
    ensures Distinct(s + [t])
  {
  }

  predicate Taken(p: Submission) {
    p.Pushed? || p.Accepted?
  }

  // Tasks leave in the order they were accepted, each submission once.
  ghost predicate Ordered(s: State) {
    && s.accepted == s.popped + s.queue && Distinct(s.accepted)
    && (forall i: nat :: i in s.accepted <==> i < |s.submissions| && Taken(s.submissions[i]))
  }

  lemma TakeOrdered(s: State, capacity: nat, w: nat)
    requires Ordered(s) && Enabled(s, Take(w)) && s.queue != []
    ensures Ordered(Next(s, capacity, Take(w)))
  {
    hide Distinct;
    var s' := Next(s, capacity, Take(w));
    assert s.queue == [s.queue[0]] + s.queue[1..];
    assert s'.popped + s'.queue == s.popped + s.queue;
  }

  lemma EnterOrdered(s: State, capacity: nat, i: nat)
    requires Ordered(s) && Enabled(s, Enter(i))
    ensures Ordered(Next(s, capacity, Enter(i)))
  {
    hide Distinct;
    var s' := Next(s, capacity, Enter(i));
    assert i !in s.accepted;
    if s'.accepted != s.accepted {
      DistinctAppend(s.accepted, i);
      assert s'.accepted == s'.popped + s'.queue;
    }
  }

  // Steps that leave the queue alone and accept nothing.
  lemma SameOrder(s: State, s': State)
    requires Ordered(s) && s'.accepted == s.accepted && s'.popped == s.popped && s'.queue == s.queue
    requires forall i: nat :: i < |s.submissions| && Taken(s.submissions[i]) <==> i < |s'.submissions| && Taken(s'.submissions[i])
    ensures Ordered(s')
  {
  }

  lemma StepOrdered(s: State, capacity: nat, step: Step)
    requires Ordered(s) && Enabled(s, step)
    ensures Ordered(Next(s, capacity, step))
  {
    hide Ordered;
    match step
    case Take(w) =>
      if s.queue != [] { TakeOrdered(s, capacity, w); } else { SameOrder(s, Next(s, capacity, step)); }
    case Enter(i) => EnterOrdered(s, capacity, i);
    case _ => SameOrder(s, Next(s, capacity, step));
  }

  function Holding(w: Worker): seq<nat> {
    if w.Popped? || w.Running? then [w.task] else []
  }

  ghost predicate HeldBySomeone(s: State, t: nat) {
    exists w :: 0 <= w < |s.workers| && Holding(s.workers[w]) == [t]
  }

  ghost predicate Separate(s: State) {
    forall v, w :: 0 <= v < |s.workers| && 0 <= w < |s.workers| && v != w && Holding(s.workers[v]) != [] ==>
      Holding(s.workers[v]) != Holding(s.workers[w])
  }

  // A popped task is with exactly one worker or has run, never both, never twice.
  ghost predicate RunOnce(s: State) {
    && Distinct(s.ran) && (forall t :: t in s.ran ==> t in s.popped)
    && (forall t :: t in s.popped ==> t in s.ran || HeldBySomeone(s, t))
    && (forall w :: 0 <= w < |s.workers| && Holding(s.workers[w]) != [] ==>
          s.workers[w].task in s.popped && s.workers[w].task !in s.ran)
    && Separate(s)
    && (|s.workers| == 1 ==> s.popped == s.ran + Holding(s.workers[0]))
  }

  // Steps that leave every worker's task alone.
  lemma SameHoldings(s: State, s': State)
    requires RunOnce(s) && s'.popped == s.popped && s'.ran == s.ran && |s'.workers| == |s.workers|
    requires forall w :: 0 <= w < |s.workers| ==> Holding(s'.workers[w]) == Holding(s.workers[w])
    ensures RunOnce(s')
  {
    forall t | t in s'.popped && t !in s'.ran ensures HeldBySomeone(s', t) {
      var w :| 0 <= w < |s.workers| && Holding(s.workers[w]) == [t];
      assert Holding(s'.workers[w]) == [t];
    }
  }

  lemma TakeSeparate(s: State, capacity: nat, w: nat)
    requires RunOnce(s) && Enabled(s, Take(w)) && s.queue != [] && s.queue[0] !in s.popped
    ensures Separate(Next(s, capacity, Take(w)))
  {
    hide Distinct, HeldBySomeone;
    assert Holding(s.workers[w]) == [];
    assert forall v :: 0 <= v < |s.workers| ==> Holding(s.workers[v]) != [s.queue[0]];
  }

  lemma TakeRunsOnce(s: State, capacity: nat, w: nat)
    requires RunOnce(s) && Ordered(s) && Enabled(s, Take(w)) && s.queue != []
    ensures RunOnce(Next(s, capacity, Take(w)))
  {
    hide Separate;
    var s' := Next(s, capacity, Take(w));
    var task := s.queue[0];
    assert s.accepted[|s.popped|] == task;
    assert forall k :: 0 <= k < |s.popped| ==> s.accepted[k] == s.popped[k];
    assert task !in s.popped;
    TakeSeparate(s, capacity, w);
    forall t | t in s'.popped && t !in s'.ran ensures HeldBySomeone(s', t) {
      if t == task {
        assert Holding(s'.workers[w]) == [t];
      } else {
        var v :| 0 <= v < |s.workers| && Holding(s.workers[v]) == [t];
        assert Holding(s'.workers[v]) == [t];
      }
    }
  }

  lemma FinishRunsOnce(s: State, capacity: nat, w: nat)
    requires RunOnce(s) && Enabled(s, Finish(w))
    ensures RunOnce(Next(s, capacity, Finish(w)))
  {
    hide Distinct;
    var s' := Next(s, capacity, Finish(w));
    var task := s.workers[w].task;
    assert Holding(s.workers[w]) == [task];
    DistinctAppend(s.ran, task);
    assert Separate(s');
    forall v | 0 <= v < |s'.workers| && Holding(s'.workers[v]) != []
      ensures s'.workers[v].task in s'.popped && s'.workers[v].task !in s'.ran
    {
      assert Holding(s.workers[v]) != [task];
    }
    hide Separate;
    forall t | t in s'.popped && t !in s'.ran ensures HeldBySomeone(s', t) {
      var v :| 0 <= v < |s.workers| && Holding(s.workers[v]) == [t];
      assert Holding(s'.workers[v]) == [t];
    }
  }

  lemma StepRunsOnce(s: State, capacity: nat, step: Step)
    requires RunOnce(s) && Ordered(s) && Enabled(s, step)
    ensures RunOnce(Next(s, capacity, step))
  {
    hide RunOnce, Ordered;
    match step
    case Take(w) =>
      if s.queue != [] { TakeRunsOnce(s, capacity, w); } else { SameHoldings(s, Next(s, capacity, step)); }
    case Finish(w) => FinishRunsOnce(s, capacity, w);
    case _ => SameHoldings(s, Next(s, capacity, step));
  }

  // ---- All reachable states --------------------------------------------------------------

  ghost predicate Inv(s: State, capacity: nat) {
    Signals(s, capacity) && Stops(s) && Ordered(s) && RunOnce(s)
  }

  lemma InitialInv(s: State, capacity: nat)
    requires Initial(s)
    ensures Inv(s, capacity)
  {
    assert Signals(s, capacity) && Stops(s);
    InitialTasks(s);
    hide Signals, Stops, Ordered, RunOnce;
  }

  lemma InitialTasks(s: State)
    requires Initial(s)
    ensures Ordered(s) && RunOnce(s)
  {
    assert forall w :: 0 <= w < |s.workers| ==> Holding(s.workers[w]) == [];
    hide Holding;
  }

  lemma StepKeeps(s: State, capacity: nat, step: Step)
    requires Inv(s, capacity) && Enabled(s, step)
    ensures Inv(Next(s, capacity, step), capacity)
  {
    hide Signals, Stops, Ordered, RunOnce, Next, Enabled;
    StepSignals(s, capacity, step);
    StepStops(s, capacity, step);
    StepOrdered(s, capacity, step);
    StepRunsOnce(s, capacity, step);
  }

  lemma {:induction false} RunInv(run: seq<State>, capacity: nat, n: nat)
    requires IsRun(run, capacity) && n < |run|
    ensures Inv(run[n], capacity)
  {
    hide Inv, Initial, Enabled, Next;
    if n == 0 {
      InitialInv(run[0], capacity);
    } else {
      RunInv(run, capacity, n - 1);
      var s := run[n - 1];
      assert Steps(s, run[n], capacity);
      var step :| Enabled(s, step) && run[n] == Next(s, capacity, step);
      StepKeeps(s, capacity, step);
    }
  }

  /** No wakeup is lost: while the scheduler is not stopping, a worker sleeps
      beside queued tasks only if as many notifications or woken workers are
      under way, and a submitter sleeps beside free places likewise. */
  lemma NoLostWakeup(run: seq<State>, capacity: nat, n: nat)
    requires IsRun(run, capacity) && n < |run| && !run[n].stopping
    ensures var s := run[n];
            && (SomeAsleep(s) ==> |s.queue| <= Sum(s.submissions, OwesWork) + Sum(s.workers, IsWoken))
            && (SomeBlocked(s) ==> capacity - |s.queue| <= Sum(s.workers, OwesSpace) + Sum(s.submissions, IsRoused))
  {
    RunInv(run, capacity, n);
  }

  /** The queue never exceeds its capacity, tasks leave it in the order they
      were accepted, and no task runs twice. With one worker they also finish
      in that order. */
  lemma BoundedFifo(run: seq<State>, capacity: nat, n: nat)
    requires IsRun(run, capacity) && n < |run|
    ensures var s := run[n];
            && |s.queue| <= capacity && s.accepted == s.popped + s.queue
            && Distinct(s.accepted) && Distinct(s.ran) && (forall t :: t in s.ran ==> t in s.popped)
            && (|s.workers| == 1 ==> s.ran <= s.accepted)
  {
    RunInv(run, capacity, n);
    var s := run[n];
    if |s.workers| == 1 {
      assert s.accepted == s.ran + (Holding(s.workers[0]) + s.queue);
    }
  }

  // Every accepted task has run, once.
  ghost predicate AllRan(s: State) {
    Distinct(s.ran) && forall t :: t in s.ran <==> t in s.accepted
  }

  /** When the shutdown call that set the flag returns, every accepted task has
      run exactly once, and every worker is gone. */
  lemma ShutdownDrains(run: seq<State>, capacity: nat, n: nat, k: nat)
    requires IsRun(run, capacity) && n < |run| && k < |run[n].shutdowns| && run[n].shutdowns[k].Joined?
    ensures run[n].queue == [] && AllExited(run[n]) && AllRan(run[n])
    ensures run[n].stopping && k == run[n].leader
  {
    RunInv(run, capacity, n);
    assert run[n].workers[0].Exited?;
    IdleWorkersRanAll(run[n]);
  }

  lemma IdleWorkersRanAll(s: State)
    requires Ordered(s) && RunOnce(s) && s.queue == []
    requires forall w :: 0 <= w < |s.workers| ==> Holding(s.workers[w]) == []
    ensures AllRan(s)
  {
    assert s.accepted == s.popped;
  }

  // ---- Progress ------------------------------------------------------------------------

  // Arrivals and spurious wakeups come from outside.
  predicate Internal(step: Step) {
    !step.Arrive? && !step.CallShutdown? && !step.SpuriousWake? && !step.SpuriousRouse?
  }

  ghost predicate Quiet(s: State) {
    forall step :: Internal(step) ==> !Enabled(s, step)
  }

  function WorkerWeight(w: Worker): nat {
    match w
    case Ready => 1
    case Asleep => 0
    case Woken => 1
    case Popped(_) => 4
    case Running(_) => 2
    case Exited => 0
  }

  function SubmissionWeight(p: Submission): nat {
    match p
    case Arrived => 7
    case Blocked => 6
    case Roused => 7
    case Pushed => 2
    case Accepted => 0
    case Rejected => 0
  }

  function ShutdownWeight(threads: nat, d: Shutdown): nat {
    match d
    case Called => 2 * threads + 4
    case WakingWorkers => 2 * threads + 3
    case WakingSubmitters => threads + 2
    case Joining => 1
    case Joined => 0
    case Ignored => 0
  }

  function WeightBeside(threads: nat): Shutdown -> nat {
    d => ShutdownWeight(threads, d)
  }

  // The work the threads and the queue can still cause by themselves.
  function Measure(s: State): nat {
    Sum(s.workers, WorkerWeight) + Sum(s.submissions, SubmissionWeight) +
    Sum(s.shutdowns, WeightBeside(|s.workers| + |s.submissions|)) + 4 * |s.queue|
  }

  lemma QueueStepDecreases(s: State, capacity: nat, step: Step)
    requires Enabled(s, step) && (step.Enter? || step.Take? || step.Finish?)
    ensures Measure(Next(s, capacity, step)) < Measure(s)
  {
    hide Sum;
    var s' := Next(s, capacity, step);
    match step
    case Enter(i) => SumUpdate(s.submissions, SubmissionWeight, i, s'.submissions[i]);
    case Take(w) => SumUpdate(s.workers, WorkerWeight, w, s'.workers[w]);
    case Finish(w) => SumUpdate(s.workers, WorkerWeight, w, Ready);
  }

  lemma NotifyDecreases(s: State, capacity: nat, step: Step)
    requires Enabled(s, step) && (step.NotifyWork? || step.NotifySpace?)
    ensures Measure(Next(s, capacity, step)) < Measure(s)
  {
    hide Sum;
    var s' := Next(s, capacity, step);
    match step
    case NotifyWork(i, w) =>
      SumUpdate(s.submissions, SubmissionWeight, i, Accepted);
      if SomeAsleep(s) { SumUpdate(s.workers, WorkerWeight, w, Woken); }
    case NotifySpace(w, i) =>
      SumUpdate(s.workers, WorkerWeight, w, s'.workers[w]);
      if SomeBlocked(s) { SumUpdate(s.submissions, SubmissionWeight, i, Roused); }
  }

  lemma ShutdownDecreases(s: State, capacity: nat, step: Step)
    requires Enabled(s, step) && (step.Stop? || step.WakeWorkers? || step.WakeSubmitters? || step.Join?)
    ensures Measure(Next(s, capacity, step)) < Measure(s)
  {
    hide Sum;
    var s' := Next(s, capacity, step);
    var weight := WeightBeside(|s.workers| + |s.submissions|);
    match step
    case Stop(k) => SumUpdate(s.shutdowns, weight, k, s'.shutdowns[k]);
    case WakeWorkers(k) =>
      SumUpdate(s.shutdowns, weight, k, WakingSubmitters);
      SumRaised(s.workers, s'.workers, WorkerWeight);
    case WakeSubmitters(k) =>
      SumUpdate(s.shutdowns, weight, k, Joining);
      SumRaised(s.submissions, s'.submissions, SubmissionWeight);
    case Join(k) => SumUpdate(s.shutdowns, weight, k, Joined);
  }

  /** Every step of the scheduler's own threads uses up some of the measure. */
  lemma InternalStepDecreases(s: State, capacity: nat, step: Step)
    requires Enabled(s, step) && Internal(step)
    ensures Measure(Next(s, capacity, step)) < Measure(s)
  {
    hide Measure, Next, Enabled;
    if step.Enter? || step.Take? || step.Finish? {
      QueueStepDecreases(s, capacity, step);
    } else if step.NotifyWork? || step.NotifySpace? {
      NotifyDecreases(s, capacity, step);
    } else {
      ShutdownDecreases(s, capacity, step);
    }
  }

  ghost predicate InternalStep(s: State, s': State, capacity: nat) {
    exists step :: Internal(step) && Enabled(s, step) && s' == Next(s, capacity, step)
  }

  ghost predicate IsPath(path: seq<State>, capacity: nat) {
    path != [] && forall n :: 0 < n < |path| ==> InternalStep(path[n - 1], path[n], capacity)
  }

  /** Left alone, the threads come to rest: no path of their own steps is longer
      than the measure of its first state. */
  lemma {:induction false} PathsAreShort(path: seq<State>, capacity: nat)
    requires IsPath(path, capacity)
    ensures |path| + Measure(path[|path| - 1]) <= Measure(path[0]) + 1
    decreases |path|
  {
    hide Measure, Next, Enabled, Internal;
    if |path| > 1 {
      var shorter := path[..|path| - 1];
      PathsAreShort(shorter, capacity);
      var s := shorter[|shorter| - 1];
      assert InternalStep(s, path[|path| - 1], capacity);
      var step :| Internal(step) && Enabled(s, step) && path[|path| - 1] == Next(s, capacity, step);
      InternalStepDecreases(s, capacity, step);
    }
  }

  // Nothing is left to do: no submission or shutdown hangs and all accepted tasks ran.
  ghost predicate Settled(s: State) {
    && s.queue == [] && AllRan(s)
    && (forall w :: 0 <= w < |s.workers| ==> if s.stopping then s.workers[w].Exited? else s.workers[w].Asleep?)
    && (forall i :: 0 <= i < |s.submissions| ==>
          s.submissions[i].Accepted? || (s.stopping && s.submissions[i].Rejected?))
    && (forall k :: 0 <= k < |s.shutdowns| ==> s.shutdowns[k].Joined? || s.shutdowns[k].Ignored?)
  }

  lemma QuietWorkers(s: State)
    requires Quiet(s)
    ensures forall w :: 0 <= w < |s.workers| ==> s.workers[w].Asleep? || s.workers[w].Exited?
  {
    forall w | 0 <= w < |s.workers| ensures s.workers[w].Asleep? || s.workers[w].Exited? {
      assert !Enabled(s, Take(w)) && !Enabled(s, Finish(w));
      if SomeBlocked(s) {
        var i :| 0 <= i < |s.submissions| && s.submissions[i].Blocked?;
        assert !Enabled(s, NotifySpace(w, i));
      } else {
        assert !Enabled(s, NotifySpace(w, 0));
      }
    }
  }

  lemma QuietSubmissions(s: State)
    requires Quiet(s)
    ensures forall i :: 0 <= i < |s.submissions| ==>
              s.submissions[i].Blocked? || s.submissions[i].Accepted? || s.submissions[i].Rejected?
  {
    forall i | 0 <= i < |s.submissions|
      ensures s.submissions[i].Blocked? || s.submissions[i].Accepted? || s.submissions[i].Rejected?
    {
      assert !Enabled(s, Enter(i));
      if SomeAsleep(s) {
        var w :| 0 <= w < |s.workers| && s.workers[w].Asleep?;
        assert !Enabled(s, NotifyWork(i, w));
      } else {
        assert !Enabled(s, NotifyWork(i, 0));
      }
    }
  }

  lemma QuietShutdowns(s: State)
    requires Quiet(s)
    ensures forall k :: 0 <= k < |s.shutdowns| ==>
              !s.shutdowns[k].Called? && !s.shutdowns[k].WakingWorkers? && !s.shutdowns[k].WakingSubmitters?
    ensures AllExited(s) ==> forall k :: 0 <= k < |s.shutdowns| ==> !s.shutdowns[k].Joining?
  {
    forall k | 0 <= k < |s.shutdowns|
      ensures !s.shutdowns[k].Called? && !s.shutdowns[k].WakingWorkers? && !s.shutdowns[k].WakingSubmitters?
      ensures AllExited(s) ==> !s.shutdowns[k].Joining?
    {
      assert !Enabled(s, Stop(k)) && !Enabled(s, WakeWorkers(k)) && !Enabled(s, WakeSubmitters(k)) && !Enabled(s, Join(k));
    }
  }

  // With no signal under way, sleepers mean an empty queue and blockers a full one.
  lemma QuietSums(s: State)
    requires forall w :: 0 <= w < |s.workers| ==> s.workers[w].Asleep? || s.workers[w].Exited?
    requires forall i :: 0 <= i < |s.submissions| ==>
               s.submissions[i].Blocked? || s.submissions[i].Accepted? || s.submissions[i].Rejected?
    ensures Sum(s.workers, IsWoken) == Sum(s.workers, OwesSpace) == 0
    ensures Sum(s.submissions, IsRoused) == Sum(s.submissions, OwesWork) == 0
  {
    SumZero(s.workers, IsWoken);
    SumZero(s.workers, OwesSpace);
    SumZero(s.submissions, IsRoused);
    SumZero(s.submissions, OwesWork);
  }

  /** A state in which no thread can move by itself has nothing left to do: no
      task is forgotten in the queue and no submitter or shutdown call hangs. */
  lemma QuietMeansSettled(s: State, capacity: nat)
    requires Inv(s, capacity) && capacity >= 1 && Quiet(s)
    ensures Settled(s)
  {
    hide Sum, Quiet, Enabled, Ordered, RunOnce;
    QuietWorkers(s);
    QuietSubmissions(s);
    QuietShutdowns(s);
    QuietSums(s);
    if s.stopping {
      assert !SomeAsleep(s) && !SomeBlocked(s);
      assert AllExited(s);
      assert s.workers[0].Exited?;
    } else {
      assert s.workers[0].Asleep? && SomeAsleep(s);
      assert !SomeBlocked(s);
    }
    IdleWorkersRanAll(s);
  }

  /** From every reachable state the threads, left alone, finish all accepted
      work: whatever order they move in, a path of their steps can be extended
      until it is settled, and that happens within a bounded number of steps. */
  lemma EverythingSettles(run: seq<State>, path: seq<State>, capacity: nat)
    requires IsRun(run, capacity) && capacity >= 1
    requires IsPath(path, capacity) && path[0] == run[|run| - 1]
    ensures Settled(path[|path| - 1]) || CanMove(path[|path| - 1], capacity)
    ensures |path| <= Measure(path[0]) + 1
  {
    hide Inv, Settled, Measure, Next, Enabled, Internal;
    RunInv(run, capacity, |run| - 1);
    PathsAreShort(path, capacity);
    PathInv(path, capacity, |path| - 1);
    var s := path[|path| - 1];
    if Quiet(s) {
      QuietMeansSettled(s, capacity);
    } else {
      var step :| Internal(step) && Enabled(s, step);
      assert InternalStep(s, Next(s, capacity, step), capacity);
    }
  }

  ghost predicate CanMove(s: State, capacity: nat) {
    exists s' :: InternalStep(s, s', capacity)
  }

  lemma {:induction false} PathInv(path: seq<State>, capacity: nat, n: nat)
    requires IsPath(path, capacity) && Inv(path[0], capacity) && n < |path|
    ensures Inv(path[n], capacity)
  {
    hide Inv, Next, Enabled, Internal;
    if n > 0 {
      PathInv(path, capacity, n - 1);
      var s := path[n - 1];
      assert InternalStep(s, path[n], capacity);
      var step :| Internal(step) && Enabled(s, step) && path[n] == Next(s, capacity, step);
      StepKeeps(s, capacity, step);
    }
  }

  ghost predicate Reachable(s: State, capacity: nat) {
    exists run :: IsRun(run, capacity) && run[|run| - 1] == s
  }

  lemma ReachStep(s: State, capacity: nat, step: Step)
    requires Reachable(s, capacity) && Enabled(s, step)
    ensures Reachable(Next(s, capacity, step), capacity)
  {
    hide Initial, Enabled, Next;
    var s' := Next(s, capacity, step);
    var run :| IsRun(run, capacity) && run[|run| - 1] == s;
    var longer := run + [s'];
    assert Steps(s, s', capacity);
    forall n | 0 < n < |longer| ensures Steps(longer[n - 1], longer[n], capacity) {
      if n < |run| { assert Steps(run[n - 1], run[n], capacity); }
    }
    assert IsRun(longer, capacity) && longer[|longer| - 1] == s';
  }

  // One submission accepted by a scheduler whose workers have not moved.
  function OneQueued(threads: nat, stopping: bool, shutdowns: seq<Shutdown>): State {
    State([0], stopping, seq(threads, _ => Ready), [Pushed], shutdowns, [0], [], [], 0)
  }

  lemma OneQueuedReachable(threads: nat, capacity: nat)
    requires threads >= 1 && capacity >= 1
    ensures Reachable(OneQueued(threads, false, []), capacity)
  {
    var s0 := State([], false, seq(threads, _ => Ready), [], [], [], [], [], 0);
    assert IsRun([s0], capacity) && Reachable(s0, capacity);
    hide Reachable, SomeAsleep, SomeBlocked;
    ReachStep(s0, capacity, Arrive);
    ReachStep(Next(s0, capacity, Arrive), capacity, Enter(0));
    assert Next(Next(s0, capacity, Arrive), capacity, Enter(0)) == OneQueued(threads, false, []);
  }

  lemma ShutdownCallReachable(threads: nat, capacity: nat, shutdowns: seq<Shutdown>)
    requires Reachable(OneQueued(threads, false, shutdowns), capacity)
    ensures Reachable(OneQueued(threads, false, shutdowns + [Called]), capacity)
  {
    hide Reachable, SomeAsleep, SomeBlocked;
    ReachStep(OneQueued(threads, false, shutdowns), capacity, CallShutdown);
  }

  lemma StopReachable(threads: nat, capacity: nat)
    requires Reachable(OneQueued(threads, false, [Called, Called]), capacity)
    ensures Reachable(OneQueued(threads, true, [WakingWorkers, Ignored]), capacity)
  {
    hide Reachable, SomeAsleep, SomeBlocked;
    var s := OneQueued(threads, false, [Called, Called]);
    ReachStep(s, capacity, Stop(0));
    var t := OneQueued(threads, true, [WakingWorkers, Called]);
    assert Next(s, capacity, Stop(0)) == t;
    ReachStep(t, capacity, Stop(1));
    assert Next(t, capacity, Stop(1)) == OneQueued(threads, true, [WakingWorkers, Ignored]);
  }

  /** Only the call that set the flag waits: with any number of workers and any
      capacity, a second shutdown call can return while an accepted task has not run. */
  lemma SecondShutdownMayReturnEarly(threads: nat, capacity: nat)
    requires threads >= 1 && capacity >= 1
    ensures exists s, k, t: nat ::
              && Reachable(s, capacity) && |s.workers| == threads
              && 0 <= k < |s.shutdowns| && s.shutdowns[k].Ignored? && t in s.accepted && t !in s.ran
  {
    hide Reachable;
    OneQueuedReachable(threads, capacity);
    ShutdownCallReachable(threads, capacity, []);
    assert [] + [Called] == [Called];
    ShutdownCallReachable(threads, capacity, [Called]);
    assert [Called] + [Called] == [Called, Called];
    StopReachable(threads, capacity);
    var s, t: nat := OneQueued(threads, true, [WakingWorkers, Ignored]), 0;
    assert s.shutdowns[1].Ignored? && t in s.accepted && t !in s.ran;
  }

  // A shutdown call that returned this way finds all work done, in every run.
  ghost predicate PromisesDrained(way: Shutdown, threads: nat, capacity: nat) {
    forall s, k :: Reachable(s, capacity) && |s.workers| == threads && 0 <= k < |s.shutdowns| && s.shutdowns[k] == way ==>
      s.queue == [] && AllExited(s) && AllRan(s)
  }

  /** Of the two ways a shutdown call returns, in every configuration exactly that
      of the call that set the flag promises that all accepted tasks have run. */
  lemma ShutdownDrainsIff(way: Shutdown, threads: nat, capacity: nat)
    requires (way.Joined? || way.Ignored?) && threads >= 1 && capacity >= 1
    ensures PromisesDrained(way, threads, capacity) <==> way.Joined?
  {
    hide Initial, Steps, AllExited;
    if way.Joined? {
      forall s, k | Reachable(s, capacity) && 0 <= k < |s.shutdowns| && s.shutdowns[k] == way
        ensures s.queue == [] && AllExited(s) && AllRan(s)
      {
        var run :| IsRun(run, capacity) && run[|run| - 1] == s;
        ShutdownDrains(run, capacity, |run| - 1, k);
      }
    } else {
      SecondShutdownMayReturnEarly(threads, capacity);
      var s, k, t: nat :| Reachable(s, capacity) && |s.workers| == threads && 0 <= k < |s.shutdowns| &&
                          s.shutdowns[k].Ignored? && t in s.accepted && t !in s.ran;
      assert !AllRan(s) && s.shutdowns[k] == way;
    }
  }

  // ---- The critical sections -----------------------------------------------------------------

  // What the lock protects. Each method is one pass through a locked region, up to
  // the point where the thread waits, goes on or leaves; `s` is any state of the
  // step system in which it is taken.
  class Scheduler {
    const queueCapacity: nat
    var tasks: seq<nat>
    var stopping: bool

    ghost predicate Shows(s: State)
      reads this
    {
      s.queue == tasks && s.stopping == stopping
    }

    constructor (queueCapacity: nat)
      ensures this.queueCapacity == (if queueCapacity == 0 then 1 else queueCapacity)
      ensures tasks == [] && !stopping
    {
      this.queueCapacity := if queueCapacity == 0 then 1 else queueCapacity;
      tasks, stopping := [], false;
    }

    method SubmitSection(i: nat, ghost s: State) returns (outcome: Submission)
      requires Shows(s) && Enabled(s, Enter(i))
      modifies this
      ensures Shows(Next(s, queueCapacity, Enter(i)))
      ensures Next(s, queueCapacity, Enter(i)).submissions[i] == outcome
    {
      if !(stopping || |tasks| < queueCapacity) {
        return Blocked;
      }
      if stopping {
        return Rejected;
      }
      tasks := tasks + [i];
      return Pushed;
    }

    method WorkerSection(w: nat, ghost s: State) returns (outcome: Worker)
      requires Shows(s) && Enabled(s, Take(w))
      modifies this
      ensures Shows(Next(s, queueCapacity, Take(w)))
      ensures Next(s, queueCapacity, Take(w)).workers[w] == outcome
    {
      if !(stopping || tasks != []) {
        return Asleep;
      }
      if stopping && tasks == [] {
        return Exited;
      }
      var task := tasks[0];
      tasks := tasks[1..];
      return Popped(task);
    }

    method ShutdownSection(k: nat, ghost s: State) returns (outcome: Shutdown)
      requires Shows(s) && Enabled(s, Stop(k))
      modifies this
      ensures Shows(Next(s, queueCapacity, Stop(k)))
      ensures Next(s, queueCapacity, Stop(k)).shutdowns[k] == outcome
    {
      if stopping {
        return Ignored;
      }
      stopping := true;
      return WakingWorkers;
    }
  }
}

/** Fence tracking of the GPU queue: the tables under its lock, and all
    interleavings of submissions, commands and waits around them. */
module GpuQueue {

  import opened Common

  // Everything the lock protects. `outOfOrder` holds completed fences beyond the
  // watermark `completed`; `inFlight` the fences whose future can be waited for.
  datatype Tables = Tables(nextFence: nat, completed: nat, inFlight: set<nat>, outOfOrder: set<nat>)

  const FRESH := Tables(1, 0, {}, {})

  // ---- The completion block --------------------------------------------------------

  // Moves the watermark over every completed fence that follows it directly.
  function Drain(completed: nat, outOfOrder: set<nat>): (r: (nat, set<nat>))
    decreases |outOfOrder|
  {
    if completed + 1 in outOfOrder
    then Drain(completed + 1, outOfOrder - {completed + 1})
    else (completed, outOfOrder)
  }

  function Finish(t: Tables, fence: nat): Tables {
    var (c, o) := Drain(t.completed, t.outOfOrder + {fence});
    t.(completed := c, outOfOrder := o)
  }

  // A fence counts as completed when the watermark or the set covers it.
  predicate Covers(t: Tables, f: nat) {
    1 <= f <= t.completed || f in t.outOfOrder
  }

  predicate Exact(t: Tables) {
    forall f :: f in t.outOfOrder ==> f > t.completed + 1
  }

  /** Draining changes no fence's status, never moves the watermark back, and
      leaves it in front of the first fence that is not completed. */
  lemma {:induction false} DrainExact(completed: nat, outOfOrder: set<nat>)
    requires forall f :: f in outOfOrder ==> f > completed
    ensures var (c, o) := Drain(completed, outOfOrder);
            && c >= completed && (forall f :: f in o ==> f > c + 1)
            && (forall f: nat :: (1 <= f <= c || f in o) <==> (1 <= f <= completed || f in outOfOrder))
    decreases |outOfOrder|
  {
    if completed + 1 in outOfOrder {
      var rest := outOfOrder - {completed + 1};
      DrainExact(completed + 1, rest);
      assert forall f: nat :: (f == completed + 1 || f in rest) <==> f in outOfOrder;
    }
  }

  lemma FinishExact(t: Tables, fence: nat)
    requires Exact(t) && fence > t.completed
    ensures Exact(Finish(t, fence)) && Finish(t, fence).completed >= t.completed
    ensures forall f: nat :: Covers(Finish(t, fence), f) <==> Covers(t, f) || f == fence
  {
    DrainExact(t.completed, t.outOfOrder + {fence});
  }

  class FenceQueue {
    var nextFence: nat
    var completedFence: nat
    var inFlight: set<nat>
    var completedOutOfOrder: set<nat>

    ghost function View(): Tables
      reads this
    {
      Tables(nextFence, completedFence, inFlight, completedOutOfOrder)
    }

    constructor ()
      ensures View() == FRESH
    {
      nextFence, completedFence, inFlight, completedOutOfOrder := 1, 0, {}, {};
    }

    /** First critical section of a submission. */
    method Register() returns (fence: nat)
      modifies this
      ensures fence == old(nextFence)
      ensures View() == Registered(old(View()))
    {
      fence := nextFence;
      nextFence := nextFence + 1;
      inFlight := inFlight + {fence};
    }

    /** A waiter, or a submission whose scheduling failed, forgets the future. */
    method Forget(fence: nat)
      modifies this
      ensures View() == Forgotten(old(View()), fence)
    {
      inFlight := inFlight - {fence};
    }

    /** The completion block of a command. */
    method Complete(fence: nat)
      modifies this
      ensures View() == Finish(old(View()), fence)
    {
      completedOutOfOrder := completedOutOfOrder + {fence};
      while completedFence + 1 in completedOutOfOrder
        invariant nextFence == old(nextFence) && inFlight == old(inFlight)
        invariant Drain(completedFence, completedOutOfOrder) == Drain(old(completedFence), old(completedOutOfOrder) + {fence})
        decreases |completedOutOfOrder|
      {
        completedOutOfOrder := completedOutOfOrder - {completedFence + 1};
        completedFence := completedFence + 1;
      }
    }

    /** First critical section of a wait: None means the future is to be awaited. */
    method LookUp(fence: nat) returns (answer: Option<bool>)
      ensures answer == Answer(View(), fence)
    {
      if fence in inFlight {
        return None;
      }
      return Some(fence <= completedFence);
    }
  }

  function Registered(t: Tables): Tables {
    t.(nextFence := t.nextFence + 1, inFlight := t.inFlight + {t.nextFence})
  }

  function Forgotten(t: Tables, fence: nat): Tables {
    t.(inFlight := t.inFlight - {fence})
  }

  function Answer(t: Tables, fence: nat): Option<bool> {
    if fence in t.inFlight then None else Some(fence <= t.completed)
  }

  // ---- All interleavings -------------------------------------------------------------

  // The life of fence f, from its registration on. `ok` is false when the command threw.
  datatype Phase =
    | Numbered
    | Scheduled
    | Promised(ok: bool)      // the promise is set, the completion block has not run
    | Finished(ok: bool)
    | Refused                 // the scheduler threw
    | Failed                  // ... and the future has been forgotten

  datatype Verdict = True | False | Threw

  datatype Wait =
    | Entering(fence: nat)
    | Awaiting(fence: nat)
    | Leaving(fence: nat, ok: bool)
    | Returned(fence: nat, verdict: Verdict)

  // Entry f - 1 of `phases` belongs to fence f; waits are numbered as they come.
  datatype State = State(tables: Tables, phases: seq<Phase>, waits: seq<Wait>)

  datatype Step =
    | Submit
    | Schedule(f: nat)
    | Refuse(f: nat)
    | Abandon(f: nat)
    | Run(f: nat, ok: bool)
    | Complete(f: nat)
    | CallWait(f: nat)
    | Look(k: nat)
    | Await(k: nat)
    | Leave(k: nat)

  predicate Known(s: State, f: nat) {
    1 <= f <= |s.phases|
  }

  function PhaseOf(s: State, f: nat): Phase
    requires Known(s, f)
  {
    s.phases[f - 1]
  }

  function SetPhase(s: State, f: nat, p: Phase): State
    requires Known(s, f)
  {
    s.(phases := s.phases[f - 1 := p])
  }

  // A future is ready once its promise is set, or dropped with a failed submission.
  predicate FutureReady(s: State, f: nat) {
    Known(s, f) && (PhaseOf(s, f).Promised? || PhaseOf(s, f).Finished? || PhaseOf(s, f).Failed?)
  }

  predicate Enabled(s: State, step: Step) {
    match step
    case Submit => true
    case Schedule(f) => Known(s, f) && PhaseOf(s, f).Numbered?
    case Refuse(f) => Known(s, f) && PhaseOf(s, f).Numbered?
    case Abandon(f) => Known(s, f) && PhaseOf(s, f).Refused?
    case Run(f, _) => Known(s, f) && PhaseOf(s, f).Scheduled?
    case Complete(f) => Known(s, f) && PhaseOf(s, f).Promised?
    case CallWait(_) => true
    case Look(k) => k < |s.waits| && s.waits[k].Entering?
    case Await(k) => k < |s.waits| && s.waits[k].Awaiting? && FutureReady(s, s.waits[k].fence)
    case Leave(k) => k < |s.waits| && s.waits[k].Leaving?
  }

  function Next(s: State, step: Step): State
    requires Enabled(s, step)
  {
    match step
    case Submit => s.(tables := Registered(s.tables), phases := s.phases + [Numbered])
    case Schedule(f) => SetPhase(s, f, Scheduled)
    case Refuse(f) => SetPhase(s, f, Refused)
    case Abandon(f) => SetPhase(s, f, Failed).(tables := Forgotten(s.tables, f))
    case Run(f, ok) => SetPhase(s, f, Promised(ok))
    case Complete(f) => SetPhase(s, f, Finished(PhaseOf(s, f).ok)).(tables := Finish(s.tables, f))
    case CallWait(f) => s.(waits := s.waits + [Entering(f)])
    case Look(k) =>
      var f := s.waits[k].fence;
      s.(waits := s.waits[k := match Answer(s.tables, f)
                               case None => Awaiting(f)
                               case Some(true) => Returned(f, True)
                               case Some(false) => Returned(f, False)])
    case Await(k) =>
      var f := s.waits[k].fence;
      s.(waits := s.waits[k := Leaving(f, !PhaseOf(s, f).Failed? && PhaseOf(s, f).ok)])
    case Leave(k) =>
      var f := s.waits[k].fence;
      s.(tables := Forgotten(s.tables, f), waits := s.waits[k := Returned(f, if s.waits[k].ok then True else Threw)])
  }

  ghost predicate Initial(s: State) {
    s == State(FRESH, [], [])
  }

  ghost predicate Steps(s: State, s': State) {
    exists step :: Enabled(s, step) && s' == Next(s, step)
  }

  ghost predicate IsRun(run: seq<State>) {
    && run != [] && Initial(run[0])
    && forall n :: 0 < n < |run| ==> Steps(run[n - 1], run[n])
  }

  predicate HasRun(s: State, f: nat) {
    Known(s, f) && (PhaseOf(s, f).Promised? || PhaseOf(s, f).Finished?)
  }

  predicate IsFinished(s: State, f: nat) {
    Known(s, f) && PhaseOf(s, f).Finished?
  }

  predicate RanWell(s: State, f: nat) {
    HasRun(s, f) && PhaseOf(s, f).ok
  }

  predicate WaitFits(s: State, w: Wait) {
    match w
    case Entering(_) => true
    case Awaiting(f) => Known(s, f)
    case Leaving(f, ok) => FutureReady(s, f) && (ok <==> RanWell(s, f))
    case Returned(f, verdict) =>
      (verdict.True? ==> f == 0 || HasRun(s, f)) && (verdict.Threw? ==> FutureReady(s, f) && !RanWell(s, f))
  }

  /** The watermark is exact: the finished fences are those up to it together with
      those in the out-of-order set, and the fence after it is not finished. */
  ghost predicate Inv(s: State) {
    && s.tables.nextFence == |s.phases| + 1 && Exact(s.tables)
    && (forall f: nat :: Covers(s.tables, f) <==> IsFinished(s, f))
    && (forall f: nat :: f in s.tables.inFlight ==> Known(s, f))
    && (forall k :: 0 <= k < |s.waits| ==> WaitFits(s, s.waits[k]))
  }

  // A phase change that keeps runs run and finished fences finished.
  lemma PhaseKeeps(s: State, f: nat, p: Phase)
    requires Inv(s) && Known(s, f)
    requires HasRun(s, f) ==> p == PhaseOf(s, f)
    requires FutureReady(s, f) ==> p == PhaseOf(s, f)
    requires !p.Finished? || PhaseOf(s, f).Finished?
    ensures Inv(SetPhase(s, f, p))
  {
    hide Exact;
    var s' := SetPhase(s, f, p);
    assert forall g: nat :: IsFinished(s', g) == IsFinished(s, g);
  }

  lemma CompleteKeeps(s: State, f: nat)
    requires Inv(s) && Enabled(s, Complete(f))
    ensures Inv(Next(s, Complete(f)))
    ensures Next(s, Complete(f)).tables.completed >= s.tables.completed
  {
    hide Exact, Finish, Covers;
    var s' := Next(s, Complete(f));
    assert !IsFinished(s, f) && !Covers(s.tables, f);
    NotCovered(s.tables, f);
    FinishExact(s.tables, f);
    FinishFrame(s.tables, f);
    assert forall g: nat :: IsFinished(s', g) <==> IsFinished(s, g) || g == f;
  }

  lemma NotCovered(t: Tables, f: nat)
    requires f >= 1 && !Covers(t, f)
    ensures f > t.completed
  {
  }

  lemma FinishFrame(t: Tables, f: nat)
    ensures Finish(t, f).nextFence == t.nextFence && Finish(t, f).inFlight == t.inFlight
  {
  }

  lemma SubmitKeeps(s: State)
    requires Inv(s)
    ensures Inv(Next(s, Submit))
  {
    hide Exact;
    var s' := Next(s, Submit);
    assert Exact(s'.tables) by { ExactFrame(s.tables, s'.tables); }
    assert forall g: nat :: IsFinished(s', g) == IsFinished(s, g);
    forall k | 0 <= k < |s'.waits| ensures WaitFits(s', s'.waits[k]) {
      assert WaitFits(s, s.waits[k]);
    }
  }

  lemma ExactFrame(t: Tables, t': Tables)
    requires Exact(t) && t'.completed == t.completed && t'.outOfOrder == t.outOfOrder
    ensures Exact(t')
  {
  }

  lemma WaitKeeps(s: State, step: Step)
    requires Inv(s) && Enabled(s, step) && (step.CallWait? || step.Look? || step.Await? || step.Leave?)
    ensures Inv(Next(s, step))
  {
    var s' := Next(s, step);
    if step.Look? {
      var f := s.waits[step.k].fence;
      assert Covers(s.tables, f) ==> IsFinished(s, f);
    }
    assert Exact(s'.tables) by { ExactFrame(s.tables, s'.tables); }
    hide Exact;
    assert forall g: nat :: IsFinished(s', g) == IsFinished(s, g);
  }

  lemma AbandonKeeps(s: State, f: nat)
    requires Inv(s) && Enabled(s, Abandon(f))
    ensures Inv(Next(s, Abandon(f)))
  {
    hide Exact;
    PhaseKeeps(s, f, Failed);
    ExactFrame(s.tables, Forgotten(s.tables, f));
    var s1, s2 := SetPhase(s, f, Failed), Next(s, Abandon(f));
    assert forall g: nat :: IsFinished(s2, g) == IsFinished(s1, g);
    forall k | 0 <= k < |s2.waits| ensures WaitFits(s2, s2.waits[k]) {
      assert WaitFits(s1, s1.waits[k]);
    }
  }

  lemma StepKeeps(s: State, step: Step)
    requires Inv(s) && Enabled(s, step)
    ensures Inv(Next(s, step)) && Next(s, step).tables.completed >= s.tables.completed
  {
    hide Inv, Exact, Covers, Finish;
    match step
    case Submit => SubmitKeeps(s);
    case Schedule(f) => PhaseKeeps(s, f, Scheduled);
    case Refuse(f) => PhaseKeeps(s, f, Refused);
    case Abandon(f) => AbandonKeeps(s, f);
    case Run(f, ok) => PhaseKeeps(s, f, Promised(ok));
    case Complete(f) => CompleteKeeps(s, f);
    case CallWait(_) => WaitKeeps(s, step);
    case Look(_) => WaitKeeps(s, step);
    case Await(_) => WaitKeeps(s, step);
    case Leave(_) => WaitKeeps(s, step);
  }

  lemma {:induction false} RunInv(run: seq<State>, n: nat)
    requires IsRun(run) && n < |run|
    ensures Inv(run[n]) && (n > 0 ==> run[n - 1].tables.completed <= run[n].tables.completed)
  {
    hide Enabled, Next;
    if n > 0 {
      RunInv(run, n - 1);
      var s := run[n - 1];
      assert Steps(s, run[n]);
      var step :| Enabled(s, step) && run[n] == Next(s, step);
      StepKeeps(s, step);
    }
  }

  /** In every reachable state the watermark and the out-of-order set cover
      exactly the finished fences, and the watermark stops right before the first
      fence that is not finished. */
  lemma WatermarkExact(run: seq<State>, n: nat, f: nat)
    requires IsRun(run) && n < |run|
    ensures var s := run[n];
            && (IsFinished(s, f) <==> 1 <= f <= s.tables.completed || f in s.tables.outOfOrder)
            && !IsFinished(s, s.tables.completed + 1)
            && (f >= 1 ==> (f <= s.tables.completed <==> forall g: nat :: 1 <= g <= f ==> IsFinished(s, g)))
  {
    RunInv(run, n);
    var s := run[n];
    assert !Covers(s.tables, s.tables.completed + 1);
    assert Covers(s.tables, f) <==> IsFinished(s, f);
    if f <= s.tables.completed {
      forall g: nat | 1 <= g <= f ensures IsFinished(s, g) { assert Covers(s.tables, g); }
    }
  }

  lemma {:induction false} WatermarkNeverFalls(run: seq<State>, m: nat, n: nat)
    requires IsRun(run) && m <= n < |run|
    ensures run[m].tables.completed <= run[n].tables.completed
    decreases n
  {
    if m < n {
      WatermarkNeverFalls(run, m, n - 1);
      RunInv(run, n);
    }
  }

  /** A wait that returned true has seen its command run; one that threw has seen
      its command throw or its submission fail. */
  lemma VerdictMeans(run: seq<State>, n: nat, k: nat)
    requires IsRun(run) && n < |run| && k < |run[n].waits|
    requires run[n].waits[k].Returned? && run[n].waits[k].fence >= 1
    ensures var s, f := run[n], run[n].waits[k].fence;
            && (run[n].waits[k].verdict.True? ==> HasRun(s, f))
            && (run[n].waits[k].verdict.Threw? ==> (HasRun(s, f) && !PhaseOf(s, f).ok) || SubmissionFailed(s, f))
  {
    RunInv(run, n);
    assert WaitFits(run[n], run[n].waits[k]);
  }

  // No submission or command is under way.
  ghost predicate AtRest(s: State) {
    forall f: nat :: Known(s, f) ==> IsFinished(s, f) || PhaseOf(s, f).Failed?
  }

  predicate SubmissionFailed(s: State, f: nat) {
    Known(s, f) && PhaseOf(s, f).Failed?
  }

  lemma FailureStays(s: State, step: Step, f: nat)
    requires Enabled(s, step) && SubmissionFailed(s, f)
    ensures SubmissionFailed(Next(s, step), f)
  {
    hide Finish, Registered, Forgotten, Answer;
  }

  lemma {:induction false} FailureIsForGood(run: seq<State>, m: nat, n: nat, f: nat)
    requires IsRun(run) && m <= n < |run| && SubmissionFailed(run[m], f)
    ensures SubmissionFailed(run[n], f)
    decreases n
  {
    hide Enabled, Next, SubmissionFailed;
    if m < n {
      FailureIsForGood(run, m, n - 1, f);
      assert Steps(run[n - 1], run[n]);
      var step :| Enabled(run[n - 1], step) && run[n] == Next(run[n - 1], step);
      FailureStays(run[n - 1], step, f);
    }
  }

  /** Once a submission has failed, the watermark never reaches its fence in any
      continuation of the run, and no wait that finds no future answers true for
      this fence or a later one. */
  lemma FailureStopsWatermark(run: seq<State>, m: nat, n: nat, f: nat)
    requires IsRun(run) && m <= n < |run| && SubmissionFailed(run[m], f)
    ensures run[n].tables.completed < f
    ensures forall g: nat :: g >= f ==> Answer(run[n].tables, g) != Some(true)
  {
    FailureIsForGood(run, m, n, f);
    WatermarkExact(run, n, f);
    assert !IsFinished(run[n], f);
  }

  /** At rest the watermark is the last fence, or stops for good before the first
      fence whose submission failed: it has reached exactly the fences with no
      failure up to them. */
  lemma WatermarkAtRest(run: seq<State>, n: nat)
    requires IsRun(run) && n < |run| && AtRest(run[n])
    ensures var s, c := run[n], run[n].tables.completed;
            && (forall f: nat :: 1 <= f <= c ==> !SubmissionFailed(s, f))
            && (c == s.tables.nextFence - 1 || SubmissionFailed(s, c + 1))
            && (forall f: nat :: Known(s, f) ==> (f <= c <==> forall g: nat :: 1 <= g <= f ==> !SubmissionFailed(s, g)))
  {
    RunInv(run, n);
    var s, c := run[n], run[n].tables.completed;
    WatermarkExact(run, n, c);
    forall f: nat | 1 <= f <= c ensures !SubmissionFailed(s, f) {
      assert IsFinished(s, f);
    }
    if c >= 1 { assert IsFinished(s, c); }
    assert c <= |s.phases|;
    if c < |s.phases| { assert Known(s, c + 1); }
  }

  // ---- What a wait does not promise ----------------------------------------------------

  ghost predicate Reachable(s: State) {
    exists run :: IsRun(run) && run[|run| - 1] == s
  }

  lemma ReachStep(s: State, step: Step, s': State)
    requires Reachable(s) && Enabled(s, step) && s' == Next(s, step)
    ensures Reachable(s')
  {
    hide Initial, Enabled, Next;
    var run :| IsRun(run) && run[|run| - 1] == s;
    var longer := run + [s'];
    assert Steps(s, s');
    forall n | 0 < n < |longer| ensures Steps(longer[n - 1], longer[n]) {
      if n < |run| { assert Steps(run[n - 1], run[n]); }
    }
    assert IsRun(longer) && longer[|longer| - 1] == s';
  }

  // Two fences, the second promised or finished first.
  function TwoFences(completed: nat, inFlight: set<nat>, outOfOrder: set<nat>, second: Phase, waits: seq<Wait>): State {
    State(Tables(3, completed, inFlight, outOfOrder), [Scheduled, second], waits)
  }

  lemma TwoScheduled()
    ensures Reachable(TwoFences(0, {1, 2}, {}, Scheduled, []))
  {
    var s0 := State(FRESH, [], []);
    assert IsRun([s0]) && Reachable(s0);
    hide Reachable;
    var s1 := State(Tables(2, 0, {1}, {}), [Numbered], []);
    ReachStep(s0, Submit, s1);
    var s2 := State(Tables(2, 0, {1}, {}), [Scheduled], []);
    ReachStep(s1, Schedule(1), s2);
    var s3 := State(Tables(3, 0, {1, 2}, {}), [Scheduled, Numbered], []);
    ReachStep(s2, Submit, s3);
    ReachStep(s3, Schedule(2), TwoFences(0, {1, 2}, {}, Scheduled, []));
  }

  lemma SecondWaited()
    ensures Reachable(TwoFences(0, {1}, {}, Promised(true), [Returned(2, True)]))
  {
    hide Reachable;
    TwoScheduled();
    var s := TwoFences(0, {1, 2}, {}, Scheduled, []);
    var s1 := TwoFences(0, {1, 2}, {}, Promised(true), []);
    ReachStep(s, Run(2, true), s1);
    var s2 := TwoFences(0, {1, 2}, {}, Promised(true), [Entering(2)]);
    ReachStep(s1, CallWait(2), s2);
    var s3 := TwoFences(0, {1, 2}, {}, Promised(true), [Awaiting(2)]);
    ReachStep(s2, Look(0), s3);
    var s4 := TwoFences(0, {1, 2}, {}, Promised(true), [Leaving(2, true)]);
    ReachStep(s3, Await(0), s4);
    ReachStep(s4, Leave(0), TwoFences(0, {1}, {}, Promised(true), [Returned(2, True)]));
  }

  /** A wait can return true before the watermark reaches its fence, and a later
      wait for that same fence can return false. */
  lemma SecondWaitMayBeFalse()
    ensures exists s, f: nat ::
              Reachable(s) && f > s.tables.completed && s.waits == [Returned(f, True), Returned(f, False)]
  {
    hide Reachable;
    SecondWaited();
    var s := TwoFences(0, {1}, {}, Promised(true), [Returned(2, True)]);
    var s1 := TwoFences(0, {1}, {}, Promised(true), [Returned(2, True), Entering(2)]);
    ReachStep(s, CallWait(2), s1);
    var s2 := TwoFences(0, {1}, {}, Promised(true), [Returned(2, True), Returned(2, False)]);
    ReachStep(s1, Look(1), s2);
    var f: nat := 2;
    assert f > s2.tables.completed && s2.waits == [Returned(f, True), Returned(f, False)];
  }

  /** Exactly when a wait that does not find a future answers true: when every
      fence up to its own has finished. */
  lemma ForgottenWaitExact(run: seq<State>, n: nat, f: nat)
    requires IsRun(run) && n < |run| && f !in run[n].tables.inFlight
    ensures Answer(run[n].tables, f) == Some(true) <==> forall g: nat :: 1 <= g <= f ==> IsFinished(run[n], g)
  {
    if f >= 1 { WatermarkExact(run, n, f); }
  }

  // Fence 1 was refused; fence 2 is on its way or done.
  function OneFailed(inFlight: set<nat>, outOfOrder: set<nat>, second: Phase, waits: seq<Wait>): State {
    State(Tables(3, 0, inFlight, outOfOrder), [Failed, second], waits)
  }

  lemma FirstFails()
    ensures Reachable(OneFailed({2}, {}, Numbered, []))
  {
    var s0 := State(FRESH, [], []);
    assert IsRun([s0]) && Reachable(s0);
    hide Reachable;
    var s1 := State(Tables(2, 0, {1}, {}), [Numbered], []);
    ReachStep(s0, Submit, s1);
    var s2 := State(Tables(2, 0, {1}, {}), [Refused], []);
    ReachStep(s1, Refuse(1), s2);
    var s3 := State(Tables(2, 0, {}, {}), [Failed], []);
    ReachStep(s2, Abandon(1), s3);
    ReachStep(s3, Submit, OneFailed({2}, {}, Numbered, []));
  }

  lemma SecondFinishes()
    ensures Reachable(OneFailed({2}, {2}, Finished(true), []))
  {
    hide Reachable;
    FirstFails();
    var s := OneFailed({2}, {}, Numbered, []);
    var s1 := OneFailed({2}, {}, Scheduled, []);
    ReachStep(s, Schedule(2), s1);
    var s2 := OneFailed({2}, {}, Promised(true), []);
    ReachStep(s1, Run(2, true), s2);
    assert Finish(s2.tables, 2) == OneFailed({2}, {2}, Finished(true), []).tables;
    ReachStep(s2, Complete(2), OneFailed({2}, {2}, Finished(true), []));
  }

  /** A run with a failed submission: everything is at rest, the command behind it
      has run and its completion block too, one wait for it has returned true, and
      the watermark still stands at 0, so the next wait for it returned false. */
  lemma FailureBlocksLaterFences()
    ensures exists s, f: nat ::
              && Reachable(s) && AtRest(s) && SubmissionFailed(s, 1) && IsFinished(s, f) && s.tables.completed == 0
              && s.waits == [Returned(f, True), Returned(f, False)]
  {
    hide Reachable;
    SecondFinishes();
    var s := OneFailed({2}, {2}, Finished(true), []);
    var s1 := OneFailed({2}, {2}, Finished(true), [Entering(2)]);
    ReachStep(s, CallWait(2), s1);
    var s2 := OneFailed({2}, {2}, Finished(true), [Awaiting(2)]);
    ReachStep(s1, Look(0), s2);
    var s3 := OneFailed({2}, {2}, Finished(true), [Leaving(2, true)]);
    ReachStep(s2, Await(0), s3);
    var s4 := OneFailed({}, {2}, Finished(true), [Returned(2, True)]);
    ReachStep(s3, Leave(0), s4);
    var s5 := OneFailed({}, {2}, Finished(true), [Returned(2, True), Entering(2)]);
    ReachStep(s4, CallWait(2), s5);
    var s6 := OneFailed({}, {2}, Finished(true), [Returned(2, True), Returned(2, False)]);
    ReachStep(s5, Look(1), s6);
    var f: nat := 2;
    assert AtRest(s6) && IsFinished(s6, f) && SubmissionFailed(s6, 1);
  }

  // ---- What a wait answers ----------------------------------------------------------------

  predicate AllFinished(s: State, f: nat) {
    forall g: nat :: 1 <= g <= f ==> IsFinished(s, g)
  }

  // Wait k has found a future at some point up to n.
  ghost predicate Found(run: seq<State>, n: nat, k: nat)
    requires n < |run|
  {
    exists m: nat :: m <= n && FoundAt(run[m], k)
  }

  predicate FoundAt(s: State, k: nat) {
    k < |s.waits| && s.waits[k].Awaiting?
  }

  // Wait k returned from its look at m, having found no future.
  predicate ReturnedAt(s: State, s': State, k: nat, f: nat, verdict: Verdict) {
    && k < |s.waits| && k < |s'.waits| && s.waits[k] == Entering(f) && s'.waits[k] == Returned(f, verdict)
    && f !in s.tables.inFlight && verdict == (if AllFinished(s, f) then True else False)
  }

  ghost predicate LookedUp(run: seq<State>, n: nat, k: nat, f: nat, verdict: Verdict)
    requires n < |run|
  {
    exists m: nat :: m < n && ReturnedAt(run[m], run[m + 1], k, f, verdict)
  }

  // What a wait that has, or has not, found a future is up to.
  predicate Settles(s: State, w: Wait, found: bool) {
    match w
    case Entering(_) => !found
    case Awaiting(_) => found
    case Leaving(f, ok) => found && FutureReady(s, f) && (ok <==> RanWell(s, f))
    case Returned(f, verdict) => found ==> FutureReady(s, f) && verdict == if RanWell(s, f) then True else Threw
  }

  // A command that has run, or a submission that has failed, stays so.
  lemma ReadyStays(s: State, step: Step, f: nat)
    requires Enabled(s, step) && FutureReady(s, f)
    ensures FutureReady(Next(s, step), f) && (RanWell(Next(s, step), f) <==> RanWell(s, f))
  {
    hide Finish, Registered, Forgotten, Answer;
  }

  lemma LookExact(s: State, f: nat)
    requires Inv(s)
    ensures Answer(s.tables, f) == if f in s.tables.inFlight then None else Some(AllFinished(s, f))
  {
    hide Exact;
    if f <= s.tables.completed {
      forall g: nat | 1 <= g <= f ensures IsFinished(s, g) { assert Covers(s.tables, g); }
    } else {
      NextUnfinished(s);
    }
  }

  lemma NextUnfinished(s: State)
    requires Inv(s)
    ensures !IsFinished(s, s.tables.completed + 1)
  {
    assert !Covers(s.tables, s.tables.completed + 1);
  }

  // One step of wait k, told from the outside.
  lemma WaitMoves(s: State, step: Step, k: nat, found: bool)
    requires Inv(s) && Enabled(s, step) && k < |s.waits| && Settles(s, s.waits[k], found)
    ensures var s' := Next(s, step);
            && k < |s'.waits| && Settles(s', s'.waits[k], found || FoundAt(s', k))
            && (s'.waits[k].Returned? ==> s.waits[k] == s'.waits[k] || (found && s.waits[k].Leaving?) ||
                                          ReturnedAt(s, s', k, s'.waits[k].fence, s'.waits[k].verdict))
  {
    var w := s.waits[k];
    if step == Look(k) { LookExact(s, w.fence); }
    if !w.Entering? && FutureReady(s, w.fence) { ReadyStays(s, step, w.fence); }
    hide Inv, Finish, Registered, Forgotten, AllFinished;
  }

  lemma {:induction false} WaitHistory(run: seq<State>, n: nat, k: nat)
    requires IsRun(run) && n < |run| && k < |run[n].waits|
    ensures var w := run[n].waits[k];
            && Settles(run[n], w, Found(run, n, k))
            && (w.Returned? ==> Found(run, n, k) || LookedUp(run, n, k, w.fence, w.verdict))
  {
    hide Inv, Enabled, Next, Settles, ReturnedAt;
    if n > 0 {
      var s := run[n - 1];
      assert Steps(s, run[n]);
      var step :| Enabled(s, step) && run[n] == Next(s, step);
      FoundMore(run, n, k);
      if k < |s.waits| {
        WaitHistory(run, n - 1, k);
        RunInv(run, n - 1);
        WaitMoves(s, step, k, Found(run, n - 1, k));
        var w := run[n].waits[k];
        if w.Returned? && s.waits[k] == w && LookedUp(run, n - 1, k, w.fence, w.verdict) {
          var m: nat :| m < n - 1 && ReturnedAt(run[m], run[m + 1], k, w.fence, w.verdict);
        }
      } else {
        NotFoundYet(run, n - 1, k);
        WaitArrives(s, step, k);
      }
    }
  }

  lemma FoundMore(run: seq<State>, n: nat, k: nat)
    requires 0 < n < |run|
    ensures Found(run, n, k) <==> Found(run, n - 1, k) || FoundAt(run[n], k)
  {
    hide FoundAt;
  }

  lemma {:induction false} NotFoundYet(run: seq<State>, n: nat, k: nat)
    requires IsRun(run) && n < |run| && |run[n].waits| <= k
    ensures !Found(run, n, k)
  {
    hide Enabled, Next, FutureReady;
    if n > 0 {
      assert Steps(run[n - 1], run[n]);
      var step :| Enabled(run[n - 1], step) && run[n] == Next(run[n - 1], step);
      WaitsGrow(run[n - 1], step);
      NotFoundYet(run, n - 1, k);
      FoundMore(run, n, k);
    }
  }

  lemma WaitsGrow(s: State, step: Step)
    requires Enabled(s, step)
    ensures |s.waits| <= |Next(s, step).waits|
  {
  }

  lemma WaitArrives(s: State, step: Step, k: nat)
    requires Enabled(s, step) && |s.waits| <= k < |Next(s, step).waits|
    ensures Next(s, step).waits[k].Entering? && Settles(Next(s, step), Next(s, step).waits[k], false)
    ensures !FoundAt(Next(s, step), k)
  {
  }

  /** What a wait has answered when it is over, in every run. If it found a future it
      answered true exactly when its command ran without throwing, and threw otherwise.
      If it found none it answered, from its one look, true exactly when all fences up
      to its own had finished, and false otherwise. */
  lemma WaitExact(run: seq<State>, n: nat, k: nat)
    requires IsRun(run) && n < |run| && k < |run[n].waits| && run[n].waits[k].Returned?
    ensures var f, verdict := run[n].waits[k].fence, run[n].waits[k].verdict;
            && (Found(run, n, k) ==> verdict == if RanWell(run[n], f) then True else Threw)
            && (!Found(run, n, k) ==> !verdict.Threw? && LookedUp(run, n, k, f, verdict))
  {
    WaitHistory(run, n, k);
    hide Found, AllFinished;
  }
}

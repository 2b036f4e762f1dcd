/** The request slots between guest threads in the trap handler and the dispatch
    worker, as an interleaved step system. Every shared access is its own step:
    the slot scan is one compare-exchange at a time and a frame is captured one
    register at a time. */
module TrapSlots {

  const SLOTS := 64
  const REGISTERS := 18

  type Reg = r: int | 0 <= r < 0x1_0000_0000_0000_0000

  // rax is register 0; the general registers, rip and rflags follow.
  type Frame = f: seq<Reg> | |f| == REGISTERS witness seq(18, _ => 0)

  // The registers a slot holds beforehand are whatever its last user left.
  datatype SlotState = Free | Filling | Pending | Complete

  datatype Slot = Slot(state: SlotState, frame: Frame)

  // A trap is numbered when its thread enters the handler.
  datatype Pc =
    | Scanning(trap: nat, index: nat)
    | Capturing(trap: nat, index: nat, next: nat)
    | Waiting(trap: nat, index: nat)
    | Leaving(trap: nat, index: nat, rax: Reg)

  datatype Worker = Looking(slot: nat) | Dispatching(slot: nat) | Dispatched(slot: nat)

  // Which trap the worker served, with what it saw and what it stored in rax.
  datatype Dispatch = Dispatch(trap: nat, frame: Frame, rax: Reg)

  datatype State = State(
    slots: seq<Slot>,
    threads: map<nat, Pc>,        // the threads inside the handler
    worker: Worker,
    traps: seq<Frame>,            // the registers of every trap so far
    log: seq<Dispatch>,
    returned: map<nat, Reg>,      // traps that resumed, with the rax they got
    dropped: set<nat>)            // traps that found no slot

  /** The registry call: rax as a function of the frame and of how many calls
      came before, so handlers may keep state. */
  type Registry = (Frame, nat) -> Reg

  datatype Step =
    | Enter(thread: nat, frame: Frame)
    | TryAcquire(thread: nat)
    | Drop(thread: nat)
    | Capture(thread: nat)
    | Submit(thread: nat)
    | Observe(thread: nat)
    | Release(thread: nat)
    | Look
    | Serve
    | Finish

  ghost predicate Initial(s: State) {
    && |s.slots| == SLOTS && (forall i :: 0 <= i < SLOTS ==> s.slots[i].state.Free?)
    && s.threads == map[] && s.worker == Looking(0)
    && s.traps == [] && s.log == [] && s.returned == map[] && s.dropped == {}
  }

  predicate Shaped(s: State) {
    && |s.slots| == SLOTS && s.worker.slot < SLOTS
    && forall t :: t in s.threads ==>
         (if s.threads[t].Scanning? then s.threads[t].index <= SLOTS else s.threads[t].index < SLOTS) &&
         (s.threads[t].Capturing? ==> s.threads[t].next <= REGISTERS) && s.threads[t].trap < |s.traps|
  }

  // At most `limit` threads are inside the handler at once.
  predicate Enabled(s: State, limit: nat, step: Step)
    requires Shaped(s)
  {
    match step
    case Enter(t, _) => t !in s.threads && |s.threads| < limit
    case TryAcquire(t) => t in s.threads && s.threads[t].Scanning? && s.threads[t].index < SLOTS
    case Drop(t) => t in s.threads && s.threads[t].Scanning? && s.threads[t].index == SLOTS
    case Capture(t) => t in s.threads && s.threads[t].Capturing? && s.threads[t].next < REGISTERS
    case Submit(t) => t in s.threads && s.threads[t].Capturing? && s.threads[t].next == REGISTERS
    case Observe(t) => t in s.threads && s.threads[t].Waiting? && s.slots[s.threads[t].index].state.Complete?
    case Release(t) => t in s.threads && s.threads[t].Leaving?
    case Look => s.worker.Looking?
    case Serve => s.worker.Dispatching?
    case Finish => s.worker.Dispatched?
  }

  function SetState(s: State, i: nat, state: SlotState): seq<Slot>
    requires i < |s.slots|
  {
    s.slots[i := s.slots[i].(state := state)]
  }

  function After(slot: nat): nat {
    (slot + 1) % SLOTS
  }

  // The trap number of whoever holds the slot; any number when nobody does.
  ghost function Holder(s: State, i: nat): nat {
    if exists t :: t in s.threads && Holds(s.threads[t], i)
    then (var t :| t in s.threads && Holds(s.threads[t], i); s.threads[t].trap) else 0
  }

  predicate Holds(pc: Pc, i: nat) {
    !pc.Scanning? && pc.index == i
  }

  ghost function Next(s: State, limit: nat, registry: Registry, step: Step): State
    requires Shaped(s) && Enabled(s, limit, step)
  {
    match step
    case Enter(t, frame) =>
      s.(threads := s.threads[t := Scanning(|s.traps|, 0)], traps := s.traps + [frame])
    case TryAcquire(t) =>
      var i, trap := s.threads[t].index, s.threads[t].trap;
      if s.slots[i].state.Free?
      then s.(slots := SetState(s, i, Filling), threads := s.threads[t := Capturing(trap, i, 0)])
      else s.(threads := s.threads[t := Scanning(trap, i + 1)])
    case Drop(t) =>
      s.(threads := s.threads - {t}, dropped := s.dropped + {s.threads[t].trap})
    case Capture(t) =>
      var i, trap, n := s.threads[t].index, s.threads[t].trap, s.threads[t].next;
      s.(slots := s.slots[i := s.slots[i].(frame := s.slots[i].frame[n := s.traps[trap][n]])],
         threads := s.threads[t := Capturing(trap, i, n + 1)])
    case Submit(t) =>
      var i, trap := s.threads[t].index, s.threads[t].trap;
      s.(slots := SetState(s, i, Pending), threads := s.threads[t := Waiting(trap, i)])
    case Observe(t) =>
      var i, trap := s.threads[t].index, s.threads[t].trap;
      s.(threads := s.threads[t := Leaving(trap, i, s.slots[i].frame[0])])
    case Release(t) =>
      var i, trap := s.threads[t].index, s.threads[t].trap;
      s.(slots := SetState(s, i, Free), threads := s.threads - {t}, returned := s.returned[trap := s.threads[t].rax])
    case Look =>
      var i := s.worker.slot;
      if s.slots[i].state.Pending? then s.(worker := Dispatching(i)) else s.(worker := Looking(After(i)))
    case Serve =>
      var i := s.worker.slot;
      var rax := registry(s.slots[i].frame, |s.log|);
      s.(slots := s.slots[i := s.slots[i].(frame := s.slots[i].frame[0 := rax])],
         worker := Dispatched(i),
         log := s.log + [Dispatch(Holder(s, i), s.slots[i].frame, rax)])
    case Finish =>
      s.(slots := SetState(s, s.worker.slot, Complete), worker := Looking(After(s.worker.slot)))
  }

  ghost predicate IsRun(run: seq<State>, limit: nat, registry: Registry) {
    && run != [] && Initial(run[0])
    && forall n :: 0 < n < |run| ==> Steps(run[n - 1], run[n], limit, registry)
  }

  ghost predicate Steps(s: State, s': State, limit: nat, registry: Registry) {
    Shaped(s) && exists step :: Enabled(s, limit, step) && s' == Next(s, limit, registry, step)
  }

  // ---- Ownership -------------------------------------------------------------

  ghost predicate Exclusive(s: State) {
    && (forall t, u :: t in s.threads && u in s.threads && t != u ==> s.threads[t].trap != s.threads[u].trap)
    && (forall t, u, i :: t in s.threads && u in s.threads && Holds(s.threads[t], i) && Holds(s.threads[u], i) ==> t == u)
  }

  ghost predicate Owned(s: State)
    requires Shaped(s)
  {
    forall i :: 0 <= i < SLOTS && !s.slots[i].state.Free? ==> exists t :: t in s.threads && Holds(s.threads[t], i)
  }

  // What the slot of a thread at pc must look like.
  ghost predicate SlotFits(s: State, pc: Pc)
    requires Shaped(s) && pc.trap < |s.traps| && (!pc.Scanning? ==> pc.index < SLOTS)
    requires pc.Capturing? ==> pc.next <= REGISTERS
  {
    match pc
    case Scanning(_, _) => Unserved(s, pc.trap)
    case Capturing(trap, i, n) =>
      s.slots[i].state.Filling? && s.slots[i].frame[..n] == s.traps[trap][..n] && Unserved(s, trap)
    case Waiting(trap, i) =>
      if s.slots[i].state.Pending? && s.worker != Dispatched(i)
      then s.slots[i].frame == s.traps[trap] && Unserved(s, trap)
      else (s.slots[i].state.Pending? || s.slots[i].state.Complete?) && Served(s, trap, s.slots[i].frame[0])
    case Leaving(trap, i, rax) => s.slots[i].state.Complete? && Served(s, trap, rax)
  }

  ghost predicate Unserved(s: State, trap: nat) {
    (forall k :: 0 <= k < |s.log| ==> s.log[k].trap != trap) && trap !in s.returned && trap !in s.dropped
  }

  // Dispatched once, on the trap's own registers, with this result.
  ghost predicate Served(s: State, trap: nat, rax: Reg) {
    && trap < |s.traps| && trap !in s.dropped
    && exists k :: 0 <= k < |s.log| && s.log[k] == Dispatch(trap, s.traps[trap], rax)
  }

  ghost predicate Fits(s: State)
    requires Shaped(s)
  {
    forall t :: t in s.threads ==> SlotFits(s, s.threads[t])
  }

  ghost predicate WorkerFits(s: State)
    requires Shaped(s)
  {
    !s.worker.Looking? ==> s.slots[s.worker.slot].state.Pending?
  }

  ghost predicate Logged(s: State, registry: Registry) {
    && (forall k :: 0 <= k < |s.log| ==> s.log[k].trap < |s.traps| && s.log[k].rax == registry(s.log[k].frame, k))
    && (forall j, k :: 0 <= j < k < |s.log| ==> s.log[j].trap != s.log[k].trap)
    && (forall trap :: trap in s.returned ==> Served(s, trap, s.returned[trap]))
    && (forall trap :: trap in s.returned || trap in s.dropped ==>
          trap < |s.traps| && forall t :: t in s.threads ==> s.threads[t].trap != trap)
  }

  ghost predicate Inv(s: State, registry: Registry) {
    Shaped(s) && Exclusive(s) && Owned(s) && Fits(s) && WorkerFits(s) && Logged(s, registry)
  }

  lemma InitialInv(s: State, registry: Registry)
    requires Initial(s)
    ensures Inv(s, registry)
  {
  }

  // The log only grows, and what it already shows stays.
  lemma ServedKeeps(s: State, s': State, trap: nat, rax: Reg)
    requires Served(s, trap, rax) && s.log <= s'.log && s.traps <= s'.traps && trap !in s'.dropped
    ensures Served(s', trap, rax)
  {
    var k :| 0 <= k < |s.log| && s.log[k] == Dispatch(trap, s.traps[trap], rax);
    assert s'.log[k] == s.log[k];
  }

  // A thread whose slot is untouched keeps fitting it.
  lemma FitKeeps(s: State, s': State, pc: Pc)
    requires Shaped(s) && Shaped(s') && pc.trap < |s.traps| && (!pc.Scanning? ==> pc.index < SLOTS)
    requires pc.Capturing? ==> pc.next <= REGISTERS
    requires SlotFits(s, pc) && s.traps <= s'.traps && s.log <= s'.log
    requires !pc.Scanning? ==> s'.slots[pc.index] == s.slots[pc.index]
    requires pc.Waiting? ==> (s.worker == Dispatched(pc.index) <==> s'.worker == Dispatched(pc.index))
    requires forall k :: |s.log| <= k < |s'.log| ==> s'.log[k].trap != pc.trap
    requires pc.trap in s'.returned ==> pc.trap in s.returned
    requires pc.trap in s'.dropped ==> pc.trap in s.dropped
    ensures SlotFits(s', pc)
  {
    if pc.Waiting? && !(s.slots[pc.index].state.Pending? && s.worker != Dispatched(pc.index)) {
      ServedKeeps(s, s', pc.trap, s.slots[pc.index].frame[0]);
    } else if pc.Leaving? {
      ServedKeeps(s, s', pc.trap, pc.rax);
    }
  }

  lemma EnterFits(s: State, limit: nat, registry: Registry, t: nat, frame: Frame)
    requires Inv(s, registry) && Enabled(s, limit, Enter(t, frame))
    ensures Shaped(Next(s, limit, registry, Enter(t, frame))) && Fits(Next(s, limit, registry, Enter(t, frame)))
  {
    hide Served, Owned, Exclusive, WorkerFits;
    var s' := Next(s, limit, registry, Enter(t, frame));
    forall u | u in s'.threads ensures SlotFits(s', s'.threads[u]) {
      if u != t { FitKeeps(s, s', s.threads[u]); }
    }
  }

  lemma EnterLogged(s: State, limit: nat, registry: Registry, t: nat, frame: Frame)
    requires Inv(s, registry) && Enabled(s, limit, Enter(t, frame))
    ensures Logged(Next(s, limit, registry, Enter(t, frame)), registry)
  {
    hide Fits, Owned, Exclusive, WorkerFits;
    var s' := Next(s, limit, registry, Enter(t, frame));
    forall trap | trap in s'.returned ensures Served(s', trap, s'.returned[trap]) {
      ServedKeeps(s, s', trap, s.returned[trap]);
    }
  }

  lemma EnterExclusive(s: State, limit: nat, registry: Registry, t: nat, frame: Frame)
    requires Shaped(s) && Exclusive(s) && Enabled(s, limit, Enter(t, frame))
    ensures Exclusive(Next(s, limit, registry, Enter(t, frame)))
  {
    var s' := Next(s, limit, registry, Enter(t, frame));
    forall u | u in s'.threads && u != t ensures s'.threads[u].trap != s'.threads[t].trap {
      assert s.threads[u].trap < |s.traps|;
    }
  }

  lemma EnterOwned(s: State, limit: nat, registry: Registry, t: nat, frame: Frame)
    requires Shaped(s) && Owned(s) && Enabled(s, limit, Enter(t, frame))
    ensures Shaped(Next(s, limit, registry, Enter(t, frame))) && Owned(Next(s, limit, registry, Enter(t, frame)))
  {
    hide Holder, Holds;
    OwnedKeeps(s, Next(s, limit, registry, Enter(t, frame)), SLOTS);
  }

  lemma EnterKeeps(s: State, limit: nat, registry: Registry, t: nat, frame: Frame)
    requires Inv(s, registry) && Enabled(s, limit, Enter(t, frame))
    ensures Inv(Next(s, limit, registry, Enter(t, frame)), registry)
  {
    EnterFits(s, limit, registry, t, frame);
    EnterLogged(s, limit, registry, t, frame);
    EnterExclusive(s, limit, registry, t, frame);
    EnterOwned(s, limit, registry, t, frame);
    hide Fits, Logged, Holder, Exclusive, Owned, Shaped;
  }

  // Slots other than i keep their holders.
  lemma OwnedKeeps(s: State, s': State, i: nat)
    requires Shaped(s) && Shaped(s') && Owned(s)
    requires forall j :: 0 <= j < SLOTS && j != i ==> s'.slots[j].state == s.slots[j].state
    requires forall t, j :: t in s.threads && j != i && Holds(s.threads[t], j) ==> t in s'.threads && Holds(s'.threads[t], j)
    requires i < SLOTS && !s'.slots[i].state.Free? ==> exists t :: t in s'.threads && Holds(s'.threads[t], i)
    ensures Owned(s')
  {
    forall j | 0 <= j < SLOTS && !s'.slots[j].state.Free? ensures exists t :: t in s'.threads && Holds(s'.threads[t], j) {
      if j != i {
        var t :| t in s.threads && Holds(s.threads[t], j);
        assert t in s'.threads && Holds(s'.threads[t], j);
      }
    }
  }

  /** Thread t moves to pc, touching at most slot i, which is free or its own. */
  ghost predicate Moves(s: State, s': State, t: nat, pc: Pc, i: nat, slot: Slot)
    requires Shaped(s)
  {
    && t in s.threads && i < SLOTS && s' == s.(slots := s.slots[i := slot], threads := s.threads[t := pc])
    && pc.trap == s.threads[t].trap && Shaped(s')
    && (Holds(s.threads[t], i) || s.slots[i].state.Free? || slot == s.slots[i])
    && (if s.threads[t].Scanning? then pc.Scanning? || (pc.index == i && s.slots[i].state.Free?)
        else pc.index == i && s.threads[t].index == i && !pc.Scanning?)
    && (slot.state.Free? ==> slot == s.slots[i]) && (!pc.Scanning? ==> !slot.state.Free?)
    && (slot != s.slots[i] ==> !pc.Scanning?)
    && (s.slots[i].state.Pending? ==> slot.state.Pending?)
  }

  lemma FreeSlotUnheld(s: State, registry: Registry, i: nat)
    requires Inv(s, registry) && i < SLOTS && s.slots[i].state.Free?
    ensures forall u :: u in s.threads ==> !Holds(s.threads[u], i)
  {
    forall u | u in s.threads ensures !Holds(s.threads[u], i) {
      assert SlotFits(s, s.threads[u]);
    }
  }

  lemma MoveExclusive(s: State, s': State, registry: Registry, t: nat, pc: Pc, i: nat, slot: Slot)
    requires Inv(s, registry) && Moves(s, s', t, pc, i, slot)
    ensures Exclusive(s')
  {
    hide Owned, Fits, WorkerFits, Logged, SlotFits;
    if s.slots[i].state.Free? { FreeSlotUnheld(s, registry, i); }
    forall u, v, j | u in s'.threads && v in s'.threads && Holds(s'.threads[u], j) && Holds(s'.threads[v], j)
      ensures u == v
    {
      if u != t && v != t {
        assert Holds(s.threads[u], j) && Holds(s.threads[v], j);
      }
    }
  }

  lemma MoveOwned(s: State, s': State, registry: Registry, t: nat, pc: Pc, i: nat, slot: Slot)
    requires Inv(s, registry) && Moves(s, s', t, pc, i, slot)
    ensures Owned(s') && WorkerFits(s')
  {
    hide Exclusive, Fits, Logged, SlotFits;
    if pc.Scanning? {
      assert s'.slots == s.slots;
      OwnedKeeps(s, s', SLOTS);
    } else {
      assert Holds(s'.threads[t], i);
      OwnedKeeps(s, s', i);
    }
  }

  lemma MoveFits(s: State, s': State, registry: Registry, t: nat, pc: Pc, i: nat, slot: Slot)
    requires Inv(s, registry) && Moves(s, s', t, pc, i, slot) && SlotFits(s', s'.threads[t])
    ensures Fits(s')
  {
    forall u | u in s'.threads ensures SlotFits(s', s'.threads[u]) {
      if u != t {
        assert SlotFits(s, s.threads[u]);
        assert Holds(s.threads[u], i) && Holds(s.threads[t], i) ==> u == t;
        FitKeeps(s, s', s.threads[u]);
      }
    }
  }

  lemma MoveLogged(s: State, s': State, registry: Registry, t: nat, pc: Pc, i: nat, slot: Slot)
    requires Inv(s, registry) && Moves(s, s', t, pc, i, slot)
    ensures Logged(s', registry)
  {
    forall trap | trap in s'.returned ensures Served(s', trap, s'.returned[trap]) {
      ServedKeeps(s, s', trap, s.returned[trap]);
    }
  }

  lemma MoveKeeps(s: State, s': State, registry: Registry, t: nat, pc: Pc, i: nat, slot: Slot)
    requires Inv(s, registry) && Moves(s, s', t, pc, i, slot) && SlotFits(s', s'.threads[t])
    ensures Inv(s', registry)
  {
    hide Exclusive, Owned, Fits, WorkerFits, Logged, SlotFits;
    MoveExclusive(s, s', registry, t, pc, i, slot);
    MoveOwned(s, s', registry, t, pc, i, slot);
    MoveFits(s, s', registry, t, pc, i, slot);
    MoveLogged(s, s', registry, t, pc, i, slot);
  }

  lemma TryAcquireKeeps(s: State, limit: nat, registry: Registry, t: nat)
    requires Inv(s, registry) && Enabled(s, limit, TryAcquire(t))
    ensures Inv(Next(s, limit, registry, TryAcquire(t)), registry)
  {
    hide Exclusive, Owned, WorkerFits, Logged;
    var s' := Next(s, limit, registry, TryAcquire(t));
    var i := s.threads[t].index;
    assert SlotFits(s, s.threads[t]);
    assert s.slots[i := s.slots[i]] == s.slots;
    MoveKeeps(s, s', registry, t, s'.threads[t], i, s'.slots[i]);
  }

  lemma DropLogged(s: State, limit: nat, registry: Registry, t: nat)
    requires Inv(s, registry) && Enabled(s, limit, Drop(t))
    ensures Logged(Next(s, limit, registry, Drop(t)), registry)
  {
    hide Owned, WorkerFits;
    var s' := Next(s, limit, registry, Drop(t));
    assert SlotFits(s, s.threads[t]);
    forall trap | trap in s'.returned ensures Served(s', trap, s'.returned[trap]) {
      ServedKeeps(s, s', trap, s.returned[trap]);
    }
  }

  lemma DropFits(s: State, limit: nat, registry: Registry, t: nat)
    requires Inv(s, registry) && Enabled(s, limit, Drop(t))
    ensures Shaped(Next(s, limit, registry, Drop(t))) && Fits(Next(s, limit, registry, Drop(t)))
  {
    hide Served, Owned, Logged, WorkerFits;
    var s' := Next(s, limit, registry, Drop(t));
    forall u | u in s'.threads ensures SlotFits(s', s'.threads[u]) {
      FitKeeps(s, s', s.threads[u]);
    }
  }

  lemma DropKeeps(s: State, limit: nat, registry: Registry, t: nat)
    requires Inv(s, registry) && Enabled(s, limit, Drop(t))
    ensures Inv(Next(s, limit, registry, Drop(t)), registry)
  {
    DropLogged(s, limit, registry, t);
    DropFits(s, limit, registry, t);
    hide Logged, Fits, Holder;
    OwnedKeeps(s, Next(s, limit, registry, Drop(t)), SLOTS);
    hide Owned;
  }

  lemma CaptureKeeps(s: State, limit: nat, registry: Registry, t: nat)
    requires Inv(s, registry) && Enabled(s, limit, Capture(t))
    ensures Inv(Next(s, limit, registry, Capture(t)), registry)
  {
    hide Exclusive, Owned, WorkerFits, Logged;
    var s' := Next(s, limit, registry, Capture(t));
    var i, n, trap := s.threads[t].index, s.threads[t].next, s.threads[t].trap;
    assert SlotFits(s, s.threads[t]);
    assert s'.slots[i].frame[..n + 1] == s'.slots[i].frame[..n] + [s.traps[trap][n]];
    assert s'.slots[i].frame[..n] == s.slots[i].frame[..n];
    assert s.traps[trap][..n + 1] == s.traps[trap][..n] + [s.traps[trap][n]];
    MoveKeeps(s, s', registry, t, s'.threads[t], i, s'.slots[i]);
  }

  lemma SubmitKeeps(s: State, limit: nat, registry: Registry, t: nat)
    requires Inv(s, registry) && Enabled(s, limit, Submit(t))
    ensures Inv(Next(s, limit, registry, Submit(t)), registry)
  {
    hide Exclusive, Owned, Logged;
    var s' := Next(s, limit, registry, Submit(t));
    var i, trap := s.threads[t].index, s.threads[t].trap;
    assert SlotFits(s, s.threads[t]);
    assert s.slots[i].frame[..REGISTERS] == s.slots[i].frame && s.traps[trap][..REGISTERS] == s.traps[trap];
    MoveKeeps(s, s', registry, t, s'.threads[t], i, s'.slots[i]);
  }

  lemma ObserveKeeps(s: State, limit: nat, registry: Registry, t: nat)
    requires Inv(s, registry) && Enabled(s, limit, Observe(t))
    ensures Inv(Next(s, limit, registry, Observe(t)), registry)
  {
    hide Exclusive, Owned, WorkerFits, Logged;
    var s' := Next(s, limit, registry, Observe(t));
    var i := s.threads[t].index;
    assert SlotFits(s, s.threads[t]);
    assert s.slots[i := s.slots[i]] == s.slots;
    ServedKeeps(s, s', s.threads[t].trap, s.slots[i].frame[0]);
    MoveKeeps(s, s', registry, t, s'.threads[t], i, s'.slots[i]);
  }

  lemma ReleaseFits(s: State, limit: nat, registry: Registry, t: nat)
    requires Inv(s, registry) && Enabled(s, limit, Release(t))
    ensures Shaped(Next(s, limit, registry, Release(t))) && Fits(Next(s, limit, registry, Release(t)))
  {
    hide Served, Owned, Logged, WorkerFits;
    var s' := Next(s, limit, registry, Release(t));
    var i := s.threads[t].index;
    forall u | u in s'.threads ensures SlotFits(s', s'.threads[u]) {
      assert Holds(s.threads[u], i) ==> u == t;
      FitKeeps(s, s', s.threads[u]);
    }
  }

  lemma ReleaseLogged(s: State, limit: nat, registry: Registry, t: nat)
    requires Inv(s, registry) && Enabled(s, limit, Release(t))
    ensures Logged(Next(s, limit, registry, Release(t)), registry)
  {
    hide Owned, WorkerFits;
    var s' := Next(s, limit, registry, Release(t));
    assert SlotFits(s, s.threads[t]);
    hide Fits;
    forall trap | trap in s'.returned ensures Served(s', trap, s'.returned[trap]) {
      if trap == s.threads[t].trap {
        ServedKeeps(s, s', trap, s.threads[t].rax);
      } else {
        ServedKeeps(s, s', trap, s.returned[trap]);
      }
    }
  }

  lemma ReleaseKeeps(s: State, limit: nat, registry: Registry, t: nat)
    requires Inv(s, registry) && Enabled(s, limit, Release(t))
    ensures Inv(Next(s, limit, registry, Release(t)), registry)
  {
    var s' := Next(s, limit, registry, Release(t));
    var i := s.threads[t].index;
    ReleaseFits(s, limit, registry, t);
    ReleaseLogged(s, limit, registry, t);
    assert SlotFits(s, s.threads[t]) && Holds(s.threads[t], i);
    hide Logged, Fits, Holder, Served;
    OwnedKeeps(s, s', i);
    hide Owned;
  }

  // Steps of the worker alone leave threads and log as they are.
  lemma WorkerLogged(s: State, s': State, registry: Registry)
    requires Exclusive(s) && Logged(s, registry)
    requires s'.threads == s.threads && s'.traps == s.traps && s'.log == s.log
    requires s'.returned == s.returned && s'.dropped == s.dropped
    ensures Exclusive(s') && Logged(s', registry)
  {
    forall trap | trap in s'.returned ensures Served(s', trap, s'.returned[trap]) {
      ServedKeeps(s, s', trap, s.returned[trap]);
    }
  }

  lemma LookFits(s: State, limit: nat, registry: Registry)
    requires Inv(s, registry) && Enabled(s, limit, Look)
    ensures Shaped(Next(s, limit, registry, Look)) && Fits(Next(s, limit, registry, Look))
  {
    hide Exclusive, Logged, Owned, Served, Holder, WorkerFits;
    var s' := Next(s, limit, registry, Look);
    forall u | u in s'.threads ensures SlotFits(s', s'.threads[u]) {
      assert SlotFits(s, s.threads[u]);
      FitKeeps(s, s', s.threads[u]);
    }
  }

  lemma LookKeeps(s: State, limit: nat, registry: Registry)
    requires Inv(s, registry) && Enabled(s, limit, Look)
    ensures Inv(Next(s, limit, registry, Look), registry)
  {
    var s' := Next(s, limit, registry, Look);
    LookFits(s, limit, registry);
    WorkerLogged(s, s', registry);
    hide Exclusive, Logged, Fits, Holder;
    OwnedKeeps(s, s', SLOTS);
    hide Owned;
  }

  // The slot being served belongs to a thread that waits for it.
  lemma HolderWaits(s: State, registry: Registry) returns (t: nat)
    requires Inv(s, registry) && !s.worker.Looking?
    ensures t in s.threads && s.threads[t].Waiting? && s.threads[t].index == s.worker.slot
    ensures Holder(s, s.worker.slot) == s.threads[t].trap
    ensures forall u :: u in s.threads && u != t ==> !Holds(s.threads[u], s.worker.slot)
  {
    var i := s.worker.slot;
    t :| t in s.threads && Holds(s.threads[t], i);
    assert SlotFits(s, s.threads[t]);
  }

  lemma ServeFits(s: State, s': State, limit: nat, registry: Registry, t: nat)
    requires Inv(s, registry) && Enabled(s, limit, Serve) && s' == Next(s, limit, registry, Serve)
    requires t in s.threads && s.threads[t].Waiting? && s.threads[t].index == s.worker.slot
    requires Holder(s, s.worker.slot) == s.threads[t].trap
    requires forall u :: u in s.threads && u != t ==> !Holds(s.threads[u], s.worker.slot)
    ensures Shaped(s') && Fits(s') && Served(s', s.threads[t].trap, s'.slots[s.worker.slot].frame[0])
    ensures s'.log == s.log + [Dispatch(s.threads[t].trap, s.traps[s.threads[t].trap], s'.slots[s.worker.slot].frame[0])]
    ensures Unserved(s, s.threads[t].trap)
  {
    hide Holder, Owned, Logged;
    var i, trap := s.worker.slot, s.threads[t].trap;
    assert SlotFits(s, s.threads[t]);
    assert s'.log[|s.log|] == Dispatch(trap, s.traps[trap], s'.slots[i].frame[0]);
    forall u | u in s'.threads ensures SlotFits(s', s'.threads[u]) {
      if u != t {
        assert !Holds(s.threads[u], i);
        FitKeeps(s, s', s.threads[u]);
      }
    }
  }

  lemma ServeKeeps(s: State, limit: nat, registry: Registry)
    requires Inv(s, registry) && Enabled(s, limit, Serve)
    ensures Inv(Next(s, limit, registry, Serve), registry)
  {
    hide Holder, Fits, Holds;
    var s' := Next(s, limit, registry, Serve);
    var t := HolderWaits(s, registry);
    ServeFits(s, s', limit, registry, t);
    forall q | q in s'.returned ensures Served(s', q, s'.returned[q]) {
      ServedKeeps(s, s', q, s.returned[q]);
    }
    OwnedKeeps(s, s', SLOTS);
  }

  lemma FinishFits(s: State, limit: nat, registry: Registry)
    requires Inv(s, registry) && Enabled(s, limit, Finish)
    ensures Shaped(Next(s, limit, registry, Finish)) && Fits(Next(s, limit, registry, Finish))
  {
    var s' := Next(s, limit, registry, Finish);
    var i := s.worker.slot;
    var t := HolderWaits(s, registry);
    hide Exclusive, Owned, Logged, Holder;
    assert SlotFits(s, s.threads[t]);
    forall u | u in s'.threads ensures SlotFits(s', s'.threads[u]) {
      if u != t {
        assert !Holds(s.threads[u], i);
        FitKeeps(s, s', s.threads[u]);
      } else {
        ServedKeeps(s, s', s.threads[t].trap, s.slots[i].frame[0]);
      }
    }
  }

  lemma FinishKeeps(s: State, limit: nat, registry: Registry)
    requires Inv(s, registry) && Enabled(s, limit, Finish)
    ensures Inv(Next(s, limit, registry, Finish), registry)
  {
    var s' := Next(s, limit, registry, Finish);
    var t := HolderWaits(s, registry);
    FinishFits(s, limit, registry);
    WorkerLogged(s, s', registry);
    hide Exclusive, Logged, Fits, Holder;
    assert Holds(s'.threads[t], s.worker.slot);
    OwnedKeeps(s, s', s.worker.slot);
    hide Owned;
  }

  lemma StepKeeps(s: State, limit: nat, registry: Registry, step: Step)
    requires Inv(s, registry) && Enabled(s, limit, step)
    ensures Inv(Next(s, limit, registry, step), registry)
  {
    hide Inv, Next, Enabled;
    match step {
      case Enter(t, frame) => EnterKeeps(s, limit, registry, t, frame);
      case TryAcquire(t) => TryAcquireKeeps(s, limit, registry, t);
      case Drop(t) => DropKeeps(s, limit, registry, t);
      case Capture(t) => CaptureKeeps(s, limit, registry, t);
      case Submit(t) => SubmitKeeps(s, limit, registry, t);
      case Observe(t) => ObserveKeeps(s, limit, registry, t);
      case Release(t) => ReleaseKeeps(s, limit, registry, t);
      case Look => LookKeeps(s, limit, registry);
      case Serve => ServeKeeps(s, limit, registry);
      case Finish => FinishKeeps(s, limit, registry);
    }
  }

  // ---- The slot scan never runs out --------------------------------------------

  // The threads that hold, or are about to try, slot i or a later one.
  ghost function AtOrBeyond(s: State, i: nat): set<nat> {
    set t | t in s.threads && s.threads[t].index >= i
  }

  /** Of at most `limit` threads, no more than limit - i are at slot i or beyond:
      moving past a slot leaves its holder behind. */
  ghost predicate Spread(s: State, limit: nat) {
    forall i: nat {:trigger AtOrBeyond(s, i)} :: i <= limit ==> |AtOrBeyond(s, i)| + i <= limit
  }

  lemma SpreadSubset(s: State, s': State, limit: nat)
    requires Spread(s, limit)
    requires forall t :: t in s'.threads ==> t in s.threads && s'.threads[t].index <= s.threads[t].index
    ensures Spread(s', limit)
  {
    forall i: nat | i <= limit ensures |AtOrBeyond(s', i)| + i <= limit {
      Smaller(AtOrBeyond(s', i), AtOrBeyond(s, i));
    }
  }

  lemma Smaller(a: set<nat>, b: set<nat>)
    requires a <= b
    ensures |a| <= |b|
  {
    assert b == a + (b - a);
  }

  lemma EnterSpreads(s: State, limit: nat, registry: Registry, t: nat, frame: Frame)
    requires Shaped(s) && Enabled(s, limit, Enter(t, frame)) && Spread(s, limit)
    ensures Spread(Next(s, limit, registry, Enter(t, frame)), limit)
  {
    hide Shaped, Holder;
    var s' := Next(s, limit, registry, Enter(t, frame));
    forall i: nat | i <= limit ensures |AtOrBeyond(s', i)| + i <= limit {
      if i == 0 {
        assert s'.threads.Keys == s.threads.Keys + {t};
        Smaller(AtOrBeyond(s', 0), s'.threads.Keys);
      } else {
        assert AtOrBeyond(s', i) == AtOrBeyond(s, i);
      }
    }
  }

  lemma MissSpreads(s: State, limit: nat, registry: Registry, t: nat)
    requires Inv(s, registry) && Enabled(s, limit, TryAcquire(t)) && Spread(s, limit)
    requires !s.slots[s.threads[t].index].state.Free?
    ensures Spread(Next(s, limit, registry, TryAcquire(t)), limit)
  {
    hide Fits, Logged, WorkerFits, Holder;
    var s' := Next(s, limit, registry, TryAcquire(t));
    var at := s.threads[t].index;
    forall i: nat | i <= limit ensures |AtOrBeyond(s', i)| + i <= limit {
      if i == at + 1 {
        var u :| u in s.threads && Holds(s.threads[u], at);
        assert u != t;
        Smaller(AtOrBeyond(s', i), AtOrBeyond(s, at) - {u});
        assert u in AtOrBeyond(s, at);
      } else {
        assert AtOrBeyond(s', i) == AtOrBeyond(s, i);
      }
    }
  }

  lemma StepSpreads(s: State, limit: nat, registry: Registry, step: Step)
    requires Inv(s, registry) && Enabled(s, limit, step) && Spread(s, limit)
    ensures Spread(Next(s, limit, registry, step), limit)
  {
    hide Exclusive, Owned, Fits, WorkerFits, Logged, Holder, Spread;
    match step {
      case Enter(t, frame) => EnterSpreads(s, limit, registry, t, frame);
      case TryAcquire(t) =>
        if s.slots[s.threads[t].index].state.Free? {
          SpreadSubset(s, Next(s, limit, registry, step), limit);
        } else {
          MissSpreads(s, limit, registry, t);
        }
      case _ => SpreadSubset(s, Next(s, limit, registry, step), limit);
    }
  }

  // No thread gets as far as slot `limit`.
  lemma SpreadEnds(s: State, limit: nat)
    requires Spread(s, limit)
    ensures forall t :: t in s.threads ==> s.threads[t].index < limit
  {
    assert |AtOrBeyond(s, limit)| + limit <= limit;
    forall t | t in s.threads ensures s.threads[t].index < limit {
      assert t in AtOrBeyond(s, limit) <==> s.threads[t].index >= limit;
    }
  }

  // ---- Whole runs ------------------------------------------------------------------

  lemma {:induction false} RunInv(run: seq<State>, limit: nat, registry: Registry, n: nat)
    requires IsRun(run, limit, registry) && n < |run|
    ensures Inv(run[n], registry) && Spread(run[n], limit)
    ensures limit <= SLOTS ==> run[n].dropped == {}
  {
    hide Inv, Spread;
    if n == 0 {
      InitialInv(run[0], registry);
      InitialSpread(run[0], limit);
    } else {
      RunInv(run, limit, registry, n - 1);
      var s := run[n - 1];
      assert Steps(s, run[n], limit, registry);
      var step :| Enabled(s, limit, step) && run[n] == Next(s, limit, registry, step);
      StepKeeps(s, limit, registry, step);
      StepSpreads(s, limit, registry, step);
      if limit <= SLOTS && step.Drop? {
        SpreadEnds(s, limit);
      }
    }
  }

  lemma InitialSpread(s: State, limit: nat)
    requires Initial(s)
    ensures Spread(s, limit)
  {
    forall i: nat | i <= limit ensures |AtOrBeyond(s, i)| + i <= limit {
      assert AtOrBeyond(s, i) == {};
    }
  }

  /** With at most as many threads in the handler as there are slots, no trap is
      ever dropped, although the scan is not atomic; and a thread that is still
      scanning always has a free slot at or after its position. */
  lemma NoTrapDropped(run: seq<State>, limit: nat, registry: Registry, n: nat)
    requires IsRun(run, limit, registry) && n < |run| && limit <= SLOTS
    ensures run[n].dropped == {}
    ensures forall t :: t in run[n].threads && run[n].threads[t].Scanning? ==>
              run[n].threads[t].index < SLOTS && FreeFrom(run[n], run[n].threads[t].index)
  {
    RunInv(run, limit, registry, n);
    var s := run[n];
    SpreadEnds(s, limit);
    forall t | t in s.threads && s.threads[t].Scanning? ensures FreeFrom(s, s.threads[t].index) {
      FreeSlotAhead(s, limit, registry, t);
    }
  }

  predicate FreeFrom(s: State, at: nat) {
    exists i :: at <= i < |s.slots| && s.slots[i].state.Free?
  }

  lemma FreeSlotAhead(s: State, limit: nat, registry: Registry, t: nat)
    requires Inv(s, registry) && Spread(s, limit) && limit <= SLOTS
    requires t in s.threads && s.threads[t].Scanning? && s.threads[t].index < limit
    ensures FreeFrom(s, s.threads[t].index)
  {
    var at := s.threads[t].index;
    assert AtOrBeyond(s, at) + {t} == AtOrBeyond(s, at);
    assert |AtOrBeyond(s, at)| + at <= limit;
    HoldersBeyond(s, at, t);
  }

  // If every slot from i on is busy, its holders and t are all at i or beyond.
  lemma {:induction false} HoldersBeyond(s: State, i: nat, t: nat)
    requires Shaped(s) && Owned(s) && i <= SLOTS && t in s.threads && s.threads[t].Scanning?
    ensures FreeFrom(s, i) || |AtOrBeyond(s, i) + {t}| >= SLOTS - i + 1
    decreases SLOTS - i
  {
    if i < SLOTS && !FreeFrom(s, i) {
      HoldersBeyond(s, i + 1, t);
      assert !s.slots[i].state.Free?;
      var u :| u in s.threads && Holds(s.threads[u], i);
      assert u !in AtOrBeyond(s, i + 1) + {t};
      Smaller(AtOrBeyond(s, i + 1) + {t} + {u}, AtOrBeyond(s, i) + {t});
    }
  }

  // Entry k of the log is the trap's only one, and shows its own registers.
  ghost predicate SoleDispatch(s: State, registry: Registry, trap: nat, k: nat) {
    && k < |s.log| && trap < |s.traps| && trap in s.returned
    && s.log[k] == Dispatch(trap, s.traps[trap], s.returned[trap])
    && s.returned[trap] == registry(s.traps[trap], k)
    && (forall j :: 0 <= j < |s.log| && j != k ==> s.log[j].trap != trap)
  }

  /** Every resumed trap was dispatched exactly once, on the registers it was
      captured with, and resumed with the result of that dispatch. */
  lemma ReturnsOwnResult(run: seq<State>, limit: nat, registry: Registry, n: nat, trap: nat)
    requires IsRun(run, limit, registry) && n < |run| && trap in run[n].returned
    ensures exists k :: SoleDispatch(run[n], registry, trap, k)
  {
    RunInv(run, limit, registry, n);
    var s := run[n];
    assert Served(s, trap, s.returned[trap]);
    var k :| 0 <= k < |s.log| && s.log[k] == Dispatch(trap, s.traps[trap], s.returned[trap]);
    assert SoleDispatch(s, registry, trap, k);
  }

  predicate HolderOf(s: State, i: nat, t: nat) {
    t in s.threads && Holds(s.threads[t], i)
  }

  /** A busy slot has exactly one owning thread. */
  lemma BusySlotHasOneOwner(run: seq<State>, limit: nat, registry: Registry, n: nat, i: nat)
    requires IsRun(run, limit, registry) && n < |run| && i < SLOTS
    ensures |run[n].slots| == SLOTS
    ensures !run[n].slots[i].state.Free? <==> exists t :: HolderOf(run[n], i, t)
    ensures forall t, u :: HolderOf(run[n], i, t) && HolderOf(run[n], i, u) ==> t == u
  {
    RunInv(run, limit, registry, n);
    var s := run[n];
    if !s.slots[i].state.Free? {
      var t :| t in s.threads && Holds(s.threads[t], i);
      assert HolderOf(s, i, t);
    } else {
      FreeSlotUnheld(s, registry, i);
    }
  }

  lemma FrameWriters(s: State, limit: nat, registry: Registry, step: Step, i: nat)
    requires Inv(s, registry) && Enabled(s, limit, step) && i < SLOTS
    ensures var s' := Next(s, limit, registry, step);
            |s'.slots| == SLOTS && (s'.slots[i].frame != s.slots[i].frame ==>
              (s.slots[i].state.Filling? && step.Capture? && HolderOf(s, i, step.thread)) ||
              (s.slots[i].state.Pending? && s.worker == Dispatching(i)))
  {
    hide Exclusive, Owned, Logged, Holder;
    if step.Capture? {
      assert SlotFits(s, s.threads[step.thread]);
    }
  }

  /** A slot's frame only changes while its owner captures into it (Filling) or
      while the worker serves it (Pending). */
  lemma FrameDiscipline(run: seq<State>, limit: nat, registry: Registry, n: nat, i: nat)
    requires IsRun(run, limit, registry) && 0 < n < |run| && i < SLOTS
    ensures |run[n].slots| == |run[n - 1].slots| == SLOTS
    ensures var s := run[n - 1];
            run[n].slots[i].frame != s.slots[i].frame ==>
              (s.slots[i].state.Filling? && exists t :: HolderOf(s, i, t) && s.threads[t].Capturing?) ||
              (s.slots[i].state.Pending? && s.worker == Dispatching(i))
  {
    hide Inv, Next, Enabled;
    RunInv(run, limit, registry, n - 1);
    RunInv(run, limit, registry, n);
    var s := run[n - 1];
    assert Steps(s, run[n], limit, registry);
    var step :| Enabled(s, limit, step) && run[n] == Next(s, limit, registry, step);
    FrameWriters(s, limit, registry, step, i);
    if step.Capture? {
      CaptureEnabled(s, limit, step);
    }
  }

  lemma CaptureEnabled(s: State, limit: nat, step: Step)
    requires Shaped(s) && Enabled(s, limit, step) && step.Capture?
    ensures step.thread in s.threads && s.threads[step.thread].Capturing?
  {
  }

  // ---- The bound is tight ------------------------------------------------------------

  ghost predicate Reachable(s: State, limit: nat, registry: Registry) {
    exists run :: IsRun(run, limit, registry) && run[|run| - 1] == s
  }

  lemma ReachStep(s: State, limit: nat, registry: Registry, step: Step)
    requires Reachable(s, limit, registry) && Shaped(s) && Enabled(s, limit, step)
    ensures Reachable(Next(s, limit, registry, step), limit, registry)
  {
    hide Initial, Enabled, Next;
    var s' := Next(s, limit, registry, step);
    var run :| IsRun(run, limit, registry) && run[|run| - 1] == s;
    var longer := run + [s'];
    assert Steps(s, s', limit, registry);
    forall n | 0 < n < |longer| ensures Steps(longer[n - 1], longer[n], limit, registry) {
      if n < |run| { assert Steps(run[n - 1], run[n], limit, registry); }
    }
    assert IsRun(longer, limit, registry) && longer[|longer| - 1] == s';
  }

  // Threads 0 to n - 1 hold slots 0 to n - 1 and nobody else is inside.
  ghost predicate Packed(s: State, n: nat) {
    && Shaped(s) && n <= SLOTS && s.dropped == {}
    && (forall t: nat :: t in s.threads <==> t < n)
    && (forall t :: 0 <= t < n ==> Holds(s.threads[t], t))
    && (forall i :: 0 <= i < SLOTS ==> (s.slots[i].state.Free? <==> i >= n))
  }

  // As Packed, with one more thread scanning at slot j.
  ghost predicate PackedScan(s: State, n: nat, j: nat) {
    && Shaped(s) && n <= SLOTS && j <= n && s.dropped == {}
    && (forall t: nat :: t in s.threads <==> t <= n)
    && (forall t :: 0 <= t < n ==> Holds(s.threads[t], t))
    && s.threads[n].Scanning? && s.threads[n].index == j
    && (forall i :: 0 <= i < SLOTS ==> (s.slots[i].state.Free? <==> i >= n))
  }

  lemma PackedSize(s: State, n: nat)
    requires Packed(s, n)
    ensures |s.threads| == n
  {
    FirstSize(n);
    assert s.threads.Keys == First(n);
  }

  function First(n: nat): set<nat> {
    if n == 0 then {} else First(n - 1) + {n - 1}
  }

  lemma {:induction false} FirstSize(n: nat)
    ensures |First(n)| == n && forall t: nat :: t in First(n) <==> t < n
  {
    if n > 0 {
      FirstSize(n - 1);
    }
  }

  lemma EnterPacked(s: State, limit: nat, registry: Registry, n: nat, frame: Frame)
    requires Packed(s, n) && SLOTS < limit
    ensures Enabled(s, limit, Enter(n, frame)) && PackedScan(Next(s, limit, registry, Enter(n, frame)), n, 0)
  {
    PackedSize(s, n);
  }

  lemma {:induction false} ScanReachable(limit: nat, registry: Registry, n: nat, j: nat)
    requires j <= n <= SLOTS < limit
    ensures exists s :: Reachable(s, limit, registry) && PackedScan(s, n, j)
    decreases n, 1, j
  {
    hide Reachable;
    if j == 0 {
      hide Packed, PackedScan, Enabled, Next;
      PackedReachable(limit, registry, n);
      var s :| Reachable(s, limit, registry) && Packed(s, n);
      var frame: Frame := seq(REGISTERS, _ => 0);
      PackedShaped(s, n);
      EnterPacked(s, limit, registry, n, frame);
      ReachStep(s, limit, registry, Enter(n, frame));
    } else {
      ScanReachable(limit, registry, n, j - 1);
      var s :| Reachable(s, limit, registry) && PackedScan(s, n, j - 1);
      ReachStep(s, limit, registry, TryAcquire(n));
      assert PackedScan(Next(s, limit, registry, TryAcquire(n)), n, j);
    }
  }

  lemma PackedShaped(s: State, n: nat)
    requires Packed(s, n)
    ensures Shaped(s)
  {
  }

  lemma EmptyReachable(limit: nat, registry: Registry)
    ensures exists s :: Reachable(s, limit, registry) && Packed(s, 0)
  {
    var slot := Slot(Free, seq(REGISTERS, _ => 0));
    var s := State(seq(SLOTS, _ => slot), map[], Looking(0), [], [], map[], {});
    assert IsRun([s], limit, registry) && [s][|[s]| - 1] == s;
    assert Packed(s, 0);
  }

  lemma AcquirePacked(s: State, limit: nat, registry: Registry, n: nat)
    requires n < SLOTS && PackedScan(s, n, n)
    ensures Enabled(s, limit, TryAcquire(n)) && Packed(Next(s, limit, registry, TryAcquire(n)), n + 1)
  {
  }

  lemma {:induction false} PackedReachable(limit: nat, registry: Registry, n: nat)
    requires n <= SLOTS < limit
    ensures exists s :: Reachable(s, limit, registry) && Packed(s, n)
    decreases n, 0
  {
    hide Reachable, Packed, Next, Enabled;
    if n == 0 {
      EmptyReachable(limit, registry);
    } else {
      ScanReachable(limit, registry, n - 1, n - 1);
      var s :| Reachable(s, limit, registry) && PackedScan(s, n - 1, n - 1);
      AcquirePacked(s, limit, registry, n - 1);
      ReachStep(s, limit, registry, TryAcquire(n - 1));
    }
  }

  lemma DropReachable(limit: nat, registry: Registry)
    requires limit > SLOTS
    ensures exists s :: Reachable(s, limit, registry) && s.dropped != {}
  {
    ScanReachable(limit, registry, SLOTS, SLOTS);
    var s :| Reachable(s, limit, registry) && PackedScan(s, SLOTS, SLOTS);
    ReachStep(s, limit, registry, Drop(SLOTS));
    assert s.threads[SLOTS].trap in Next(s, limit, registry, Drop(SLOTS)).dropped;
  }

  /** A trap can be dropped exactly when more threads than slots may be inside
      the handler at once. */
  lemma DropsIffTooManyThreads(limit: nat, registry: Registry)
    ensures (exists s :: Reachable(s, limit, registry) && s.dropped != {}) <==> limit > SLOTS
  {
    if limit > SLOTS {
      DropReachable(limit, registry);
    } else {
      forall s | Reachable(s, limit, registry) ensures s.dropped == {} {
        var run :| IsRun(run, limit, registry) && run[|run| - 1] == s;
        NoTrapDropped(run, limit, registry, |run| - 1);
      }
    }
  }

  // ---- The loops themselves, each run without interference ------------------------------------

  // How many of the first n slots are pending.
  function PendingCount(slots: seq<Slot>, n: nat): nat
    requires n <= |slots|
  {
    if n == 0 then 0 else PendingCount(slots, n - 1) + if slots[n - 1].state.Pending? then 1 else 0
  }

  // A slot after one pass of the worker that found it at position i.
  function AfterPass(slots: seq<Slot>, registry: Registry, calls: nat, i: nat): Slot
    requires i < |slots|
  {
    var slot := slots[i];
    if !slot.state.Pending? then slot
    else Slot(Complete, slot.frame[0 := registry(slot.frame, calls + PendingCount(slots, i))])
  }

  // ---- ... are steps of the system ---------------------------------------------------------------

  // What the worker does with the slot it stands at when nobody interferes.
  ghost function Turn(s: State, limit: nat, registry: Registry): (s': State)
    requires Shaped(s) && s.worker.Looking?
    ensures Shaped(s') && s'.worker == Looking(After(s.worker.slot))
  {
    var s1 := Next(s, limit, registry, Look);
    if s1.worker.Looking? then s1
    else Next(Next(s1, limit, registry, Serve), limit, registry, Finish)
  }

  lemma TurnSlots(s: State, limit: nat, registry: Registry)
    requires Shaped(s) && s.worker.Looking?
    ensures var s', i := Turn(s, limit, registry), s.worker.slot;
            && |s'.log| == |s.log| + (if s.slots[i].state.Pending? then 1 else 0)
            && s'.slots == s.slots[i := if s.slots[i].state.Pending?
                                        then Slot(Complete, s.slots[i].frame[0 := registry(s.slots[i].frame, |s.log|)])
                                        else s.slots[i]]
  {
    hide Holder;
  }

  // n turns of the worker alone.
  ghost function Turns(s: State, limit: nat, registry: Registry, n: nat): (s': State)
    requires Shaped(s) && s.worker == Looking(0) && n <= SLOTS
    ensures Shaped(s') && s'.worker == Looking(if n < SLOTS then n else 0)
  {
    if n == 0 then s else Turn(Turns(s, limit, registry, n - 1), limit, registry)
  }

  /** One pass of the worker alone, step by step in the system, leaves the slots as the
      dispatch loop leaves them. */
  lemma {:induction false} PassIsTurns(s: State, limit: nat, registry: Registry, n: nat)
    requires Shaped(s) && s.worker == Looking(0) && n <= SLOTS
    ensures var s' := Turns(s, limit, registry, n);
            && |s'.slots| == SLOTS && |s'.log| == |s.log| + PendingCount(s.slots, n)
            && forall i :: 0 <= i < SLOTS ==>
                 s'.slots[i] == if i < n then AfterPass(s.slots, registry, |s.log|, i) else s.slots[i]
  {
    hide Turn;
    if n > 0 {
      PassIsTurns(s, limit, registry, n - 1);
      var before := Turns(s, limit, registry, n - 1);
      TurnSlots(before, limit, registry);
      assert before.slots[n - 1] == s.slots[n - 1];
      assert Turns(s, limit, registry, n).slots[n - 1] == AfterPass(s.slots, registry, |s.log|, n - 1);
    }
  }

  class TrapTable {
    const requests: array<Slot>

    ghost predicate Valid() {
      requests.Length == SLOTS
    }

    constructor ()
      ensures Valid() && fresh(requests) && forall i :: 0 <= i < SLOTS ==> requests[i].state.Free?
    {
      requests := new Slot[SLOTS](_ => Slot(Free, seq(REGISTERS, _ => 0)));
    }

    /** Takes the first free slot, or none when all are busy. */
    method AcquireRequest() returns (index: nat)
      requires Valid()
      modifies requests
      ensures index <= SLOTS && forall j :: 0 <= j < index ==> !old(requests[j]).state.Free?
      ensures index < SLOTS ==> old(requests[index]).state.Free?
      ensures requests[..] == if index < SLOTS then old(requests[..])[index := old(requests[index]).(state := Filling)]
                              else old(requests[..])
    {
      index := 0;
      while index < SLOTS
        invariant index <= SLOTS && requests[..] == old(requests[..])
        invariant forall j :: 0 <= j < index ==> !requests[j].state.Free?
      {
        if requests[index].state.Free? {
          requests[index] := requests[index].(state := Filling);
          return;
        }
        index := index + 1;
      }
    }

    /** Copies the trapped registers into an acquired slot and hands it over. */
    method CaptureAndSubmit(index: nat, registers: Frame)
      requires Valid() && index < SLOTS && requests[index].state.Filling?
      modifies requests
      ensures requests[..] == old(requests[..])[index := Slot(Pending, registers)]
    {
      var next := 0;
      while next < REGISTERS
        invariant next <= REGISTERS && requests[index].state.Filling?
        invariant requests[index].frame[..next] == registers[..next]
        invariant forall j :: 0 <= j < SLOTS && j != index ==> requests[j] == old(requests[j])
      {
        var frame := requests[index].frame[next := registers[next]];
        requests[index] := requests[index].(frame := frame);
        next := next + 1;
      }
      assert requests[index].frame == requests[index].frame[..REGISTERS] == registers[..REGISTERS] == registers;
      requests[index] := requests[index].(state := Pending);
    }

    /** One pass of the worker: every pending slot is dispatched once, in order. */
    method DispatchPending(registry: Registry, calls: nat) returns (after: nat)
      requires Valid()
      modifies requests
      ensures after == calls + PendingCount(old(requests[..]), SLOTS)
      ensures forall i :: 0 <= i < SLOTS ==> requests[i] == AfterPass(old(requests[..]), registry, calls, i)
    {
      ghost var before := requests[..];
      after := calls;
      var i := 0;
      while i < SLOTS
        invariant i <= SLOTS && after == calls + PendingCount(before, i)
        invariant forall j :: 0 <= j < i ==> requests[j] == AfterPass(before, registry, calls, j)
        invariant forall j :: i <= j < SLOTS ==> requests[j] == before[j]
      {
        var slot := requests[i];
        if slot.state.Pending? {
          requests[i] := Slot(Complete, slot.frame[0 := registry(slot.frame, after)]);
          after := after + 1;
        }
        i := i + 1;
      }
    }
  }
}

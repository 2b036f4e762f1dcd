/** Page accounting: allocations are mapped outside the lock and recorded under
    it, while releases unmap under the lock. */
module MemoryManager {

  import opened Arithmetic
  import opened Common

  const WORD := 0x1_0000_0000_0000_0000

  type Word = w: int | 0 <= w < WORD

  // Smaller than the address space, so that a page can exist.
  type PageSize = p: int | 0 < p < WORD witness 4096

  // ---- Rounding ------------------------------------------------------------------------

  function RoundToPage(page: PageSize, size: Word): (r: Word)
    ensures r == 0 <==> size == 0 || size > WORD - page
  {
    if size == 0 || size > WORD - page then 0
    else (RoundFits(page, size); (size + page - 1) / page * page)
  }

  lemma RoundFits(page: PageSize, size: Word)
    requires 0 < size <= WORD - page
    ensures size <= (size + page - 1) / page * page <= size + page - 1
  {
    var p: int := page;
    assert (size + p - 1) / p * p == size + p - 1 - (size + p - 1) % p;
  }

  /** A size that can be rounded becomes the smallest whole number of pages that
      holds it. */
  lemma RoundedIsLeast(page: PageSize, size: Word, pages: nat)
    requires 0 < size <= WORD - page
    ensures RoundToPage(page, size) % page == 0
    ensures pages * page >= size <==> pages * page >= RoundToPage(page, size)
  {
    var p: int, k: int := page, (size + page - 1) / page;
    RoundFits(page, size);
    QuotientIs(k * p, k, 0, p);
    MultipleGap(pages, k, p);
    MultipleGap(k, pages, p);
  }

  // ---- Ranges and their sum -----------------------------------------------------------

  predicate Apart(a: int, n: int, b: int, m: int) {
    a + n <= b || b + m <= a
  }

  ghost function Total(sizes: map<Word, Word>): nat {
    if sizes == map[] then 0
    else var a :| a in sizes; sizes[a] as int + Total(sizes - {a})
  }

  lemma {:induction false} TotalWithout(sizes: map<Word, Word>, a: Word)
    requires a in sizes
    ensures Total(sizes) == sizes[a] as int + Total(sizes - {a})
    decreases |sizes|
  {
    var b :| b in sizes && Total(sizes) == sizes[b] as int + Total(sizes - {b});
    if a != b {
      TotalWithout(sizes - {b}, a);
      TotalWithout(sizes - {a}, b);
      assert sizes - {b} - {a} == sizes - {a} - {b};
    }
  }

  lemma TotalWith(sizes: map<Word, Word>, a: Word, n: Word)
    requires a !in sizes
    ensures Total(sizes[a := n]) == Total(sizes) + n
  {
    TotalWithout(sizes[a := n], a);
    assert sizes[a := n] - {a} == sizes;
  }

  ghost predicate AllApart(sizes: map<Word, Word>) {
    forall a, b :: a in sizes && b in sizes && a != b ==> Apart(a, sizes[a], b, sizes[b])
  }

  lemma {:induction false} LastKey(keys: set<Word>) returns (last: Word)
    requires keys != {}
    ensures last in keys && forall k :: k in keys ==> k <= last
    decreases |keys|
  {
    var k :| k in keys;
    last := k;
    assert forall j :: j in keys ==> j == k || j in keys - {k};
    if keys - {k} != {} {
      var other := LastKey(keys - {k});
      last := if other > k then other else k;
    }
  }

  /** Blocks that do not overlap take no more room than there is. */
  lemma {:induction false} ApartFit(sizes: map<Word, Word>, end: int)
    requires AllApart(sizes) && end >= 1
    requires forall a :: a in sizes ==> a >= 1 && sizes[a] > 0 && a + sizes[a] <= end
    ensures Total(sizes) <= end - 1
    decreases |sizes|
  {
    if sizes != map[] {
      var last := LastKey(sizes.Keys);
      ApartFit(sizes - {last}, last);
      TotalWithout(sizes, last);
    }
  }

  // ---- Concurrent allocations and releases ----------------------------------------------

  datatype Block = Block(address: Word, size: Word)

  // Who holds the lock across two steps: a release, between its unmapping and
  // the removal of the record.
  datatype Lock = Unlocked | Releasing(address: Word)

  // `pending` holds, by thread, blocks mapped but not yet recorded.
  datatype State = State(recorded: map<Word, Word>, pending: map<nat, Block>, lock: Lock, allocatedBytes: Word)

  datatype Step =
    | Map(thread: nat, size: Word, address: Word)
    | Record(thread: nat)
    | Unmap(address: Word, size: Word)
    | Erase

  // What the operating system still has mapped: everything recorded but the
  // block just unmapped, and everything pending.
  predicate Live(s: State, a: Word) {
    a in s.recorded && s.lock != Releasing(a)
  }

  // The system places a new mapping at a non-null address beside all live ones;
  // it may well reuse the address just unmapped.
  predicate Placeable(s: State, a: Word, n: Word) {
    && 0 < a && a + n <= WORD
    && (forall b :: b in s.recorded && Live(s, b) ==> Apart(a, n, b, s.recorded[b]))
    && (forall t :: t in s.pending ==> Apart(a, n, s.pending[t].address, s.pending[t].size))
  }

  predicate Enabled(page: PageSize, s: State, step: Step) {
    match step
    case Map(t, size, a) =>
      t !in s.pending && RoundToPage(page, size) != 0 && Placeable(s, a, RoundToPage(page, size))
    case Record(t) => s.lock.Unlocked? && t in s.pending
    case Unmap(a, size) => s.lock.Unlocked? && a in s.recorded && RoundToPage(page, size) == s.recorded[a]
    case Erase => s.lock.Releasing? && s.lock.address in s.recorded
  }

  // Recording never overwrites: an insertion at a key already there is dropped.
  function Next(page: PageSize, s: State, step: Step): State
    requires Enabled(page, s, step)
  {
    match step
    case Map(t, size, a) => s.(pending := s.pending[t := Block(a, RoundToPage(page, size))])
    case Record(t) =>
      var b := s.pending[t];
      s.(recorded := if b.address in s.recorded then s.recorded else s.recorded[b.address := b.size],
         pending := s.pending - {t}, allocatedBytes := (s.allocatedBytes + b.size) % WORD)
    case Unmap(a, _) => s.(lock := Releasing(a))
    case Erase =>
      var a := s.lock.address;
      s.(recorded := s.recorded - {a}, lock := Unlocked, allocatedBytes := (s.allocatedBytes - s.recorded[a]) % WORD)
  }

  predicate Initial(s: State) {
    s == State(map[], map[], Unlocked, 0)
  }

  ghost predicate Sized(page: PageSize, a: Word, n: Word) {
    a > 0 && n > 0 && a + n <= WORD && n % page == 0
  }

  ghost predicate AllSized(page: PageSize, s: State) {
    && (forall a :: a in s.recorded ==> Sized(page, a, s.recorded[a]))
    && (forall t :: t in s.pending ==> Sized(page, s.pending[t].address, s.pending[t].size))
  }

  ghost predicate PendingApart(pending: map<nat, Block>) {
    forall t, u :: t in pending && u in pending && t != u ==>
      Apart(pending[t].address, pending[t].size, pending[u].address, pending[u].size)
  }

  ghost predicate LiveApart(s: State) {
    forall t, a :: t in s.pending && a in s.recorded && Live(s, a) ==>
      Apart(s.pending[t].address, s.pending[t].size, a, s.recorded[a])
  }

  ghost predicate Inv(page: PageSize, s: State) {
    && AllSized(page, s) && AllApart(s.recorded) && PendingApart(s.pending) && LiveApart(s)
    && (s.lock.Releasing? ==> s.lock.address in s.recorded)
    && s.allocatedBytes == Total(s.recorded)
  }

  lemma TotalFits(page: PageSize, s: State)
    requires AllSized(page, s) && AllApart(s.recorded)
    ensures Total(s.recorded) < WORD
  {
    ApartFit(s.recorded, WORD);
  }

  lemma SizeRounded(page: PageSize, size: Word)
    requires RoundToPage(page, size) != 0
    ensures RoundToPage(page, size) % page == 0
  {
    RoundedIsLeast(page, size, 0);
  }

  lemma PendingIsFresh(page: PageSize, s: State, t: nat)
    requires Inv(page, s) && Enabled(page, s, Record(t))
    ensures s.pending[t].address !in s.recorded
  {
    var a := s.pending[t].address;
    assert Sized(page, a, s.pending[t].size);
    assert forall b :: b in s.recorded ==> Live(s, b);
    assert forall b :: b in s.recorded ==> Sized(page, b, s.recorded[b]) && Apart(a, s.pending[t].size, b, s.recorded[b]);
  }

  lemma MapKeeps(page: PageSize, s: State, t: nat, size: Word, a: Word)
    requires Inv(page, s) && Enabled(page, s, Map(t, size, a))
    ensures Inv(page, Next(page, s, Map(t, size, a)))
  {
    hide Total;
    SizeRounded(page, size);
    hide RoundToPage;
    var s' := Next(page, s, Map(t, size, a));
    assert Sized(page, a, RoundToPage(page, size));
    assert LiveApart(s') by { assert forall b :: Live(s', b) == Live(s, b); }
  }

  lemma RecordKeeps(page: PageSize, s: State, t: nat)
    requires Inv(page, s) && Enabled(page, s, Record(t))
    ensures Inv(page, Next(page, s, Record(t)))
  {
    hide Total, RoundToPage;
    var s' := Next(page, s, Record(t));
    PendingIsFresh(page, s, t);
    assert forall a :: a in s.recorded ==> Live(s, a);
    assert AllSized(page, s') && AllApart(s'.recorded) && PendingApart(s'.pending);
    TotalWith(s.recorded, s.pending[t].address, s.pending[t].size);
    TotalFits(page, s');
  }

  lemma EraseKeeps(page: PageSize, s: State)
    requires Inv(page, s) && Enabled(page, s, Erase)
    ensures Inv(page, Next(page, s, Erase))
  {
    hide Total, RoundToPage;
    var s' := Next(page, s, Erase);
    assert forall a :: a in s'.recorded ==> Live(s, a);
    TotalWithout(s.recorded, s.lock.address);
  }

  lemma StepKeeps(page: PageSize, s: State, step: Step)
    requires Inv(page, s) && Enabled(page, s, step)
    ensures Inv(page, Next(page, s, step))
  {
    hide Total, RoundToPage;
    match step
    case Map(t, size, a) => MapKeeps(page, s, t, size, a);
    case Record(t) => RecordKeeps(page, s, t);
    case Unmap(_, _) =>
    case Erase => EraseKeeps(page, s);
  }

  ghost predicate Steps(page: PageSize, s: State, s': State) {
    exists step :: Enabled(page, s, step) && s' == Next(page, s, step)
  }

  ghost predicate IsRun(page: PageSize, run: seq<State>) {
    && run != [] && Initial(run[0])
    && forall n :: 0 < n < |run| ==> Steps(page, run[n - 1], run[n])
  }

  lemma {:induction false} RunInv(page: PageSize, run: seq<State>, n: nat)
    requires IsRun(page, run) && n < |run|
    ensures Inv(page, run[n])
  {
    hide Enabled, Next;
    if n > 0 {
      hide Inv;
      RunInv(page, run, n - 1);
      var s := run[n - 1];
      assert Steps(page, s, run[n]);
      var step :| Enabled(page, s, step) && run[n] == Next(page, s, step);
      StepKeeps(page, s, step);
    }
  }

  /** In every reachable state recorded blocks never overlap and hold whole pages,
      the byte count is exactly the sum of their sizes, and while the lock is
      free no pending block touches a recorded one. */
  lemma AccountingHolds(page: PageSize, run: seq<State>, n: nat)
    requires IsRun(page, run) && n < |run|
    ensures var s := run[n];
            && AllApart(s.recorded)
            && (forall a :: a in s.recorded ==> s.recorded[a] > 0 && s.recorded[a] % page == 0)
            && s.allocatedBytes == Total(s.recorded)
            && (s.lock.Unlocked? ==> forall t, a :: t in s.pending && a in s.recorded ==>
                  Apart(s.pending[t].address, s.pending[t].size, a, s.recorded[a]))
  {
    hide Total;
    RunInv(page, run, n);
    var s := run[n];
    assert forall a :: a in s.recorded ==> Sized(page, a, s.recorded[a]);
    if s.lock.Unlocked? {
      assert forall a :: a in s.recorded ==> Live(s, a);
    }
  }

  /** Blocks are apart exactly when no address lies in both. */
  lemma ApartIff(a: int, n: int, b: int, m: int)
    requires n > 0 && m > 0
    ensures Apart(a, n, b, m) <==> forall x :: !(Within(x, a, n) && Within(x, b, m))
  {
    var x := if a < b then b else a;
    assert (Within(x, a, n) && Within(x, b, m)) || Apart(a, n, b, m);
  }

  /** In every run a release gives back the whole pages of the size it was asked for. */
  lemma ReleaseGivesBack(page: PageSize, run: seq<State>, n: nat, a: Word, size: Word)
    requires IsRun(page, run) && n < |run| && Enabled(page, run[n], Unmap(a, size))
    ensures var s := run[n];
            var unmapped := Next(page, s, Unmap(a, size));
            && Enabled(page, unmapped, Erase)
            && Next(page, unmapped, Erase).recorded == s.recorded - {a}
            && Next(page, unmapped, Erase).allocatedBytes + RoundToPage(page, size) == s.allocatedBytes
  {
    hide Total, RoundToPage;
    RunInv(page, run, n);
    var s := run[n];
    StepKeeps(page, s, Unmap(a, size));
    StepKeeps(page, Next(page, s, Unmap(a, size)), Erase);
    TotalWithout(s.recorded, a);
  }

  /** In every run, a block being recorded never meets a record at its own address,
      although its address may have belonged to another block a moment before: the
      insertion that would be dropped silently always takes effect. */
  lemma InsertionIsFresh(page: PageSize, run: seq<State>, n: nat, t: nat)
    requires IsRun(page, run) && n < |run| && Enabled(page, run[n], Record(t))
    ensures var s, b := run[n], run[n].pending[t];
            b.address !in s.recorded && Next(page, s, Record(t)).recorded == s.recorded[b.address := b.size]
  {
    RunInv(page, run, n);
    PendingIsFresh(page, run[n], t);
  }

  // ---- The manager as one caller sees it --------------------------------------------------

  datatype Protection = NoAccess | Read | ReadWrite | ReadExecute | ReadWriteExecute

  // What the processor allows on a page under a protection.
  predicate MayRead(p: Protection) {
    p == Read || p == ReadWrite || p == ReadExecute || p == ReadWriteExecute
  }

  predicate MayWrite(p: Protection) {
    p == ReadWrite || p == ReadWriteExecute
  }

  predicate MayExecute(p: Protection) {
    p == ReadExecute || p == ReadWriteExecute
  }

  predicate Within(x: int, start: int, length: int) {
    start <= x < start + length
  }

  ghost predicate BlocksSized(page: PageSize, sizes: map<Word, Word>) {
    forall a :: a in sizes ==> Sized(page, a, sizes[a])
  }

  lemma BlockAdded(page: PageSize, sizes: map<Word, Word>, a: Word, n: Word)
    requires AllApart(sizes) && BlocksSized(page, sizes)
    requires a > 0 && n > 0 && a + n <= WORD && n % page == 0 && forall b :: b in sizes ==> Apart(a, n, b, sizes[b])
    ensures a !in sizes && AllApart(sizes[a := n]) && BlocksSized(page, sizes[a := n])
    ensures Total(sizes[a := n]) == Total(sizes) + n < WORD
  {
    hide Total;
    assert forall b :: b in sizes ==> Sized(page, b, sizes[b]) && b != a;
    TotalWith(sizes, a, n);
    ApartFit(sizes[a := n], WORD);
  }

  // `contents` and `protections` stand for the memory behind the allocations.
  // Where the system call may fail or choose, so does the model.
  class VirtualMemoryManager {
    const page: PageSize
    var allocations: map<Word, Word>
    var allocatedBytes: Word
    var contents: int -> Byte
    var protections: int -> Protection

    ghost predicate Valid()
      reads this
    {
      && AllApart(allocations) && BlocksSized(page, allocations)
      && allocatedBytes == Total(allocations)
    }

    constructor (page: PageSize)
      ensures Valid() && this.page == page && allocations == map[]
    {
      this.page, allocations, allocatedBytes := page, map[], 0;
      contents, protections := _ => 0, _ => NoAccess;
    }

    /** The new block, beside all others, or 0 and no change at all. */
    method Allocate(size: Word, protection: Protection) returns (address: Word)
      requires Valid()
      modifies `allocations, `allocatedBytes, `contents, `protections
      ensures Valid()
      ensures RoundToPage(page, size) == 0 ==> address == 0
      ensures address == 0 ==> allocations == old(allocations) && contents == old(contents) && protections == old(protections)
      ensures address != 0 ==>
                && address !in old(allocations)
                && allocations == old(allocations)[address := RoundToPage(page, size)]
                && (forall x {:trigger contents(x)} :: !Within(x, address, RoundToPage(page, size)) ==> contents(x) == old(contents)(x))
                && (forall x {:trigger protections(x)} :: protections(x) ==
                      if Within(x, address, RoundToPage(page, size)) then protection else old(protections)(x))
    {
      hide Total, AllApart, Sized, RoundToPage;
      var rounded := RoundToPage(page, size);
      var chosen: int := *;
      if rounded == 0 || chosen <= 0 || chosen + rounded > WORD ||
         exists b :: b in allocations && !Apart(chosen, rounded, b, allocations[b]) {
        return 0;
      }
      address := chosen;
      var before, guarded := contents, protections;
      SizeRounded(page, size);
      BlockAdded(page, allocations, address, rounded);
      allocations, allocatedBytes := allocations[address := rounded], allocatedBytes + rounded;
      contents := x => if Within(x, address, rounded) then 0 else before(x);
      protections := x => if Within(x, address, rounded) then protection else guarded(x);
    }

    method Protect(address: Word, size: Word, protection: Protection) returns (ok: bool)
      requires Valid()
      modifies `protections
      ensures ok ==> address in allocations && 0 < RoundToPage(page, size) <= allocations[address]
      ensures forall x {:trigger protections(x)} :: protections(x) ==
                if ok && Within(x, address, RoundToPage(page, size)) then protection else old(protections)(x)
    {
      var rounded := RoundToPage(page, size);
      if address !in allocations || rounded == 0 || rounded > allocations[address] {
        return false;
      }
      ok := *;
      if ok {
        var guarded := protections;
        protections := x => if Within(x, address, rounded) then protection else guarded(x);
      }
    }

    /** Frees exactly one whole block; `works` says whether the unmapping does. */
    method Release(address: Word, size: Word, works: bool) returns (ok: bool)
      requires Valid()
      modifies `allocations, `allocatedBytes
      ensures Valid() && ok == (works && Owns(page, old(allocations), address, size))
      ensures allocations == if ok then old(allocations) - {address} else old(allocations)
    {
      hide Total;
      if address !in allocations || RoundToPage(page, size) != allocations[address] {
        return false;
      }
      if !works {
        return false;
      }
      TotalWithout(allocations, address);
      allocations, allocatedBytes := allocations - {address}, allocatedBytes - allocations[address];
      return true;
    }

    // A direct store through a pointer into a block.
    method Store(start: int, data: seq<Byte>)
      modifies `contents
      ensures forall x {:trigger contents(x)} :: contents(x) ==
                if Within(x, start, |data|) then data[x - start] else old(contents)(x)
    {
      var before := contents;
      contents := x => if Within(x, start, |data|) then data[x - start] else before(x);
    }
  }

  predicate Owns(page: PageSize, allocations: map<Word, Word>, address: Word, size: Word) {
    address in allocations && RoundToPage(page, size) == allocations[address]
  }
}

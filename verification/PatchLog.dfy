/** Syscall sites: finding the two-byte instruction in code, replacing it by a
    trap, and undoing all replacements from the patch log, over code bytes and
    page protections. */
module PatchLog {

  import opened Arithmetic
  import opened Common

  const ADDRESS_LIMIT := 0x1_0000_0000_0000_0000
  const MAX_SITES := 65536

  type Address = a: int | 0 <= a < ADDRESS_LIMIT
  type PageSize = p: int | 0 < p < ADDRESS_LIMIT witness 4096

  datatype Protection = Protection(read: bool, write: bool, execute: bool)

  const OPEN := Protection(true, true, true)

  // Bytes by address; protections by page number. An unmapped page has none.
  datatype Memory = Memory(bytes: map<int, Byte>, protections: map<int, Protection>)

  datatype Site = Site(address: Address, pageStart: int, pageLength: int, restore: Protection)

  datatype Outcome =
    | Patched | AlreadyPatched
    | AddressOverflow | NotExecutable | NotSyscall | RangeOverflow | UnlockFailed | RelockFailed
    | LogFull
    | WriteFault            // the processor refused a write to a page

  // ---- Scanning ----------------------------------------------------------------

  predicate IsSyscall(code: seq<Byte>, k: int) {
    0 <= k && k + 1 < |code| && code[k] == 0x0F && code[k + 1] == 0x05
  }

  /** Every syscall instruction in the code, once, in order. A range that is too
      short or runs past the address space has none. */
  method Scan(base: Address, code: seq<Byte>) returns (sites: seq<Address>)
    ensures base == 0 || |code| < 2 || |code| > ADDRESS_LIMIT - 1 - base ==> sites == []
    ensures !(base == 0 || |code| < 2 || |code| > ADDRESS_LIMIT - 1 - base) ==>
              forall a: Address :: a in sites <==> IsSyscall(code, a - base)
    ensures forall j, k :: 0 <= j < k < |sites| ==> sites[j] as int + 2 <= sites[k]
  {
    sites := [];
    if base == 0 || |code| < 2 || |code| > ADDRESS_LIMIT - 1 - base {
      return;
    }
    var offset := 0;
    while offset + 1 < |code|
      invariant 0 <= offset <= |code|
      invariant forall a: Address :: a in sites <==> a - base < offset && IsSyscall(code, a - base)
      invariant forall j :: 0 <= j < |sites| ==> sites[j] + 2 <= base + offset || offset + 1 >= |code|
      invariant forall j, k :: 0 <= j < k < |sites| ==> sites[j] as int + 2 <= sites[k]
    {
      if code[offset] == 0x0F && code[offset + 1] == 0x05 {
        assert !IsSyscall(code, offset + 1);
        sites := sites + [base + offset];
        offset := offset + 1;
      }
      offset := offset + 1;
    }
  }

  // ---- Patching ----------------------------------------------------------------

  function PageOf(page: PageSize, a: int): int {
    a / page
  }

  // The pages of [start, start + length) for page-aligned bounds.
  function SetPages(page: PageSize, m: Memory, start: int, length: int, p: Protection): Memory {
    m.(protections := map n | n in m.protections ::
         if PageOf(page, start) <= n < PageOf(page, start + length) then p else m.protections[n])
  }

  function Poke(m: Memory, a: Address, first: Byte, second: Byte): Memory {
    m.(bytes := m.bytes[a := first][a + 1 := second])
  }

  predicate ProtectionAt(page: PageSize, m: Memory, a: int) {
    PageOf(page, a) in m.protections
  }

  predicate Recorded(log: seq<Site>, a: Address) {
    exists k :: 0 <= k < |log| && log[k].address == a
  }

  function PageStart(page: PageSize, a: Address): int {
    a - a % page
  }

  // The end of the last page touched, computed in 64-bit arithmetic.
  function PageEnd(page: PageSize, a: Address): int {
    ((a as int + 2 + page - 1) % ADDRESS_LIMIT) / page * page
  }

  datatype PatchState = PatchState(memory: Memory, log: seq<Site>, outcome: Outcome)

  /** One patch request while the log has room. `unlock` and `relock` say whether
      the two protection changes succeed; a change that fails has no effect. */
  function Patch(page: PageSize, m: Memory, log: seq<Site>, a: Address, unlock: bool, relock: bool): PatchState
  {
    if a > ADDRESS_LIMIT - 2 then PatchState(m, log, AddressOverflow)
    else if Recorded(log, a) then PatchState(m, log, AlreadyPatched)
    else if !ProtectionAt(page, m, a) || !ProtectionAt(page, m, a + 1) ||
            m.protections[PageOf(page, a)] != m.protections[PageOf(page, a + 1)] ||
            !m.protections[PageOf(page, a)].execute then PatchState(m, log, NotExecutable)
    else if a !in m.bytes || a + 1 !in m.bytes || m.bytes[a] != 0x0F || m.bytes[a + 1] != 0x05
    then PatchState(m, log, NotSyscall)
    else if PageEnd(page, a) <= PageStart(page, a) then PatchState(m, log, RangeOverflow)
    else if !unlock then PatchState(m, log, UnlockFailed)
    else
      var before := m.protections[PageOf(page, a)];
      var start := PageStart(page, a);
      var length := PageEnd(page, a) - start;
      var patched := Poke(SetPages(page, m, start, length, OPEN), a, 0xCC, 0x90);
      var locked := if relock then SetPages(page, patched, start, length, before) else patched;
      PatchState(locked, log + [Site(a, start, length, before)], if relock then Patched else RelockFailed)
  }

  predicate Writable(page: PageSize, m: Memory, a: int) {
    ProtectionAt(page, m, a) && m.protections[PageOf(page, a)].write
  }

  // The bytes are written back without the pages being unlocked again; `again` is
  // the success of the last protection change.
  function TakeBack(page: PageSize, m: Memory, log: seq<Site>, site: Site, again: bool): PatchState {
    if !Writable(page, m, site.address) || !Writable(page, m, site.address + 1) then PatchState(m, log, WriteFault)
    else
      var back := Poke(m, site.address, 0x0F, 0x05);
      PatchState(if again then SetPages(page, back, site.pageStart, site.pageLength, site.restore) else back, log, LogFull)
  }

  // Any patch request: with a full log, what was patched is taken back.
  function Attempt(page: PageSize, m: Memory, log: seq<Site>, a: Address, unlock: bool, relock: bool, again: bool): PatchState {
    var s := Patch(page, m, log, a, unlock, relock);
    if |log| < MAX_SITES || s.log == log then s else TakeBack(page, s.memory, log, s.log[|s.log| - 1], again)
  }

  // Undoing one log entry; nothing happens when its pages cannot be unlocked.
  function Undo(page: PageSize, m: Memory, site: Site, unlock: bool, relock: bool): Memory {
    if site.pageLength == 0 || site.address == 0 || !unlock then m
    else
      var back := Poke(SetPages(page, m, site.pageStart, site.pageLength, OPEN), site.address, 0x0F, 0x05);
      if relock then SetPages(page, back, site.pageStart, site.pageLength, site.restore) else back
  }

  /** Newest entry first. */
  function UndoAll(page: PageSize, m: Memory, log: seq<Site>, unlock: int -> bool, relock: int -> bool): Memory
    decreases |log|
  {
    if log == [] then m
    else
      var n := |log| - 1;
      UndoAll(page, Undo(page, m, log[n], unlock(n), relock(n)), log[..n], unlock, relock)
  }

  // ---- Pages ---------------------------------------------------------------------

  lemma NextPage(x: int, p: int)
    requires 0 < p
    ensures (x + p) / p == x / p + 1
  {
    assert x + p == (x / p + 1) * p + x % p;
    QuotientIs(x + p, x / p + 1, x % p, p);
  }

  // The start of the page that holds x is a multiple of the page size.
  lemma PageFloor(x: int, p: int)
    requires 0 < p
    ensures x / p * p == x - x % p && (x - x % p) / p == x / p
  {
    QuotientIs(x - x % p, x / p, 0, p);
  }

  lemma SumWraps(x: int, p: int)
    requires 0 < p < ADDRESS_LIMIT && 0 <= x < ADDRESS_LIMIT
    ensures x + p < ADDRESS_LIMIT ==> (x + p) % ADDRESS_LIMIT == x + p
    ensures x + p >= ADDRESS_LIMIT ==> (x + p) % ADDRESS_LIMIT / p * p == 0
  {
    if x + p >= ADDRESS_LIMIT {
      assert (x + p) % ADDRESS_LIMIT == x + p - ADDRESS_LIMIT;
      QuotientIs(x + p - ADDRESS_LIMIT, 0, x + p - ADDRESS_LIMIT, p);
    }
  }

  /** The page range of a site: from the page of its first byte to the page of
      its second, unless the end wrapped around the address space. */
  lemma SitePages(page: PageSize, a: Address)
    requires a <= ADDRESS_LIMIT - 2 && PageEnd(page, a) > PageStart(page, a)
    ensures PageOf(page, PageStart(page, a)) == PageOf(page, a)
    ensures PageOf(page, PageEnd(page, a)) == PageOf(page, a + 1) + 1
  {
    PageFloor(a, page);
    LastPage(page, a);
  }

  // A range that ends behind its start has not wrapped around.
  lemma NotWrapped(x: int, p: int)
    requires 0 < p < ADDRESS_LIMIT && 0 <= x < ADDRESS_LIMIT
    requires (x + p) % ADDRESS_LIMIT / p * p > 0
    ensures (x + p) % ADDRESS_LIMIT == x + p
  {
    SumWraps(x, p);
  }

  lemma StartNonNegative(a: int, p: int)
    requires 0 < p && 0 <= a
    ensures a - a % p >= 0
  {
    PageFloor(a, p);
    MultipleNonNegative(a / p, p);
  }

  lemma LastPage(page: PageSize, a: Address)
    requires a <= ADDRESS_LIMIT - 2 && PageEnd(page, a) > PageStart(page, a)
    ensures PageOf(page, PageEnd(page, a)) == PageOf(page, a + 1) + 1
  {
    var p, x: int := page, a + 1;
    assert a as int + 2 + page - 1 == x + p;
    StartNonNegative(a, p);
    NotWrapped(x, p);
    NextPage(x, p);
    WholePages((x + p) / p, p);
  }

  lemma WholePages(n: int, p: int)
    requires 0 < p
    ensures n * p / p == n
  {
    QuotientIs(n * p, n, 0, p);
  }

  lemma MultipleNonNegative(q: int, p: int)
    requires q >= 0 && p > 0
    ensures q * p >= 0
  {
  }

  lemma PageStep(page: PageSize, a: Address)
    ensures PageOf(page, a) <= PageOf(page, a + 1) <= PageOf(page, a) + 1
  {
    var q, r := a / page, a % page;
    if r + 1 < page {
      QuotientIs(a + 1, q, r + 1, page);
    } else {
      assert a + 1 == (q + 1) * page + 0;
      QuotientIs(a + 1, q + 1, 0, page);
    }
  }

  // ---- Undoing ---------------------------------------------------------------------

  predicate SyscallAt(m: Memory, x: int) {
    x in m.bytes && x + 1 in m.bytes && m.bytes[x] == 0x0F && m.bytes[x + 1] == 0x05
  }

  predicate TrapAt(m: Memory, x: int) {
    x in m.bytes && x + 1 in m.bytes && m.bytes[x] == 0xCC && m.bytes[x + 1] == 0x90
  }

  // Setting the same pages again overrides; bytes and protections are independent.
  lemma SetAgain(page: PageSize, m: Memory, start: int, length: int, p: Protection, q: Protection)
    ensures SetPages(page, SetPages(page, m, start, length, p), start, length, q) == SetPages(page, m, start, length, q)
  {
    hide PageOf;
    var twice := SetPages(page, SetPages(page, m, start, length, p), start, length, q);
    assert twice.protections == SetPages(page, m, start, length, q).protections;
  }

  lemma SetSame(page: PageSize, m: Memory, start: int, length: int, p: Protection)
    requires forall n :: n in m.protections && PageOf(page, start) <= n < PageOf(page, start + length) ==> m.protections[n] == p
    ensures SetPages(page, m, start, length, p) == m
  {
    hide PageOf;
    assert SetPages(page, m, start, length, p).protections == m.protections;
  }

  lemma PokeBack(m: Memory, a: Address, first: Byte, second: Byte)
    requires SyscallAt(m, a)
    ensures Poke(Poke(m, a, first, second), a, 0x0F, 0x05) == m
  {
    assert Poke(Poke(m, a, first, second), a, 0x0F, 0x05).bytes == m.bytes;
  }

  lemma SetThenPoke(page: PageSize, m: Memory, start: int, length: int, p: Protection, a: Address, first: Byte, second: Byte)
    ensures SetPages(page, Poke(m, a, first, second), start, length, p) == Poke(SetPages(page, m, start, length, p), a, first, second)
  {
  }

  // Open, write the trap, optionally lock; open, write back, lock.
  lemma PatchedPagesBack(page: PageSize, m: Memory, a: Address, start: int, length: int, before: Protection, relock: bool)
    requires SyscallAt(m, a) && SetPages(page, m, start, length, before) == m
    ensures var patched := Poke(SetPages(page, m, start, length, OPEN), a, 0xCC, 0x90);
            var locked := if relock then SetPages(page, patched, start, length, before) else patched;
            SetPages(page, Poke(SetPages(page, locked, start, length, OPEN), a, 0x0F, 0x05), start, length, before) == m
  {
    hide SetPages, Poke, SyscallAt;
    var patched := Poke(SetPages(page, m, start, length, OPEN), a, 0xCC, 0x90);
    var locked := if relock then SetPages(page, patched, start, length, before) else patched;
    SetAgain(page, patched, start, length, before, OPEN);
    assert relock ==> SetPages(page, locked, start, length, OPEN) == SetPages(page, patched, start, length, OPEN);
    var open := SetPages(page, patched, start, length, OPEN);
    SetThenPoke(page, open, start, length, before, a, 0x0F, 0x05);
    SetAgain(page, patched, start, length, OPEN, before);
    SetThenPoke(page, SetPages(page, m, start, length, OPEN), start, length, before, a, 0xCC, 0x90);
    SetAgain(page, m, start, length, OPEN, before);
    PokeBack(m, a, 0xCC, 0x90);
  }

  /** Undoing the entry a patch just logged gives back the memory before the
      patch, even when that patch failed to restore its protection. */
  lemma UndoInvertsPatch(page: PageSize, m: Memory, log: seq<Site>, a: Address, unlock: bool, relock: bool)
    requires a != 0
    ensures var s := Patch(page, m, log, a, unlock, relock);
            (s.log == log && s.memory == m) ||
            (s.log != [] && s.log[..|s.log| - 1] == log && s.log[|s.log| - 1].address == a &&
             Undo(page, s.memory, s.log[|s.log| - 1], true, true) == m)
  {
    hide SetPages, Poke, PageEnd, PageStart, PageOf, Recorded;
    var s := Patch(page, m, log, a, unlock, relock);
    if s.log != log {
      var site := s.log[|log|];
      SitePages(page, a);
      PageStep(page, a);
      assert site.pageStart + site.pageLength == PageEnd(page, a);
      SetSame(page, m, site.pageStart, site.pageLength, site.restore);
      assert SyscallAt(m, a);
      PatchedPagesBack(page, m, a, site.pageStart, site.pageLength, site.restore, relock);
    }
  }

  // The memory a patch leaves behind, in terms of the memory before it.
  lemma PatchedMemory(page: PageSize, m: Memory, log: seq<Site>, a: Address, unlock: bool, relock: bool)
    requires Patch(page, m, log, a, unlock, relock).log != log
    ensures var s := Patch(page, m, log, a, unlock, relock);
            var site := s.log[|s.log| - 1];
            && s.log == log + [site] && site.address == a && SyscallAt(m, a) && ProtectionAt(page, m, a)
            && ProtectionAt(page, m, a + 1)
            && site.restore == m.protections[PageOf(page, a)] == m.protections[PageOf(page, a + 1)]
            && PageOf(page, site.pageStart) <= PageOf(page, a)
            && PageOf(page, a) <= PageOf(page, a + 1) < PageOf(page, site.pageStart + site.pageLength)
            && SetPages(page, m, site.pageStart, site.pageLength, site.restore) == m
            && s.memory == (if relock then Poke(m, a, 0xCC, 0x90)
                            else Poke(SetPages(page, m, site.pageStart, site.pageLength, OPEN), a, 0xCC, 0x90))
  {
    hide SetPages, Poke, PageEnd, PageStart, PageOf, Recorded;
    var s := Patch(page, m, log, a, unlock, relock);
    var site := s.log[|log|];
    SitePages(page, a);
    PageStep(page, a);
    assert site.pageStart + site.pageLength == PageEnd(page, a);
    SetSame(page, m, site.pageStart, site.pageLength, site.restore);
    SetThenPoke(page, SetPages(page, m, site.pageStart, site.pageLength, OPEN), site.pageStart, site.pageLength, site.restore,
                a, 0xCC, 0x90);
    SetAgain(page, m, site.pageStart, site.pageLength, OPEN, site.restore);
  }

  lemma PokeSame(page: PageSize, m: Memory, a: Address, first: Byte, second: Byte, x: int)
    ensures Writable(page, Poke(m, a, first, second), x) == Writable(page, m, x)
  {
  }

  lemma SetWritable(page: PageSize, m: Memory, start: int, length: int, x: int)
    requires ProtectionAt(page, m, x) && PageOf(page, start) <= PageOf(page, x) < PageOf(page, start + length)
    ensures Writable(page, SetPages(page, m, start, length, OPEN), x)
  {
    hide PageOf;
  }

  /** A request that finds the log full, but everything else in order, faults exactly
      when its pages were locked again and are not writable, as code pages are not:
      the bytes are written back after the protection has been restored. Otherwise
      the memory is what it was exactly when one of the two last protection changes
      works, or the pages were open all along. */
  lemma FullLogExact(page: PageSize, m: Memory, log: seq<Site>, a: Address, unlock: bool, relock: bool, again: bool)
    requires Patch(page, m, log, a, unlock, relock).log != log
    ensures var t, before := Patch(page, m, log, a, unlock, relock), m.protections[PageOf(page, a)];
            var s := TakeBack(page, t.memory, log, t.log[|t.log| - 1], again);
            && Attempt(page, m, log, a, unlock, relock, again) == (if |log| < 65536 then t else s)
            && s.log == log && (s.outcome == LogFull || s.outcome == WriteFault)
            && (s.outcome == WriteFault <==> relock && !before.write)
            && (s.outcome == WriteFault ==> TrapAt(s.memory, a))
            && (s.outcome == LogFull ==> (s.memory == m <==> relock || again || before == Protection(true, true, true)))
  {
    PatchedMemory(page, m, log, a, unlock, relock);
    var t := Patch(page, m, log, a, unlock, relock);
    var site := t.log[|t.log| - 1];
    var open := SetPages(page, m, site.pageStart, site.pageLength, OPEN);
    PokeBack(m, a, 0xCC, 0x90);
    PokeBack(open, a, 0xCC, 0x90);
    PokeSame(page, m, a, 0xCC, 0x90, a);
    PokeSame(page, m, a, 0xCC, 0x90, a + 1);
    PokeSame(page, open, a, 0xCC, 0x90, a);
    PokeSame(page, open, a, 0xCC, 0x90, a + 1);
    SetWritable(page, m, site.pageStart, site.pageLength, a);
    SetWritable(page, m, site.pageStart, site.pageLength, a + 1);
    SetAgain(page, m, site.pageStart, site.pageLength, OPEN, site.restore);
    assert TrapAt(Poke(m, a, 0xCC, 0x90), a);
    assert open == m ==> open.protections[PageOf(page, a)] == site.restore;
    hide Patch, PageOf, Poke, Writable;
  }

  // A patch request with the outcomes of its protection changes.
  datatype Request = Request(address: Address, unlock: bool, relock: bool)

  function PatchAll(page: PageSize, m: Memory, requests: seq<Request>): PatchState
    decreases |requests|
  {
    if requests == [] then PatchState(m, [], Patched)
    else
      var n := |requests| - 1;
      var s := PatchAll(page, m, requests[..n]);
      Patch(page, s.memory, s.log, requests[n].address, requests[n].unlock, requests[n].relock)
  }

  lemma FirstPage(page: PageSize)
    requires 2 < page < ADDRESS_LIMIT - 2
    ensures PageOf(page, 0) == PageOf(page, 1) == 0 && PageStart(page, 0) == 0 && PageEnd(page, 0) == page
  {
    var p: int := page;
    QuotientIs(0, 0, 0, p);
    QuotientIs(1, 0, 1, p);
    QuotientIs(p + 1, 1, 1, p);
    assert PageEnd(page, 0) == (p + 1) / p * p == p;
  }

  /** Address 0 is the one place where this fails: its entry is skipped. */
  lemma AddressZeroIsNotRestored(page: PageSize)
    requires 2 < page < ADDRESS_LIMIT - 2
    ensures exists m: Memory :: ZeroSiteLost(page, m)
  {
    var m := Memory(map[0 := 0x0F, 1 := 0x05], map[0 := OPEN]);
    FirstPage(page);
    hide PageOf, PageStart, PageEnd;
    var s := Patch(page, m, [], 0, true, true);
    assert s.outcome == Patched && s.memory.bytes[0] == 0xCC;
    SkippedEntry(page, s.memory, s.log[0]);
    assert s.log == [s.log[0]];
    assert ZeroSiteLost(page, m);
  }

  lemma SkippedEntry(page: PageSize, m: Memory, site: Site)
    requires site.address == 0
    ensures UndoAll(page, m, [site], _ => true, _ => true) == m
  {
    assert [site][..0] == [];
  }

  ghost predicate ZeroSiteLost(page: PageSize, m: Memory) {
    var s := Patch(page, m, [], 0, true, true);
    s.outcome == Patched && UndoAll(page, s.memory, s.log, _ => true, _ => true) != m
  }

  // ---- What patching changes ---------------------------------------------------------

  predicate InSite(log: seq<Site>, x: int) {
    exists k :: 0 <= k < |log| && log[k].address <= x <= log[k].address + 1
  }

  ghost predicate Disjoint(log: seq<Site>) {
    forall j, k :: 0 <= j < k < |log| ==> Apart(log[j].address, log[k].address)
  }

  // Logged sites hold the trap, everything else holds what it held before.
  ghost predicate BytesPatched(m: Memory, m': Memory, log: seq<Site>) {
    && m'.bytes.Keys == m.bytes.Keys
    && (forall k :: 0 <= k < |log| ==> TrapAt(m', log[k].address))
    && (forall x :: x in m.bytes && !InSite(log, x) ==> m'.bytes[x] == m.bytes[x])
  }

  /** Recorded sites never overlap, and patching changes no byte outside them. */
  lemma {:induction false} PatchingIsLocal(page: PageSize, m: Memory, requests: seq<Request>)
    ensures var s := PatchAll(page, m, requests);
            Disjoint(s.log) && BytesPatched(m, s.memory, s.log)
    decreases |requests|
  {
    if requests != [] {
      var n := |requests| - 1;
      PatchingIsLocal(page, m, requests[..n]);
      var s := PatchAll(page, m, requests[..n]);
      PatchIsLocal(page, m, s, requests[n]);
    }
  }

  predicate Apart(a: int, b: int) {
    a + 1 < b || b + 1 < a
  }

  lemma NewSiteApart(m: Memory, s: PatchState, a: Address, k: int)
    requires BytesPatched(m, s.memory, s.log) && SyscallAt(s.memory, a) && 0 <= k < |s.log|
    ensures Apart(s.log[k].address, a)
  {
    hide InSite;
    assert TrapAt(s.memory, s.log[k].address);
  }

  lemma InLonger(log: seq<Site>, site: Site, x: int)
    ensures InSite(log + [site], x) <==> InSite(log, x) || site.address <= x <= site.address + 1
  {
    var longer := log + [site];
    assert longer[|log|] == site;
    forall k | 0 <= k < |log| ensures longer[k] == log[k] {}
    if InSite(log, x) {
      var k :| 0 <= k < |log| && log[k].address <= x <= log[k].address + 1;
      assert longer[k] == log[k];
    }
  }

  // A new site becomes a trap; an older one, being apart from it, stays a trap.
  lemma TrapKept(m: Memory, m': Memory, site: Site, b: int)
    requires b != site.address ==> TrapAt(m, b) && Apart(b, site.address)
    requires m'.bytes == m.bytes[site.address := 0xCC][site.address + 1 := 0x90]
    ensures TrapAt(m', b)
  {
  }

  lemma OthersKept(m: Memory, s: PatchState, m': Memory, site: Site, x: int)
    requires BytesPatched(m, s.memory, s.log)
    requires m'.bytes == s.memory.bytes[site.address := 0xCC][site.address + 1 := 0x90]
    requires x in m.bytes && !InSite(s.log + [site], x)
    ensures x in m'.bytes && m'.bytes[x] == m.bytes[x]
  {
    InLonger(s.log, site, x);
    hide InSite;
  }

  lemma LoggedBytes(m: Memory, s: PatchState, m': Memory, site: Site)
    requires Disjoint(s.log) && BytesPatched(m, s.memory, s.log) && SyscallAt(s.memory, site.address)
    requires m'.bytes == s.memory.bytes[site.address := 0xCC][site.address + 1 := 0x90]
    ensures Disjoint(s.log + [site]) && BytesPatched(m, m', s.log + [site])
  {
    hide InSite;
    forall k | 0 <= k < |s.log| ensures Apart(s.log[k].address, site.address) {
      NewSiteApart(m, s, site.address, k);
    }
    hide Apart, TrapAt, SyscallAt;
    var log := s.log + [site];
    assert Disjoint(log);
    forall k | 0 <= k < |log| ensures TrapAt(m', log[k].address) {
      if k < |s.log| {
        assert TrapAt(s.memory, s.log[k].address) && Apart(s.log[k].address, site.address);
      }
      TrapKept(s.memory, m', site, log[k].address);
    }
    forall x | x in m.bytes && !InSite(log, x) ensures x in m'.bytes && m'.bytes[x] == m.bytes[x] {
      OthersKept(m, s, m', site, x);
    }
    assert m'.bytes.Keys == s.memory.bytes.Keys == m.bytes.Keys;
  }

  lemma PatchIsLocal(page: PageSize, m: Memory, s: PatchState, r: Request)
    requires Disjoint(s.log) && BytesPatched(m, s.memory, s.log)
    ensures var t := Patch(page, s.memory, s.log, r.address, r.unlock, r.relock);
            Disjoint(t.log) && BytesPatched(m, t.memory, t.log)
  {
    hide Disjoint, BytesPatched, Recorded, PageEnd, PageStart;
    var t := Patch(page, s.memory, s.log, r.address, r.unlock, r.relock);
    if t.log != s.log {
      LoggedBytes(m, s, t.memory, t.log[|s.log|]);
    }
  }

  /** Once every syscall of a code range is recorded, none is left in it. */
  lemma NoSyscallLeft(page: PageSize, m: Memory, requests: seq<Request>, from: int, to: int)
    requires forall x :: from <= x && x + 1 < to && SyscallAt(m, x) ==> InSite(PatchAll(page, m, requests).log, x)
    requires forall x :: from <= x < to ==> x in m.bytes
    ensures forall x :: from <= x && x + 1 < to ==> !SyscallAt(PatchAll(page, m, requests).memory, x)
  {
    PatchingIsLocal(page, m, requests);
    var s := PatchAll(page, m, requests);
    forall x | from <= x && x + 1 < to ensures !SyscallAt(s.memory, x) {
      NotInSite(m, s, x);
      NotInSite(m, s, x + 1);
    }
  }

  // A byte in a site is one half of the trap.
  lemma NotInSite(m: Memory, s: PatchState, x: int)
    requires BytesPatched(m, s.memory, s.log)
    ensures InSite(s.log, x) ==> x in s.memory.bytes && (s.memory.bytes[x] == 0xCC || s.memory.bytes[x] == 0x90)
    ensures !InSite(s.log, x) && x in m.bytes ==> x in s.memory.bytes && s.memory.bytes[x] == m.bytes[x]
  {
    if InSite(s.log, x) {
      var k :| 0 <= k < |s.log| && s.log[k].address <= x <= s.log[k].address + 1;
      assert TrapAt(s.memory, s.log[k].address);
    }
  }

  // ---- Exactly when uninstalling restores ------------------------------------------------

  // No undo ever writes byte 0: its own entry is skipped, the others lie higher.
  lemma {:induction false} UndoKeepsByteZero(page: PageSize, m: Memory, log: seq<Site>)
    requires 0 in m.bytes
    ensures 0 in UndoAll(page, m, log, _ => true, _ => true).bytes
    ensures UndoAll(page, m, log, _ => true, _ => true).bytes[0] == m.bytes[0]
    decreases |log|
  {
    if log != [] {
      var n := |log| - 1;
      UndoKeepsByteZero(page, Undo(page, m, log[n], true, true), log[..n]);
    }
  }

  lemma {:induction false} ZeroWasSyscall(page: PageSize, m: Memory, requests: seq<Request>)
    requires Recorded(PatchAll(page, m, requests).log, 0)
    ensures 0 in m.bytes && m.bytes[0] == 0x0F
    decreases |requests|
  {
    hide BytesPatched, Disjoint, SetPages;
    if requests != [] {
      var n := |requests| - 1;
      var s, r := PatchAll(page, m, requests[..n]), requests[n];
      if Recorded(s.log, 0) {
        ZeroWasSyscall(page, m, requests[..n]);
      } else {
        PatchingIsLocal(page, m, requests[..n]);
        assert r.address == 0 && SyscallAt(s.memory, 0);
        NotInSite(m, s, 0);
        KeysKept(m, s);
      }
    }
  }

  lemma KeysKept(m: Memory, s: PatchState)
    requires BytesPatched(m, s.memory, s.log)
    ensures s.memory.bytes.Keys == m.bytes.Keys
  {
  }

  lemma {:induction false} UnrecordedZeroRestores(page: PageSize, m: Memory, requests: seq<Request>)
    requires !Recorded(PatchAll(page, m, requests).log, 0)
    ensures var s := PatchAll(page, m, requests);
            UndoAll(page, s.memory, s.log, _ => true, _ => true) == m
    decreases |requests|
  {
    if requests != [] {
      var n := |requests| - 1;
      var s, r := PatchAll(page, m, requests[..n]), requests[n];
      var t := Patch(page, s.memory, s.log, r.address, r.unlock, r.relock);
      LogGrows(page, s, r);
      hide Patch, Undo, Recorded;
      UnrecordedZeroRestores(page, m, requests[..n]);
      if t.log != s.log {
        UndoInvertsPatch(page, s.memory, s.log, r.address, r.unlock, r.relock);
      }
    }
  }

  lemma LogGrows(page: PageSize, s: PatchState, r: Request)
    ensures var t := Patch(page, s.memory, s.log, r.address, r.unlock, r.relock);
            && (Recorded(s.log, 0) ==> Recorded(t.log, 0))
            && (t.log == s.log ==> t.memory == s.memory)
            && (t.log != s.log && !Recorded(t.log, 0) ==> r.address != 0)
  {
    hide SetPages, Poke;
    var t := Patch(page, s.memory, s.log, r.address, r.unlock, r.relock);
    if t.log != s.log {
      assert t.log[|s.log|].address == r.address;
      assert forall k :: 0 <= k < |s.log| ==> t.log[k] == s.log[k];
    }
  }

  /** Patch then uninstall gives back the memory exactly when no site at address 0
      was patched: whatever was requested, and whichever patch-time protection
      changes failed. */
  lemma UninstallRestoresIff(page: PageSize, m: Memory, requests: seq<Request>)
    ensures var s := PatchAll(page, m, requests);
            UndoAll(page, s.memory, s.log, _ => true, _ => true) == m <==> !Recorded(s.log, 0)
  {
    hide Patch, Undo, Disjoint;
    var s := PatchAll(page, m, requests);
    if Recorded(s.log, 0) {
      ZeroWasSyscall(page, m, requests);
      PatchingIsLocal(page, m, requests);
      var k :| 0 <= k < |s.log| && s.log[k].address == 0;
      assert TrapAt(s.memory, s.log[k].address);
      UndoKeepsByteZero(page, s.memory, s.log);
    } else {
      UnrecordedZeroRestores(page, m, requests);
    }
  }

  // ---- Patching what the scan found -----------------------------------------------------

  // The pages of the site are mapped, executable and equally protected.
  predicate Executable(page: PageSize, m: Memory, a: Address) {
    && a <= ADDRESS_LIMIT - 2 && PageEnd(page, a) > PageStart(page, a)
    && ProtectionAt(page, m, a) && ProtectionAt(page, m, a + 1)
    && m.protections[PageOf(page, a)] == m.protections[PageOf(page, a + 1)] && m.protections[PageOf(page, a)].execute
  }

  function RequestAll(sites: seq<Address>): seq<Request> {
    seq(|sites|, k requires 0 <= k < |sites| => Request(sites[k], true, true))
  }

  // With working protection changes, a patch leaves all protections as they were.
  lemma ProtectionsKept(page: PageSize, m: Memory, log: seq<Site>, a: Address)
    requires Executable(page, m, a) && SyscallAt(m, a) && !Recorded(log, a)
    ensures var s := Patch(page, m, log, a, true, true);
            s.outcome == Patched && s.memory.protections == m.protections && s.log[..|log|] == log &&
            |s.log| == |log| + 1 && s.log[|log|].address == a
  {
    hide SetPages, Poke, PageEnd, PageStart, PageOf, Recorded;
    SitePages(page, a);
    PageStep(page, a);
    var start, before := PageStart(page, a), m.protections[PageOf(page, a)];
    var length := PageEnd(page, a) - start;
    assert start + length == PageEnd(page, a);
    SetSame(page, m, start, length, before);
    SetThenPoke(page, SetPages(page, m, start, length, OPEN), start, length, before, a, 0xCC, 0x90);
    SetAgain(page, m, start, length, OPEN, before);
    PokeKeepsProtections(m, a, 0xCC, 0x90);
  }

  lemma PokeKeepsProtections(m: Memory, a: Address, first: Byte, second: Byte)
    ensures Poke(m, a, first, second).protections == m.protections
  {
  }

  // The log holds exactly these sites.
  predicate Logs(log: seq<Site>, sites: seq<Address>) {
    |log| == |sites| && forall k :: 0 <= k < |sites| ==> log[k].address == sites[k]
  }

  // A site after all logged ones still holds its instruction.
  lemma LaterSiteUntouched(m: Memory, s: PatchState, sites: seq<Address>, a: Address)
    requires BytesPatched(m, s.memory, s.log) && Logs(s.log, sites)
    requires forall k :: 0 <= k < |sites| ==> sites[k] as int + 2 <= a
    requires SyscallAt(m, a)
    ensures SyscallAt(s.memory, a) && !Recorded(s.log, a)
  {
    hide BytesPatched;
    NotInSite(m, s, a);
    NotInSite(m, s, a + 1);
  }

  /** Patching every site of an executable range, in scan order and with working
      protection changes, records exactly those sites. */
  lemma {:induction false} EverySiteRecorded(page: PageSize, m: Memory, sites: seq<Address>)
    requires forall k :: 0 <= k < |sites| ==> Executable(page, m, sites[k]) && SyscallAt(m, sites[k])
    requires forall j, k :: 0 <= j < k < |sites| ==> sites[j] as int + 2 <= sites[k]
    ensures var s := PatchAll(page, m, RequestAll(sites));
            s.memory.protections == m.protections && Logs(s.log, sites)
    decreases |sites|
  {
    hide Executable, SyscallAt, BytesPatched, Disjoint, Patch, Recorded;
    if sites != [] {
      var n := |sites| - 1;
      var earlier := sites[..n];
      EverySiteRecorded(page, m, earlier);
      assert RequestAll(sites)[..n] == RequestAll(earlier);
      PatchingIsLocal(page, m, RequestAll(earlier));
      var s := PatchAll(page, m, RequestAll(earlier));
      assert Executable(page, m, sites[n]) && SyscallAt(m, sites[n]);
      LaterSiteUntouched(m, s, earlier, sites[n]);
      SameProtections(page, m, s.memory, sites[n]);
      ProtectionsKept(page, s.memory, s.log, sites[n]);
      var t := Patch(page, s.memory, s.log, sites[n], true, true);
      assert PatchAll(page, m, RequestAll(sites)) == t;
      forall k | 0 <= k < |sites| ensures t.log[k].address == sites[k] {
        assert k < n ==> t.log[k] == t.log[..n][k] && sites[k] == earlier[k];
      }
    }
  }

  lemma SameProtections(page: PageSize, m: Memory, m': Memory, a: Address)
    requires m'.protections == m.protections
    ensures Executable(page, m, a) == Executable(page, m', a)
  {
  }

  /** Scanning and then patching an executable range leaves no syscall in it,
      changes no byte outside the sites and no protection. */
  lemma ScanThenPatchLeavesNone(page: PageSize, m: Memory, base: Address, code: seq<Byte>, sites: seq<Address>)
    requires forall x :: base <= x < base + |code| ==> x in m.bytes && m.bytes[x] == code[x - base]
    requires forall a: Address :: a in sites <==> IsSyscall(code, a - base)
    requires forall j, k :: 0 <= j < k < |sites| ==> sites[j] as int + 2 <= sites[k]
    requires base + |code| < ADDRESS_LIMIT
    requires forall a: Address :: a in sites ==> Executable(page, m, a)
    ensures var s := PatchAll(page, m, RequestAll(sites));
            && (forall x :: base <= x && x + 1 < base + |code| ==> !SyscallAt(s.memory, x))
            && s.memory.protections == m.protections && Logs(s.log, sites)
            && (forall x :: x in m.bytes && !InSite(s.log, x) ==> x in s.memory.bytes && s.memory.bytes[x] == m.bytes[x])
  {
    hide Executable, PatchAll;
    forall k | 0 <= k < |sites| ensures Executable(page, m, sites[k]) && SyscallAt(m, sites[k]) {
      assert sites[k] in sites;
      assert IsSyscall(code, sites[k] - base);
      var x: int := sites[k];
      assert x in m.bytes && x + 1 in m.bytes;
    }
    EverySiteRecorded(page, m, sites);
    var s := PatchAll(page, m, RequestAll(sites));
    forall x | base <= x && x + 1 < base + |code| && SyscallAt(m, x) ensures InSite(s.log, x) {
      var a: Address := x;
      assert IsSyscall(code, a - base);
      assert a in sites;
      var k :| 0 <= k < |sites| && sites[k] == a;
      assert s.log[k].address == a;
    }
    NoSyscallLeft(page, m, RequestAll(sites), base, base + |code|);
    PatchingIsLocal(page, m, RequestAll(sites));
  }

  // ---- The patcher ------------------------------------------------------------------------

  class TrapPatcher {
    const page: PageSize
    var memory: Memory
    const patches: array<Site>
    var patchCount: nat

    ghost predicate Valid()
      reads `patchCount
    {
      patches.Length == MAX_SITES && patchCount <= MAX_SITES
    }

    ghost function Log(): seq<Site>
      reads `patchCount, patches
      requires Valid()
    {
      patches[..patchCount]
    }

    constructor (page: PageSize, memory: Memory)
      ensures Valid() && this.page == page && this.memory == memory && Log() == [] && fresh(patches)
    {
      this.page, this.memory, patchCount := page, memory, 0;
      patches := new Site[MAX_SITES](_ => Site(0, 0, 0, OPEN));
    }

    method HasPatchedSite(address: Address) returns (found: bool)
      requires Valid()
      ensures found == Recorded(Log(), address)
    {
      for index := 0 to patchCount
        invariant forall k :: 0 <= k < index ==> patches[k].address != address
      {
        if patches[index].address == address {
          assert Log()[index].address == address;
          return true;
        }
      }
      return false;
    }

    method Protect(start: int, length: int, p: Protection, works: bool)
      modifies `memory
      ensures memory == if works then SetPages(page, old(memory), start, length, p) else old(memory)
    {
      if works {
        memory := SetPages(page, memory, start, length, p);
      }
    }

    /** One patch request; `again` is the success of the protection change that a
        full log leads to. */
    method PatchMemory(address: Address, unlock: bool, relock: bool, again: bool) returns (outcome: Outcome)
      requires Valid()
      modifies `memory, `patchCount, patches
      ensures Valid()
      ensures PatchState(memory, Log(), outcome) == Attempt(page, old(memory), old(Log()), address, unlock, relock, again)
    {
      if address > ADDRESS_LIMIT - 2 {
        return AddressOverflow;
      }
      var known := HasPatchedSite(address);
      if known {
        return AlreadyPatched;
      }
      if !ProtectionAt(page, memory, address) || !ProtectionAt(page, memory, address + 1) {
        return NotExecutable;
      }
      var first, second := memory.protections[PageOf(page, address)], memory.protections[PageOf(page, address + 1)];
      if first != second || !first.execute {
        return NotExecutable;
      }
      if address !in memory.bytes || address + 1 !in memory.bytes ||
         memory.bytes[address] != 0x0F || memory.bytes[address + 1] != 0x05 {
        return NotSyscall;
      }
      var pageStart, pageEnd := PageStart(page, address), PageEnd(page, address);
      if pageEnd <= pageStart {
        return RangeOverflow;
      }
      var pageLength := pageEnd - pageStart;
      if !unlock {
        return UnlockFailed;
      }
      Protect(pageStart, pageLength, OPEN, true);
      memory := Poke(memory, address, 0xCC, 0x90);
      Protect(pageStart, pageLength, first, relock);
      if patchCount >= MAX_SITES {
        if !Writable(page, memory, address) || !Writable(page, memory, address + 1) {
          return WriteFault;
        }
        memory := Poke(memory, address, 0x0F, 0x05);
        Protect(pageStart, pageLength, first, again);
        return LogFull;
      }
      patches[patchCount] := Site(address, pageStart, pageLength, first);
      patchCount := patchCount + 1;
      assert Log() == old(Log()) + [Site(address, pageStart, pageLength, first)];
      return if relock then Patched else RelockFailed;
    }

    /** Undoes the log, newest entry first, and empties it. */
    method RestorePatchedSites(unlock: int -> bool, relock: int -> bool)
      requires Valid()
      modifies `memory, `patchCount
      ensures Valid() && Log() == []
      ensures memory == UndoAll(page, old(memory), old(Log()), unlock, relock)
    {
      var index := patchCount;
      patchCount := 0;
      ghost var log := old(Log());
      assert log == log[..index];
      while index > 0
        invariant index <= |log| && Valid() && patchCount == 0
        invariant log == old(patches[..patchCount])
        invariant UndoAll(page, memory, log[..index], unlock, relock) == UndoAll(page, old(memory), log, unlock, relock)
      {
        index := index - 1;
        var patch := patches[index];
        assert patch == log[index] && log[..index + 1][..index] == log[..index];
        if patch.address != 0 && patch.pageLength != 0 && unlock(index) {
          Protect(patch.pageStart, patch.pageLength, OPEN, true);
          memory := Poke(memory, patch.address, 0x0F, 0x05);
          Protect(patch.pageStart, patch.pageLength, patch.restore, relock(index));
        }
      }
    }
  }
}

/** Mapping a load plan into host memory: every segment or nothing. */
module ElfMapper {

  import opened Common
  import opened ElfPlan
  import opened MemoryManager

  datatype Mapping = Mapping(host: Word, guest: Word, size: Word, executable: bool)

  datatype MapError = InvalidSize | FileRange | AllocationFailed | ProtectionFailed | NoEntry

  function ProtectionFor(flags: Flags): Protection {
    if flags.execute then ReadExecute else if flags.write then ReadWrite else Read
  }

  // The size checks the mapper makes for itself.
  function CheckSegment(image: Image, s: Segment): (r: Option<MapError>)
    ensures r.Some? ==> r.value.InvalidSize? || r.value.FileRange?
  {
    if s.memorySize == 0 || s.fileSize > s.memorySize then Some(InvalidSize)
    else if !RangeWithin(s.fileOffset, s.fileSize, |image|) then Some(FileRange)
    else None
  }

  /** An accepted plan meets all of the mapper's checks but one: a segment without
      memory. */
  lemma AcceptedPlansFit(image: Image, j: nat)
    requires Inspected(image).Accepted? && j < |Inspected(image).plan.segments|
    ensures var s := Inspected(image).plan.segments[j];
            CheckSegment(image, s) == if s.memorySize == 0 then Some(InvalidSize) else None
  {
    AcceptedIff(image);
  }

  // ---- The allocation table --------------------------------------------------------------

  // Releasing mappings, last one first; an entry that is not owned is skipped.
  function ReleaseAll(page: PageSize, table: map<Word, Word>, mappings: seq<Mapping>, works: int -> bool): map<Word, Word>
    decreases |mappings|
  {
    if mappings == [] then table
    else
      var n := |mappings| - 1;
      var m := mappings[n];
      ReleaseAll(page, if works(n) && Owns(page, table, m.host, m.size) then table - {m.host} else table, mappings[..n], works)
  }

  function AllWork(): int -> bool {
    _ => true
  }

  // The table after these mappings were allocated one by one, each at a new address.
  ghost predicate Grown(page: PageSize, before: map<Word, Word>, mappings: seq<Mapping>, after: map<Word, Word>) {
    if mappings == [] then after == before
    else
      var n := |mappings| - 1;
      var m := mappings[n];
      m.host in after && after[m.host] == RoundToPage(page, m.size) &&
      m.host !in after - {m.host} && Grown(page, before, mappings[..n], after - {m.host})
  }

  lemma GrownMore(page: PageSize, before: map<Word, Word>, mappings: seq<Mapping>, after: map<Word, Word>, m: Mapping)
    requires Grown(page, before, mappings, after) && m.host !in after
    ensures Grown(page, before, mappings + [m], after[m.host := RoundToPage(page, m.size)])
  {
    hide RoundToPage;
    assert (mappings + [m])[..|mappings|] == mappings;
    assert after[m.host := RoundToPage(page, m.size)] - {m.host} == after;
  }

  /** Releasing undoes the growth. */
  lemma {:induction false} ReleaseUndoes(page: PageSize, before: map<Word, Word>, mappings: seq<Mapping>, after: map<Word, Word>)
    requires Grown(page, before, mappings, after)
    ensures ReleaseAll(page, after, mappings, AllWork()) == before
    decreases |mappings|
  {
    hide RoundToPage;
    if mappings != [] {
      var n := |mappings| - 1;
      ReleaseUndoes(page, before, mappings[..n], after - {mappings[n].host});
    }
  }

  // ---- What a mapped segment is ------------------------------------------------------------

  function SegmentByte(image: Image, s: Segment, k: nat): Byte
    requires s.fileOffset + s.fileSize <= |image|
  {
    if k < s.fileSize then image[s.fileOffset + k] else 0
  }

  // File bytes, then zeros; and the final protection on all pages of the block.
  ghost predicate Loaded(page: PageSize, image: Image, s: Segment, m: Mapping, contents: int -> Byte, protections: int -> Protection) {
    && s.fileSize <= s.memorySize && s.fileOffset + s.fileSize <= |image|
    && m.host > 0 && m.guest == s.virtualAddress && m.size == s.memorySize > 0 && m.executable == s.flags.execute
    && s.memorySize <= RoundToPage(page, s.memorySize)
    && (forall k: nat :: k < s.memorySize ==> contents(m.host + k) == SegmentByte(image, s, k))
    && (forall x {:trigger protections(x)} :: Within(x, m.host, RoundToPage(page, m.size)) ==>
          protections(x) == ProtectionFor(s.flags))
  }

  // Every page of the block can be read, can be executed exactly if the segment asks
  // for that, and written exactly if it asks for that and not for execution.
  ghost predicate Grants(page: PageSize, s: Segment, m: Mapping, protections: int -> Protection) {
    forall x {:trigger protections(x)} :: Within(x, m.host, RoundToPage(page, m.size)) ==>
      && MayRead(protections(x))
      && (MayExecute(protections(x)) <==> s.flags.execute)
      && (MayWrite(protections(x)) <==> s.flags.write && !s.flags.execute)
  }

  lemma LoadedGrants(page: PageSize, image: Image, s: Segment, m: Mapping, contents: int -> Byte, protections: int -> Protection)
    requires Loaded(page, image, s, m, contents, protections)
    ensures Grants(page, s, m, protections)
  {
    hide RoundToPage;
  }

  lemma AllGranted(page: PageSize, image: Image, segments: seq<Segment>, mappings: seq<Mapping>,
      contents: int -> Byte, protections: int -> Protection)
    requires AllLoaded(page, image, segments, mappings, contents, protections)
    ensures forall j :: 0 <= j < |mappings| ==> Grants(page, segments[j], mappings[j], protections)
  {
    hide Loaded, Grants;
    forall j | 0 <= j < |mappings| ensures Grants(page, segments[j], mappings[j], protections) {
      LoadedGrants(page, image, segments[j], mappings[j], contents, protections);
    }
  }

  predicate Covers(s: Segment, entry: Word) {
    s.flags.execute && s.virtualAddress <= entry < s.virtualAddress + s.memorySize
  }

  // The host image of the entry in the last executable segment that covers it, or 0.
  function HostEntry(entry: Word, segments: seq<Segment>, mappings: seq<Mapping>): int
    requires |segments| == |mappings|
  {
    if segments == [] then 0
    else
      var n := |segments| - 1;
      if Covers(segments[n], entry) then mappings[n].host + (entry - segments[n].virtualAddress)
      else HostEntry(entry, segments[..n], mappings[..n])
  }

  ghost predicate AllLoaded(page: PageSize, image: Image, segments: seq<Segment>, mappings: seq<Mapping>,
      contents: int -> Byte, protections: int -> Protection): (all: bool)
    ensures all ==> |segments| == |mappings|
    ensures segments == [] && mappings == [] ==> all
  {
    |segments| == |mappings| &&
    forall j :: 0 <= j < |mappings| ==> Loaded(page, image, segments[j], mappings[j], contents, protections)
  }

  // Each mapping is a block of the table.
  ghost predicate InTable(page: PageSize, mappings: seq<Mapping>, table: map<Word, Word>): (all: bool)
    ensures mappings == [] ==> all
  {
    forall j :: 0 <= j < |mappings| ==>
      mappings[j].host in table && table[mappings[j].host] == RoundToPage(page, mappings[j].size)
  }

  // A change confined to a new block leaves the loaded segments as they are.
  lemma LoadedKeeps(page: PageSize, image: Image, s: Segment, m: Mapping, contents: int -> Byte, protections: int -> Protection,
      contents': int -> Byte, protections': int -> Protection, start: int, length: int)
    requires Loaded(page, image, s, m, contents, protections)
    requires Apart(m.host, RoundToPage(page, m.size), start, length)
    requires forall x {:trigger contents'(x)} :: !Within(x, start, length) ==> contents'(x) == contents(x)
    requires forall x {:trigger protections'(x)} :: !Within(x, start, length) ==> protections'(x) == protections(x)
    ensures Loaded(page, image, s, m, contents', protections')
  {
    hide RoundToPage;
  }

  class Mapper {
    var mappings: seq<Mapping>
    var entryPoint: int
    var owner: VirtualMemoryManager?

    ghost predicate Valid()
      reads this, owner
    {
      if owner == null then mappings == [] else owner.Valid()
    }

    constructor ()
      ensures Valid() && mappings == [] && entryPoint == 0
    {
      mappings, entryPoint, owner := [], 0, null;
    }

    /** Releases all mappings, last one first, and forgets them in any case. */
    method ReleaseMappings(works: int -> bool) returns (success: bool)
      requires Valid()
      modifies this, owner
      ensures mappings == [] && entryPoint == 0 && owner == null
      ensures var manager := old(owner);
              manager != null ==>
                && manager.Valid() && manager.contents == old(manager.contents) && manager.protections == old(manager.protections)
                && manager.allocations == ReleaseAll(manager.page, old(manager.allocations), old(mappings), works)
    {
      hide RoundToPage, Total;
      success := true;
      var index := |mappings|;
      assert mappings[..index] == mappings;
      while index > 0
        invariant index <= |mappings| && mappings == old(mappings) && owner == old(owner) && Valid()
        invariant owner != null ==>
                    ReleaseAll(owner.page, owner.allocations, mappings[..index], works) ==
                    ReleaseAll(owner.page, old(owner.allocations), mappings, works)
        invariant owner != null ==> owner.contents == old(owner.contents) && owner.protections == old(owner.protections)
      {
        index := index - 1;
        assert mappings[..index + 1][..index] == mappings[..index];
        var released := owner.Release(mappings[index].host, mappings[index].size, works(index));
        success := success && released;
      }
      mappings, entryPoint, owner := [], 0, null;
    }

    // The copy of the file bytes, then the zeros behind them.
    static method Fill(image: Image, s: Segment, memory: VirtualMemoryManager, host: Word)
      requires s.fileOffset + s.fileSize <= |image| && s.fileSize <= s.memorySize
      modifies memory`contents
      ensures forall x {:trigger memory.contents(x)} :: memory.contents(x) ==
                if Within(x, host, s.memorySize) then SegmentByte(image, s, x - host) else old(memory.contents)(x)
    {
      if s.fileSize > 0 {
        memory.Store(host, image[s.fileOffset..s.fileOffset + s.fileSize]);
      }
      if s.memorySize > s.fileSize {
        memory.Store(host + s.fileSize, seq(s.memorySize - s.fileSize, _ => 0));
      }
    }

    /** One turn of the mapping loop: a new block with the segment in it, or an
        error and, if the release works, the table as it was. */
    static method LoadSegment(image: Image, s: Segment, memory: VirtualMemoryManager, undo: bool)
      returns (error: Option<MapError>, host: Word)
      requires memory.Valid()
      modifies memory
      ensures memory.Valid()
      ensures CheckSegment(image, s).Some? ==> error == CheckSegment(image, s)
      ensures error.Some? ==> error == CheckSegment(image, s) || error.value in {AllocationFailed, ProtectionFailed}
      ensures error.Some? && undo ==> memory.allocations == old(memory.allocations)
      ensures error.None? ==>
                && host !in old(memory.allocations)
                && memory.allocations == old(memory.allocations)[host := RoundToPage(memory.page, s.memorySize)]
                && Loaded(memory.page, image, s, MappingOf(s, host), memory.contents, memory.protections)
      ensures error.None? ==>
                && (forall x {:trigger memory.contents(x)} :: !Within(x, host, RoundToPage(memory.page, s.memorySize)) ==>
                      memory.contents(x) == old(memory.contents)(x))
                && (forall x {:trigger memory.protections(x)} :: !Within(x, host, RoundToPage(memory.page, s.memorySize)) ==>
                      memory.protections(x) == old(memory.protections)(x))
    {
      hide Total;
      host := 0;
      if s.memorySize == 0 || s.fileSize > s.memorySize {
        return Some(InvalidSize), 0;
      }
      if !RangeWithin(s.fileOffset, s.fileSize, |image|) {
        return Some(FileRange), 0;
      }
      host := memory.Allocate(s.memorySize, ReadWrite);
      if host == 0 {
        return Some(AllocationFailed), 0;
      }
      RoundFits(memory.page, s.memorySize);
      hide RoundToPage;
      Fill(image, s, memory, host);
      var protected := memory.Protect(host, s.memorySize, ProtectionFor(s.flags));
      if !protected {
        var released := memory.Release(host, s.memorySize, undo);
        assert old(memory.allocations)[host := RoundToPage(memory.page, s.memorySize)] - {host} == old(memory.allocations);
        return Some(ProtectionFailed), 0;
      }
      return None, host;
    }

    /** Maps every segment of the plan or leaves the table as the initial unmapping
        left it. `unmapping` and `undo` say which releases work. */
    method Map(image: Image, plan: Plan, memory: VirtualMemoryManager, unmapping: int -> bool, undo: bool)
      returns (error: Option<MapError>)
      requires Valid() && memory.Valid()
      modifies this, owner, memory
      ensures memory.Valid()
      ensures error.None? ==>
                && Valid() && owner == memory && |mappings| == |plan.segments|
                && entryPoint == HostEntry(plan.entryPoint, plan.segments, mappings) != 0
                && Grown(memory.page, Unmapped(old(owner) == memory, memory.page, old(memory.allocations), old(mappings), unmapping),
                         mappings, memory.allocations)
                && AllLoaded(memory.page, image, plan.segments, mappings, memory.contents, memory.protections)
                && (forall j :: 0 <= j < |mappings| ==>
                      Grants(memory.page, plan.segments[j], mappings[j], memory.protections))
      ensures error.Some? ==> mappings == [] && entryPoint == 0 && owner == null
      ensures error.Some? && undo ==>
                memory.allocations ==
                Unmapped(old(owner) == memory, memory.page, old(memory.allocations), old(mappings), unmapping)
      ensures ErrorFits(image, plan, error)
    {
      hide RoundToPage, Total, Loaded, Grants, Grown, ReleaseAll, AllLoaded, InTable, Covers, CheckSegment, BlocksSized;
      var same := owner == memory;
      var _ := ReleaseMappings(unmapping);
      ghost var before := memory.allocations;
      assert before == Unmapped(same, memory.page, old(memory.allocations), old(mappings), unmapping);
      owner, entryPoint := memory, 0;
      GrownNothing(memory.page, before);
      for i := 0 to |plan.segments|
        invariant owner == memory && memory.Valid() && |mappings| == i
        invariant Grown(memory.page, before, mappings, memory.allocations)
        invariant InTable(memory.page, mappings, memory.allocations)
        invariant AllLoaded(memory.page, image, plan.segments[..i], mappings, memory.contents, memory.protections)
        invariant entryPoint == HostEntry(plan.entryPoint, plan.segments[..i], mappings)
        invariant forall j :: 0 <= j < i ==> CheckSegment(image, plan.segments[j]).None?
      {
        var s := plan.segments[i];
        ghost var table, contents, protections := memory.allocations, memory.contents, memory.protections;
        var failure, host := LoadSegment(image, s, memory, undo);
        if failure.Some? {
          Abort(memory, undo, before);
          return failure;
        }
        GrownMore(memory.page, before, mappings, table, MappingOf(s, host));
        EarlierKept(memory.page, image, plan.segments[..i], mappings, table, contents, protections, memory, host, s.memorySize);
        assert plan.segments[..i + 1] == plan.segments[..i] + [s];
        LoadedMore(memory, image, plan.segments[..i], mappings, s, MappingOf(s, host));
        EntryMore(plan.entryPoint, plan.segments[..i], mappings, s, MappingOf(s, host));
        mappings := mappings + [MappingOf(s, host)];
        CoversExactly(s, plan.entryPoint);
        if s.flags.execute && plan.entryPoint >= s.virtualAddress && plan.entryPoint - s.virtualAddress < s.memorySize {
          entryPoint := host + (plan.entryPoint - s.virtualAddress);
        }
      }
      assert plan.segments[..|plan.segments|] == plan.segments;
      EntryIff(plan.entryPoint, memory.page, image, plan.segments, mappings, memory.contents, memory.protections);
      if entryPoint == 0 {
        Abort(memory, undo, before);
        return Some(NoEntry);
      }
      AllGranted(memory.page, image, plan.segments, mappings, memory.contents, memory.protections);
      return None;
    }

    // Every failing exit: releases what this call has mapped so far.
    method Abort(memory: VirtualMemoryManager, undo: bool, ghost before: map<Word, Word>)
      requires Valid() && owner == memory && memory.Valid()
      requires undo ==> Grown(memory.page, before, mappings, memory.allocations)
      modifies this, memory
      ensures memory.Valid() && mappings == [] && entryPoint == 0 && owner == null
      ensures undo ==> memory.allocations == before
    {
      if undo {
        ReleaseUndoes(memory.page, before, mappings, memory.allocations);
      }
      var _ := ReleaseMappings(if undo then AllWork() else _ => false);
    }
  }

  // The table after the unmapping a new map call begins with.
  function Unmapped(same: bool, page: PageSize, table: map<Word, Word>, mappings: seq<Mapping>, works: int -> bool): map<Word, Word> {
    if same then ReleaseAll(page, table, mappings, works) else table
  }

  // Which error a map call may report: the first failing check decides, and only
  // the system can fail otherwise.
  ghost predicate ErrorFits(image: Image, plan: Plan, error: Option<MapError>) {
    match error
    case None => (forall s :: s in plan.segments ==> CheckSegment(image, s).None?) && exists s :: s in plan.segments && Covers(s, plan.entryPoint)
    case Some(NoEntry) => (forall s :: s in plan.segments ==> CheckSegment(image, s).None? && !Covers(s, plan.entryPoint))
    case Some(AllocationFailed) => true
    case Some(ProtectionFailed) => true
    case Some(e) => FirstFailure(image, plan.segments, e)
  }

  ghost predicate FirstFailure(image: Image, segments: seq<Segment>, e: MapError) {
    exists i :: 0 <= i < |segments| && CheckSegment(image, segments[i]) == Some(e) &&
                forall j :: 0 <= j < i ==> CheckSegment(image, segments[j]).None?
  }

  lemma CoversExactly(s: Segment, entry: Word)
    ensures Covers(s, entry) <==> s.flags.execute && entry >= s.virtualAddress && entry - s.virtualAddress < s.memorySize
  {
  }

  lemma GrownNothing(page: PageSize, before: map<Word, Word>)
    ensures Grown(page, before, [], before)
  {
  }

  lemma LoadedMore(memory: VirtualMemoryManager, image: Image, segments: seq<Segment>, mappings: seq<Mapping>, s: Segment, m: Mapping)
    requires AllLoaded(memory.page, image, segments, mappings, memory.contents, memory.protections)
    requires Loaded(memory.page, image, s, m, memory.contents, memory.protections)
    requires InTable(memory.page, mappings, memory.allocations)
    requires m.host in memory.allocations && memory.allocations[m.host] == RoundToPage(memory.page, m.size)
    ensures AllLoaded(memory.page, image, segments + [s], mappings + [m], memory.contents, memory.protections)
    ensures InTable(memory.page, mappings + [m], memory.allocations)
  {
    hide Loaded, RoundToPage;
  }

  lemma EntryMore(entry: Word, segments: seq<Segment>, mappings: seq<Mapping>, s: Segment, m: Mapping)
    requires |segments| == |mappings|
    ensures HostEntry(entry, segments + [s], mappings + [m]) ==
            if Covers(s, entry) then m.host + (entry - s.virtualAddress) else HostEntry(entry, segments, mappings)
  {
    assert (segments + [s])[..|segments|] == segments && (mappings + [m])[..|mappings|] == mappings;
  }

  lemma {:induction false} EntryIff(entry: Word, page: PageSize, image: Image, segments: seq<Segment>, mappings: seq<Mapping>,
      contents: int -> Byte, protections: int -> Protection)
    requires AllLoaded(page, image, segments, mappings, contents, protections)
    ensures HostEntry(entry, segments, mappings) != 0 <==> exists s :: s in segments && Covers(s, entry)
  {
    if segments != [] {
      var n := |segments| - 1;
      EntryIff(entry, page, image, segments[..n], mappings[..n], contents, protections);
      assert Loaded(page, image, segments[n], mappings[n], contents, protections);
      assert segments == segments[..n] + [segments[n]];
    }
  }

  // The segments loaded before a new block was added are still loaded.
  lemma EarlierKept(page: PageSize, image: Image, segments: seq<Segment>, mappings: seq<Mapping>, table: map<Word, Word>,
      contents: int -> Byte, protections: int -> Protection, memory: VirtualMemoryManager, host: Word, size: Word)
    requires AllLoaded(page, image, segments, mappings, contents, protections) && InTable(page, mappings, table)
    requires memory.page == page && host !in table && memory.allocations == table[host := RoundToPage(page, size)]
    requires AllApart(memory.allocations)
    requires forall x {:trigger memory.contents(x)} :: !Within(x, host, RoundToPage(page, size)) ==> memory.contents(x) == contents(x)
    requires forall x {:trigger memory.protections(x)} :: !Within(x, host, RoundToPage(page, size)) ==>
               memory.protections(x) == protections(x)
    ensures AllLoaded(page, image, segments, mappings, memory.contents, memory.protections)
    ensures InTable(page, mappings, memory.allocations)
  {
    hide RoundToPage, Loaded;
    forall j | 0 <= j < |mappings| ensures Loaded(page, image, segments[j], mappings[j], memory.contents, memory.protections) {
      var h := mappings[j].host;
      assert h in table && h != host && memory.allocations[h] == RoundToPage(page, mappings[j].size);
      assert Apart(h, memory.allocations[h], host, memory.allocations[host]);
      LoadedKeeps(page, image, segments[j], mappings[j], contents, protections, memory.contents, memory.protections,
                  host, RoundToPage(page, size));
    }
  }

  function MappingOf(s: Segment, host: Word): Mapping {
    Mapping(host, s.virtualAddress, s.memorySize, s.flags.execute)
  }
}

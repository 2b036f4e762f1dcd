/** Reading an ELF64 image into a load plan: every check of the loader, on raw
    bytes, and what an accepted plan guarantees to the mapper. */
module ElfPlan {

  import opened Arithmetic
  import opened Common
  import opened MemoryManager

  const HEADER_SIZE := 64
  const PROGRAM_HEADER_SIZE := 56

  // An image the host can hold.
  type Image = s: seq<Byte> | |s| < WORD

  datatype Flags = Flags(execute: bool, write: bool, read: bool)

  datatype Segment = Segment(
    fileOffset: Word, virtualAddress: Word, fileSize: Word, memorySize: Word, alignment: Word, flags: Flags)

  datatype Plan = Plan(machine: nat, entryPoint: Word, segments: seq<Segment>)

  datatype PlanError =
    | ImageTooSmall | NotElf64 | BadVersion | BadTable | TableOutside
    | SegmentOutside | BadAlignment | AddressOverflow | NoSegments

  datatype Inspection = Accepted(plan: Plan) | Rejected(error: PlanError)

  // ---- Fields of the image ---------------------------------------------------------------

  // Little-endian words at a byte offset.
  function Half(image: Image, at: nat): (r: nat)
    requires at + 2 <= |image|
    ensures r < 0x1_0000
  {
    (image[at] as int) + 0x100 * (image[at + 1] as int)
  }

  function Quad(image: Image, at: nat): (r: nat)
    requires at + 4 <= |image|
    ensures r < 0x1_0000_0000
  {
    Half(image, at) + 0x1_0000 * Half(image, at + 2)
  }

  function Long(image: Image, at: nat): (r: Word)
    requires at + 8 <= |image|
  {
    Quad(image, at) + 0x1_0000_0000 * Quad(image, at + 4)
  }

  predicate RangeWithin(offset: Word, size: Word, total: Word) {
    offset <= total && size <= total - offset
  }

  // ---- The alignment mask ------------------------------------------------------------------

  // Bitwise conjunction of naturals.
  function And(a: nat, b: nat): nat {
    if a == 0 || b == 0 then 0 else (a % 2) * (b % 2) + 2 * And(a / 2, b / 2)
  }

  function PowerOf2(k: nat): nat {
    if k == 0 then 1 else 2 * PowerOf2(k - 1)
  }

  predicate IsPowerOf2(a: nat) {
    exists k: nat {:trigger PowerOf2(k)} :: k <= a && a == PowerOf2(k)
  }

  lemma {:induction false} AndSelf(a: nat)
    ensures And(a, a) == a
  {
    if a > 0 { AndSelf(a / 2); }
  }

  lemma {:induction false} PowerGrows(k: nat)
    ensures PowerOf2(k) > k
  {
    if k > 0 { PowerGrows(k - 1); }
  }

  /** The mask test passes exactly for zero and the powers of two. */
  lemma {:induction false} MaskTest(a: nat)
    requires a > 0
    ensures And(a, a - 1) == 0 <==> IsPowerOf2(a)
  {
    if a % 2 == 1 {
      AndSelf(a / 2);
      assert (a - 1) / 2 == a / 2;
      if a == 1 {
        assert PowerOf2(0) == 1;
      } else {
        forall k: nat | k <= a ensures a != PowerOf2(k) {
          assert k > 0 ==> PowerOf2(k) % 2 == 0;
        }
      }
    } else {
      MaskTest(a / 2);
      assert (a - 1) / 2 == a / 2 - 1;
      if IsPowerOf2(a / 2) {
        var k: nat :| k <= a / 2 && a / 2 == PowerOf2(k);
        assert PowerOf2(k + 1) == a;
      }
      if IsPowerOf2(a) {
        var k: nat :| k <= a && a == PowerOf2(k);
        assert k > 0;
        PowerGrows(k - 1);
        assert a / 2 == PowerOf2(k - 1);
      }
    }
  }

  // ---- Program headers -----------------------------------------------------------------------

  // The header table lies inside the image.
  predicate TableInside(image: Image, table: Word, count: nat) {
    table + PROGRAM_HEADER_SIZE * count <= |image|
  }

  predicate IsLoad(image: Image, at: nat)
    requires at + PROGRAM_HEADER_SIZE <= |image|
  {
    Quad(image, at) == 1
  }

  function SegmentAt(image: Image, at: nat): Segment
    requires at + PROGRAM_HEADER_SIZE <= |image|
  {
    var flags := Quad(image, at + 4);
    Segment(Long(image, at + 8), Long(image, at + 16), Long(image, at + 32), Long(image, at + 40), Long(image, at + 48),
            Flags(flags % 2 == 1, flags / 2 % 2 == 1, flags / 4 % 2 == 1))
  }

  /** The lowest three bits of the flag word are the flags, whatever stands above them. */
  lemma SegmentFlags(image: Image, at: nat, execute: bool, write: bool, read: bool, above: nat)
    requires at + PROGRAM_HEADER_SIZE <= |image|
    requires Quad(image, at + 4) == (if execute then 1 else 0) + (if write then 2 else 0) + (if read then 4 else 0) + 8 * above
    ensures SegmentAt(image, at).flags == Flags(execute, write, read)
  {
    hide Quad, Long;
    LowBits(Quad(image, at + 4), execute, write, read, above);
  }

  lemma LowBits(flags: int, execute: bool, write: bool, read: bool, above: nat)
    requires flags == (if execute then 1 else 0) + (if write then 2 else 0) + (if read then 4 else 0) + 8 * above
    ensures (flags % 2 == 1) == execute && (flags / 2 % 2 == 1) == write && (flags / 4 % 2 == 1) == read
  {
    var e, w, r := if execute then 1 else 0, if write then 1 else 0, if read then 1 else 0;
    QuotientIs(flags, w + 2 * r + 4 * above, e, 2);
    QuotientIs(w + 2 * r + 4 * above, r + 2 * above, w, 2);
    QuotientIs(flags, r + 2 * above, e + 2 * w, 4);
    QuotientIs(r + 2 * above, above, r, 2);
  }

  function SegmentError(image: Image, s: Segment): Option<PlanError> {
    if s.fileSize > s.memorySize || !RangeWithin(s.fileOffset, s.fileSize, |image|) then Some(SegmentOutside)
    else if s.alignment != 0 && And(s.alignment, s.alignment - 1) != 0 then Some(BadAlignment)
    else if s.virtualAddress > WORD - 1 - s.memorySize then Some(AddressOverflow)
    else None
  }

  datatype Collected = Segments(segments: seq<Segment>) | Bad(error: PlanError)

  function EntryAt(table: Word, k: nat): nat {
    table + PROGRAM_HEADER_SIZE * k
  }

  // The first n headers, up to the first bad one.
  function Collect(image: Image, table: Word, n: nat): Collected
    requires TableInside(image, table, n)
  {
    if n == 0 then Segments([])
    else
      match Collect(image, table, n - 1)
      case Bad(e) => Bad(e)
      case Segments(found) =>
        var at := EntryAt(table, n - 1);
        if !IsLoad(image, at) then Segments(found)
        else
          match SegmentError(image, SegmentAt(image, at))
          case Some(e) => Bad(e)
          case None => Segments(found + [SegmentAt(image, at)])
  }

  function HeaderError(image: Image): Option<PlanError> {
    if |image| < HEADER_SIZE then Some(ImageTooSmall)
    else if image[..6] != [0x7F, 0x45, 0x4C, 0x46, 2, 1] then Some(NotElf64)
    else if image[6] != 1 || Quad(image, 20) != 1 || Half(image, 52) < HEADER_SIZE then Some(BadVersion)
    else if Half(image, 54) != PROGRAM_HEADER_SIZE || Half(image, 56) == 0 then Some(BadTable)
    else if !RangeWithin(Long(image, 32), PROGRAM_HEADER_SIZE * Half(image, 56), |image|) then Some(TableOutside)
    else None
  }

  function Inspected(image: Image): Inspection {
    match HeaderError(image)
    case Some(e) => Rejected(e)
    case None =>
      match Collect(image, Long(image, 32), Half(image, 56))
      case Bad(e) => Rejected(e)
      case Segments(found) =>
        if found == [] then Rejected(NoSegments)
        else Accepted(Plan(Half(image, 18), Long(image, 24), found))
  }

  lemma {:induction false} BadStays(image: Image, table: Word, n: nat, count: nat)
    requires n <= count && TableInside(image, table, count) && Collect(image, table, n).Bad?
    ensures Collect(image, table, count) == Collect(image, table, n)
    decreases count
  {
    if n < count { BadStays(image, table, n, count - 1); }
  }

  lemma InsideTable(image: Image)
    requires HeaderError(image).None?
    ensures TableInside(image, Long(image, 32), Half(image, 56))
  {
  }

  /** The loader: reads only inside the image, stops at the first bad header. */
  method Inspect(image: Image) returns (result: Inspection)
    ensures result == Inspected(image)
  {
    hide Half, Quad, Long, And, RangeWithin;
    if |image| < HEADER_SIZE {
      return Rejected(ImageTooSmall);
    }
    if image[..6] != [0x7F, 0x45, 0x4C, 0x46, 2, 1] {
      return Rejected(NotElf64);
    }
    if image[6] != 1 || Quad(image, 20) != 1 || Half(image, 52) < HEADER_SIZE {
      return Rejected(BadVersion);
    }
    if Half(image, 54) != PROGRAM_HEADER_SIZE || Half(image, 56) == 0 {
      return Rejected(BadTable);
    }
    var table, count := Long(image, 32), Half(image, 56);
    if !RangeWithin(table, PROGRAM_HEADER_SIZE * count, |image|) {
      return Rejected(TableOutside);
    }
    var segments: seq<Segment> := [];
    InsideTable(image);
    for index := 0 to count
      invariant Collect(image, table, index) == Segments(segments)
    {
      var at := table + index * PROGRAM_HEADER_SIZE;
      assert at == EntryAt(table, index);
      if IsLoad(image, at) {
        var segment := SegmentAt(image, at);
        if segment.fileSize > segment.memorySize || !RangeWithin(segment.fileOffset, segment.fileSize, |image|) {
          BadStays(image, table, index + 1, count);
          return Rejected(SegmentOutside);
        }
        if segment.alignment != 0 && And(segment.alignment, segment.alignment - 1) != 0 {
          BadStays(image, table, index + 1, count);
          return Rejected(BadAlignment);
        }
        if segment.virtualAddress > WORD - 1 - segment.memorySize {
          BadStays(image, table, index + 1, count);
          return Rejected(AddressOverflow);
        }
        segments := segments + [segment];
      }
    }
    if segments == [] {
      return Rejected(NoSegments);
    }
    return Accepted(Plan(Half(image, 18), Long(image, 24), segments));
  }

  // ---- What an accepted plan is ---------------------------------------------------------------

  predicate AlignmentFine(a: Word) {
    a == 0 || IsPowerOf2(a)
  }

  // The guarantees a segment gives, said without the loader's arithmetic.
  predicate Sound(image: Image, s: Segment) {
    && s.fileSize <= s.memorySize && s.fileOffset + s.fileSize <= |image|
    && s.virtualAddress + s.memorySize < WORD && AlignmentFine(s.alignment)
  }

  lemma ErrorsExact(image: Image, s: Segment)
    ensures SegmentError(image, s).None? <==> Sound(image, s)
  {
    if s.alignment > 0 { MaskTest(s.alignment); }
  }

  // How many of the first n headers are load headers.
  function Loads(image: Image, table: Word, n: nat): nat
    requires TableInside(image, table, n)
  {
    if n == 0 then 0
    else Loads(image, table, n - 1) + if IsLoad(image, EntryAt(table, n - 1)) then 1 else 0
  }

  predicate LoadSound(image: Image, at: nat)
    requires at + PROGRAM_HEADER_SIZE <= |image|
  {
    IsLoad(image, at) ==> Sound(image, SegmentAt(image, at))
  }

  /** The collected segments are those of all load headers, in order, and
      collecting fails exactly when one of them is unsound. */
  lemma {:induction false} CollectExact(image: Image, table: Word, n: nat)
    requires TableInside(image, table, n)
    ensures Collect(image, table, n).Segments? <==> forall k: nat :: k < n ==> LoadSound(image, EntryAt(table, k))
    ensures Collect(image, table, n).Segments? ==>
              var found := Collect(image, table, n).segments;
              && |found| == Loads(image, table, n)
              && (forall k: nat :: k < n && IsLoad(image, EntryAt(table, k)) ==>
                    Loads(image, table, k) < |found| && found[Loads(image, table, k)] == SegmentAt(image, EntryAt(table, k)))
              && (forall j :: 0 <= j < |found| ==> Sound(image, found[j]))
  {
    hide Sound, SegmentError, SegmentAt, IsLoad;
    if n > 0 {
      CollectExact(image, table, n - 1);
      ErrorsExact(image, SegmentAt(image, EntryAt(table, n - 1)));
      assert LoadSound(image, EntryAt(table, n - 1)) <==>
             (IsLoad(image, EntryAt(table, n - 1)) ==> Sound(image, SegmentAt(image, EntryAt(table, n - 1))));
    }
  }

  /** An image is accepted exactly when its header is in order, every load header
      is sound and there is at least one. */
  lemma AcceptedIff(image: Image)
    ensures Inspected(image).Accepted? <==>
              && HeaderError(image).None?
              && (forall k: nat :: k < Half(image, 56) ==> LoadSound(image, EntryAt(Long(image, 32), k)))
              && Loads(image, Long(image, 32), Half(image, 56)) > 0
    ensures Inspected(image).Accepted? ==>
              forall j :: 0 <= j < |Inspected(image).plan.segments| ==> Sound(image, Inspected(image).plan.segments[j])
  {
    hide Sound, SegmentError, LoadSound, IsLoad;
    if HeaderError(image).None? {
      CollectExact(image, Long(image, 32), Half(image, 56));
    }
  }
}

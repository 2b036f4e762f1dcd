/** The ELF64 file layout from the writer's side (System V generic ABI, chapters 4
    and 5): what a writer puts into the header and the program header table, the
    loader reads back. */
module ElfLayout {

  import opened Arithmetic
  import opened Common
  import opened ElfPlan
  import opened MemoryManager

  type Word16 = w: int | 0 <= w < 0x1_0000
  type Word32 = w: int | 0 <= w < 0x1_0000_0000

  // ---- Little-endian fields ------------------------------------------------------------------

  datatype Field = Raw(bytes: seq<Byte>) | F16(h: Word16) | F32(q: Word32) | F64(l: Word)

  function Two(v: Word16): (r: seq<Byte>)
    ensures |r| == 2
  {
    [v % 256, v / 256]
  }

  function Four(v: Word32): (r: seq<Byte>)
    ensures |r| == 4
  {
    Two(v % 0x1_0000) + Two(v / 0x1_0000)
  }

  function Eight(v: Word): (r: seq<Byte>)
    ensures |r| == 8
  {
    Four(v % 0x1_0000_0000) + Four(v / 0x1_0000_0000)
  }

  function Width(f: Field): nat {
    match f case Raw(bytes) => |bytes| case F16(_) => 2 case F32(_) => 4 case F64(_) => 8
  }

  function Bytes(f: Field): (r: seq<Byte>)
    ensures |r| == Width(f)
  {
    match f case Raw(bytes) => bytes case F16(h) => Two(h) case F32(q) => Four(q) case F64(l) => Eight(l)
  }

  lemma HalfRead(image: Image, at: nat, v: Word16)
    requires at + 2 <= |image| && image[at..at + 2] == Two(v)
    ensures Half(image, at) == v
  {
    assert image[at] == image[at..at + 2][0] && image[at + 1] == image[at..at + 2][1];
  }

  lemma QuadRead(image: Image, at: nat, v: Word32)
    requires at + 4 <= |image| && image[at..at + 4] == Four(v)
    ensures Quad(image, at) == v
  {
    hide Two, Half;
    assert image[at..at + 2] == image[at..at + 4][..2] == Two(v % 0x1_0000);
    assert image[at + 2..at + 4] == image[at..at + 4][2..] == Two(v / 0x1_0000);
    HalfRead(image, at, v % 0x1_0000);
    HalfRead(image, at + 2, v / 0x1_0000);
  }

  lemma LongRead(image: Image, at: nat, v: Word)
    requires at + 8 <= |image| && image[at..at + 8] == Eight(v)
    ensures Long(image, at) == v
  {
    hide Four, Quad;
    assert image[at..at + 4] == image[at..at + 8][..4] == Four(v % 0x1_0000_0000);
    assert image[at + 4..at + 8] == image[at..at + 8][4..] == Four(v / 0x1_0000_0000);
    QuadRead(image, at, v % 0x1_0000_0000);
    QuadRead(image, at + 4, v / 0x1_0000_0000);
  }

  // ---- Records ---------------------------------------------------------------------------------

  function Record(fields: seq<Field>): (r: seq<Byte>)
    ensures |r| == Size(fields)
  {
    if fields == [] then [] else Bytes(fields[0]) + Record(fields[1..])
  }

  function Size(fields: seq<Field>): nat {
    if fields == [] then 0 else Width(fields[0]) + Size(fields[1..])
  }

  // A record in an image shows each of its fields at the sum of the widths before it.
  predicate Shows(image: Image, at: nat, fields: seq<Field>)
    decreases |fields|
  {
    fields == [] || (ShowsField(image, at, fields[0]) && Shows(image, at + Width(fields[0]), fields[1..]))
  }

  predicate ShowsField(image: Image, at: nat, f: Field) {
    at + Width(f) <= |image| &&
    match f
    case Raw(bytes) => image[at..at + |bytes|] == bytes
    case F16(h) => Half(image, at) == h
    case F32(q) => Quad(image, at) == q
    case F64(l) => Long(image, at) == l
  }

  lemma FieldShown(image: Image, at: nat, f: Field)
    requires at + Width(f) <= |image| && image[at..at + Width(f)] == Bytes(f)
    ensures ShowsField(image, at, f)
  {
    match f
    case Raw(_) =>
    case F16(h) => HalfRead(image, at, h);
    case F32(q) => QuadRead(image, at, q);
    case F64(l) => LongRead(image, at, l);
  }

  lemma {:induction false} RecordShown(image: Image, at: nat, fields: seq<Field>)
    requires at + Size(fields) <= |image| && image[at..at + Size(fields)] == Record(fields)
    ensures Shows(image, at, fields)
    decreases |fields|
  {
    hide ShowsField, Bytes;
    if fields != [] {
      var w, n := Width(fields[0]), Size(fields);
      assert image[at..at + w] == image[at..at + n][..w] == Bytes(fields[0]);
      assert image[at + w..at + n] == image[at..at + n][w..] == Record(fields[1..]);
      FieldShown(image, at, fields[0]);
      RecordShown(image, at + w, fields[1..]);
    }
  }

  // ---- The writer --------------------------------------------------------------------------------

  function Bit(b: bool): nat {
    if b then 1 else 0
  }

  function FlagWord(f: Flags): Word32 {
    Bit(f.execute) + 2 * Bit(f.write) + 4 * Bit(f.read)
  }

  // p_type, p_flags, p_offset, p_vaddr, p_paddr, p_filesz, p_memsz, p_align
  function ProgramHeader(s: Segment): seq<Field> {
    [F32(1), F32(FlagWord(s.flags)), F64(s.fileOffset), F64(s.virtualAddress), F64(s.virtualAddress),
     F64(s.fileSize), F64(s.memorySize), F64(s.alignment)]
  }

  lemma NextShown(image: Image, at: nat, fields: seq<Field>, k: nat)
    requires k < |fields| && Shows(image, at, fields[k..])
    ensures ShowsField(image, at, fields[k]) && Shows(image, at + Width(fields[k]), fields[k + 1..])
  {
    assert fields[k..][0] == fields[k] && fields[k..][1..] == fields[k + 1..];
  }

  // The eight program header fields, read where the loader reads them.
  lemma ProgramHeaderShown(image: Image, at: nat, s: Segment)
    requires at + 56 <= |image| && Shows(image, at, ProgramHeader(s))
    ensures IsLoad(image, at) && SegmentAt(image, at) == s
  {
    hide Quad, Long, Shows;
    var f := ProgramHeader(s);
    assert f[0..] == f;
    NextShown(image, at, f, 0);
    NextShown(image, at + 4, f, 1);
    NextShown(image, at + 8, f, 2);
    NextShown(image, at + 16, f, 3);
    NextShown(image, at + 24, f, 4);
    NextShown(image, at + 32, f, 5);
    NextShown(image, at + 40, f, 6);
    NextShown(image, at + 48, f, 7);
    FlagsBack(s.flags);
  }

  lemma FlagsBack(f: Flags)
    ensures var w := FlagWord(f); f == Flags(w % 2 == 1, w / 2 % 2 == 1, w / 4 % 2 == 1)
  {
  }

  // Where the section header table is and how many entries it has.
  datatype Sections = Sections(offset: Word, count: Word16)

  // e_ident, e_type, e_machine, e_version, e_entry, e_phoff, e_shoff, e_flags,
  // e_ehsize, e_phentsize, e_phnum, e_shentsize, e_shnum, e_shstrndx
  function FileHeader(plan: Plan, kind: Word16, sections: Sections): seq<Field>
    requires plan.machine < 0x1_0000 && |plan.segments| < 0x1_0000
  {
    [Raw([0x7F, 0x45, 0x4C, 0x46, 2, 1, 1, 0, 0, 0, 0, 0, 0, 0, 0, 0]), F16(kind), F16(plan.machine), F32(1),
     F64(plan.entryPoint), F64(64), F64(sections.offset), F32(0), F16(64), F16(56), F16(|plan.segments|),
     F16(64), F16(sections.count), F16(0)]
  }

  lemma FirstHeaderFields(image: Image, plan: Plan, kind: Word16, sections: Sections)
    requires plan.machine < 0x1_0000 && |plan.segments| < 0x1_0000
    requires Shows(image, 0, FileHeader(plan, kind, sections))
    ensures var f := FileHeader(plan, kind, sections);
            && ShowsField(image, 0, f[0]) && ShowsField(image, 18, f[2]) && ShowsField(image, 20, f[3])
            && ShowsField(image, 24, f[4]) && ShowsField(image, 32, f[5]) && ShowsField(image, 40, f[6])
            && Shows(image, 48, f[7..])
  {
    hide ShowsField, Shows;
    var f := FileHeader(plan, kind, sections);
    assert f[0..] == f;
    NextShown(image, 0, f, 0);
    NextShown(image, 16, f, 1);
    NextShown(image, 18, f, 2);
    NextShown(image, 20, f, 3);
    NextShown(image, 24, f, 4);
    NextShown(image, 32, f, 5);
    NextShown(image, 40, f, 6);
  }

  lemma FileHeaderFields(image: Image, plan: Plan, kind: Word16, sections: Sections)
    requires plan.machine < 0x1_0000 && |plan.segments| < 0x1_0000
    requires Shows(image, 0, FileHeader(plan, kind, sections))
    ensures var f := FileHeader(plan, kind, sections);
            && ShowsField(image, 0, f[0]) && ShowsField(image, 18, f[2]) && ShowsField(image, 20, f[3])
            && ShowsField(image, 24, f[4]) && ShowsField(image, 32, f[5]) && ShowsField(image, 40, f[6])
            && ShowsField(image, 52, f[8]) && ShowsField(image, 54, f[9]) && ShowsField(image, 56, f[10])
            && ShowsField(image, 58, f[11]) && ShowsField(image, 60, f[12])
  {
    hide ShowsField, Shows;
    FirstHeaderFields(image, plan, kind, sections);
    var f := FileHeader(plan, kind, sections);
    NextShown(image, 48, f, 7);
    NextShown(image, 52, f, 8);
    NextShown(image, 54, f, 9);
    NextShown(image, 56, f, 10);
    NextShown(image, 58, f, 11);
    NextShown(image, 60, f, 12);
  }

  lemma FileHeaderShown(image: Image, plan: Plan, kind: Word16, sections: Sections)
    requires plan.machine < 0x1_0000 && 0 < |plan.segments| < 0x1_0000 && 64 + 56 * |plan.segments| <= |image|
    requires Shows(image, 0, FileHeader(plan, kind, sections))
    ensures HeaderError(image).None? && Half(image, 18) == plan.machine && Long(image, 24) == plan.entryPoint
    ensures Long(image, 32) == 64 && Half(image, 56) == |plan.segments|
  {
    hide Half, Quad, Long, Shows;
    FileHeaderFields(image, plan, kind, sections);
    assert image[..6] == image[0..16][..6] && image[6] == image[0..16][6];
  }

  function Table(segments: seq<Segment>): seq<Byte> {
    if segments == [] then [] else Table(segments[..|segments| - 1]) + Record(ProgramHeader(segments[|segments| - 1]))
  }

  // An image as a writer lays it out: header, table, then anything.
  function Written(plan: Plan, kind: Word16, sections: Sections, rest: seq<Byte>): seq<Byte>
    requires plan.machine < 0x1_0000 && |plan.segments| < 0x1_0000
  {
    Record(FileHeader(plan, kind, sections)) + Table(plan.segments) + rest
  }

  lemma SizeFrom(fields: seq<Field>, k: nat)
    requires k < |fields|
    ensures Size(fields[k..]) == Width(fields[k]) + Size(fields[k + 1..])
  {
    assert fields[k..][0] == fields[k] && fields[k..][1..] == fields[k + 1..];
  }

  lemma ProgramHeaderSize(s: Segment)
    ensures Size(ProgramHeader(s)) == 56
  {
    var f := ProgramHeader(s);
    assert f[0..] == f && f[8..] == [] && Size([]) == 0;
    hide Size;
    SizeFrom(f, 0);
    SizeFrom(f, 1);
    SizeFrom(f, 2);
    SizeFrom(f, 3);
    SizeFrom(f, 4);
    SizeFrom(f, 5);
    SizeFrom(f, 6);
    SizeFrom(f, 7);
  }

  lemma FileHeaderSize(plan: Plan, kind: Word16, sections: Sections)
    requires plan.machine < 0x1_0000 && |plan.segments| < 0x1_0000
    ensures Size(FileHeader(plan, kind, sections)) == 64
  {
    var f := FileHeader(plan, kind, sections);
    assert f[0..] == f && f[14..] == [] && Size([]) == 0;
    hide Size;
    SizeFrom(f, 0);
    SizeFrom(f, 1);
    SizeFrom(f, 2);
    SizeFrom(f, 3);
    SizeFrom(f, 4);
    SizeFrom(f, 5);
    SizeFrom(f, 6);
    SizeFrom(f, 7);
    SizeFrom(f, 8);
    SizeFrom(f, 9);
    SizeFrom(f, 10);
    SizeFrom(f, 11);
    SizeFrom(f, 12);
    SizeFrom(f, 13);
  }

  lemma {:induction false} TableSize(segments: seq<Segment>)
    ensures |Table(segments)| == 56 * |segments|
  {
    hide Record;
    if segments != [] {
      TableSize(segments[..|segments| - 1]);
      ProgramHeaderSize(segments[|segments| - 1]);
    }
  }

  lemma {:induction false} TableEntry(segments: seq<Segment>, k: nat)
    requires k < |segments|
    ensures 56 * k + 56 <= |Table(segments)|
    ensures Table(segments)[56 * k..56 * k + 56] == Record(ProgramHeader(segments[k]))
    decreases |segments|
  {
    hide Record;
    var n := |segments| - 1;
    TableSize(segments);
    TableSize(segments[..n]);
    ProgramHeaderSize(segments[n]);
    if k < n {
      TableEntry(segments[..n], k);
      assert Table(segments)[56 * k..56 * k + 56] == Table(segments[..n])[56 * k..56 * k + 56];
    }
  }

  // The collecting loop over a written table.
  lemma {:induction false} TableCollected(image: Image, plan: Plan, n: nat)
    requires n <= |plan.segments| && TableInside(image, 64, |plan.segments|)
    requires forall k: nat :: k < |plan.segments| ==>
               IsLoad(image, EntryAt(64, k)) && SegmentAt(image, EntryAt(64, k)) == plan.segments[k] &&
               Sound(image, plan.segments[k])
    ensures Collect(image, 64, n) == Segments(plan.segments[..n])
  {
    hide IsLoad, SegmentAt, SegmentError, Sound;
    if n > 0 {
      TableCollected(image, plan, n - 1);
      ErrorsExact(image, plan.segments[n - 1]);
      assert plan.segments[..n] == plan.segments[..n - 1] + [plan.segments[n - 1]];
    }
  }

  /** The loader inverts the writer: a file with a standard header and program header
      table is accepted, and its plan is what was written, whenever the written
      segments are sound for the file. */
  lemma WrittenPlansAreRead(plan: Plan, kind: Word16, sections: Sections, rest: seq<Byte>)
    requires plan.machine < 0x1_0000 && 0 < |plan.segments| < 0x1_0000 && |Written(plan, kind, sections, rest)| < WORD
    requires forall s :: s in plan.segments ==> Sound(Written(plan, kind, sections, rest), s)
    ensures Inspected(Written(plan, kind, sections, rest)) == Accepted(plan)
  {
    hide Record, Sound, HeaderError, Collect, SegmentAt, IsLoad, Half, Long, Table;
    var image: Image := Written(plan, kind, sections, rest);
    var head, table := Record(FileHeader(plan, kind, sections)), Table(plan.segments);
    FileHeaderSize(plan, kind, sections);
    TableSize(plan.segments);
    assert image[0..64] == head;
    RecordShown(image, 0, FileHeader(plan, kind, sections));
    FileHeaderShown(image, plan, kind, sections);
    forall k: nat | k < |plan.segments|
      ensures IsLoad(image, EntryAt(64, k)) && SegmentAt(image, EntryAt(64, k)) == plan.segments[k] && Sound(image, plan.segments[k])
    {
      var s, at := plan.segments[k], EntryAt(64, k);
      TableEntry(plan.segments, k);
      ProgramHeaderSize(s);
      assert image[at..at + 56] == table[56 * k..56 * k + 56];
      RecordShown(image, at, ProgramHeader(s));
      ProgramHeaderShown(image, at, s);
      assert s in plan.segments;
    }
    TableCollected(image, plan, |plan.segments|);
    assert plan.segments[..|plan.segments|] == plan.segments;
  }

  // What the written header says about sections.
  lemma WrittenSections(plan: Plan, kind: Word16, sections: Sections, rest: seq<Byte>)
    requires plan.machine < 0x1_0000 && |plan.segments| < 0x1_0000 && |Written(plan, kind, sections, rest)| < WORD
    ensures var image := Written(plan, kind, sections, rest);
            && |image| == 64 + 56 * |plan.segments| + |rest| && image[64 + 56 * |plan.segments|..] == rest
            && Long(image, 40) == sections.offset && Half(image, 58) == 64 && Half(image, 60) == sections.count
  {
    hide Record, Table, Shows, Half, Long;
    var image: Image := Written(plan, kind, sections, rest);
    FileHeaderSize(plan, kind, sections);
    TableSize(plan.segments);
    assert image[0..64] == Record(FileHeader(plan, kind, sections));
    RecordShown(image, 0, FileHeader(plan, kind, sections));
    FileHeaderFields(image, plan, kind, sections);
  }
}

/** Symbol tables from the writer's side (System V generic ABI, chapter 4): sections,
    strings and symbols written field by field, and the exports the loader finds. */
module ElfSymbols {

  import opened Common
  import opened ElfLayout
  import opened ElfPlan
  import opened MemoryManager
  import opened Modules

  // A symbol to write: its name in bytes, and the fields of its entry.
  datatype Entry = Entry(name: seq<Byte>, info: Byte, other: Byte, section: Word16, value: Word, size: Word)

  predicate Nameable(e: Entry) {
    forall b :: b in e.name ==> b != 0
  }

  function Text(name: seq<Byte>): (text: string)
    ensures |text| == |name|
  {
    seq(|name|, k requires 0 <= k < |name| => name[k] as char)
  }

  // ---- The writer ----------------------------------------------------------------------------

  // The string table: a zero byte, then every name with a zero byte behind it.
  function Strings(entries: seq<Entry>): (bytes: seq<Byte>)
    ensures |bytes| >= 1
  {
    if entries == [] then [0]
    else var n := |entries| - 1; Strings(entries[..n]) + entries[n].name + [0]
  }

  // st_name, st_info and st_other, st_shndx, st_value, st_size
  function SymbolRecord(name: Word32, e: Entry): seq<Field> {
    [F32(name), Raw([e.info, e.other]), F16(e.section), F64(e.value), F64(e.size)]
  }

  function SymbolTable(entries: seq<Entry>): seq<Byte>
    requires |Strings(entries)| < 0x1_0000_0000
  {
    if entries == [] then []
    else
      var n := |entries| - 1;
      StringsGrow(entries, n);
      SymbolTable(entries[..n]) + ElfLayout.Record(SymbolRecord(|Strings(entries[..n])|, entries[n]))
  }

  lemma StringsGrow(entries: seq<Entry>, n: nat)
    requires n + 1 == |entries|
    ensures |Strings(entries[..n])| + |entries[n].name| + 1 == |Strings(entries)|
  {
  }

  // sh_name, sh_type, sh_flags, sh_addr, sh_offset, sh_size, sh_link, sh_info,
  // sh_addralign, sh_entsize
  function SectionRecord(kind: Word32, offset: Word, size: Word, link: Word32, entry: Word): seq<Field> {
    [F32(0), F32(kind), F64(0), F64(0), F64(offset), F64(size), F32(link), F32(0), F64(1), F64(entry)]
  }

  // A null section, the symbol table, which links to the third, and the string table.
  function SectionHeaders(kind: Word32, symbols: Word, symbolsSize: Word, stringsSize: Word): seq<Byte>
    requires symbols + symbolsSize < WORD
  {
    ElfLayout.Record(SectionRecord(0, 0, 0, 0, 0)) + ElfLayout.Record(SectionRecord(kind, symbols, symbolsSize, 2, 24)) +
    ElfLayout.Record(SectionRecord(3, symbols + symbolsSize, stringsSize, 0, 0))
  }

  // ---- Reading records -------------------------------------------------------------------------

  lemma SymbolSize(name: Word32, e: Entry)
    ensures Size(SymbolRecord(name, e)) == 24
  {
    var f := SymbolRecord(name, e);
    assert f[0..] == f && f[5..] == [] && Size([]) == 0;
    hide Size;
    SizeFrom(f, 0);
    SizeFrom(f, 1);
    SizeFrom(f, 2);
    SizeFrom(f, 3);
    SizeFrom(f, 4);
  }

  lemma SectionSize(kind: Word32, offset: Word, size: Word, link: Word32, entry: Word)
    ensures Size(SectionRecord(kind, offset, size, link, entry)) == 64
  {
    var f := SectionRecord(kind, offset, size, link, entry);
    assert f[0..] == f && f[10..] == [] && Size([]) == 0;
    hide Size;
    SizeFrom(f, 0);
    SizeFrom(f, 1);
    SizeFrom(f, 2);
    SizeFrom(f, 3);
    SizeFrom(f, 4);
    SizeFrom(f, 5);
    SizeFrom(f, 6);
    SizeFrom(f, 7);
    SizeFrom(f, 8);
    SizeFrom(f, 9);
  }

  lemma SymbolShown(image: Image, at: nat, name: Word32, e: Entry)
    requires at + 24 <= |image| && Shows(image, at, SymbolRecord(name, e))
    ensures Quad(image, at) == name && Half(image, at + 6) == e.section && Long(image, at + 8) == e.value
  {
    hide Half, Quad, Long, Shows;
    var f := SymbolRecord(name, e);
    assert f[0..] == f;
    NextShown(image, at, f, 0);
    NextShown(image, at + 4, f, 1);
    NextShown(image, at + 6, f, 2);
    NextShown(image, at + 8, f, 3);
  }

  lemma SectionShown(image: Image, at: nat, kind: Word32, offset: Word, size: Word, link: Word32, entry: Word)
    requires at + 64 <= |image| && image[at..at + 64] == ElfLayout.Record(SectionRecord(kind, offset, size, link, entry))
    ensures HeaderAt(image, at) == Header(kind, offset, size, link, entry)
  {
    hide Half, Quad, Long, Shows, ElfLayout.Record, Size;
    var f := SectionRecord(kind, offset, size, link, entry);
    SectionSize(kind, offset, size, link, entry);
    RecordShown(image, at, f);
    SectionFields(image, at, kind, offset, size, link, entry);
  }

  lemma SectionFields(image: Image, at: nat, kind: Word32, offset: Word, size: Word, link: Word32, entry: Word)
    requires at + 64 <= |image| && Shows(image, at, SectionRecord(kind, offset, size, link, entry))
    ensures Quad(image, at + 4) == kind && Long(image, at + 24) == offset && Long(image, at + 32) == size
    ensures Quad(image, at + 40) == link && Long(image, at + 56) == entry
  {
    hide Half, Quad, Long, Shows;
    var f := SectionRecord(kind, offset, size, link, entry);
    assert f[0..] == f;
    NextShown(image, at, f, 0);
    NextShown(image, at + 4, f, 1);
    NextShown(image, at + 8, f, 2);
    NextShown(image, at + 16, f, 3);
    NextShown(image, at + 24, f, 4);
    NextShown(image, at + 32, f, 5);
    NextShown(image, at + 40, f, 6);
    NextShown(image, at + 44, f, 7);
    NextShown(image, at + 48, f, 8);
    NextShown(image, at + 56, f, 9);
  }

  // A name that ends in a zero byte is read back.
  lemma {:induction false} NameRead(image: Image, start: nat, limit: nat, name: seq<Byte>)
    requires start + |name| < limit <= |image| && image[start..start + |name| + 1] == name + [0]
    requires forall b :: b in name ==> b != 0
    ensures NameAt(image, start, limit) == Some(Text(name))
    decreases |name|
  {
    assert image[start] == image[start..start + |name| + 1][0];
    if name != [] {
      assert name[0] in name && forall b :: b in name[1..] ==> b in name;
      assert image[start + 1..start + 1 + |name[1..]| + 1] == image[start..start + |name| + 1][1..] == name[1..] + [0];
      NameRead(image, start + 1, limit, name[1..]);
      assert Text(name) == [image[start] as char] + Text(name[1..]);
    } else {
      assert Text(name) == "";
    }
  }

  // ---- Tables ---------------------------------------------------------------------------------------

  lemma {:induction false} SymbolTableSize(entries: seq<Entry>)
    requires |Strings(entries)| < 0x1_0000_0000
    ensures |SymbolTable(entries)| == 24 * |entries|
  {
    hide ElfLayout.Record, Strings;
    if entries != [] {
      var n := |entries| - 1;
      StringsGrow(entries, n);
      SymbolTableSize(entries[..n]);
      SymbolSize(|Strings(entries[..n])|, entries[n]);
    }
  }

  lemma {:induction false} StringsPrefix(entries: seq<Entry>, k: nat)
    requires k < |entries|
    ensures var at := |Strings(entries[..k])|;
            && at + |entries[k].name| + 1 <= |Strings(entries)|
            && Strings(entries)[at..at + |entries[k].name| + 1] == entries[k].name + [0]
    decreases |entries|
  {
    var n := |entries| - 1;
    if k < n {
      StringsPrefix(entries[..n], k);
      assert entries[..n][..k] == entries[..k];
      var at := |Strings(entries[..k])|;
      assert Strings(entries)[at..at + |entries[k].name| + 1] == Strings(entries[..n])[at..at + |entries[k].name| + 1];
    }
  }

  lemma {:induction false} SymbolTableEntry(entries: seq<Entry>, k: nat)
    requires |Strings(entries)| < 0x1_0000_0000 && k < |entries|
    ensures |Strings(entries[..k])| < |Strings(entries)| && 24 * k + 24 <= |SymbolTable(entries)|
    ensures SymbolTable(entries)[24 * k..24 * k + 24] == ElfLayout.Record(SymbolRecord(|Strings(entries[..k])|, entries[k]))
    decreases |entries|
  {
    hide ElfLayout.Record, Strings;
    var n := |entries| - 1;
    StringsGrow(entries, n);
    SymbolTableSize(entries);
    SymbolTableSize(entries[..n]);
    SymbolSize(|Strings(entries[..n])|, entries[n]);
    if k < n {
      SymbolTableEntry(entries[..n], k);
      assert entries[..n][..k] == entries[..k];
      assert SymbolTable(entries)[24 * k..24 * k + 24] == SymbolTable(entries[..n])[24 * k..24 * k + 24];
    }
  }

  // ---- What the loader finds -------------------------------------------------------------------------

  // The symbols that count: those with a value and a section, in table order.
  function Eligible(entries: seq<Entry>): seq<Symbol> {
    if entries == [] then []
    else
      var n := |entries| - 1;
      Eligible(entries[..n]) +
      if entries[n].value != 0 && entries[n].section != 0 then [Symbol(Text(entries[n].name), entries[n].value)] else []
  }

  // The symbols and then the strings stand in the image from `at` on.
  ghost predicate Holds(image: Image, at: nat, entries: seq<Entry>)
    requires |Strings(entries)| < 0x1_0000_0000
  {
    && at + 24 * |entries| + |Strings(entries)| <= |image|
    && image[at..at + 24 * |entries|] == SymbolTable(entries)
    && image[at + 24 * |entries|..at + 24 * |entries| + |Strings(entries)|] == Strings(entries)
  }

  lemma Nested<T>(s: seq<T>, from: nat, to: nat, i: nat, j: nat)
    requires from <= to <= |s| && i <= j <= to - from
    ensures s[from..to][i..j] == s[from + i..from + j]
  {
    var part, same := s[from..to][i..j], s[from + i..from + j];
    assert |part| == |same| && forall k :: 0 <= k < |part| ==> part[k] == same[k];
  }

  lemma EntryRead(image: Image, at: nat, entries: seq<Entry>, k: nat)
    requires |Strings(entries)| < 0x1_0000_0000 && Holds(image, at, entries) && k < |entries| && Nameable(entries[k])
    ensures SymbolAt(image, at + 24 * k, at + 24 * |entries|, |Strings(entries)|) ==
              if entries[k].value != 0 && entries[k].section != 0
              then Some(Symbol(Text(entries[k].name), entries[k].value)) else None
  {
    hide ElfLayout.Record, Strings, SymbolTable, Half, Quad, Long, NameAt;
    var e, name, strings := entries[k], |Strings(entries[..k])|, at + 24 * |entries|;
    SymbolTableEntry(entries, k);
    SymbolTableSize(entries);
    SymbolSize(name, e);
    Nested(image, at, at + 24 * |entries|, 24 * k, 24 * k + 24);
    assert image[at + 24 * k..at + 24 * k + 24] == SymbolTable(entries)[24 * k..24 * k + 24];
    RecordShown(image, at + 24 * k, SymbolRecord(name, e));
    SymbolShown(image, at + 24 * k, name, e);
    StringsPrefix(entries, k);
    Nested(image, strings, strings + |Strings(entries)|, name, name + |e.name| + 1);
    assert image[strings + name..strings + name + |e.name| + 1] == Strings(entries)[name..name + |e.name| + 1];
    NameRead(image, strings + name, strings + |Strings(entries)|, e.name);
  }

  lemma {:induction false} TableRead(image: Image, at: nat, entries: seq<Entry>, s: Section, n: nat)
    requires |Strings(entries)| < 0x1_0000_0000 && Holds(image, at, entries) && n <= |entries|
    requires s == Section.SymbolTable(at, 24, |entries|, at + 24 * |entries|, |Strings(entries)|)
    requires forall e :: e in entries ==> Nameable(e)
    ensures TableSymbols(image, s, n) == Eligible(entries[..n])
  {
    hide Holds, SymbolAt, Strings;
    assert s.symbols + s.entry * s.count <= |image| && s.strings + s.stringsSize <= |image| by { HoldsInside(image, at, entries); }
    if n > 0 {
      TableRead(image, at, entries, s, n - 1);
      EntryRead(image, at, entries, n - 1);
      assert entries[..n][..n - 1] == entries[..n - 1];
    }
  }

  lemma HoldsInside(image: Image, at: nat, entries: seq<Entry>)
    requires |Strings(entries)| < 0x1_0000_0000 && Holds(image, at, entries)
    ensures at + 24 * |entries| + |Strings(entries)| <= |image|
  {
  }

  // A whole image: header, program headers, symbols, strings, section headers, anything.
  function WholeImage(plan: Plan, kind: Word16, tableKind: Word32, entries: seq<Entry>, tail: seq<Byte>): (image: seq<Byte>)
    requires plan.machine < 0x1_0000 && |plan.segments| < 0x1_0000 && |Strings(entries)| < 0x1_0000_0000
    requires |entries| < 0x1_0000_0000
  {
    var symbols := 64 + 56 * |plan.segments|;
    var strings := symbols + 24 * |entries|;
    var sections := strings + |Strings(entries)|;
    Written(plan, kind, Sections(sections, 3),
            SymbolTable(entries) + Strings(entries) + SectionHeaders(tableKind, symbols, 24 * |entries|, |Strings(entries)|) + tail)
  }

  lemma HeadersSize(kind: Word32, symbols: Word, symbolsSize: Word, stringsSize: Word)
    requires symbols + symbolsSize < WORD
    ensures var h := SectionHeaders(kind, symbols, symbolsSize, stringsSize);
            && |h| == 192 && h[0..64] == ElfLayout.Record(SectionRecord(0, 0, 0, 0, 0))
            && h[64..128] == ElfLayout.Record(SectionRecord(kind, symbols, symbolsSize, 2, 24))
            && h[128..192] == ElfLayout.Record(SectionRecord(3, symbols + symbolsSize, stringsSize, 0, 0))
  {
    SectionSize(0, 0, 0, 0, 0);
    SectionSize(kind, symbols, symbolsSize, 2, 24);
    SectionSize(3, symbols + symbolsSize, stringsSize, 0, 0);
    hide ElfLayout.Record, SectionRecord, Size;
    ThreeParts(ElfLayout.Record(SectionRecord(0, 0, 0, 0, 0)),
               ElfLayout.Record(SectionRecord(kind, symbols, symbolsSize, 2, 24)),
               ElfLayout.Record(SectionRecord(3, symbols + symbolsSize, stringsSize, 0, 0)));
  }

  lemma ThreeParts(a: seq<Byte>, b: seq<Byte>, c: seq<Byte>)
    requires |a| == |b| == |c| == 64
    ensures var s := a + b + c; |s| == 192 && s[0..64] == a && s[64..128] == b && s[128..192] == c
  {
  }

  predicate Placed(image: seq<Byte>, at: nat, bytes: seq<Byte>) {
    at + |bytes| <= |image| && image[at..at + |bytes|] == bytes
  }

  lemma PartsBehind(image: seq<Byte>, at: nat, a: seq<Byte>, b: seq<Byte>, c: seq<Byte>, d: seq<Byte>)
    requires at <= |image| && image[at..] == a + b + c + d
    ensures Placed(image, at, a) && Placed(image, at + |a|, b) && Placed(image, at + |a| + |b|, c)
  {
    var rest := a + b + c + d;
    assert image[at..at + |a|] == image[at..][..|a|] == rest[..|a|] == a;
    Nested(image, at, |image|, |a|, |a| + |b|);
    Nested(image, at, |image|, |a| + |b|, |a| + |b| + |c|);
    assert image[at..|image|] == rest;
    assert rest[|a|..|a| + |b|] == b && rest[|a| + |b|..|a| + |b| + |c|] == c;
  }

  // Where the parts of the image are.
  lemma ImageParts(plan: Plan, kind: Word16, tableKind: Word32, entries: seq<Entry>, tail: seq<Byte>)
    requires plan.machine < 0x1_0000 && |plan.segments| < 0x1_0000 && |Strings(entries)| < 0x1_0000_0000
    requires |entries| < 0x1_0000_0000 && |WholeImage(plan, kind, tableKind, entries, tail)| < WORD
    ensures var image := WholeImage(plan, kind, tableKind, entries, tail);
            var symbols := 64 + 56 * |plan.segments|;
            var strings := symbols + 24 * |entries|;
            var sections := strings + |Strings(entries)|;
            && |image| >= 64 && Long(image, 40) == sections && Half(image, 58) == 64 && Half(image, 60) == 3
            && Placed(image, symbols, SymbolTable(entries)) && Placed(image, strings, Strings(entries))
            && Placed(image, sections, SectionHeaders(tableKind, symbols, 24 * |entries|, |Strings(entries)|))
  {
    hide Written, SymbolTable, Strings, SectionHeaders, Half, Long, Placed;
    var symbols := 64 + 56 * |plan.segments|;
    var sections := symbols + 24 * |entries| + |Strings(entries)|;
    var headers := SectionHeaders(tableKind, symbols, 24 * |entries|, |Strings(entries)|);
    var rest := SymbolTable(entries) + Strings(entries) + headers + tail;
    var image: Image := WholeImage(plan, kind, tableKind, entries, tail);
    WrittenSections(plan, kind, Sections(sections, 3), rest);
    SymbolTableSize(entries);
    assert image[symbols..] == rest;
    PartsBehind(image, symbols, SymbolTable(entries), Strings(entries), headers, tail);
  }

  lemma HeadersRead(image: Image, at: nat, kind: Word32, symbols: Word, symbolsSize: Word, stringsSize: Word)
    requires symbols + symbolsSize < WORD && Placed(image, at, SectionHeaders(kind, symbols, symbolsSize, stringsSize))
    ensures at + 192 <= |image| && HeaderAt(image, at) == Header(0, 0, 0, 0, 0)
    ensures HeaderAt(image, at + 64) == Header(kind, symbols, symbolsSize, 2, 24)
    ensures HeaderAt(image, at + 128) == Header(3, symbols + symbolsSize, stringsSize, 0, 0)
  {
    hide SectionHeaders, HeaderAt, ElfLayout.Record, SectionRecord;
    HeadersSize(kind, symbols, symbolsSize, stringsSize);
    Nested(image, at, at + 192, 0, 64);
    Nested(image, at, at + 192, 64, 128);
    Nested(image, at, at + 192, 128, 192);
    SectionShown(image, at, 0, 0, 0, 0, 0);
    SectionShown(image, at + 64, kind, symbols, symbolsSize, 2, 24);
    SectionShown(image, at + 128, 3, symbols + symbolsSize, stringsSize, 0, 0);
  }

  // Of the three sections only the middle one describes symbols.
  lemma SectionsRead(image: Image, at: nat, kind: Word32, symbols: Word, count: nat, stringsSize: Word)
    requires at + 192 <= |image| && (kind == 2 || kind == 11)
    requires symbols + 24 * count + stringsSize <= |image|
    requires HeaderAt(image, at) == Header(0, 0, 0, 0, 0)
    requires HeaderAt(image, at + 64) == Header(kind, symbols, 24 * count, 2, 24)
    requires HeaderAt(image, at + 128) == Header(3, symbols + 24 * count, stringsSize, 0, 0)
    ensures SectionAt(image, at, 64, 3, 0) == Skipped && SectionAt(image, at, 64, 3, 2) == Skipped
    ensures SectionAt(image, at, 64, 3, 1) ==
              Section.SymbolTable(symbols, 24, count, symbols + 24 * count, stringsSize)
  {
    hide HeaderAt;
    assert 24 * count % 24 == 0 && 24 * count / 24 == count;
  }

  /** The loader inverts the writer: for every list of symbols, with any names, the
      exports of the written image are those with a value and a section index, the first
      of each name, and there are none at all if one of these has an empty name. */
  lemma WrittenSymbolsAreExported(plan: Plan, kind: Word16, tableKind: Word32, entries: seq<Entry>, tail: seq<Byte>)
    requires plan.machine < 0x1_0000 && |plan.segments| < 0x1_0000 && |Strings(entries)| < 0x1_0000_0000
    requires |entries| < 0x1_0000_0000 && |WholeImage(plan, kind, tableKind, entries, tail)| < WORD
    requires (tableKind == 2 || tableKind == 11) && forall e :: e in entries ==> Nameable(e)
    ensures ExportsOf(WholeImage(plan, kind, tableKind, entries, tail)) ==
              if AllNamed(Eligible(entries)) then Some(FirstWins(Eligible(entries))) else None
  {
    hide WholeImage, SymbolTable, Strings, SectionHeaders, SectionAt, HeaderAt, Half, Long, AllNamed, FirstWins, TableSymbols;
    var image: Image := WholeImage(plan, kind, tableKind, entries, tail);
    var symbols := 64 + 56 * |plan.segments|;
    var at := symbols + 24 * |entries| + |Strings(entries)|;
    ImageParts(plan, kind, tableKind, entries, tail);
    HeadersRead(image, at, tableKind, symbols, 24 * |entries|, |Strings(entries)|);
    SectionsRead(image, at, tableKind, symbols, |entries|, |Strings(entries)|);
    SymbolTableSize(entries);
    assert Holds(image, symbols, entries);
    var s := SectionAt(image, at, 64, 3, 1);
    TableRead(image, symbols, entries, s, |entries|);
    assert entries[..|entries|] == entries;
    ThreeSections(image, at);
    assert 3 <= (|image| - at) / 64;
  }

  // The scan of three sections, the outer two of which hold no symbols.
  lemma ThreeSections(image: Image, at: nat)
    requires at + 192 <= |image|
    requires SectionAt(image, at, 64, 3, 0) == Skipped && SectionAt(image, at, 64, 3, 2) == Skipped
    requires SectionAt(image, at, 64, 3, 1).SymbolTable?
    ensures var s := SectionAt(image, at, 64, 3, 1);
            AllSymbols(image, at, 64, 3, 3) == Some(TableSymbols(image, s, s.count))
  {
    hide SectionAt, TableSymbols;
    assert AllSymbols(image, at, 64, 3, 0) == Some([]);
    assert AllSymbols(image, at, 64, 3, 1) == Some([]);
    var s := SectionAt(image, at, 64, 3, 1);
    assert [] + TableSymbols(image, s, s.count) == TableSymbols(image, s, s.count);
    assert AllSymbols(image, at, 64, 3, 2) == Some(TableSymbols(image, s, s.count));
  }

  // ---- Resolving what was loaded -----------------------------------------------------------------------

  // Entry k is the first with this name that has a value and a section.
  predicate FirstEntry(entries: seq<Entry>, k: nat, symbol: string) {
    k < |entries| && Counts(entries[k], symbol) && forall j :: 0 <= j < k ==> !Counts(entries[j], symbol)
  }

  predicate Counts(e: Entry, symbol: string) {
    e.value != 0 && e.section != 0 && Text(e.name) == symbol
  }

  lemma {:induction false} NoEntryNoExport(entries: seq<Entry>, symbol: string)
    requires forall j :: 0 <= j < |entries| ==> !Counts(entries[j], symbol)
    ensures symbol !in FirstWins(Eligible(entries))
    decreases |entries|
  {
    hide Text, Eligible, FirstWins;
    if entries != [] {
      var n := |entries| - 1;
      NoEntryNoExport(entries[..n], symbol);
      LastEligible(entries);
      assert !Counts(entries[n], symbol);
    } else {
      NothingEligible();
    }
  }

  lemma NothingEligible()
    ensures FirstWins(Eligible([])) == map[]
  {
  }

  lemma {:induction false} FirstEntryWins(entries: seq<Entry>, k: nat, symbol: string)
    requires FirstEntry(entries, k, symbol)
    ensures symbol in FirstWins(Eligible(entries)) && FirstWins(Eligible(entries))[symbol] == entries[k].value
    decreases |entries|
  {
    hide Text, Eligible, FirstWins;
    var n := |entries| - 1;
    LastEligible(entries);
    if k < n {
      FirstEntryWins(entries[..n], k, symbol);
    } else {
      NoEntryNoExport(entries[..n], symbol);
    }
  }

  lemma LastEligible(entries: seq<Entry>)
    requires entries != []
    ensures var n := |entries| - 1;
            var before := FirstWins(Eligible(entries[..n]));
            FirstWins(Eligible(entries)) ==
              if entries[n].value != 0 && entries[n].section != 0 && Text(entries[n].name) !in before
              then before[Text(entries[n].name) := entries[n].value] else before
  {
    hide Text;
    var n := |entries| - 1;
    var before, all := Eligible(entries[..n]), Eligible(entries);
    if entries[n].value != 0 && entries[n].section != 0 {
      assert all[..|all| - 1] == before;
    } else {
      assert all == before;
    }
  }

  // A handle that is still known stands for the image it was loaded from.
  predicate StandsFor(t: Tables, h: nat, image: Image) {
    h < t.nextHandle && (h in t.modules ==> h in t.images && t.images[h] == image)
  }

  lemma {:induction false} ImageStays(ops: seq<Operation>, n: nat, h: nat, image: Image)
    requires n <= |ops| && StandsFor(AfterAll(ops[..n]), h, image)
    ensures StandsFor(AfterAll(ops), h, image)
    decreases |ops|
  {
    hide ExportsOf, Inspected, StubExports, Kernel, Libc;
    if n < |ops| {
      var shorter := ops[..|ops| - 1];
      assert shorter[..n] == ops[..n];
      ImageStays(shorter, n, h, image);
    } else {
      assert ops[..n] == ops;
    }
  }

  /** A module loaded from a written image resolves, at any later time while it is
      loaded and whatever else happens, each name to the value written for its first
      symbol that counts, and no other name. */
  lemma WrittenSymbolsResolve(ops: seq<Operation>, later: seq<Operation>, name: string, mapped: bool, image: Image,
      plan: Plan, kind: Word16, tableKind: Word32, entries: seq<Entry>, tail: seq<Byte>, symbol: string)
    requires plan.machine < 0x1_0000 && |plan.segments| < 0x1_0000 && |Strings(entries)| < 0x1_0000_0000
    requires |entries| < 0x1_0000_0000 && image == WholeImage(plan, kind, tableKind, entries, tail)
    requires (tableKind == 2 || tableKind == 11) && forall e :: e in entries ==> Nameable(e)
    requires AfterLoad(AfterAll(ops), Some(File(name, image)), mapped).1 != 0
    ensures var h := AfterLoad(AfterAll(ops), Some(File(name, image)), mapped).1;
            var t := AfterAll(ops + [Load(Some(File(name, image)), mapped)] + later);
            h in t.modules ==>
              && h in t.handleNames
              && (forall k: nat :: FirstEntry(entries, k, symbol) ==>
                    Resolved(t.registry, t.handleNames[h], symbol) == Some(entries[k].value))
              && ((forall k :: 0 <= k < |entries| ==> !Counts(entries[k], symbol)) ==>
                    Resolved(t.registry, t.handleNames[h], symbol) == None)
  {
    hide WholeImage, ExportsOf, Inspected, FirstWins, AllNamed, Eligible, Counts, Resolved;
    var load := Load(Some(File(name, image)), mapped);
    var (loaded, h) := AfterLoad(AfterAll(ops), Some(File(name, image)), mapped);
    var before := ops + [load];
    var all := before + later;
    assert before[..|ops|] == ops && AfterAll(before) == loaded;
    assert all[..|before|] == before;
    assert StandsFor(loaded, h, image);
    ImageStays(all, |before|, h, image);
    hide AfterAll, AfterLoad;
    if h in AfterAll(all).modules {
      HandleResolves(all, h, symbol);
      WrittenSymbolsAreExported(plan, kind, tableKind, entries, tail);
      forall k: nat | FirstEntry(entries, k, symbol)
        ensures symbol in FirstWins(Eligible(entries)) && FirstWins(Eligible(entries))[symbol] == entries[k].value
      {
        FirstEntryWins(entries, k, symbol);
      }
      if forall k :: 0 <= k < |entries| ==> !Counts(entries[k], symbol) { NoEntryNoExport(entries, symbol); }
    }
  }
}

/** Which exports an image has, for every image: the section table, the symbol and
    string tables and their entries described by what stands at which offset (System V
    generic ABI, chapter 4), without following the scan. */
module ElfExports {

  import opened Arithmetic
  import opened Common
  import opened ElfPlan
  import opened MemoryManager
  import opened Modules

  // The section table of an image.
  datatype Table = Table(offset: nat, entry: nat, count: nat) {
    function Place(k: nat): nat {
      offset + entry * k
    }
  }

  predicate Inside(image: Image, t: Table) {
    t.entry >= 64 && t.offset + t.entry * t.count <= |image|
  }

  // Section k holds symbols: type 2 or 11, entries of 24 bytes or more that fill it, a
  // link to a section there is.
  predicate IsSymbols(image: Image, t: Table, k: nat) {
    var at := t.Place(k);
    && k < t.count && at + 64 <= |image|
    && Quad(image, at + 4) in {2, 11} && Long(image, at + 56) >= 24
    && Long(image, at + 32) % Long(image, at + 56) == 0 && Quad(image, at + 40) < t.count
  }

  // What the section header at `at` describes lies in the image.
  predicate Within(image: Image, at: nat) {
    at + 64 <= |image| && Long(image, at + 24) + Long(image, at + 32) <= |image|
  }

  predicate Intact(image: Image, t: Table, k: nat)
    requires IsSymbols(image, t, k)
  {
    Within(image, t.Place(k)) && Within(image, Linked(image, t, k))
  }

  // The entries of symbol section k.
  function Entries(image: Image, t: Table, k: nat): Table
    requires IsSymbols(image, t, k)
  {
    var at := t.Place(k);
    Table(Long(image, at + 24), Long(image, at + 56), Long(image, at + 32) / Long(image, at + 56))
  }

  // The header of the section with their names.
  function Linked(image: Image, t: Table, k: nat): nat
    requires IsSymbols(image, t, k)
  {
    t.Place(Quad(image, t.Place(k) + 40))
  }

  // The bytes from `at` on are this name and then a zero, before the limit.
  predicate Spells(image: Image, at: nat, limit: nat, name: string) {
    && at + |name| < limit <= |image| && image[at + |name|] == 0
    && forall p :: at <= p < at + |name| ==> image[p] != 0 && image[p] as char == name[p - at]
  }

  // Entry j of section k exports this name: it has a section and a value, and its name
  // stands in the string table.
  predicate Offers(image: Image, t: Table, k: nat, j: nat, name: string) {
    && IsSymbols(image, t, k) && Intact(image, t, k)
    && j < Entries(image, t, k).count
    && var row, linked := Entries(image, t, k).Place(j), Linked(image, t, k);
    && row + 24 <= |image| && Half(image, row + 6) != 0 && Long(image, row + 8) != 0
    && Spells(image, Long(image, linked + 24) + Quad(image, row), Long(image, linked + 24) + Long(image, linked + 32), name)
  }

  predicate Before(i: nat, j: nat, k: nat, n: nat) {
    i < k || (i == k && j < n)
  }

  ghost predicate NoneBefore(image: Image, t: Table, k: nat, j: nat, name: string) {
    forall k', j' :: Before(k', j', k, j) ==> !Offers(image, t, k', j', name)
  }

  // The first entry, in section and then entry order, that exports this name.
  ghost predicate FirstOffer(image: Image, t: Table, k: nat, j: nat, name: string, value: Word) {
    Offers(image, t, k, j, name) && NoneBefore(image, t, k, j, name) && Long(image, Entries(image, t, k).Place(j) + 8) == value
  }

  // ---- One entry -----------------------------------------------------------------------

  lemma {:induction false} NameIff(image: Image, start: nat, limit: nat, name: string)
    requires limit <= |image|
    ensures NameAt(image, start, limit) == Some(name) <==> Spells(image, start, limit, name)
    decreases limit - start
  {
    if start < limit && name != "" {
      NameIff(image, start + 1, limit, name[1..]);
      assert name == [name[0]] + name[1..];
      SpellsFurther(image, start, limit, name);
    }
  }

  lemma SpellsFurther(image: Image, at: nat, limit: nat, name: string)
    requires name != "" && at < limit <= |image|
    ensures Spells(image, at, limit, name) <==>
              image[at] != 0 && image[at] as char == name[0] && Spells(image, at + 1, limit, name[1..])
  {
    var rest := name[1..];
    if Spells(image, at, limit, name) {
      forall p | at + 1 <= p < at + |name| ensures image[p] != 0 && image[p] as char == rest[p - (at + 1)] {
        assert rest[p - (at + 1)] == name[p - at];
      }
    }
    if image[at] != 0 && image[at] as char == name[0] && Spells(image, at + 1, limit, rest) {
      forall p | at <= p < at + |name| ensures image[p] != 0 && image[p] as char == name[p - at] {
        if p > at { assert rest[p - (at + 1)] == name[p - at]; }
      }
    }
  }

  lemma EntryInside(image: Image, t: Table, k: nat, j: nat)
    requires IsSymbols(image, t, k) && Intact(image, t, k) && j < Entries(image, t, k).count
    ensures Entries(image, t, k).Place(j) + 24 <= |image| && Within(image, Linked(image, t, k))
  {
    hide Long, Quad, Half;
    var size, entry := Long(image, t.Place(k) + 32), Long(image, t.Place(k) + 56);
    MultipleGap(j, size / entry, entry);
    assert size == size / entry * entry;
  }

  // What the scan reads at an entry is what the entry exports.
  lemma EntryIff(image: Image, t: Table, k: nat, j: nat, name: string)
    requires IsSymbols(image, t, k) && Intact(image, t, k) && j < Entries(image, t, k).count
    ensures var row, linked := Entries(image, t, k).Place(j), Linked(image, t, k);
            && row + 24 <= |image| && Within(image, linked)
            && var s := SymbolAt(image, row, Long(image, linked + 24), Long(image, linked + 32));
            && (s.Some? && s.value.name == name <==> Offers(image, t, k, j, name))
            && (s.Some? ==> s.value.address == Long(image, row + 8))
  {
    hide Long, Quad, Half, SymbolAt, Spells, Entries, Linked, Table.Place, IsSymbols, Intact;
    EntryInside(image, t, k, j);
    var row, linked := Entries(image, t, k).Place(j), Linked(image, t, k);
    SymbolIff(image, row, Long(image, linked + 24), Long(image, linked + 32), name);
  }

  lemma SymbolIff(image: Image, row: nat, strings: nat, size: nat, name: string)
    requires row + 24 <= |image| && strings + size <= |image|
    ensures var s := SymbolAt(image, row, strings, size);
            && (s.Some? && s.value.name == name <==>
                  Half(image, row + 6) != 0 && Long(image, row + 8) != 0 &&
                  Spells(image, strings + Quad(image, row), strings + size, name))
            && (s.Some? ==> s.value.address == Long(image, row + 8))
  {
    hide Long, Quad, Half, NameAt, Spells;
    NameIff(image, strings + Quad(image, row), strings + size, name);
    SpellsInside(image, strings + Quad(image, row), strings + size, name);
  }

  lemma SpellsInside(image: Image, at: nat, limit: nat, name: string)
    ensures Spells(image, at, limit, name) ==> at < limit
  {
  }

  // ---- One section ----------------------------------------------------------------------

  lemma PlaceInside(image: Image, t: Table, k: nat)
    requires Inside(image, t) && k < t.count
    ensures t.Place(k) + 64 <= |image|
  {
    MultipleGap(k, t.count, t.entry);
  }

  // The tables of an intact symbol section, as the scan keeps them.
  function Read(image: Image, t: Table, k: nat): (s: Section)
    requires IsSymbols(image, t, k) && Intact(image, t, k)
    ensures s.SymbolTable? && s.entry >= 24
  {
    var e, linked := Entries(image, t, k), Linked(image, t, k);
    SymbolTable(e.offset, e.entry, e.count, Long(image, linked + 24), Long(image, linked + 32))
  }

  // What the scan makes of a section.
  lemma SectionIff(image: Image, t: Table, k: nat)
    requires Inside(image, t) && k < t.count
    ensures var s := SectionAt(image, t.offset, t.entry, t.count, k);
            && (s.Skipped? <==> !IsSymbols(image, t, k))
            && (s.Broken? <==> IsSymbols(image, t, k) && !Intact(image, t, k))
            && (IsSymbols(image, t, k) && Intact(image, t, k) ==>
                  s == Read(image, t, k))
  {
    hide Long, Quad, Half;
    PlaceInside(image, t, k);
    var link := Quad(image, t.Place(k) + 40);
    if link < t.count { PlaceInside(image, t, link); }
  }

  // ---- The scan ---------------------------------------------------------------------------

  // The list stands for everything before entry j of section k, as far as this name goes.
  ghost predicate Stands(image: Image, t: Table, symbols: seq<Symbol>, k: nat, j: nat, name: string) {
    var e := FirstWins(symbols);
    && (name !in e ==> NoneBefore(image, t, k, j, name))
    && (name in e ==> exists k', j' :: Before(k', j', k, j) && FirstOffer(image, t, k', j', name, e[name]))
  }

  lemma FirstWinsGrows(symbols: seq<Symbol>, s: Symbol)
    ensures FirstWins(symbols + [s]) ==
              if s.name in FirstWins(symbols) then FirstWins(symbols) else FirstWins(symbols)[s.name := s.address]
  {
    assert (symbols + [s])[..|symbols|] == symbols;
  }

  lemma ListedWins(symbols: seq<Symbol>, s: Option<Symbol>)
    ensures FirstWins(symbols + Listed(s)) ==
              if s.None? || s.value.name in FirstWins(symbols) then FirstWins(symbols)
              else FirstWins(symbols)[s.value.name := s.value.address]
  {
    if s.None? { assert symbols + [] == symbols; } else { FirstWinsGrows(symbols, s.value); }
  }

  lemma OneMore(image: Image, t: Table, symbols: seq<Symbol>, k: nat, j: nat, name: string)
    requires IsSymbols(image, t, k) && Intact(image, t, k) && j < Entries(image, t, k).count
    requires Stands(image, t, symbols, k, j, name)
    ensures var row, linked := Entries(image, t, k).Place(j), Linked(image, t, k);
            && row + 24 <= |image|
            && Stands(image, t, symbols + Listed(SymbolAt(image, row, Long(image, linked + 24), Long(image, linked + 32))),
                      k, j + 1, name)
  {
    hide SymbolAt, Offers, IsSymbols, Intact, Entries, Linked, Long, FirstWins, Table.Place, Listed;
    EntryIff(image, t, k, j, name);
    var row, linked := Entries(image, t, k).Place(j), Linked(image, t, k);
    var s := SymbolAt(image, row, Long(image, linked + 24), Long(image, linked + 32));
    ListedWins(symbols, s);
    forall k': nat, j': nat | Before(k', j', k, j + 1) && !Before(k', j', k, j) ensures k' == k && j' == j {
    }
    assert Before(k, j, k, j + 1);
  }

  lemma {:induction false} SectionStands(image: Image, t: Table, before: seq<Symbol>, k: nat, s: Section, n: nat, name: string)
    requires IsSymbols(image, t, k) && Intact(image, t, k) && s == Read(image, t, k) && n <= s.count
    requires s.symbols + s.entry * s.count <= |image| && s.strings + s.stringsSize <= |image|
    requires Stands(image, t, before, k, 0, name)
    ensures Stands(image, t, before + TableSymbols(image, s, n), k, n, name)
    decreases n
  {
    hide Stands, SymbolAt, Listed, IsSymbols, Intact, Linked, Long;
    if n == 0 {
      assert before + [] == before;
    } else {
      SectionStands(image, t, before, k, s, n - 1, name);
      var shorter := TableSymbols(image, s, n - 1);
      OneMore(image, t, before + shorter, k, n - 1, name);
      var row := Entries(image, t, k).Place(n - 1);
      assert row == s.symbols + s.entry * (n - 1);
      var last := Listed(SymbolAt(image, row, s.strings, s.stringsSize));
      assert TableSymbols(image, s, n) == shorter + last;
      assert before + (shorter + last) == before + shorter + last;
    }
  }

  // Nothing comes between the last entry of a section and the first of the next.
  lemma NextSection(image: Image, t: Table, symbols: seq<Symbol>, k: nat, n: nat, name: string)
    requires Stands(image, t, symbols, k, n, name)
    requires forall j: nat :: j >= n ==> !Offers(image, t, k, j, name)
    ensures Stands(image, t, symbols, k + 1, 0, name)
  {
    hide Offers, FirstWins;
    forall k': nat, j': nat | Before(k', j', k + 1, 0) && !Before(k', j', k, n) ensures k' == k && j' >= n {
    }
    forall k': nat, j': nat | Before(k', j', k, n) ensures Before(k', j', k + 1, 0) {
    }
  }

  lemma NothingStands(image: Image, t: Table, name: string)
    ensures Stands(image, t, [], 0, 0, name)
  {
  }

  lemma OffersOnly(image: Image, t: Table, k: nat, name: string)
    ensures forall j: nat :: Offers(image, t, k, j, name) ==> IsSymbols(image, t, k) && j < Entries(image, t, k).count
  {
    hide IsSymbols, Intact, Spells, Long, Half, Quad;
  }

  ghost predicate BrokenBefore(image: Image, t: Table, n: nat) {
    exists k :: 0 <= k < n && IsSymbols(image, t, k) && !Intact(image, t, k)
  }

  lemma {:induction false} ScanStands(image: Image, t: Table, n: nat, name: string)
    requires Inside(image, t) && n <= t.count
    ensures var all := AllSymbols(image, t.offset, t.entry, t.count, n);
            && (all.None? <==> BrokenBefore(image, t, n))
            && (all.Some? ==> Stands(image, t, all.value, n, 0, name))
    decreases n
  {
    hide IsSymbols, Intact, SectionAt, TableSymbols, Offers, Stands;
    if n == 0 {
      NothingStands(image, t, name);
    } else {
      ScanStands(image, t, n - 1, name);
      SectionIff(image, t, n - 1);
      OffersOnly(image, t, n - 1, name);
      var before := AllSymbols(image, t.offset, t.entry, t.count, n - 1);
      var s := SectionAt(image, t.offset, t.entry, t.count, n - 1);
      if before.Some? {
        if s.Skipped? {
          NextSection(image, t, before.value, n - 1, 0, name);
        } else if s.SymbolTable? {
          SectionStands(image, t, before.value, n - 1, s, s.count, name);
          NextSection(image, t, before.value + TableSymbols(image, s, s.count), n - 1, s.count, name);
        }
      }
    }
  }

  lemma RoomIff(room: nat, entry: nat, count: nat)
    requires entry > 0
    ensures count <= room / entry <==> entry * count <= room
  {
    if count <= room / entry {
      MultipleGap(count, room / entry, entry);
    } else {
      MultipleGap(room / entry, count, entry);
    }
  }

  // The section table the header speaks of lies in the image, or there is none to read.
  predicate TableInImage(image: Image, t: Table) {
    t.entry >= 64 && (t.count == 0 || t.offset + t.entry * t.count <= |image|)
  }

  // Some section exports this name.
  ghost predicate Offered(image: Image, t: Table, name: string) {
    exists k, j :: Offers(image, t, k, j, name)
  }

  /** The exports of every image whose header is there. There are none exactly when the
      section table lies outside the image, a section with symbols or the strings linked
      to it does, or some symbol with a value and a section has an empty name. Otherwise
      a name is exported exactly when an entry exports it, with the value of the first. */
  lemma ExportsExact(image: Image, t: Table, name: string)
    requires |image| >= 62 && t == Table(Long(image, 40), Half(image, 58), Half(image, 60))
    ensures ExportsOf(image).None? <==>
              !TableInImage(image, t) || BrokenBefore(image, t, t.count) || Offered(image, t, "")
    ensures ExportsOf(image).Some? ==>
              var e := ExportsOf(image).value;
              && (name in e <==> Offered(image, t, name))
              && (name in e ==> exists k, j :: FirstOffer(image, t, k, j, name, e[name]))
  {
    hide Half, Long, Quad, FirstWins, IsSymbols, Intact, AllSymbols;
    NoOffers(image, t, name);
    NoOffers(image, t, "");
    if t.entry >= 64 && t.count > 0 && t.offset <= |image| {
      RoomIff(|image| - t.offset, t.entry, t.count);
      if Inside(image, t) {
        ScanStands(image, t, t.count, name);
        ScanStands(image, t, t.count, "");
        var all := AllSymbols(image, t.offset, t.entry, t.count, t.count);
        if all.Some? {
          UnnamedIff(all.value);
          StandsIff(image, t, all.value, name);
          StandsIff(image, t, all.value, "");
        }
      }
    }
  }

  // Offers come from the sections there are.
  lemma NoOffers(image: Image, t: Table, name: string)
    ensures t.count == 0 ==> !Offered(image, t, name) && !BrokenBefore(image, t, t.count)
  {
  }

  lemma StandsIff(image: Image, t: Table, symbols: seq<Symbol>, name: string)
    requires Stands(image, t, symbols, t.count, 0, name)
    ensures name in FirstWins(symbols) <==> Offered(image, t, name)
    ensures name in FirstWins(symbols) ==> exists k, j :: FirstOffer(image, t, k, j, name, FirstWins(symbols)[name])
  {
    hide FirstWins, Intact;
    forall k, j | Offers(image, t, k, j, name) ensures Before(k, j, t.count, 0) {
    }
  }

  lemma UnnamedIff(symbols: seq<Symbol>)
    ensures AllNamed(symbols) <==> "" !in FirstWins(symbols)
  {
    FirstWinsHas(symbols, "");
    hide FirstWins;
    if !AllNamed(symbols) {
      var s :| s in symbols && s.name == "";
      var k :| 0 <= k < |symbols| && symbols[k] == s;
    }
  }
}

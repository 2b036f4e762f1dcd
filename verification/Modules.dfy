/** Module loading: the registry of exports by module name, the tables of loaded
    modules by handle, and the export scan over an ELF image. */
module Modules {

  import Arithmetic
  import opened Common
  import ElfLayout
  import opened ElfPlan
  import opened MemoryManager

  // ---- The registry ------------------------------------------------------------------------

  type Exports = map<string, Word>

  function Added(exports: Exports, symbol: string, address: Word): Exports {
    exports[symbol := address]
  }

  class Registry {
    var modules: map<string, Exports>

    constructor ()
      ensures modules == map[]
    {
      modules := map[];
    }

    method RegisterModule(name: string) returns (ok: bool)
      modifies this
      ensures ok == (name != "" && name !in old(modules))
      ensures modules == if ok then old(modules)[name := map[]] else old(modules)
    {
      if name == "" || name in modules {
        return false;
      }
      modules := modules[name := map[]];
      return true;
    }

    method UnregisterModule(name: string) returns (ok: bool)
      modifies this
      ensures ok == (name in old(modules)) && modules == old(modules) - {name}
    {
      ok := name in modules;
      modules := modules - {name};
    }

    /** An export is added once, never replaced. */
    method RegisterExport(name: string, symbol: string, address: Word) returns (ok: bool)
      modifies this
      ensures ok == (name in old(modules) && symbol != "" && address != 0 && symbol !in old(modules)[name])
      ensures modules == if ok then old(modules)[name := Added(old(modules)[name], symbol, address)] else old(modules)
    {
      if name !in modules || symbol == "" || address == 0 || symbol in modules[name] {
        return false;
      }
      modules := modules[name := Added(modules[name], symbol, address)];
      return true;
    }

    method Resolve(name: string, symbol: string) returns (address: Option<Word>)
      ensures address == Resolved(modules, name, symbol)
    {
      if name !in modules || symbol !in modules[name] {
        return None;
      }
      return Some(modules[name][symbol]);
    }
  }

  function Resolved(modules: map<string, Exports>, name: string, symbol: string): Option<Word> {
    if name in modules && symbol in modules[name] then Some(modules[name][symbol]) else None
  }

  // ---- Scanning an image for exports -----------------------------------------------------------

  datatype Symbol = Symbol(name: string, address: Word)

  // The bytes up to the first zero, if there is one before the limit.
  function NameAt(image: Image, start: nat, limit: nat): Option<string>
    requires limit <= |image|
    decreases limit - start
  {
    if start >= limit then None
    else if image[start] == 0 then Some("")
    else
      match NameAt(image, start + 1, limit)
      case None => None
      case Some(rest) => Some([image[start] as char] + rest)
  }

  // An eligible symbol has a value, a section and a terminated name.
  function SymbolAt(image: Image, at: nat, strings: nat, stringsSize: nat): Option<Symbol>
    requires at + 24 <= |image| && strings + stringsSize <= |image|
  {
    var name, section, value := Quad(image, at), Half(image, at + 6), Long(image, at + 8);
    if name >= stringsSize || value == 0 || section == 0 then None
    else
      match NameAt(image, strings + name, strings + stringsSize)
      case None => None
      case Some(s) => Some(Symbol(s, value))
  }

  datatype Section =
    | Skipped
    | Broken
    | SymbolTable(symbols: nat, entry: nat, count: nat, strings: nat, stringsSize: nat)

  // The section table lies in the image.
  predicate SectionsInside(image: Image, table: nat, entry: nat, count: nat) {
    entry >= 64 && table + entry * count <= |image|
  }

  lemma SectionInside(image: Image, table: nat, entry: nat, count: nat, k: nat)
    requires SectionsInside(image, table, entry, count) && k < count
    ensures table + entry * k + 64 <= |image|
  {
    assert entry * count == entry * k + entry * (count - k);
    assert entry * (count - k) >= entry * 1 by { Arithmetic.MultipleGap(1, count - k, entry); }
  }

  lemma WholeEntries(size: nat, entry: nat)
    requires entry > 0 && size % entry == 0
    ensures entry * (size / entry) == size
  {
  }

  // A symbol table beside the string table its section links to.
  function Described(image: Image, symbols: Word, size: Word, entry: Word, strings: Word, stringsSize: Word): (r: Section)
    requires entry >= 24 && size % entry == 0 && RangeWithin(symbols, size, |image|)
    ensures r.SymbolTable? ==> r.entry >= 24 && r.symbols + r.entry * r.count <= |image| && r.strings + r.stringsSize <= |image|
  {
    WholeEntries(size, entry);
    if RangeWithin(strings, stringsSize, |image|) then SymbolTable(symbols, entry, size / entry, strings, stringsSize) else Broken
  }

  // Where the header of section k begins.
  function SectionPlace(image: Image, table: nat, entry: nat, count: nat, k: nat): (at: nat)
    requires SectionsInside(image, table, entry, count) && k < count
    ensures at + 64 <= |image|
  {
    SectionInside(image, table, entry, count, k);
    table + entry * k
  }

  datatype Header = Header(kind: nat, offset: Word, size: Word, link: nat, entry: Word)

  function HeaderAt(image: Image, at: nat): Header
    requires at + 64 <= |image|
  {
    Header(Quad(image, at + 4), Long(image, at + 24), Long(image, at + 32), Quad(image, at + 40), Long(image, at + 56))
  }

  // Which symbol and string tables a section describes.
  function SectionAt(image: Image, table: nat, entry: nat, count: nat, k: nat): (r: Section)
    requires SectionsInside(image, table, entry, count) && k < count
    ensures r.SymbolTable? ==> r.entry >= 24 && r.symbols + r.entry * r.count <= |image| && r.strings + r.stringsSize <= |image|
  {
    var h := HeaderAt(image, SectionPlace(image, table, entry, count, k));
    if (h.kind != 2 && h.kind != 11) || h.entry < 24 || h.size % h.entry != 0 || h.link >= count then Skipped
    else if !RangeWithin(h.offset, h.size, |image|) then Broken
    else
      var linked := HeaderAt(image, SectionPlace(image, table, entry, count, h.link));
      Described(image, h.offset, h.size, h.entry, linked.offset, linked.size)
  }

  lemma SymbolInside(symbols: nat, entry: nat, count: nat, k: nat, limit: nat)
    requires entry >= 24 && symbols + entry * count <= limit && k < count
    ensures symbols + entry * k + 24 <= limit
  {
    assert entry * count == entry * k + entry * (count - k);
    Arithmetic.MultipleGap(1, count - k, entry);
  }

  // The eligible symbols among the first n of a table.
  function TableSymbols(image: Image, s: Section, n: nat): seq<Symbol>
    requires s.SymbolTable? && n <= s.count
    requires s.entry >= 24 && s.symbols + s.entry * s.count <= |image| && s.strings + s.stringsSize <= |image|
  {
    if n == 0 then []
    else
      SymbolInside(s.symbols, s.entry, s.count, n - 1, |image|);
      TableSymbols(image, s, n - 1) + Listed(SymbolAt(image, s.symbols + s.entry * (n - 1), s.strings, s.stringsSize))
  }

  function Listed(s: Option<Symbol>): seq<Symbol> {
    if s.None? then [] else [s.value]
  }

  // All eligible symbols of the first n sections, in scan order; None at a broken one.
  function AllSymbols(image: Image, table: nat, entry: nat, count: nat, n: nat): Option<seq<Symbol>>
    requires SectionsInside(image, table, entry, count) && n <= count
  {
    if n == 0 then Some([])
    else
      var s := SectionAt(image, table, entry, count, n - 1);
      match AllSymbols(image, table, entry, count, n - 1)
      case None => None
      case Some(before) =>
        if s.Skipped? then Some(before) else if s.Broken? then None else Some(before + TableSymbols(image, s, s.count))
  }

  // The first symbol of each name.
  function FirstWins(symbols: seq<Symbol>): Exports {
    if symbols == [] then map[]
    else
      var n := |symbols| - 1;
      var before := FirstWins(symbols[..n]);
      if symbols[n].name in before then before else before[symbols[n].name := symbols[n].address]
  }

  predicate AllNamed(symbols: seq<Symbol>) {
    forall s :: s in symbols ==> s.name != ""
  }

  // The exports of an image; none when a table is broken or an eligible symbol has
  // an empty name.
  function ExportsOf(image: Image): Option<Exports> {
    if |image| < 62 || Half(image, 58) < 64 then None
    else
      var table, entry, count := Long(image, 40), Half(image, 58), Half(image, 60);
      if count == 0 then Some(map[])
      else if table > |image| || count > (|image| - table) / entry then None
      else
        TableFits(|image| - table, entry, count);
        match AllSymbols(image, table, entry, count, count)
        case None => None
        case Some(symbols) => if AllNamed(symbols) then Some(FirstWins(symbols)) else None
  }

  lemma TableFits(room: nat, entry: nat, count: nat)
    requires entry > 0 && count <= room / entry
    ensures entry * count <= room
  {
    Arithmetic.MultipleGap(count, room / entry, entry);
  }

  lemma {:induction false} FirstWinsHas(symbols: seq<Symbol>, name: string)
    ensures name in FirstWins(symbols) <==> exists k :: 0 <= k < |symbols| && symbols[k].name == name
    ensures name in FirstWins(symbols) ==> exists k :: IsFirst(symbols, k, name) && FirstWins(symbols)[name] == symbols[k].address
  {
    if symbols != [] {
      var n := |symbols| - 1;
      FirstWinsHas(symbols[..n], name);
      if name in FirstWins(symbols[..n]) {
        var k :| IsFirst(symbols[..n], k, name) && FirstWins(symbols[..n])[name] == symbols[..n][k].address;
        assert symbols[k] == symbols[..n][k];
        assert forall j :: 0 <= j < k ==> symbols[j] == symbols[..n][j];
        assert IsFirst(symbols, k, name);
      } else {
        assert forall k :: 0 <= k < n ==> symbols[k] == symbols[..n][k];
        assert symbols[n].name == name ==> IsFirst(symbols, n, name);
      }
    }
  }

  // The first symbol with this name.
  predicate IsFirst(symbols: seq<Symbol>, k: int, name: string) {
    0 <= k < |symbols| && symbols[k].name == name && forall j :: 0 <= j < k ==> symbols[j].name != name
  }

  lemma FirstWinsMore(symbols: seq<Symbol>, s: Symbol)
    ensures FirstWins(symbols + [s]) ==
            if s.name in FirstWins(symbols) then FirstWins(symbols) else FirstWins(symbols)[s.name := s.address]
  {
    assert (symbols + [s])[..|symbols|] == symbols;
  }

  lemma {:induction false} TableGrows(image: Image, s: Section, n: nat, m: nat)
    requires s.SymbolTable? && n <= m <= s.count
    requires s.entry >= 24 && s.symbols + s.entry * s.count <= |image| && s.strings + s.stringsSize <= |image|
    ensures TableSymbols(image, s, n) <= TableSymbols(image, s, m)
    decreases m
  {
    if n < m { TableGrows(image, s, n, m - 1); }
  }

  predicate ScanState(modules: map<string, Exports>, name: string, symbols: seq<Symbol>, registered: set<string>) {
    name in modules && modules[name] == FirstWins(symbols) && registered == FirstWins(symbols).Keys && AllNamed(symbols)
  }

  // Other modules are as they were.
  predicate OthersSame(modules: map<string, Exports>, before: map<string, Exports>, name: string) {
    modules - {name} == before - {name}
  }

  lemma SymbolValue(image: Image, at: nat, strings: nat, stringsSize: nat)
    requires at + 24 <= |image| && strings + stringsSize <= |image|
    ensures var s := SymbolAt(image, at, strings, stringsSize); s.Some? ==> s.value.address != 0
  {
  }

  // One eligible symbol: the first of its name is registered, later ones are ignored.
  method RegisterSymbol(symbol: Symbol, name: string, registry: Registry, known: set<string>, ghost before: seq<Symbol>)
    returns (ok: bool, registered: set<string>)
    requires ScanState(registry.modules, name, before, known) && symbol.address != 0
    modifies registry
    ensures OthersSame(registry.modules, old(registry.modules), name) && name in registry.modules
    ensures ok ==> ScanState(registry.modules, name, before + [symbol], registered)
    ensures !ok ==> symbol.name == ""
  {
    FirstWinsMore(before, symbol);
    FirstWinsHas(before, symbol.name);
    hide FirstWins;
    registered := known;
    if symbol.name in registered {
      return true, registered;
    }
    registered := registered + {symbol.name};
    ok := registry.RegisterExport(name, symbol.name, symbol.address);
  }

  /** The symbol loop of one section. */
  method RegisterTable(image: Image, s: Section, name: string, registry: Registry, known: set<string>, ghost before: seq<Symbol>)
    returns (ok: bool, registered: set<string>)
    requires s.SymbolTable? && s.entry >= 24 && s.symbols + s.entry * s.count <= |image| && s.strings + s.stringsSize <= |image|
    requires ScanState(registry.modules, name, before, known)
    modifies registry
    ensures OthersSame(registry.modules, old(registry.modules), name) && name in registry.modules
    ensures ok ==> ScanState(registry.modules, name, before + TableSymbols(image, s, s.count), registered)
    ensures !ok ==> !AllNamed(TableSymbols(image, s, s.count))
  {
    hide SymbolAt, ScanState, OthersSame;
    registered := known;
    assert before + TableSymbols(image, s, 0) == before;
    SameOthers(registry.modules, name);
    InScan(registry.modules, name, before, registered);
    for k := 0 to s.count
      invariant ScanState(registry.modules, name, before + TableSymbols(image, s, k), registered)
      invariant OthersSame(registry.modules, old(registry.modules), name) && name in registry.modules
    {
      SymbolInside(s.symbols, s.entry, s.count, k, |image|);
      var symbol := SymbolAt(image, s.symbols + s.entry * k, s.strings, s.stringsSize);
      SymbolValue(image, s.symbols + s.entry * k, s.strings, s.stringsSize);
      ghost var sofar, modules := before + TableSymbols(image, s, k), registry.modules;
      assert before + TableSymbols(image, s, k + 1) == sofar + Listed(symbol);
      TableGrows(image, s, k + 1, s.count);
      if symbol.Some? {
        var added: bool;
        added, registered := RegisterSymbol(symbol.value, name, registry, registered, sofar);
        OthersChain(registry.modules, modules, old(registry.modules), name);
        if !added {
          assert symbol.value in TableSymbols(image, s, k + 1);
          return false, registered;
        }
      } else {
        assert sofar + Listed(symbol) == sofar;
      }
    }
    return true, registered;
  }

  lemma SameOthers(modules: map<string, Exports>, name: string)
    ensures OthersSame(modules, modules, name)
  {
  }

  lemma InScan(modules: map<string, Exports>, name: string, symbols: seq<Symbol>, registered: set<string>)
    requires ScanState(modules, name, symbols, registered)
    ensures name in modules
  {
  }

  lemma OthersChain(after: map<string, Exports>, middle: map<string, Exports>, before: map<string, Exports>, name: string)
    requires OthersSame(after, middle, name) && OthersSame(middle, before, name)
    ensures OthersSame(after, before, name)
  {
  }

  lemma {:induction false} SymbolsGrow(image: Image, table: nat, entry: nat, count: nat, n: nat, m: nat)
    requires SectionsInside(image, table, entry, count) && n <= m <= count
    ensures AllSymbols(image, table, entry, count, m).Some? ==>
              AllSymbols(image, table, entry, count, n).Some? &&
              AllSymbols(image, table, entry, count, n).value <= AllSymbols(image, table, entry, count, m).value
    decreases m
  {
    if n < m { SymbolsGrow(image, table, entry, count, n, m - 1); }
  }

  /** The scan of a whole image for a module just registered. On failure the module
      may hold some exports; all others are untouched. */
  method RegisterElfExports(image: Image, name: string, registry: Registry) returns (ok: bool)
    requires name in registry.modules && registry.modules[name] == map[]
    modifies registry
    ensures ok == ExportsOf(image).Some?
    ensures ok ==> registry.modules == old(registry.modules)[name := ExportsOf(image).value]
    ensures OthersSame(registry.modules, old(registry.modules), name) && name in registry.modules
  {
    hide FirstWins, SectionAt, Half, Long;
    if |image| < 62 || Half(image, 58) < 64 {
      return false;
    }
    var table, entry, count := Long(image, 40), Half(image, 58), Half(image, 60);
    if count == 0 {
      assert registry.modules[name := map[]] == registry.modules;
      return true;
    }
    if table > |image| || count > (|image| - table) / entry {
      return false;
    }
    TableFits(|image| - table, entry, count);
    var registered: set<string> := {};
    NothingFound();
    for section := 0 to count
      invariant AllSymbols(image, table, entry, count, section).Some?
      invariant ScanState(registry.modules, name, AllSymbols(image, table, entry, count, section).value, registered)
      invariant OthersSame(registry.modules, old(registry.modules), name)
    {
      var s := SectionAt(image, table, entry, count, section);
      ghost var before := AllSymbols(image, table, entry, count, section).value;
      SymbolsGrow(image, table, entry, count, section + 1, count);
      if s.Broken? {
        return false;
      }
      if s.SymbolTable? {
        var added: bool;
        added, registered := RegisterTable(image, s, name, registry, registered, before);
        if !added {
          NotAllNamed(before, TableSymbols(image, s, s.count), AllSymbols(image, table, entry, count, count));
          return false;
        }
      }
    }
    OnlyOneChanged(registry.modules, old(registry.modules), name);
    return true;
  }

  lemma NothingFound()
    ensures FirstWins([]) == map[] && AllNamed([])
  {
  }

  lemma NotAllNamed(before: seq<Symbol>, some: seq<Symbol>, all: Option<seq<Symbol>>)
    requires !AllNamed(some) && (all.Some? ==> before + some <= all.value)
    ensures all.Some? ==> !AllNamed(all.value)
  {
    var s :| s in some && s.name == "";
    if all.Some? {
      var k :| 0 <= k < |some| && some[k] == s;
      assert (before + some)[|before| + k] == s;
      assert all.value[|before| + k] == s;
    }
  }

  lemma OnlyOneChanged(modules: map<string, Exports>, before: map<string, Exports>, name: string)
    requires OthersSame(modules, before, name) && name in modules && name in before
    ensures modules == before[name := modules[name]]
  {
    forall other | other in modules && other != name ensures other in before && modules[other] == before[other] {
      assert other in modules - {name};
    }
    forall other | other in before && other != name ensures other in modules {
      assert other in before - {name};
    }
  }

  // ---- The loader's tables ---------------------------------------------------------------------

  function Kernel(): string {
    "libkernel.sprx"
  }

  function Libc(): string {
    "libSceLibcInternal.sprx"
  }

  const KERNEL_SYMBOLS := ["sceKernelGetProcessTime", "sceKernelGetModuleInfoByName", "sceKernelLoadStartModule", "sceKernelDlsym"]
  const LIBC_SYMBOLS := ["printf", "malloc", "free", "memcpy", "memset"]

  // A path that resolved to a readable file.
  datatype File = File(name: string, image: Image)

  // `images` records what each handle was loaded from.
  datatype Tables = Tables(registry: map<string, Exports>, modules: map<nat, string>, handleNames: map<nat, string>,
                           nextHandle: nat, stubsInitialized: bool, images: map<nat, Image>)

  const EMPTY := Tables(map[], map[], map[], 1, false, map[])

  predicate Loadable(registry: map<string, Exports>, file: Option<File>, mapped: bool) {
    && file.Some? && Inspected(file.value.image).Accepted? && file.value.name !in registry && mapped
    && file.value.name != "" && ExportsOf(file.value.image).Some?
  }

  // A load that cannot complete returns handle 0 and changes nothing.
  function AfterLoad(t: Tables, file: Option<File>, mapped: bool): (Tables, nat) {
    if !Loadable(t.registry, file, mapped) then (t, 0)
    else
      var h, name := t.nextHandle, file.value.name;
      (t.(registry := t.registry[name := ExportsOf(file.value.image).value], modules := t.modules[h := name],
          handleNames := t.handleNames[h := name], nextHandle := h + 1, images := t.images[h := file.value.image]), h)
  }

  function AfterUnload(t: Tables, h: nat): Tables {
    if h !in t.modules then t
    else t.(registry := t.registry - {t.modules[h]}, modules := t.modules - {h}, handleNames := t.handleNames - {h},
            images := t.images - {h})
  }

  function StubExports(symbols: seq<string>, address: string -> Word): Exports {
    map s | s in symbols :: address(s)
  }

  // The two stub modules, in this order; a failure of the second keeps the first.
  function AfterStubs(t: Tables, address: string -> Word): (Tables, bool) {
    if t.stubsInitialized then (t, true)
    else if Kernel() in t.registry then (t, false)
    else
      var first := t.registry[Kernel() := StubExports(KERNEL_SYMBOLS, address)];
      if Libc() in first then (t.(registry := first), false)
      else (t.(registry := first[Libc() := StubExports(LIBC_SYMBOLS, address)], stubsInitialized := true), true)
  }

  datatype Operation =
    | Load(file: Option<File>, mapped: bool)
    | Unload(handle: nat)
    | Stubs(address: string -> Word)

  function After(t: Tables, op: Operation): Tables {
    match op
    case Load(file, mapped) => AfterLoad(t, file, mapped).0
    case Unload(h) => AfterUnload(t, h)
    case Stubs(address) => AfterStubs(t, address).0
  }

  predicate IsLoaded(t: Tables, name: string) {
    exists h :: h in t.modules && t.modules[h] == name
  }

  // Registered, but not as a loaded module.
  predicate Orphan(t: Tables, name: string) {
    name in t.registry && !IsLoaded(t, name)
  }

  // Entry h of the tables: a known handle, a registered name, the image's exports.
  predicate EntryFits(t: Tables, h: nat) {
    && h in t.modules && h in t.images && 1 <= h < t.nextHandle && t.modules[h] in t.registry
    && ExportsOf(t.images[h]) == Some(t.registry[t.modules[h]])
  }

  ghost predicate EntriesFit(t: Tables) {
    && t.nextHandle >= 1 && t.modules == t.handleNames && t.modules.Keys == t.images.Keys
    && forall h :: h in t.modules ==> EntryFits(t, h)
  }

  ghost predicate NamesDistinct(t: Tables) {
    forall g, h :: g in t.modules && h in t.modules && g != h ==> t.modules[g] != t.modules[h]
  }

  ghost predicate RegistryExplained(t: Tables) {
    && (forall name :: name in t.registry ==>
          IsLoaded(t, name) || name == Kernel() || (name == Libc() && t.stubsInitialized))
    && (t.stubsInitialized ==> Orphan(t, Kernel()) && Orphan(t, Libc()))
  }

  ghost predicate Consistent(t: Tables) {
    EntriesFit(t) && NamesDistinct(t) && RegistryExplained(t)
  }

  lemma LoadedMore(t: Tables, t': Tables, h: nat, name: string, other: string)
    requires h !in t.modules && t'.modules == t.modules[h := name]
    ensures IsLoaded(t', other) <==> IsLoaded(t, other) || other == name
  {
    if IsLoaded(t, other) {
      var g :| g in t.modules && t.modules[g] == other;
      assert t'.modules[g] == other;
    }
    assert t'.modules[h] == name;
  }

  lemma LoadedLess(t: Tables, t': Tables, h: nat, other: string)
    requires h in t.modules && NamesDistinct(t) && t'.modules == t.modules - {h}
    ensures IsLoaded(t', other) <==> IsLoaded(t, other) && other != t.modules[h]
  {
    if IsLoaded(t, other) && other != t.modules[h] {
      var g :| g in t.modules && t.modules[g] == other;
      assert t'.modules[g] == other;
    }
  }

  lemma EntryKept(t: Tables, t': Tables, h: nat)
    requires EntryFits(t, h) && h in t'.modules && t'.modules[h] == t.modules[h] && h in t'.images && t'.images[h] == t.images[h]
    requires t'.nextHandle >= t.nextHandle
    requires t.modules[h] in t'.registry && t'.registry[t.modules[h]] == t.registry[t.modules[h]]
    ensures EntryFits(t', h)
  {
    hide ExportsOf;
  }

  lemma LoadEntries(t: Tables, file: Option<File>, mapped: bool)
    requires EntriesFit(t) && NamesDistinct(t) && Loadable(t.registry, file, mapped)
    ensures var t' := AfterLoad(t, file, mapped).0;
            t.nextHandle !in t.modules && EntriesFit(t') && NamesDistinct(t')
  {
    hide ExportsOf, Inspected;
    var t', h, name := AfterLoad(t, file, mapped).0, t.nextHandle, file.value.name;
    assert h in t.modules ==> EntryFits(t, h);
    assert forall g :: g in t.modules ==> EntryFits(t, g) && t.modules[g] != name;
    forall g | g in t'.modules ensures EntryFits(t', g) {
      if g != h { EntryKept(t, t', g); }
    }
  }

  lemma LoadConsistent(t: Tables, file: Option<File>, mapped: bool)
    requires Consistent(t)
    ensures Consistent(AfterLoad(t, file, mapped).0)
  {
    hide ExportsOf, Inspected, EntriesFit, NamesDistinct, IsLoaded, Kernel, Libc;
    if Loadable(t.registry, file, mapped) {
      var t', h, name := AfterLoad(t, file, mapped).0, t.nextHandle, file.value.name;
      LoadEntries(t, file, mapped);
      forall other ensures IsLoaded(t', other) <==> IsLoaded(t, other) || other == name {
        LoadedMore(t, t', h, name, other);
      }
    }
  }

  lemma UnloadEntries(t: Tables, h: nat)
    requires EntriesFit(t) && NamesDistinct(t) && h in t.modules
    ensures EntriesFit(AfterUnload(t, h)) && NamesDistinct(AfterUnload(t, h))
  {
    hide ExportsOf;
    var t' := AfterUnload(t, h);
    forall g | g in t'.modules ensures EntryFits(t', g) {
      assert EntryFits(t, g) && t.modules[g] != t.modules[h];
      EntryKept(t, t', g);
    }
  }

  lemma UnloadConsistent(t: Tables, h: nat)
    requires Consistent(t)
    ensures Consistent(AfterUnload(t, h))
  {
    hide ExportsOf, EntriesFit, NamesDistinct, Kernel, Libc;
    if h in t.modules {
      var t' := AfterUnload(t, h);
      UnloadEntries(t, h);
      forall other ensures IsLoaded(t', other) <==> IsLoaded(t, other) && other != t.modules[h] {
        LoadedLess(t, t', h, other);
      }
      assert IsLoaded(t, t.modules[h]);
      hide IsLoaded;
      assert RegistryExplained(t');
    }
  }

  lemma StubsEntries(t: Tables, address: string -> Word)
    requires EntriesFit(t)
    ensures EntriesFit(AfterStubs(t, address).0)
  {
    hide ExportsOf, StubExports, Kernel, Libc;
    var t' := AfterStubs(t, address).0;
    forall h | h in t'.modules ensures EntryFits(t', h) {
      assert EntryFits(t, h);
      EntryKept(t, t', h);
    }
  }

  lemma SameLoaded(t: Tables, t': Tables)
    requires t'.modules == t.modules
    ensures NamesDistinct(t') == NamesDistinct(t) && forall name :: IsLoaded(t', name) == IsLoaded(t, name)
  {
  }

  // A stub is only registered under a name that nothing has, so no loaded module.
  lemma StubsExplained(t: Tables, address: string -> Word)
    requires RegistryExplained(t) && forall name :: IsLoaded(t, name) ==> name in t.registry
    ensures RegistryExplained(AfterStubs(t, address).0)
  {
    SameLoaded(t, AfterStubs(t, address).0);
    hide IsLoaded, StubExports, Kernel, Libc;
  }

  lemma StubsConsistent(t: Tables, address: string -> Word)
    requires Consistent(t)
    ensures Consistent(AfterStubs(t, address).0)
  {
    StubsEntries(t, address);
    LoadedRegistered(t);
    SameLoaded(t, AfterStubs(t, address).0);
    hide EntriesFit, RegistryExplained, NamesDistinct, IsLoaded, StubExports, Kernel, Libc;
    StubsExplained(t, address);
  }

  lemma LoadedRegistered(t: Tables)
    requires EntriesFit(t)
    ensures forall name :: IsLoaded(t, name) ==> name in t.registry
  {
    forall name | IsLoaded(t, name) ensures name in t.registry {
      var h :| h in t.modules && t.modules[h] == name;
      assert EntryFits(t, h);
    }
  }

  lemma StepConsistent(t: Tables, op: Operation)
    requires Consistent(t)
    ensures Consistent(After(t, op)) && After(t, op).nextHandle >= t.nextHandle
  {
    hide Consistent, ExportsOf, Inspected, StubExports, Kernel, Libc;
    match op
    case Load(file, mapped) => LoadConsistent(t, file, mapped);
    case Unload(h) => UnloadConsistent(t, h);
    case Stubs(address) => StubsConsistent(t, address);
  }

  function AfterAll(ops: seq<Operation>): Tables {
    if ops == [] then EMPTY else After(AfterAll(ops[..|ops| - 1]), ops[|ops| - 1])
  }

  /** Over all histories of loads, unloads and stub initialisations the tables
      agree: one entry per loaded module in each, distinct names that are all
      registered, and under each name exactly the first-wins exports of the image
      the handle was loaded from. */
  lemma {:induction false} TablesConsistent(ops: seq<Operation>)
    ensures Consistent(AfterAll(ops))
  {
    if ops != [] {
      TablesConsistent(ops[..|ops| - 1]);
      StepConsistent(AfterAll(ops[..|ops| - 1]), ops[|ops| - 1]);
    } else {
      assert Consistent(EMPTY);
    }
  }

  /** What a handle resolves to, in any history: the address of the first eligible
      symbol of that name in its image. */
  lemma HandleResolves(ops: seq<Operation>, h: nat, symbol: string)
    requires h in AfterAll(ops).modules
    ensures var t := AfterAll(ops);
            && h in t.images && ExportsOf(t.images[h]).Some? && h in t.handleNames
            && Resolved(t.registry, t.handleNames[h], symbol) ==
               (if symbol in ExportsOf(t.images[h]).value then Some(ExportsOf(t.images[h]).value[symbol]) else None)
  {
    hide ExportsOf, AfterAll;
    TablesConsistent(ops);
    assert EntryFits(AfterAll(ops), h);
  }

  // The handle the last operation of a history gave out, if any.
  function Issued(ops: seq<Operation>): nat
    requires ops != []
  {
    var t, op := AfterAll(ops[..|ops| - 1]), ops[|ops| - 1];
    if op.Load? then AfterLoad(t, op.file, op.mapped).1 else 0
  }

  lemma HandleStep(t: Tables, op: Operation)
    ensures After(t, op).nextHandle >= t.nextHandle
  {
    hide Loadable, StubExports, Kernel, Libc;
  }

  lemma {:induction false} NextHandleGrows(ops: seq<Operation>, n: nat)
    requires n <= |ops|
    ensures 1 <= AfterAll(ops[..n]).nextHandle <= AfterAll(ops).nextHandle
    decreases |ops|
  {
    hide After;
    if ops != [] { HandleStep(AfterAll(ops[..|ops| - 1]), ops[|ops| - 1]); }
    if n == |ops| {
      assert ops[..n] == ops;
      if ops != [] { NextHandleGrows(ops[..n - 1], n - 1); }
    } else {
      var shorter := ops[..|ops| - 1];
      assert shorter[..n] == ops[..n];
      NextHandleGrows(shorter, n);
    }
  }

  /** Handles never repeat: a later successful load gets a larger one. */
  lemma HandlesNeverRepeat(ops: seq<Operation>, m: nat)
    requires 0 < m < |ops| && Issued(ops[..m]) != 0 && Issued(ops) != 0
    ensures Issued(ops[..m]) < Issued(ops)
  {
    hide Loadable;
    var before := ops[..|ops| - 1];
    assert before[..m] == ops[..m];
    NextHandleGrows(before, m);
    var first := ops[..m];
    assert AfterAll(first) == After(AfterAll(first[..m - 1]), first[m - 1]);
  }

  lemma FreshHandle(t: Tables)
    requires Consistent(t)
    ensures t.nextHandle !in t.modules && t.nextHandle !in t.images && t.nextHandle !in t.handleNames
  {
    assert t.nextHandle in t.modules ==> EntryFits(t, t.nextHandle);
  }

  /** Unloading what was just loaded restores everything but the handle counter. */
  lemma UnloadUndoesLoad(ops: seq<Operation>, file: Option<File>, mapped: bool)
    requires AfterLoad(AfterAll(ops), file, mapped).1 != 0
    ensures var t := AfterAll(ops);
            var (loaded, h) := AfterLoad(t, file, mapped);
            AfterUnload(loaded, h) == t.(nextHandle := h + 1)
  {
    hide ExportsOf, Inspected, Consistent, AfterAll;
    TablesConsistent(ops);
    var t := AfterAll(ops);
    FreshHandle(t);
    LoadThenUnload(t, file, mapped);
  }

  lemma LoadThenUnload(t: Tables, file: Option<File>, mapped: bool)
    requires Loadable(t.registry, file, mapped)
    requires t.nextHandle !in t.modules && t.nextHandle !in t.images && t.nextHandle !in t.handleNames
    ensures var (loaded, h) := AfterLoad(t, file, mapped);
            AfterUnload(loaded, h) == t.(nextHandle := h + 1)
  {
    hide ExportsOf, Inspected;
    var (loaded, h) := AfterLoad(t, file, mapped);
    var back := AfterUnload(loaded, h);
    assert back.registry == t.registry;
    assert back.modules == t.modules && back.handleNames == t.handleNames;
    assert back.images == t.images;
  }

  lemma NamesApart()
    ensures Kernel() != Libc()
  {
    assert |Kernel()| != |Libc()|;
  }

  /** In any history a stub initialisation fails with a part of it done exactly when
      a module under the name of the second stub is loaded and the first stub's name
      is free; a failure that changes nothing found the first name taken. */
  lemma FailedStubs(ops: seq<Operation>, address: string -> Word)
    ensures var t := AfterAll(ops);
            var (t', ok) := AfterStubs(t, address);
            && (!ok && t' != t <==> IsLoaded(t, Libc()) && Kernel() !in t.registry)
            && (!ok && t' == t <==> Kernel() in t.registry && !t.stubsInitialized)
            && (!ok && t' != t ==> Orphan(t', Kernel()) && !t'.stubsInitialized)
  {
    hide AfterAll, EntriesFit, NamesDistinct, StubExports, Kernel, Libc;
    NamesApart();
    TablesConsistent(ops);
    var t := AfterAll(ops);
    LoadedRegistered(t);
    SameLoaded(t, AfterStubs(t, address).0);
    hide IsLoaded;
  }

  // Once the kernel stub is registered without the flag, that stays so.
  lemma {:induction false} StubsStayStuck(ops: seq<Operation>, n: nat)
    requires n <= |ops| && Orphan(AfterAll(ops[..n]), Kernel()) && !AfterAll(ops[..n]).stubsInitialized
    ensures Orphan(AfterAll(ops), Kernel()) && !AfterAll(ops).stubsInitialized
    decreases |ops|
  {
    if n < |ops| {
      var shorter, op := ops[..|ops| - 1], ops[|ops| - 1];
      assert shorter[..n] == ops[..n];
      StubsStayStuck(shorter, n);
      OrphanStays(AfterAll(shorter), op);
    } else {
      assert ops[..n] == ops;
    }
  }

  lemma OrphanStays(t: Tables, op: Operation)
    requires Orphan(t, Kernel()) && !t.stubsInitialized
    ensures Orphan(After(t, op), Kernel()) && !After(t, op).stubsInitialized
  {
    hide ExportsOf, Inspected, StubExports;
    hide Kernel, Libc;
    var t' := After(t, op);
    forall h | h in t.modules ensures t.modules[h] != Kernel() {
      assert IsLoaded(t, t.modules[h]);
    }
    assert forall h :: h in t'.modules ==> t'.modules[h] != Kernel();
  }

  // No continuation of the history gets the stubs initialised.
  ghost predicate NeverInitialises(ops: seq<Operation>) {
    forall later: seq<Operation>, address: string -> Word :: !AfterStubs(AfterAll(ops + later), address).1
  }

  lemma StuckForGood(ops: seq<Operation>)
    requires Orphan(AfterAll(ops), Kernel()) && !AfterAll(ops).stubsInitialized
    ensures NeverInitialises(ops)
  {
    hide AfterAll;
    forall later: seq<Operation>, address: string -> Word ensures !AfterStubs(AfterAll(ops + later), address).1 {
      assert (ops + later)[..|ops|] == ops;
      StubsStayStuck(ops + later, |ops|);
    }
  }

  // Unloads the module of this name, if there is one.
  ghost function Without(t: Tables, name: string): seq<Operation> {
    if IsLoaded(t, name) then (var h :| h in t.modules && t.modules[h] == name; [Unload(h)]) else []
  }

  lemma WithoutIt(ops: seq<Operation>, name: string)
    ensures var t, t' := AfterAll(ops), AfterAll(ops + Without(AfterAll(ops), name));
            && !IsLoaded(t', name) && t'.stubsInitialized == t.stubsInitialized
            && (name in t'.registry <==> Orphan(t, name))
            && (forall other :: other != name ==> (other in t'.registry <==> other in t.registry))
  {
    hide EntriesFit, RegistryExplained;
    TablesConsistent(ops);
    var t, more := AfterAll(ops), Without(AfterAll(ops), name);
    if IsLoaded(t, name) {
      var h := more[0].handle;
      assert (ops + more)[..|ops|] == ops && AfterAll(ops + more) == AfterUnload(t, h);
      hide AfterAll;
      forall other ensures IsLoaded(AfterUnload(t, h), other) <==> IsLoaded(t, other) && other != name {
        LoadedLess(t, AfterUnload(t, h), h, other);
      }
    } else {
      assert ops + more == ops;
    }
  }

  // Unless the kernel stub is stuck, unloading whatever took the two names helps.
  lemma CanInitialise(ops: seq<Operation>, address: string -> Word)
    requires !Orphan(AfterAll(ops), Kernel()) || AfterAll(ops).stubsInitialized
    ensures exists later :: AfterStubs(AfterAll(ops + later), address).1
  {
    hide AfterAll, EntriesFit, NamesDistinct, StubExports, Kernel, Libc, IsLoaded, Without;
    NamesApart();
    var first := Without(AfterAll(ops), Kernel());
    WithoutIt(ops, Kernel());
    var second := Without(AfterAll(ops + first), Libc());
    WithoutIt(ops + first, Libc());
    TablesConsistent(ops);
    TablesConsistent(ops + first);
    TablesConsistent(ops + first + second);
    assert ops + first + second == ops + (first + second);
    assert AfterStubs(AfterAll(ops + (first + second)), address).1;
  }

  /** The stubs can never be initialised any more exactly when the kernel stub is
      registered without the flag. */
  lemma NeverInitialisesIff(ops: seq<Operation>)
    ensures NeverInitialises(ops) <==> Orphan(AfterAll(ops), Kernel()) && !AfterAll(ops).stubsInitialized
  {
    hide AfterAll, Orphan, AfterStubs;
    if Orphan(AfterAll(ops), Kernel()) && !AfterAll(ops).stubsInitialized {
      StuckForGood(ops);
    } else {
      CanInitialise(ops, _ => 0);
    }
  }

  /** Initialisation is not transactional: a call that fails half way, in any
      history, is the last chance there was. */
  lemma PartialIsFinal(ops: seq<Operation>, address: string -> Word)
    requires IsLoaded(AfterAll(ops), Libc()) && Kernel() !in AfterAll(ops).registry
    ensures NeverInitialises(ops + [Stubs(address)]) && !NeverInitialises(ops)
  {
    hide AfterStubs, NeverInitialises, IsLoaded;
    FailedStubs(ops, address);
    var longer := ops + [Stubs(address)];
    assert longer[..|ops|] == ops && AfterAll(longer) == After(AfterAll(ops), Stubs(address));
    NeverInitialisesIff(ops);
    NeverInitialisesIff(longer);
  }

  // A file without sections: one executable page that covers the entry point.
  const SMALL := Plan(62, 0x1000, [Segment(0, 0x1000, 0, 0x1000, 0, Flags(true, false, true))])

  function SmallImage(): Image {
    SmallSize();
    ElfLayout.Written(SMALL, 3, ElfLayout.Sections(0, 0), [])
  }

  lemma SmallSize()
    ensures |ElfLayout.Written(SMALL, 3, ElfLayout.Sections(0, 0), [])| == 120
  {
    hide ElfLayout.Record, ElfLayout.Table;
    ElfLayout.FileHeaderSize(SMALL, 3, ElfLayout.Sections(0, 0));
    ElfLayout.TableSize(SMALL.segments);
  }

  lemma SmallImageLoads()
    ensures Inspected(SmallImage()).Accepted? && ExportsOf(SmallImage()) == Some(map[])
  {
    hide ElfLayout.Written, Half, Long, Inspected;
    SmallSize();
    ElfLayout.WrittenPlansAreRead(SMALL, 3, ElfLayout.Sections(0, 0), []);
    ElfLayout.WrittenSections(SMALL, 3, ElfLayout.Sections(0, 0), []);
  }

  lemma FirstLoad(file: File)
    requires Inspected(file.image).Accepted? && ExportsOf(file.image).Some? && file.name != ""
    ensures var t := AfterAll([Load(Some(file), true)]);
            IsLoaded(t, file.name) && t.registry.Keys == {file.name}
  {
    var load := Load(Some(file), true);
    assert [load][..0] == [] && AfterAll([]) == EMPTY && AfterAll([load]) == After(EMPTY, load);
    hide Inspected, ExportsOf, AfterAll;
    assert AfterAll([load]).modules[1] == file.name;
  }

  // A module that is called like the second stub is loaded.
  function LoadsLibc(): seq<Operation> {
    [Load(Some(File(Libc(), SmallImage())), true)]
  }

  lemma LibcIsLoaded()
    ensures var t := AfterAll(LoadsLibc()); IsLoaded(t, Libc()) && Kernel() !in t.registry
  {
    SmallImageLoads();
    NamesApart();
    var file := File(Libc(), SmallImage());
    assert file.name != "";
    hide Inspected, ExportsOf, AfterAll, SmallImage, Kernel, Libc, IsLoaded;
    FirstLoad(file);
  }

  /** ... and there is such a history: the stubs are initialised after a module that
      is called like the second one has been loaded. */
  lemma PartialInitialisationRun(address: string -> Word)
    ensures var ops := LoadsLibc() + [Stubs(address)];
            && Orphan(AfterAll(ops), Kernel()) && !AfterAll(ops).stubsInitialized && NeverInitialises(ops)
  {
    hide NeverInitialises, AfterAll, LoadsLibc, Kernel, Libc, IsLoaded, Orphan;
    LibcIsLoaded();
    PartialIsFinal(LoadsLibc(), address);
    NeverInitialisesIff(LoadsLibc() + [Stubs(address)]);
  }

  // ---- The loader --------------------------------------------------------------------------------

  class ModuleLoader {
    const registry: Registry
    var modules: map<nat, string>
    var handleNames: map<nat, string>
    var nextHandle: nat
    var stubsInitialized: bool
    ghost var images: map<nat, Image>

    ghost function View(): Tables
      reads this, registry
    {
      Tables(registry.modules, modules, handleNames, nextHandle, stubsInitialized, images)
    }

    constructor ()
      ensures View() == EMPTY && fresh(registry)
    {
      registry := new Registry();
      modules, handleNames, nextHandle, stubsInitialized, images := map[], map[], 1, false, map[];
    }

    /** Loads a module; whatever was registered on the way is taken back when a
        later step fails. `mapped` says whether the mapper succeeds. */
    method LoadModule(file: Option<File>, mapped: bool) returns (handle: nat)
      modifies this, registry
      ensures (View(), handle) == AfterLoad(old(View()), file, mapped)
    {
      hide ExportsOf, Inspected;
      if file.None? {
        return 0;
      }
      var name, image := file.value.name, file.value.image;
      var inspection := Inspect(image);
      if inspection.Rejected? {
        return 0;
      }
      if name in registry.modules {
        return 0;
      }
      if !mapped {
        return 0;
      }
      ghost var before := registry.modules;
      var known := registry.RegisterModule(name);
      if !known {
        return 0;
      }
      var exported := RegisterElfExports(image, name, registry);
      if !exported {
        var _ := registry.UnregisterModule(name);
        assert registry.modules == before[name := map[]] - {name} == before;
        return 0;
      }
      assert registry.modules == before[name := ExportsOf(image).value];
      handle := nextHandle;
      nextHandle := nextHandle + 1;
      handleNames := handleNames[handle := name];
      modules := modules[handle := name];
      images := images[handle := image];
    }

    /** Unloads a module. The registry always knows a loaded name, so an unload
        fails only for a handle that is not loaded. */
    method UnloadModule(handle: nat) returns (ok: bool)
      requires Consistent(View())
      modifies this, registry
      ensures View() == AfterUnload(old(View()), handle) && ok == (handle in old(modules))
    {
      hide ExportsOf, NamesDistinct, RegistryExplained;
      if handle !in modules {
        return false;
      }
      var name := modules[handle];
      assert EntryFits(View(), handle);
      var removed := registry.UnregisterModule(name);
      if !removed {
        return false;
      }
      modules := modules - {handle};
      handleNames := handleNames - {handle};
      images := images - {handle};
      return true;
    }

    method ResolveSymbol(handle: nat, symbol: string) returns (address: Option<Word>)
      ensures address == if handle in handleNames then Resolved(registry.modules, handleNames[handle], symbol) else None
    {
      if handle !in handleNames {
        return None;
      }
      address := registry.Resolve(handleNames[handle], symbol);
    }

    /** Registers a stub module with all its symbols, or nothing. */
    method RegisterStubModule(name: string, symbols: seq<string>, address: string -> Word) returns (ok: bool)
      modifies registry
      ensures ok == (name != "" && name !in old(registry.modules) && Registrable(symbols, address))
      ensures registry.modules ==
              if ok then old(registry.modules)[name := StubExports(symbols, address)] else old(registry.modules)
    {
      hide StubExports, Registrable, Added;
      var known := registry.RegisterModule(name);
      if !known {
        return false;
      }
      NoStubs(symbols, address);
      for i := 0 to |symbols|
        invariant Registrable(symbols[..i], address)
        invariant name !in old(registry.modules)
        invariant registry.modules == old(registry.modules)[name := StubExports(symbols[..i], address)]
      {
        StubStep(symbols, i, address);
        var added := registry.RegisterExport(name, symbols[i], address(symbols[i]));
        if !added {
          var _ := registry.UnregisterModule(name);
          PutBack(old(registry.modules), name, StubExports(symbols[..i], address));
          return false;
        }
      }
      assert symbols[..|symbols|] == symbols;
      return true;
    }

    method InitializeStubs(address: string -> Word) returns (ok: bool)
      requires forall s :: address(s) != 0
      modifies this, registry
      ensures (View(), ok) == AfterStubs(old(View()), address)
    {
      if stubsInitialized {
        return true;
      }
      StubNames(address);
      hide Kernel, Libc, StubExports, Registrable;
      var kernel := RegisterStubModule(Kernel(), KERNEL_SYMBOLS, address);
      if !kernel {
        return false;
      }
      var libc := RegisterStubModule(Libc(), LIBC_SYMBOLS, address);
      if !libc {
        return false;
      }
      stubsInitialized := true;
      return true;
    }
  }

  // Distinct names, none empty, at addresses other than 0.
  predicate Registrable(symbols: seq<string>, address: string -> Word) {
    && (forall i, j :: 0 <= i < j < |symbols| ==> symbols[i] != symbols[j])
    && (forall i :: 0 <= i < |symbols| ==> symbols[i] != "" && address(symbols[i]) != 0)
  }

  lemma RegistrableMore(symbols: seq<string>, s: string, address: string -> Word)
    ensures Registrable(symbols + [s], address) <==>
            Registrable(symbols, address) && s !in symbols && s != "" && address(s) != 0
  {
    var more := symbols + [s];
    assert more[|symbols|] == s && forall i :: 0 <= i < |symbols| ==> more[i] == symbols[i];
  }

  lemma RegistrablePrefix(symbols: seq<string>, n: nat, address: string -> Word)
    requires n <= |symbols|
    ensures Registrable(symbols, address) ==> Registrable(symbols[..n], address)
  {
  }

  lemma NoStubs(symbols: seq<string>, address: string -> Word)
    ensures Registrable(symbols[..0], address) && StubExports(symbols[..0], address) == map[]
  {
  }

  lemma StubStep(symbols: seq<string>, i: nat, address: string -> Word)
    requires i < |symbols| && Registrable(symbols[..i], address)
    ensures var exports := StubExports(symbols[..i], address);
            && Added(exports, symbols[i], address(symbols[i])) == StubExports(symbols[..i + 1], address)
            && (Registrable(symbols[..i + 1], address) <==>
                symbols[i] != "" && address(symbols[i]) != 0 && symbols[i] !in exports)
    ensures !Registrable(symbols[..i + 1], address) ==> !Registrable(symbols, address)
  {
    assert symbols[..i + 1] == symbols[..i] + [symbols[i]];
    RegistrableMore(symbols[..i], symbols[i], address);
    RegistrablePrefix(symbols, i + 1, address);
    hide Registrable;
    assert forall s :: s in symbols[..i + 1] <==> s in symbols[..i] || s == symbols[i];
    assert Added(StubExports(symbols[..i], address), symbols[i], address(symbols[i])) == StubExports(symbols[..i + 1], address);
  }

  lemma PutBack(modules: map<string, Exports>, name: string, exports: Exports)
    requires name !in modules
    ensures modules[name := exports] - {name} == modules
  {
  }

  lemma StubNames(address: string -> Word)
    requires forall s :: address(s) != 0
    ensures Kernel() != "" && Libc() != "" && Registrable(KERNEL_SYMBOLS, address) && Registrable(LIBC_SYMBOLS, address)
  {
    assert forall i :: 0 <= i < |KERNEL_SYMBOLS| ==> |KERNEL_SYMBOLS[i]| == [23, 28, 24, 14][i];
    assert LIBC_SYMBOLS[0][0] == 'p' && LIBC_SYMBOLS[1][1] == 'a' && LIBC_SYMBOLS[2][0] == 'f';
    assert LIBC_SYMBOLS[3][3] == 'c' && LIBC_SYMBOLS[4][3] == 's';
  }
}

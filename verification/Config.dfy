/** The configuration file: key=value lines, written in a fixed order and read
    back one by one. */
module Config {

  import opened Common

  datatype Theme = System | Light | Dark

  datatype Vsync = Off | On | Adaptive

  datatype Settings = Settings(
    libraryDirectory: string, saveDirectory: string, logFile: string, theme: Theme,
    resolutionScale: nat, vsync: Vsync, fullscreen: bool, anisotropicFiltering: bool, debugLogging: bool)

  const DEFAULTS := Settings("", "", "", System, 1, On, false, true, false)

  const WORD_32 := 0x1_0000_0000
  const WORD_64 := 0x1_0000_0000_0000_0000

  // ---- Values ------------------------------------------------------------------------------

  function BoolString(b: bool): string {
    if b then "true" else "false"
  }

  function ThemeString(t: Theme): string {
    match t case System => "system" case Light => "light" case Dark => "dark"
  }

  function VsyncString(v: Vsync): string {
    match v case Off => "off" case On => "on" case Adaptive => "adaptive"
  }

  function ParseBool(s: string): Option<bool> {
    if s == "true" || s == "1" then Some(true) else if s == "false" || s == "0" then Some(false) else None
  }

  function ParseTheme(s: string): Option<Theme> {
    if s == "system" then Some(System) else if s == "light" then Some(Light) else if s == "dark" then Some(Dark) else None
  }

  function ParseVsync(s: string): Option<Vsync> {
    if s == "off" then Some(Off) else if s == "on" then Some(On) else if s == "adaptive" then Some(Adaptive) else None
  }

  predicate IsDigit(c: char) {
    '0' <= c <= '9'
  }

  predicate IsSpace(c: char) {
    c == ' ' || '\t' <= c <= '\r'
  }

  function Digits(n: nat): string {
    if n < 10 then [('0' as int + n) as char] else Digits(n / 10) + [('0' as int + n % 10) as char]
  }

  // The value of the leading digits, given the value so far.
  function LeadingNumber(s: string, soFar: nat): nat {
    if s == "" || !IsDigit(s[0]) then soFar
    else LeadingNumber(s[1..], soFar * 10 + (s[0] as int - '0' as int))
  }

  // As std::stoul: leading space, a sign that negates modulo the word, digits; what
  // follows them is ignored. Nothing when there is no digit or the number is too big.
  function ParseUnsigned(s: string): Option<nat> {
    if s == "" then None
    else if IsSpace(s[0]) then ParseUnsigned(s[1..])
    else
      var digits := if s[0] == '+' || s[0] == '-' then s[1..] else s;
      if digits == "" || !IsDigit(digits[0]) then None
      else
        var n := LeadingNumber(digits, 0);
        if n >= WORD_64 then None else Some(if s[0] == '-' then (WORD_64 - n) % WORD_64 else n)
  }

  // ---- Lines --------------------------------------------------------------------------------

  // The position of the first c, or the length.
  function Find(s: string, c: char): (i: nat)
    ensures i <= |s| && c !in s[..i] && (i < |s| ==> s[i] == c)
  {
    if s == "" || s[0] == c then 0 else 1 + Find(s[1..], c)
  }

  // A last line without its newline still counts; nothing follows a last newline.
  function Lines(text: string): seq<string>
    decreases |text|
  {
    if text == "" then []
    else
      var i := Find(text, '\n');
      [text[..i]] + if i == |text| then [] else Lines(text[i + 1..])
  }

  lemma {:induction false} FindFirst(a: string, c: char, b: string)
    requires c !in a
    ensures Find(a + [c] + b, c) == |a|
  {
    if a == "" {
      assert a + [c] + b == [c] + b;
    } else {
      FindFirst(a[1..], c, b);
      assert (a + [c] + b)[1..] == a[1..] + [c] + b;
    }
  }

  lemma FirstLine(a: string, b: string)
    requires '\n' !in a
    ensures Lines(a + "\n" + b) == [a] + Lines(b)
  {
    var text := a + "\n" + b;
    FindFirst(a, '\n', b);
    assert text == a + ['\n'] + b;
    assert text[..|a|] == a && text[|a| + 1..] == b;
  }

  // ---- Reading -------------------------------------------------------------------------------

  datatype LoadError = NoSeparator | InvalidValue | UnknownKey | InvalidSettings

  datatype Loading = Loaded(settings: Settings) | Refused(error: LoadError)

  predicate Valid(s: Settings) {
    1 <= s.resolutionScale <= 4 && s.libraryDirectory != "" && s.saveDirectory != "" && s.logFile != ""
  }

  function SetKey(s: Settings, key: string, value: string): (r: Loading)
    ensures r.Loaded? ==> r.settings.libraryDirectory == s.libraryDirectory || r.settings.libraryDirectory == value
    ensures r.Loaded? ==> r.settings.saveDirectory == s.saveDirectory || r.settings.saveDirectory == value
    ensures r.Loaded? ==> r.settings.logFile == s.logFile || r.settings.logFile == value
  {
    if key == "library_directory" then Loaded(s.(libraryDirectory := value))
    else if key == "save_directory" then Loaded(s.(saveDirectory := value))
    else if key == "log_file" then Loaded(s.(logFile := value))
    else if key == "theme" then
      (match ParseTheme(value) case None => Refused(InvalidValue) case Some(t) => Loaded(s.(theme := t)))
    else if key == "resolution_scale" then
      (match ParseUnsigned(value) case None => Refused(InvalidValue) case Some(n) => Loaded(s.(resolutionScale := n % WORD_32)))
    else if key == "vsync" then
      (match ParseVsync(value) case None => Refused(InvalidValue) case Some(v) => Loaded(s.(vsync := v)))
    else if key == "fullscreen" then
      (match ParseBool(value) case None => Refused(InvalidValue) case Some(b) => Loaded(s.(fullscreen := b)))
    else if key == "anisotropic_filtering" then
      (match ParseBool(value) case None => Refused(InvalidValue) case Some(b) => Loaded(s.(anisotropicFiltering := b)))
    else if key == "debug_logging" then
      (match ParseBool(value) case None => Refused(InvalidValue) case Some(b) => Loaded(s.(debugLogging := b)))
    else Refused(UnknownKey)
  }

  function ReadLine(s: Settings, line: string): Loading {
    if line == "" || line[0] == '#' then Loaded(s)
    else
      var i := Find(line, '=');
      if i == |line| then Refused(NoSeparator) else SetKey(s, line[..i], line[i + 1..])
  }

  function ReadLines(s: Settings, lines: seq<string>): Loading
    decreases |lines|
  {
    if lines == [] then Loaded(s)
    else
      match ReadLine(s, lines[0])
      case Loaded(t) => ReadLines(t, lines[1..])
      case Refused(e) => Refused(e)
  }

  function Parsed(text: string): Loading {
    match ReadLines(DEFAULTS, Lines(text))
    case Refused(e) => Refused(e)
    case Loaded(s) => if Valid(s) then Loaded(s) else Refused(InvalidSettings)
  }

  lemma TakeLine(text: string, at: nat, end: nat)
    requires at < |text| && end == at + Find(text[at..], '\n')
    ensures end <= |text|
    ensures Lines(text[at..]) == [text[at..end]] + Lines(text[if end == |text| then end else end + 1..])
  {
    assert text[at..][..end - at] == text[at..end];
    if end < |text| {
      assert text[at..][end - at + 1..] == text[end + 1..];
    } else {
      assert text[end..] == "";
    }
  }

  lemma ReadFirst(s: Settings, line: string, rest: seq<string>)
    ensures ReadLines(s, [line] + rest) ==
            if ReadLine(s, line).Loaded? then ReadLines(ReadLine(s, line).settings, rest) else ReadLine(s, line)
  {
    hide ReadLine;
    assert ([line] + rest)[1..] == rest;
  }

  /** The loading loop, line by line. */
  method Load(text: string) returns (result: Loading)
    ensures result == Parsed(text)
  {
    hide Lines, ReadLine, ReadLines, Find, Valid;
    var settings := DEFAULTS;
    var at := 0;
    assert text[0..] == text;
    while at < |text|
      invariant at <= |text|
      invariant ReadLines(settings, Lines(text[at..])) == ReadLines(DEFAULTS, Lines(text))
    {
      var end := at + Find(text[at..], '\n');
      TakeLine(text, at, end);
      var line := text[at..end];
      at := if end == |text| then end else end + 1;
      ReadFirst(settings, line, Lines(text[at..]));
      var loaded := ReadLine(settings, line);
      if loaded.Refused? {
        return loaded;
      }
      settings := loaded.settings;
    }
    EndOfLines(settings, text[at..]);
    return if Valid(settings) then Loaded(settings) else Refused(InvalidSettings);
  }

  lemma EndOfLines(s: Settings, text: string)
    requires text == ""
    ensures ReadLines(s, Lines(text)) == Loaded(s)
  {
  }

  // ---- Writing -------------------------------------------------------------------------------

  function Entries(s: Settings): seq<string> {
    ["library_directory=" + s.libraryDirectory, "save_directory=" + s.saveDirectory, "log_file=" + s.logFile,
     "theme=" + ThemeString(s.theme), "resolution_scale=" + Digits(s.resolutionScale), "vsync=" + VsyncString(s.vsync),
     "fullscreen=" + BoolString(s.fullscreen), "anisotropic_filtering=" + BoolString(s.anisotropicFiltering),
     "debug_logging=" + BoolString(s.debugLogging)]
  }

  function Joined(lines: seq<string>): string {
    if lines == [] then "" else lines[0] + "\n" + Joined(lines[1..])
  }

  // Invalid settings are not saved.
  function Text(s: Settings): Option<string> {
    if Valid(s) then Some(Joined(Entries(s))) else None
  }

  lemma JoinedFirst(lines: seq<string>, i: nat, output: string)
    requires i < |lines|
    ensures output + Joined(lines[i..]) == (output + lines[i] + "\n") + Joined(lines[i + 1..])
  {
    assert lines[i..][1..] == lines[i + 1..];
  }

  lemma JoinedEnd(lines: seq<string>, output: string)
    ensures output + Joined(lines[|lines|..]) == output && output + Joined(lines) == output + Joined(lines[0..])
  {
    assert lines[|lines|..] == [] && lines[0..] == lines;
    assert output + "" == output;
  }

  /** The saving sequence. */
  method Save(s: Settings) returns (text: Option<string>)
    ensures text == Text(s)
  {
    hide Entries, Joined;
    if !Valid(s) {
      return None;
    }
    var output := "";
    var entries := Entries(s);
    JoinedEnd(entries, output);
    assert output + Joined(entries) == Joined(entries);
    for i := 0 to |entries|
      invariant Joined(entries) == output + Joined(entries[i..])
    {
      JoinedFirst(entries, i, output);
      output := output + entries[i] + "\n";
    }
    JoinedEnd(entries, output);
    return Some(output);
  }

  // ---- Round trips ------------------------------------------------------------------------------

  predicate OneLine(s: string) {
    '\n' !in s
  }

  predicate OneLinePaths(s: Settings) {
    OneLine(s.libraryDirectory) && OneLine(s.saveDirectory) && OneLine(s.logFile)
  }

  lemma {:induction false} LinesJoined(lines: seq<string>)
    requires forall l :: l in lines ==> OneLine(l)
    ensures Lines(Joined(lines)) == lines
  {
    if lines != [] {
      LinesJoined(lines[1..]);
      assert OneLine(lines[0]);
      FirstLine(lines[0], Joined(lines[1..]));
    }
  }

  // A written line comes back as its key and value, even with separators in the value.
  lemma ReadEntry(s: Settings, key: string, value: string)
    requires key != "" && key[0] != '#' && '=' !in key
    ensures ReadLine(s, key + "=" + value) == SetKey(s, key, value)
  {
    hide SetKey;
    FindFirst(key, '=', value);
    var line := key + "=" + value;
    assert line == key + ['='] + value;
    assert line[..|key|] == key && line[|key| + 1..] == value;
  }

  lemma SetPaths(s: Settings, v: string)
    ensures SetKey(s, "library_directory", v) == Loaded(s.(libraryDirectory := v))
    ensures SetKey(s, "save_directory", v) == Loaded(s.(saveDirectory := v))
    ensures SetKey(s, "log_file", v) == Loaded(s.(logFile := v))
  {
  }

  lemma SetTheme(s: Settings, t: Theme)
    ensures SetKey(s, "theme", ThemeString(t)) == Loaded(s.(theme := t))
  {
  }

  lemma SetScale(s: Settings, n: nat)
    requires n < 10
    ensures SetKey(s, "resolution_scale", Digits(n)) == Loaded(s.(resolutionScale := n))
  {
    var digits := Digits(n);
    assert digits[1..] == "";
    assert LeadingNumber(digits, 0) == n;
    assert ParseUnsigned(digits) == Some(n);
  }

  lemma SetVsync(s: Settings, v: Vsync)
    ensures SetKey(s, "vsync", VsyncString(v)) == Loaded(s.(vsync := v))
  {
  }

  lemma SetFlags(s: Settings, b: bool)
    ensures SetKey(s, "fullscreen", BoolString(b)) == Loaded(s.(fullscreen := b))
    ensures SetKey(s, "anisotropic_filtering", BoolString(b)) == Loaded(s.(anisotropicFiltering := b))
    ensures SetKey(s, "debug_logging", BoolString(b)) == Loaded(s.(debugLogging := b))
  {
  }

  // One written line at the head of those still to be read.
  lemma ReadNext(s: Settings, key: string, value: string, line: string, t: Settings, rest: seq<string>)
    requires key != "" && key[0] != '#' && '=' !in key && line == key + "=" + value
    requires SetKey(s, key, value) == Loaded(t)
    ensures ReadLines(s, [line] + rest) == ReadLines(t, rest)
  {
    hide SetKey, ReadLine;
    ReadEntry(s, key, value);
    ReadFirst(s, line, rest);
  }

  lemma ReadPaths(c: Settings, rest: seq<string>)
    ensures var t := DEFAULTS.(libraryDirectory := c.libraryDirectory, saveDirectory := c.saveDirectory, logFile := c.logFile);
            ReadLines(DEFAULTS, ["library_directory=" + c.libraryDirectory, "save_directory=" + c.saveDirectory,
                                 "log_file=" + c.logFile] + rest) == ReadLines(t, rest)
  {
    hide SetKey, ReadLines;
    var s1 := DEFAULTS.(libraryDirectory := c.libraryDirectory);
    var s2 := s1.(saveDirectory := c.saveDirectory);
    var s3 := s2.(logFile := c.logFile);
    var l1, l2, l3 := "library_directory=" + c.libraryDirectory, "save_directory=" + c.saveDirectory, "log_file=" + c.logFile;
    SetPaths(DEFAULTS, c.libraryDirectory);
    SetPaths(s1, c.saveDirectory);
    SetPaths(s2, c.logFile);
    assert "library_directory" + "=" == "library_directory=" && "save_directory" + "=" == "save_directory=" && "log_file" + "=" == "log_file=";
    ReadNext(s2, "log_file", c.logFile, l3, s3, rest);
    ReadNext(s1, "save_directory", c.saveDirectory, l2, s2, [l3] + rest);
    ReadNext(DEFAULTS, "library_directory", c.libraryDirectory, l1, s1, [l2] + ([l3] + rest));
    assert [l1, l2, l3] + rest == [l1] + ([l2] + ([l3] + rest));
  }

  lemma ReadGraphics(s: Settings, c: Settings, rest: seq<string>)
    requires c.resolutionScale < 10
    ensures var t := s.(theme := c.theme, resolutionScale := c.resolutionScale, vsync := c.vsync);
            ReadLines(s, ["theme=" + ThemeString(c.theme), "resolution_scale=" + Digits(c.resolutionScale),
                          "vsync=" + VsyncString(c.vsync)] + rest) == ReadLines(t, rest)
  {
    hide SetKey, ReadLines, Digits, ThemeString, VsyncString;
    var s1 := s.(theme := c.theme);
    var s2 := s1.(resolutionScale := c.resolutionScale);
    var s3 := s2.(vsync := c.vsync);
    var l1, l2, l3 := "theme=" + ThemeString(c.theme), "resolution_scale=" + Digits(c.resolutionScale), "vsync=" + VsyncString(c.vsync);
    SetTheme(s, c.theme);
    SetScale(s1, c.resolutionScale);
    SetVsync(s2, c.vsync);
    assert "theme" + "=" == "theme=" && "resolution_scale" + "=" == "resolution_scale=" && "vsync" + "=" == "vsync=";
    ReadNext(s2, "vsync", VsyncString(c.vsync), l3, s3, rest);
    ReadNext(s1, "resolution_scale", Digits(c.resolutionScale), l2, s2, [l3] + rest);
    ReadNext(s, "theme", ThemeString(c.theme), l1, s1, [l2] + ([l3] + rest));
    assert [l1, l2, l3] + rest == [l1] + ([l2] + ([l3] + rest));
  }

  lemma ReadFlags(s: Settings, c: Settings)
    ensures var t := s.(fullscreen := c.fullscreen, anisotropicFiltering := c.anisotropicFiltering, debugLogging := c.debugLogging);
            ReadLines(s, ["fullscreen=" + BoolString(c.fullscreen), "anisotropic_filtering=" + BoolString(c.anisotropicFiltering),
                          "debug_logging=" + BoolString(c.debugLogging)]) == Loaded(t)
  {
    hide SetKey, ReadLines, BoolString;
    var s1 := s.(fullscreen := c.fullscreen);
    var s2 := s1.(anisotropicFiltering := c.anisotropicFiltering);
    var s3 := s2.(debugLogging := c.debugLogging);
    var l1, l2, l3 := "fullscreen=" + BoolString(c.fullscreen), "anisotropic_filtering=" + BoolString(c.anisotropicFiltering),
      "debug_logging=" + BoolString(c.debugLogging);
    SetFlags(s, c.fullscreen);
    SetFlags(s1, c.anisotropicFiltering);
    SetFlags(s2, c.debugLogging);
    assert "fullscreen" + "=" == "fullscreen=" && "anisotropic_filtering" + "=" == "anisotropic_filtering=" &&
           "debug_logging" + "=" == "debug_logging=";
    NothingLeft(s3);
    ReadNext(s2, "debug_logging", BoolString(c.debugLogging), l3, s3, []);
    ReadNext(s1, "anisotropic_filtering", BoolString(c.anisotropicFiltering), l2, s2, [l3] + []);
    ReadNext(s, "fullscreen", BoolString(c.fullscreen), l1, s1, [l2] + ([l3] + []));
    assert [l1, l2, l3] == [l1] + ([l2] + ([l3] + []));
  }

  lemma NothingLeft(s: Settings)
    ensures ReadLines(s, []) == Loaded(s)
  {
  }

  lemma ReadEntries(c: Settings)
    requires Valid(c)
    ensures ReadLines(DEFAULTS, Entries(c)) == Loaded(c)
  {
    hide ReadLines, BoolString, ThemeString, VsyncString, Digits;
    var paths := ["library_directory=" + c.libraryDirectory, "save_directory=" + c.saveDirectory, "log_file=" + c.logFile];
    var graphics := ["theme=" + ThemeString(c.theme), "resolution_scale=" + Digits(c.resolutionScale), "vsync=" + VsyncString(c.vsync)];
    var flags := ["fullscreen=" + BoolString(c.fullscreen), "anisotropic_filtering=" + BoolString(c.anisotropicFiltering),
      "debug_logging=" + BoolString(c.debugLogging)];
    assert Entries(c) == paths + (graphics + flags);
    ReadPaths(c, graphics + flags);
    var s := DEFAULTS.(libraryDirectory := c.libraryDirectory, saveDirectory := c.saveDirectory, logFile := c.logFile);
    ReadGraphics(s, c, flags);
    ReadFlags(s.(theme := c.theme, resolutionScale := c.resolutionScale, vsync := c.vsync), c);
  }

  lemma OneLineJoin(a: string, b: string)
    requires OneLine(a) && OneLine(b)
    ensures OneLine(a + b)
  {
  }

  lemma {:induction false} DigitsOneLine(n: nat)
    ensures OneLine(Digits(n))
  {
    if n >= 10 { DigitsOneLine(n / 10); }
  }

  lemma NamesOneLine(c: Settings)
    ensures OneLine(ThemeString(c.theme)) && OneLine(VsyncString(c.vsync))
    ensures forall b :: OneLine(BoolString(b))
  {
  }

  lemma PathEntriesOneLine(c: Settings)
    requires OneLinePaths(c)
    ensures OneLine("library_directory=" + c.libraryDirectory) && OneLine("save_directory=" + c.saveDirectory)
    ensures OneLine("log_file=" + c.logFile)
  {
    assert OneLine("library_directory=") && OneLine("save_directory=") && OneLine("log_file=");
    hide OneLine;
    OneLineJoin("library_directory=", c.libraryDirectory);
    OneLineJoin("save_directory=", c.saveDirectory);
    OneLineJoin("log_file=", c.logFile);
  }

  lemma OtherEntriesOneLine(c: Settings)
    ensures OneLine("theme=" + ThemeString(c.theme)) && OneLine("vsync=" + VsyncString(c.vsync))
    ensures OneLine("resolution_scale=" + Digits(c.resolutionScale)) && OneLine("fullscreen=" + BoolString(c.fullscreen))
    ensures OneLine("anisotropic_filtering=" + BoolString(c.anisotropicFiltering))
    ensures OneLine("debug_logging=" + BoolString(c.debugLogging))
  {
    assert OneLine("theme=") && OneLine("vsync=") && OneLine("resolution_scale=") && OneLine("fullscreen=");
    assert OneLine("anisotropic_filtering=") && OneLine("debug_logging=");
    hide OneLine, ThemeString, VsyncString, BoolString, Digits;
    DigitsOneLine(c.resolutionScale);
    NamesOneLine(c);
    OneLineJoin("theme=", ThemeString(c.theme));
    OneLineJoin("vsync=", VsyncString(c.vsync));
    OneLineJoin("resolution_scale=", Digits(c.resolutionScale));
    OneLineJoin("fullscreen=", BoolString(c.fullscreen));
    OneLineJoin("anisotropic_filtering=", BoolString(c.anisotropicFiltering));
    OneLineJoin("debug_logging=", BoolString(c.debugLogging));
  }

  lemma EntriesOneLine(c: Settings)
    requires OneLinePaths(c)
    ensures forall l :: l in Entries(c) ==> OneLine(l)
  {
    hide OneLine, ThemeString, VsyncString, BoolString, Digits;
    PathEntriesOneLine(c);
    OtherEntriesOneLine(c);
  }

  lemma {:induction false} LinesOneLine(text: string)
    ensures forall l :: l in Lines(text) ==> OneLine(l)
    decreases |text|
  {
    if text != "" {
      var i := Find(text, '\n');
      if i < |text| { LinesOneLine(text[i + 1..]); }
    }
  }

  lemma SetOneLine(s: Settings, key: string, value: string)
    requires OneLinePaths(s) && OneLine(value) && SetKey(s, key, value).Loaded?
    ensures OneLinePaths(SetKey(s, key, value).settings)
  {
    hide SetKey;
  }

  lemma ReadOneLine(s: Settings, line: string)
    requires OneLinePaths(s) && OneLine(line) && ReadLine(s, line).Loaded?
    ensures OneLinePaths(ReadLine(s, line).settings)
  {
    hide SetKey;
    var i := Find(line, '=');
    if line != "" && line[0] != '#' && i < |line| {
      assert OneLine(line[i + 1..]);
      SetOneLine(s, line[..i], line[i + 1..]);
    }
  }

  lemma {:induction false} ReadOneLines(s: Settings, lines: seq<string>)
    requires OneLinePaths(s) && (forall l :: l in lines ==> OneLine(l)) && ReadLines(s, lines).Loaded?
    ensures OneLinePaths(ReadLines(s, lines).settings)
    decreases |lines|
  {
    hide ReadLine, OneLine;
    if lines != [] {
      ReadOneLine(s, lines[0]);
      ReadOneLines(ReadLine(s, lines[0]).settings, lines[1..]);
    }
  }

  // No text ever yields a path with a newline.
  lemma LoadedPaths(text: string)
    requires Parsed(text).Loaded?
    ensures OneLinePaths(Parsed(text).settings) && Valid(Parsed(text).settings)
  {
    LinesOneLine(text);
    ReadOneLines(DEFAULTS, Lines(text));
  }

  /** Saved settings load back unchanged exactly when no path contains a newline;
      separators and comment signs in a path do no harm. */
  lemma RoundTripIff(c: Settings)
    requires Valid(c)
    ensures Parsed(Text(c).value) == Loaded(c) <==> OneLinePaths(c)
  {
    hide Lines, Entries, Joined, ReadLines;
    if OneLinePaths(c) {
      EntriesOneLine(c);
      LinesJoined(Entries(c));
      ReadEntries(c);
    }
    if Parsed(Text(c).value) == Loaded(c) {
      LoadedPaths(Text(c).value);
    }
  }

  /** Whatever text was accepted, saving its settings and loading them again
      changes nothing. */
  lemma ReloadIsStable(text: string)
    requires Parsed(text).Loaded?
    ensures Text(Parsed(text).settings).Some? && Parsed(Text(Parsed(text).settings).value) == Parsed(text)
  {
    hide Lines, Entries, Joined, ReadLines;
    LoadedPaths(text);
    RoundTripIff(Parsed(text).settings);
  }

  // ---- Files written by hand ---------------------------------------------------------------------

  /** Comments and empty lines can stand anywhere. */
  lemma {:induction false} IgnoredLine(s: Settings, before: seq<string>, line: string, after: seq<string>)
    requires line == "" || line[0] == '#'
    ensures ReadLines(s, before + [line] + after) == ReadLines(s, before + after)
    decreases |before|
  {
    if before == [] {
      assert before + [line] + after == [line] + after && before + after == after;
      ReadFirst(s, line, after);
    } else {
      hide ReadLine;
      assert before + [line] + after == [before[0]] + (before[1..] + [line] + after);
      assert before + after == [before[0]] + (before[1..] + after);
      ReadFirst(s, before[0], before[1..] + [line] + after);
      ReadFirst(s, before[0], before[1..] + after);
      if ReadLine(s, before[0]).Loaded? { IgnoredLine(ReadLine(s, before[0]).settings, before[1..], line, after); }
    }
  }

  /** A line of a flag sets that flag and nothing else, for two forms of each value, and
      is refused for any other value. */
  lemma FlagLines(s: Settings, value: string)
    ensures var on := value == "true" || value == "1";
            var known := on || value == "false" || value == "0";
            && ReadLine(s, "fullscreen=" + value) == (if known then Loaded(s.(fullscreen := on)) else Refused(InvalidValue))
            && ReadLine(s, "anisotropic_filtering=" + value) ==
                 (if known then Loaded(s.(anisotropicFiltering := on)) else Refused(InvalidValue))
            && ReadLine(s, "debug_logging=" + value) ==
                 (if known then Loaded(s.(debugLogging := on)) else Refused(InvalidValue))
  {
    FlagKeys(s, value);
    hide ReadLine, SetKey;
    ReadEntry(s, "fullscreen", value);
    ReadEntry(s, "anisotropic_filtering", value);
    ReadEntry(s, "debug_logging", value);
    assert "fullscreen" + "=" == "fullscreen=" && "anisotropic_filtering" + "=" == "anisotropic_filtering=";
    assert "debug_logging" + "=" == "debug_logging=";
  }

  lemma FlagKeys(s: Settings, value: string)
    ensures var on := value == "true" || value == "1";
            var known := on || value == "false" || value == "0";
            && SetKey(s, "fullscreen", value) == (if known then Loaded(s.(fullscreen := on)) else Refused(InvalidValue))
            && SetKey(s, "anisotropic_filtering", value) ==
                 (if known then Loaded(s.(anisotropicFiltering := on)) else Refused(InvalidValue))
            && SetKey(s, "debug_logging", value) == (if known then Loaded(s.(debugLogging := on)) else Refused(InvalidValue))
  {
  }

  /** A file that names only the three paths gets the defaults for all else. */
  lemma PathsAlone(a: string, b: string, c: string)
    requires a != "" && b != "" && c != "" && OneLine(a) && OneLine(b) && OneLine(c)
    ensures Parsed(("library_directory=" + a) + "\n" + ("save_directory=" + b) + "\n" + ("log_file=" + c) + "\n") ==
            Loaded(Settings(a, b, c, System, 1, On, false, true, false))
  {
    var paths := Settings(a, b, c, System, 1, On, false, true, false);
    PathEntriesOneLine(paths);
    hide OneLine, ReadLines, Lines;
    ThreeLines("library_directory=" + a, "save_directory=" + b, "log_file=" + c);
    ThreeRead(a, b, c);
  }

  lemma ThreeRead(a: string, b: string, c: string)
    ensures ReadLines(DEFAULTS, ["library_directory=" + a, "save_directory=" + b, "log_file=" + c]) ==
            Loaded(Settings(a, b, c, System, 1, On, false, true, false))
  {
    hide ReadLines;
    var paths := Settings(a, b, c, System, 1, On, false, true, false);
    var lines := ["library_directory=" + a, "save_directory=" + b, "log_file=" + c];
    ReadPaths(paths, []);
    assert lines + [] == lines;
    NothingLeft(paths);
  }

  lemma ThreeLines(l1: string, l2: string, l3: string)
    requires OneLine(l1) && OneLine(l2) && OneLine(l3)
    ensures Lines(l1 + "\n" + l2 + "\n" + l3 + "\n") == [l1, l2, l3]
  {
    hide OneLine, Lines, Joined;
    JoinedThree(l1, l2, l3);
    LinesJoined([l1, l2, l3]);
  }

  lemma JoinedThree(l1: string, l2: string, l3: string)
    ensures Joined([l1, l2, l3]) == l1 + "\n" + l2 + "\n" + l3 + "\n"
  {
    assert [l1, l2, l3][1..] == [l2, l3] && [l2, l3][1..] == [l3] && [l3][1..] == [];
    assert Joined([l3]) == l3 + "\n";
    assert Joined([l2, l3]) == l2 + "\n" + (l3 + "\n");
    assert l1 + "\n" + (l2 + "\n" + (l3 + "\n")) == l1 + "\n" + l2 + "\n" + l3 + "\n";
  }

  /** What can be saved: a scale from 1 to 4 and three paths. */
  lemma SavesIff(s: Settings)
    ensures Text(s).Some? <==> s.resolutionScale in {1, 2, 3, 4} && s.libraryDirectory != "" && s.saveDirectory != "" && s.logFile != ""
  {
  }

  // ---- Numbers -------------------------------------------------------------------------------------

  lemma {:induction false} DigitsRead(n: nat, rest: string, soFar: nat)
    requires rest == "" || !IsDigit(rest[0])
    ensures LeadingNumber(Digits(n) + rest, soFar) == soFar * Power10(n) + n
    decreases n
  {
    if n < 10 {
      var text := Digits(n) + rest;
      assert text[1..] == rest;
      assert LeadingNumber(text[1..], soFar * 10 + n) == soFar * 10 + n;
    } else {
      var last := [('0' as int + n % 10) as char];
      assert Digits(n) + rest == Digits(n / 10) + (last + rest);
      DigitsThenMore(n / 10, last + rest, soFar);
      assert (last + rest)[1..] == rest;
      var before := soFar * Power10(n / 10) + n / 10;
      assert LeadingNumber(last + rest, before) == LeadingNumber(rest, before * 10 + n % 10);
      assert LeadingNumber(rest, before * 10 + n % 10) == before * 10 + n % 10;
      TenTimes(soFar, Power10(n / 10));
    }
  }

  lemma TenTimes(a: nat, b: nat)
    ensures a * b * 10 == a * (b * 10)
  {
  }

  // Ten to the number of digits.
  function Power10(n: nat): nat {
    if n < 10 then 10 else Power10(n / 10) * 10
  }

  // Reading goes on behind the digits with the value they have added up to.
  lemma {:induction false} DigitsThenMore(n: nat, rest: string, soFar: nat)
    ensures LeadingNumber(Digits(n) + rest, soFar) == LeadingNumber(rest, soFar * Power10(n) + n)
    decreases n
  {
    if n < 10 {
      assert (Digits(n) + rest)[1..] == rest;
    } else {
      var last := [('0' as int + n % 10) as char];
      assert Digits(n) + rest == Digits(n / 10) + (last + rest);
      DigitsThenMore(n / 10, last + rest, soFar);
      assert (last + rest)[1..] == rest;
      TenTimes(soFar, Power10(n / 10));
    }
  }

  lemma {:induction false} DigitsBegin(n: nat)
    ensures Digits(n) != "" && IsDigit(Digits(n)[0])
  {
    if n >= 10 { DigitsBegin(n / 10); }
  }

  lemma NumberHere(sign: string, n: nat, rest: string)
    requires sign in {"", "+", "-"} && (rest == "" || !IsDigit(rest[0]))
    ensures ParseUnsigned(sign + (Digits(n) + rest)) ==
            if n >= WORD_64 then None else Some(if sign == "-" then (WORD_64 - n) % WORD_64 else n)
  {
    DigitsBegin(n);
    DigitsRead(n, rest, 0);
    assert 0 * Power10(n) == 0;
    hide Digits, LeadingNumber, Power10;
    var digits := Digits(n) + rest;
    var text := sign + digits;
    assert digits[0] == Digits(n)[0];
    if sign == "" {
      assert text == digits;
    } else {
      assert text[0] == sign[0] && text[1..] == digits;
    }
  }

  /** A number is read as std::stoul reads it: behind white space, with or without a
      sign, up to the first character that is no digit; a minus sign negates modulo 2^64,
      and only numbers from 2^64 on are refused. */
  lemma {:induction false} NumberRead(spaces: string, sign: string, n: nat, rest: string)
    requires (forall c :: c in spaces ==> c in {' ', '\t', '\n', '\U{0B}', '\U{0C}', '\r'}) && sign in {"", "+", "-"}
    requires rest == "" || !('0' <= rest[0] <= '9')
    ensures ParseUnsigned(spaces + (sign + (Digits(n) + rest))) ==
            if n >= 0x1_0000_0000_0000_0000 then None
            else if sign == "-" && n > 0 then Some(0x1_0000_0000_0000_0000 - n) else Some(n)
    decreases |spaces|
  {
    hide Digits;
    var number := sign + (Digits(n) + rest);
    if spaces == "" {
      assert spaces + number == number;
      NumberHere(sign, n, rest);
    } else {
      var text := spaces + number;
      assert text[0] == spaces[0] && spaces[0] in spaces && IsSpace(text[0]);
      assert text[1..] == spaces[1..] + number && forall c :: c in spaces[1..] ==> c in spaces;
      NumberRead(spaces[1..], sign, n, rest);
    }
  }

  /** The scale is cut to 32 bits before it is checked, so a file may give a number far
      out of range, or a negative one, and be accepted with another scale. */
  lemma ScaleWraps(s: Settings, n: nat)
    requires 0 < n < 0x1_0000_0000_0000_0000
    ensures ReadLine(s, "resolution_scale=" + Digits(n)) == Loaded(s.(resolutionScale := n % 0x1_0000_0000))
    ensures ReadLine(s, "resolution_scale=" + ("-" + Digits(n))) ==
            Loaded(s.(resolutionScale := (0x1_0000_0000_0000_0000 - n) % 0x1_0000_0000))
  {
    hide ReadLine, ParseUnsigned, Digits;
    NumberHere("", n, "");
    NumberHere("-", n, "");
    assert Digits(n) + "" == Digits(n) && "" + (Digits(n) + "") == Digits(n);
    ScaleLine(s, Digits(n), n);
    ScaleLine(s, "-" + Digits(n), WORD_64 - n);
  }

  lemma ScaleLine(s: Settings, value: string, n: nat)
    requires ParseUnsigned(value) == Some(n)
    ensures ReadLine(s, "resolution_scale=" + value) == Loaded(s.(resolutionScale := n % 0x1_0000_0000))
  {
    hide ReadLine, SetKey, ParseUnsigned;
    ScaleKey(s, value);
    ReadEntry(s, "resolution_scale", value);
    assert "resolution_scale" + "=" == "resolution_scale=";
  }

  lemma ScaleKey(s: Settings, value: string)
    ensures SetKey(s, "resolution_scale", value) ==
            match ParseUnsigned(value) {
              case None => Refused(InvalidValue)
              case Some(n) => Loaded(s.(resolutionScale := n % 0x1_0000_0000))
            }
  {
    hide ParseUnsigned;
  }
}

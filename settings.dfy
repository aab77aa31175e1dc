/**
 * The settings loader of the search engine (`load_settings`): the ignore file
 * is read line by line into three toggles, a sort mode and the ordered list
 * of ignore globs, which must all compile.
 *
 * Where the file lives (`YOINKIGNORE_PATH`, else `~/.yoinkignore`) and
 * reading it are outside the model: the loader receives the outcome of that
 * lookup as a `ConfigFile`. Glob compilation is the `validGlob` oracle.
 */
module Settings {
  import opened Wrappers
  import opened Text

  datatype SortMode = Depth | Alphabetical

  datatype Settings = Settings(
    includeHidden: bool,
    includeMounts: bool,
    includeSymlinks: bool,
    sortMode: SortMode,
    globs: seq<string>)

  /** The outcome of locating and reading the ignore file. */
  datatype ConfigFile = Absent | Unreadable | Present(content: string)

  datatype ConfigError =
    | ReadFailed
    | InvalidValue(key: string, value: string)
    | InvalidGlob(pattern: string)

  /** Built-in ignore globs; the second is spelt `node_modukes` in the program. */
  const DEFAULT_IGNORE_GLOBS: seq<string> := [".git/**", "node_modukes/**"]

  const DEFAULTS: Settings := Settings(false, false, false, Depth, DEFAULT_IGNORE_GLOBS)

  /** `parse_bool_setting`. */
  function ParseBool(value: string): Option<bool> {
    var v := ToAsciiLower(Trim(value));
    if v == "true" || v == "1" || v == "yes" || v == "on" then Some(true)
    else if v == "false" || v == "0" || v == "no" || v == "off" then Some(false)
    else None
  }

  /** `parse_sort_mode_setting`. */
  function ParseSortMode(value: string): Option<SortMode> {
    var v := ToAsciiLower(Trim(value));
    if v == "depth" then Some(Depth)
    else if v == "alphabetical" then Some(Alphabetical)
    else None
  }

  /** The four keys the loader recognises. */
  datatype Key = IncludeHidden | IncludeMounts | IncludeSymlinks | SortModeKey

  /** A key as it is written in the ignore file. */
  function KeyName(k: Key): string {
    match k
    case IncludeHidden => "include_hidden"
    case IncludeMounts => "include_mounts"
    case IncludeSymlinks => "include_symlinks"
    case SortModeKey => "sort_mode"
  }

  /** The arms of the `match` on a lower-cased key; anything else falls through. */
  function ParseKey(key: string): (r: Option<Key>)
    ensures r.Some? ==> KeyName(r.value) == key
    ensures r.None? ==> forall k: Key :: KeyName(k) != key
  {
    if key == "include_hidden" then Some(IncludeHidden)
    else if key == "include_mounts" then Some(IncludeMounts)
    else if key == "include_symlinks" then Some(IncludeSymlinks)
    else if key == "sort_mode" then Some(SortModeKey)
    else None
  }

  /** How the loader treats one line of the ignore file. */
  datatype LineKind = Skipped | Setting(key: Key, value: string) | Glob(pattern: string)

  /**
   * Blank and `#` lines are skipped; `key=value` with a recognised key (trimmed,
   * ASCII lower-cased) is a setting; every other line is a glob, trimmed.
   */
  function Classify(line: string): (r: LineKind)
    ensures r.Skipped? <==> Trim(line) == [] || Trim(line)[0] == '#'
    ensures r.Glob? ==> r.pattern == Trim(line) && r.pattern != [] && r.pattern[0] != '#'
  {
    var trimmed := Trim(line);
    if trimmed == [] || trimmed[0] == '#' then Skipped
    else match SplitOnce(trimmed, '=')
      case Some((rawKey, rawValue)) =>
        (match ParseKey(ToAsciiLower(Trim(rawKey)))
         case Some(key) => Setting(key, Trim(rawValue))
         case None => Glob(trimmed))
      case None => Glob(trimmed)
  }

  /** The error a classified line causes: a recognised key whose value does not parse. */
  function KindError(kind: LineKind): Option<ConfigError> {
    match kind
    case Setting(key, value) =>
      if key == SortModeKey then
        (if ParseSortMode(value).None? then Some(InvalidValue(KeyName(key), value)) else None)
      else
        (if ParseBool(value).None? then Some(InvalidValue(KeyName(key), value)) else None)
    case _ => None
  }

  /** A recognised `key=value` line applied to the settings read so far. */
  function SetValue(st: Settings, key: Key, value: string): Result<Settings, ConfigError> {
    if key == SortModeKey then
      match ParseSortMode(value)
      case Some(mode) => Ok(st.(sortMode := mode))
      case None => Err(InvalidValue(KeyName(key), value))
    else
      match ParseBool(value)
      case Some(b) =>
        (match key
         case IncludeHidden => Ok(st.(includeHidden := b))
         case IncludeMounts => Ok(st.(includeMounts := b))
         case IncludeSymlinks => Ok(st.(includeSymlinks := b)))
      case None => Err(InvalidValue(KeyName(key), value))
  }

  /** The effect of one classified line on the settings read so far. */
  function ApplyKind(st: Settings, kind: LineKind): Result<Settings, ConfigError> {
    match kind
    case Skipped => Ok(st)
    case Glob(pattern) => Ok(st.(globs := st.globs + [pattern]))
    case Setting(key, value) => SetValue(st, key, value)
  }

  /** Every line of the file, classified. */
  function ClassifyAll(lines: seq<string>): seq<LineKind> {
    seq(|lines|, k requires 0 <= k < |lines| => Classify(lines[k]))
  }

  /** The classified lines applied in order, stopping at the first error. */
  function LoadKinds(st: Settings, kinds: seq<LineKind>): Result<Settings, ConfigError>
    decreases |kinds|
  {
    if kinds == [] then Ok(st)
    else match ApplyKind(st, kinds[0])
      case Err(e) => Err(e)
      case Ok(next) => LoadKinds(next, kinds[1..])
  }

  /** The first glob that does not compile, if any. */
  function FirstInvalidGlob(globs: seq<string>, validGlob: string -> bool): (r: Option<string>)
    ensures r.None? <==> forall k :: 0 <= k < |globs| ==> validGlob(globs[k])
    ensures r.Some? ==> r.value in globs && !validGlob(r.value)
  {
    if globs == [] then None
    else if !validGlob(globs[0]) then Some(globs[0])
    else FirstInvalidGlob(globs[1..], validGlob)
  }

  /** What `load_settings` returns for a given ignore file. */
  function LoadSpec(config: ConfigFile, validGlob: string -> bool): Result<Settings, ConfigError> {
    var loaded :=
      match config
      case Absent => Ok(DEFAULTS)
      case Unreadable => Err(ReadFailed)
      case Present(content) => LoadKinds(DEFAULTS, ClassifyAll(Lines(content)));
    if loaded.Err? then loaded
    else match FirstInvalidGlob(loaded.value.globs, validGlob)
      case Some(pattern) => Err(InvalidGlob(pattern))
      case None => loaded
  }

  /** `load_settings`: the ignore file's lines, then compilation of every glob. */
  method LoadSettings(config: ConfigFile, validGlob: string -> bool) returns (r: Result<Settings, ConfigError>)
    ensures r == LoadSpec(config, validGlob)
  {
    var loaded: Result<Settings, ConfigError> := Ok(DEFAULTS);
    match config {
      case Unreadable =>
        return Err(ReadFailed);
      case Absent =>
      case Present(content) =>
        loaded := ReadIgnoreLines(Lines(content));
    }
    if loaded.Err? {
      return loaded;
    }
    var invalid := FindInvalidGlob(loaded.value.globs, validGlob);
    if invalid.Some? {
      return Err(InvalidGlob(invalid.value));
    }
    return loaded;
  }

  /**
   * The line loop of `load_settings`: each line updates the settings read so
   * far, and a bad value returns at once.
   */
  method ReadIgnoreLines(lines: seq<string>) returns (r: Result<Settings, ConfigError>)
    ensures r == LoadKinds(DEFAULTS, ClassifyAll(lines))
  {
    var st := DEFAULTS;
    ghost var kinds := ClassifyAll(lines);
    var i := 0;
    while i < |lines|
      invariant 0 <= i <= |lines|
      invariant LoadKinds(DEFAULTS, kinds) == LoadKinds(st, kinds[i..])
    {
      var next := ReadIgnoreLine(st, lines[i]);
      assert kinds[i..][0] == Classify(lines[i]);
      assert kinds[i..][1..] == kinds[i + 1..];
      if next.Err? {
        return Err(next.error);
      }
      st := next.value;
      i := i + 1;
    }
    assert kinds[i..] == [];
    r := Ok(st);
  }

  /**
   * The body of the line loop: blank and comment lines leave the settings
   * alone, a recognised key reassigns its setting, anything else is pushed
   * as a glob.
   */
  method ReadIgnoreLine(st: Settings, line: string) returns (r: Result<Settings, ConfigError>)
    ensures r == ApplyKind(st, Classify(line))
  {
    var trimmed := Trim(line);
    if trimmed == [] || trimmed[0] == '#' {
      return Ok(st);
    }
    var split := SplitOnce(trimmed, '=');
    if split.Some? {
      var key := ParseKey(ToAsciiLower(Trim(split.value.0)));
      var value := Trim(split.value.1);
      match key {
        case Some(IncludeHidden) =>
          var parsed := ParseBool(value);
          if parsed.None? {
            return Err(InvalidValue("include_hidden", value));
          }
          return Ok(st.(includeHidden := parsed.value));
        case Some(IncludeMounts) =>
          var parsed := ParseBool(value);
          if parsed.None? {
            return Err(InvalidValue("include_mounts", value));
          }
          return Ok(st.(includeMounts := parsed.value));
        case Some(IncludeSymlinks) =>
          var parsed := ParseBool(value);
          if parsed.None? {
            return Err(InvalidValue("include_symlinks", value));
          }
          return Ok(st.(includeSymlinks := parsed.value));
        case Some(SortModeKey) =>
          var parsed := ParseSortMode(value);
          if parsed.None? {
            return Err(InvalidValue("sort_mode", value));
          }
          return Ok(st.(sortMode := parsed.value));
        case None =>
      }
    }
    return Ok(st.(globs := st.globs + [trimmed]));
  }

  /** The `GlobSetBuilder` loop: the first pattern `Glob::new` rejects, if any. */
  method FindInvalidGlob(globs: seq<string>, validGlob: string -> bool) returns (r: Option<string>)
    ensures r == FirstInvalidGlob(globs, validGlob)
  {
    var j := 0;
    while j < |globs|
      invariant 0 <= j <= |globs|
      invariant forall k :: 0 <= k < j ==> validGlob(globs[k])
    {
      if !validGlob(globs[j]) {
        FirstInvalidIsFirst(globs, validGlob, j);
        return Some(globs[j]);
      }
      j := j + 1;
    }
    return None;
  }

  lemma {:induction false} FirstInvalidIsFirst(globs: seq<string>, validGlob: string -> bool, j: nat)
    requires j < |globs| && !validGlob(globs[j])
    requires forall k :: 0 <= k < j ==> validGlob(globs[k])
    ensures FirstInvalidGlob(globs, validGlob) == Some(globs[j])
    decreases j
  {
    if j > 0 {
      FirstInvalidIsFirst(globs[1..], validGlob, j - 1);
    }
  }

  /** The glob patterns among the classified lines, in file order. */
  function Patterns(kinds: seq<LineKind>): (r: seq<string>)
    ensures |r| <= |kinds|
  {
    if kinds == [] then []
    else match kinds[0]
      case Glob(pattern) => [pattern] + Patterns(kinds[1..])
      case _ => Patterns(kinds[1..])
  }

  /** The value a classified line gives `key`, if it sets it. */
  function KindSetting(kind: LineKind, key: Key): Option<string> {
    if kind.Setting? && kind.key == key then Some(kind.value) else None
  }

  /** The value of the last line that sets `key`, if any. */
  function LastSetting(kinds: seq<LineKind>, key: Key): Option<string> {
    if kinds == [] then None
    else match LastSetting(kinds[1..], key)
      case Some(v) => Some(v)
      case None => KindSetting(kinds[0], key)
  }

  /** A line that applies cleanly changes exactly the setting it names, to the value it gives. */
  lemma ApplyKindSettings(st: Settings, kind: LineKind)
    requires ApplyKind(st, kind).Ok?
    ensures var r := ApplyKind(st, kind).value;
      && r.includeHidden == BoolAfter(st.includeHidden, KindSetting(kind, IncludeHidden))
      && r.includeMounts == BoolAfter(st.includeMounts, KindSetting(kind, IncludeMounts))
      && r.includeSymlinks == BoolAfter(st.includeSymlinks, KindSetting(kind, IncludeSymlinks))
      && r.sortMode == SortAfter(st.sortMode, KindSetting(kind, SortModeKey))
  {
    match kind
    case Setting(key, value) =>
      if key == SortModeKey {
        var mode := ParseSortMode(value).value;
        assert ApplyKind(st, kind).value == st.(sortMode := mode);
      } else {
        var b := ParseBool(value).value;
        var r := ApplyKind(st, kind).value;
        match key
        case IncludeHidden => assert r == st.(includeHidden := b);
        case IncludeMounts => assert r == st.(includeMounts := b);
        case IncludeSymlinks => assert r == st.(includeSymlinks := b);
      }
    case _ =>
  }

  /** A toggle after loading: its last assignment, else what it was before. */
  function BoolAfter(before: bool, last: Option<string>): bool {
    match last
    case None => before
    case Some(v) => ParseBool(v) == Some(true)
  }

  /** The sort mode after loading: its last assignment, else what it was before. */
  function SortAfter(before: SortMode, last: Option<string>): SortMode {
    match last
    case None => before
    case Some(v) => if ParseSortMode(v) == Some(Alphabetical) then Alphabetical else Depth
  }

  /** A line fails exactly when `KindError` says so, and with that error. */
  lemma ApplyKindError(st: Settings, kind: LineKind)
    ensures ApplyKind(st, kind).Err? <==> KindError(kind).Some?
    ensures ApplyKind(st, kind).Err? ==> ApplyKind(st, kind).error == KindError(kind).value
  {
  }

  /** Every glob line lands in the glob list, after the globs already there and in file order. */
  lemma {:induction false} LoadedGlobs(st: Settings, kinds: seq<LineKind>)
    requires LoadKinds(st, kinds).Ok?
    ensures LoadKinds(st, kinds).value.globs == st.globs + Patterns(kinds)
    decreases |kinds|
  {
    if kinds != [] {
      var next := ApplyKind(st, kinds[0]).value;
      LoadedGlobs(next, kinds[1..]);
      match kinds[0]
      case Glob(pattern) =>
        assert st.globs + Patterns(kinds) == (st.globs + [pattern]) + Patterns(kinds[1..]);
      case _ =>
    }
  }

  /** Each setting ends with the value of the last line naming it. */
  lemma {:induction false} LastSettingWins(st: Settings, kinds: seq<LineKind>)
    requires LoadKinds(st, kinds).Ok?
    ensures var r := LoadKinds(st, kinds).value;
      && r.includeHidden == BoolAfter(st.includeHidden, LastSetting(kinds, IncludeHidden))
      && r.includeMounts == BoolAfter(st.includeMounts, LastSetting(kinds, IncludeMounts))
      && r.includeSymlinks == BoolAfter(st.includeSymlinks, LastSetting(kinds, IncludeSymlinks))
      && r.sortMode == SortAfter(st.sortMode, LastSetting(kinds, SortModeKey))
    decreases |kinds|
  {
    if kinds != [] {
      var next := ApplyKind(st, kinds[0]).value;
      ApplyKindSettings(st, kinds[0]);
      LastSettingWins(next, kinds[1..]);
    }
  }

  /**
   * Loading succeeds exactly when no line has a bad value; otherwise it fails
   * with the error of the first such line.
   */
  lemma {:induction false} LoadSucceedsIff(st: Settings, kinds: seq<LineKind>)
    ensures LoadKinds(st, kinds).Ok? <==> forall k :: 0 <= k < |kinds| ==> KindError(kinds[k]).None?
    ensures LoadKinds(st, kinds).Err? ==>
      exists j :: 0 <= j < |kinds| && KindError(kinds[j]) == Some(LoadKinds(st, kinds).error)
        && forall k :: 0 <= k < j ==> KindError(kinds[k]).None?
    decreases |kinds|
  {
    if kinds != [] {
      ApplyKindError(st, kinds[0]);
      match ApplyKind(st, kinds[0])
      case Err(e) =>
        assert KindError(kinds[0]) == Some(LoadKinds(st, kinds).error);
      case Ok(next) =>
        LoadSucceedsIff(next, kinds[1..]);
        assert forall k :: 0 < k < |kinds| ==> kinds[k] == kinds[1..][k - 1];
        if LoadKinds(next, kinds[1..]).Err? {
          var j :| 0 <= j < |kinds[1..]| && KindError(kinds[1..][j]) == Some(LoadKinds(next, kinds[1..]).error)
            && forall k :: 0 <= k < j ==> KindError(kinds[1..][k]).None?;
          assert KindError(kinds[j + 1]) == Some(LoadKinds(st, kinds).error);
        }
    }
  }

  /** With no ignore file, loading gives the defaults, provided the two built-in globs compile. */
  lemma NoFileGivesDefaults(validGlob: string -> bool)
    requires validGlob(".git/**") && validGlob("node_modukes/**")
    ensures LoadSpec(Absent, validGlob) == Ok(DEFAULTS)
    ensures !DEFAULTS.includeHidden && !DEFAULTS.includeMounts && !DEFAULTS.includeSymlinks
    ensures DEFAULTS.sortMode == Depth
  {
    assert FirstInvalidGlob(DEFAULT_IGNORE_GLOBS, validGlob) == None;
  }

  /** An ignore file that exists but cannot be read fails the load. */
  lemma UnreadableFails(validGlob: string -> bool)
    ensures LoadSpec(Unreadable, validGlob) == Err(ReadFailed)
  {
  }

  /**
   * The trimmed line `t` reads as `rawKey=rawValue`, split at its first `=`,
   * and the key, trimmed and ASCII lower-cased, names `k`.
   */
  predicate SettingLine(t: string, rawKey: string, rawValue: string, k: Key) {
    t == rawKey + "=" + rawValue && '=' !in rawKey && ToAsciiLower(Trim(rawKey)) == KeyName(k)
  }

  /** The first character of a key name is a lower-case letter, never `#`. */
  lemma KeyNameStart(k: Key)
    ensures KeyName(k) != [] && KeyName(k)[0] != '#'
  {
    match k
    case IncludeHidden =>
    case IncludeMounts =>
    case IncludeSymlinks =>
    case SortModeKey =>
  }

  /** The trimmed text of a line, when there is any, starts with non-whitespace. */
  lemma TrimStartsSolid(s: string)
    requires Trim(s) != []
    ensures !IsWhitespace(Trim(s)[0])
  {
    TrimEndPrefix(TrimStart(s));
  }

  /** A recognised `key=value` line sets that key to its trimmed value. */
  lemma ClassifySetting(line: string, rawKey: string, rawValue: string, k: Key)
    requires SettingLine(Trim(line), rawKey, rawValue, k)
    ensures Classify(line) == Setting(k, Trim(rawValue))
  {
    var t := Trim(line);
    assert t == rawKey + ['='] + rawValue;
    SplitOnceAt(rawKey, '=', rawValue);
    KeyNameStart(k);
    var key := Trim(rawKey);
    assert key != [];
    assert rawKey != [] && rawKey[0] == t[0];
    TrimStartsSolid(line);
    assert TrimStart(rawKey) == rawKey;
    TrimEndPrefix(rawKey);
    assert key[0] == rawKey[0];
    ToAsciiLowerAt(key, 0);
    assert t[0] != '#';
    match k
    case IncludeHidden =>
    case IncludeMounts =>
    case IncludeSymlinks =>
    case SortModeKey =>
  }

  /** Every other line that is not skipped is a glob: the trimmed line. */
  lemma ClassifyGlob(line: string)
    requires Trim(line) != [] && Trim(line)[0] != '#'
    requires forall rawKey, rawValue, k :: !SettingLine(Trim(line), rawKey, rawValue, k)
    ensures Classify(line) == Glob(Trim(line))
  {
    var t := Trim(line);
    match SplitOnce(t, '=')
    case None =>
    case Some((rawKey, rawValue)) =>
      match ParseKey(ToAsciiLower(Trim(rawKey)))
      case None =>
      case Some(k) =>
        assert t == rawKey + "=" + rawValue;
        assert SettingLine(t, rawKey, rawValue, k);
  }

  /** A `key=value` line with an unknown key, `foo=bar`, is an ordinary glob. */
  lemma UnknownKeyIsGlob(line: string, key: string, value: string)
    requires key == "foo" && value == "bar" && line == key + "=" + value
    ensures Classify(line) == Glob(line)
  {
    assert |key| == 3 && key[0] == 'f' && key[1] == 'o' && key[2] == 'o';
    assert line == key + ['='] + value;
    TrimUnpadded(line);
    TrimUnpadded(key);
    TrimUnpadded(value);
    SplitOnceAt(key, '=', value);
    ToAsciiLowerNoUpper(key);
    assert ParseKey(key) == None;
  }
}

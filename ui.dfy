/**
 * The interactive front end's decisions: reading back the row the user
 * picked, decoding the picker's output into an action, and choosing which
 * lines of a file the preview shows.
 */
module Ui {
  import opened Wrappers
  import opened Text
  import opened Paths
  import opened Presentation
  import opened Actions

  /**
   * `parse_selected_line`: the second tab-separated field is the path, the
   * third, trimmed, is the line number; a blank or non-numeric third field,
   * or a missing one, gives no line.
   */
  function ParseSelectedLine(row: string): (r: (string, Option<nat>))
    ensures '\t' !in r.0
    ensures r.1.Some? ==> r.1.value <= USIZE_MAX
    ensures '\t' !in row ==> r == ([], None)
  {
    var parts := SplitN(row, '\t', 3);
    var path := if |parts| >= 2 then parts[1] else [];
    var line :=
      if |parts| == 3 then
        var raw := Trim(parts[2]);
        if raw == [] then None else ParseUsize(raw)
      else None;
    assert '\t' !in row ==> parts == [row] by {
      if '\t' !in row && |parts| > 1 {
        JoinHasSeparator(parts, '\t');
      }
    }
    (path, line)
  }

  /** Joining two or more pieces with `c` puts a `c` in the text, right after the first piece. */
  lemma JoinHasSeparator(parts: seq<string>, c: char)
    requires |parts| > 1
    ensures c in Join(parts, c)
  {
    assert Join(parts, c)[|parts[0]|] == c;
  }

  /** A row with a display, a path and a line field splits into exactly those. */
  lemma ParseFields(display: string, path: string, field: string)
    requires '\t' !in display && '\t' !in path
    ensures ParseSelectedLine(display + ['\t'] + path + ['\t'] + field)
      == (path, if Trim(field) == [] then None else ParseUsize(Trim(field)))
  {
    SplitNCons(display, '\t', path + ['\t'] + field, 3);
    SplitNCons(path, '\t', field, 2);
    assert display + ['\t'] + path + ['\t'] + field == display + ['\t'] + (path + ['\t'] + field);
  }

  /** A row with a display and a path but no line field gives the path and no line. */
  lemma ParseTwoFields(display: string, path: string)
    requires '\t' !in display && '\t' !in path
    ensures ParseSelectedLine(display + ['\t'] + path) == (path, None)
  {
    SplitNCons(display, '\t', path, 3);
    assert SplitN(path, '\t', 2) == [path] by {
      assert IndexOf(path, '\t') == |path|;
      assert path[..|path|] == path;
    }
  }

  /**
   * Reading back a row written by `format_search_entries` gives the entry's
   * path and line, when the path holds no tab.
   */
  lemma SelectedRowRoundTrip(e: SearchEntry)
    requires '\t' !in Display(e.path)
    requires e.line.Some? ==> e.line.value <= USIZE_MAX
    ensures ParseSelectedLine(RowText(e)) == (Display(e.path), e.line)
  {
    var display := ReplaceChar(e.display, '\t', [' ', ' ', ' ', ' ']);
    ParseFields(display, Display(e.path), LineField(e.line));
    RowTextFields(e);
    LineFieldReadsBack(e.line);
  }

  /** The line column, trimmed and parsed, gives the line back. */
  lemma LineFieldReadsBack(line: Option<nat>)
    requires line.Some? ==> line.value <= USIZE_MAX
    ensures (if Trim(LineField(line)) == [] then None else ParseUsize(Trim(LineField(line)))) == line
  {
    var field := LineField(line);
    if line.Some? {
      assert !IsWhitespace(field[0]) && !IsWhitespace(field[|field| - 1]) by {
        assert IsDigit(field[0]) && IsDigit(field[|field| - 1]);
      }
      TrimUnpadded(field);
      ParsePrinted(line.value);
    }
  }

  /** The editors the picker can hand a file to. */
  datatype Editor = Vim | Code | Subl

  /** What the session does once the picker exits. */
  datatype Action =
    | NoAction
    | OpenEditor(editor: Editor, cwd: FsPath, rel: string)
    | PrintDir(dir: FsPath)

  /** The picker's exit: whether it succeeded, and what it printed. */
  datatype FzfOutput = FzfOutput(success: bool, stdout: string)

  const ENTER_KEY: string := "enter"
  const VIM_KEY: string := "ctrl-v"
  const CODE_KEY: string := "ctrl-o"
  const SUBL_KEY: string := "ctrl-s"

  /** The editor bound to a key, if any. */
  function EditorFor(key: string): (r: Option<Editor>)
    ensures r == Some(Vim) <==> key == VIM_KEY
    ensures r == Some(Code) <==> key == CODE_KEY
    ensures r == Some(Subl) <==> key == SUBL_KEY
  {
    if key == VIM_KEY then Some(Vim)
    else if key == CODE_KEY then Some(Code)
    else if key == SUBL_KEY then Some(Subl)
    else None
  }

  /** The key that ended the picker: its second output line, `enter` when there is none. */
  function PressedKey(stdout: string): string {
    var lines := Lines(stdout);
    if |lines| >= 2 then lines[1] else ENTER_KEY
  }

  /** The row the picker ended on: its third output line, empty when there is none. */
  function SelectedRow(stdout: string): string {
    var lines := Lines(stdout);
    if |lines| >= 3 then lines[2] else []
  }

  /**
   * The decision `run_fzf_session` takes after the picker exits: nothing on
   * a failed exit, an empty row or an empty path; otherwise an editor for
   * its key, or printing the directory to change into.
   */
  function FzfAction(out: FzfOutput, cwd: FsPath): (r: Action)
    ensures r.OpenEditor? ==> r.cwd == cwd && r.rel != [] && '\t' !in r.rel
  {
    if !out.success then NoAction
    else
      var row := SelectedRow(out.stdout);
      if row == [] then NoAction
      else
        var path := ParseSelectedLine(row).0;
        if path == [] then NoAction
        else
          match EditorFor(PressedKey(out.stdout))
          case Some(editor) => OpenEditor(editor, cwd, path)
          case None => PrintDir(ResolveTargetDir(cwd, path))
  }

  /** Nothing happens exactly when the picker failed, no row came back, or the row has no path. */
  lemma NoActionExactly(out: FzfOutput, cwd: FsPath)
    ensures FzfAction(out, cwd) == NoAction
      <==> !out.success || SelectedRow(out.stdout) == [] || ParseSelectedLine(SelectedRow(out.stdout)).0 == []
  {
  }

  /**
   * The picker prints the query, the key and the chosen row, one per line:
   * the key and the row are read back from the second and third lines.
   */
  lemma DecodeOutput(query: string, key: string, row: string)
    requires IsLine(query) && IsLine(key) && IsLine(row)
    ensures PressedKey(query + ['\n'] + key + ['\n'] + row + ['\n']) == key
    ensures SelectedRow(query + ['\n'] + key + ['\n'] + row + ['\n']) == row
  {
    var rows := [query, key, row];
    assert Terminated(rows, 1) == query + ['\n'];
    assert Terminated(rows, 2) == query + ['\n'] + key + ['\n'];
    assert Terminated(rows, 3) == query + ['\n'] + key + ['\n'] + row + ['\n'];
    LinesTerminated(rows, 3);
    assert rows[..3] == rows;
  }

  /** With only the query printed, the key is `enter` and no row is selected, so nothing happens. */
  lemma QueryOnlyDoesNothing(query: string, cwd: FsPath)
    requires IsLine(query)
    ensures PressedKey(query + ['\n']) == ENTER_KEY
    ensures SelectedRow(query + ['\n']) == []
    ensures FzfAction(FzfOutput(true, query + ['\n']), cwd) == NoAction
  {
    var rows := [query];
    assert Terminated(rows, 1) == query + ['\n'];
    LinesTerminated(rows, 1);
    assert rows[..1] == rows;
  }

  /**
   * End to end: when the picker returns a row written for a search entry,
   * `ctrl-v`, `ctrl-o` and `ctrl-s` open the entry's path in vim, code and
   * subl, and any other key prints the directory that path resolves to.
   */
  lemma SelectedEntryAction(query: string, key: string, e: SearchEntry, cwd: FsPath)
    requires IsLine(query) && IsLine(key)
    requires '\n' !in e.display && '\n' !in Display(e.path) && '\t' !in Display(e.path)
    requires e.path != [] && e.path[0] != []
    requires e.line.Some? ==> e.line.value <= USIZE_MAX
    ensures var action := FzfAction(FzfOutput(true, query + ['\n'] + key + ['\n'] + RowText(e) + ['\n']), cwd);
      var rel := Display(e.path);
      && (key == VIM_KEY ==> action == OpenEditor(Vim, cwd, rel))
      && (key == CODE_KEY ==> action == OpenEditor(Code, cwd, rel))
      && (key == SUBL_KEY ==> action == OpenEditor(Subl, cwd, rel))
      && (key != VIM_KEY && key != CODE_KEY && key != SUBL_KEY ==> action == PrintDir(ResolveTargetDir(cwd, rel)))
  {
    RowTextIsLine(e);
    DecodeOutput(query, key, RowText(e));
    SelectedRowRoundTrip(e);
    JoinHead(e.path, '/');
  }

  /** Lines of context the preview shows on each side of a chosen line. */
  const CONTEXT: nat := 30

  /** Lines the preview shows when it has no line to centre on. */
  const HEAD_LINES: nat := 300

  /** The lines `bat` is asked to show. */
  datatype LineRange =
    | Around(line: nat, start: nat, end: nat)  // `--highlight-line line --line-range start:end`
    | Head(count: nat)                         // `--line-range=:count`

  /** The preview of a selected entry: a directory listing, or a range of the file. */
  datatype Preview = ListDirectory | ShowFile(range: LineRange)

  /** How the first-match probe (`rg -n -m 1`) ended. */
  datatype Probe = SpawnFailed | Ran(success: bool, stdout: string)

  /** Why the preview could not be planned. */
  datatype PreviewError = ProbeSpawnFailed

  /**
   * The window around a line: thirty lines of context on each side, not
   * starting before line 1.
   */
  function WindowAround(line: nat): (r: LineRange)
    ensures r.Around? && r.line == line
    ensures r.start >= 1 && (line >= 1 ==> r.start <= line)
    ensures r.end - line == CONTEXT
    ensures line > CONTEXT ==> line - r.start == CONTEXT
    ensures line <= CONTEXT ==> r.start == 1
  {
    var start := if line > CONTEXT then line - CONTEXT else 1;
    Around(line, start, line + CONTEXT)
  }

  /** The line number at the head of the probe's first output line, if it reads as one. */
  function FirstMatchLine(stdout: string): Option<nat> {
    var lines := Lines(stdout);
    var first := if lines == [] then [] else lines[0];
    ParseUsize(SplitN(first, ':', 2)[0])
  }

  /**
   * The range `run_preview` chooses: around the selected line; else, for a
   * non-blank query, around the first line the probe reports; otherwise,
   * and whenever the probe fails or prints no number, the first 300 lines.
   */
  function PreviewRange(selected: Option<nat>, query: string, probe: Probe): (r: Result<LineRange, PreviewError>)
    ensures r.Err? <==> selected.None? && Trim(query) != [] && probe.SpawnFailed?
    ensures r.Ok? && r.value.Around? ==> r.value == WindowAround(r.value.line)
  {
    match selected
    case Some(line) => Ok(WindowAround(line))
    case None =>
      if Trim(query) == [] then Ok(Head(HEAD_LINES))
      else
        match probe
        case SpawnFailed => Err(ProbeSpawnFailed)
        case Ran(success, stdout) =>
          if !success then Ok(Head(HEAD_LINES))
          else
            match FirstMatchLine(stdout)
            case Some(line) => Ok(WindowAround(line))
            case None => Ok(Head(HEAD_LINES))
  }

  /** `run_preview`'s plan: a listing for a directory, otherwise the chosen range of the file. */
  function PlanPreview(isDir: bool, selected: Option<nat>, query: string, probe: Probe): (r: Result<Preview, PreviewError>)
    ensures isDir ==> r == Ok(ListDirectory)
    ensures !isDir ==> (r.Ok? <==> PreviewRange(selected, query, probe).Ok?)
    ensures !isDir && r.Ok? ==> r.value == ShowFile(PreviewRange(selected, query, probe).value)
  {
    if isDir then Ok(ListDirectory)
    else
      match PreviewRange(selected, query, probe)
      case Ok(range) => Ok(ShowFile(range))
      case Err(e) => Err(e)
  }

  /** A selected line always wins, whatever the query and the probe. */
  lemma SelectedLineWins(line: nat, query: string, probe: Probe)
    ensures PreviewRange(Some(line), query, probe) == Ok(WindowAround(line))
  {
  }

  /**
   * Without a selected line the preview falls back to the first 300 lines
   * when the query is blank, when the probe exits unsuccessfully, or when
   * the text before the first `:` of its first line is not a number.
   */
  lemma HeadFallbacks(query: string, probe: Probe)
    ensures Trim(query) == [] ==> PreviewRange(None, query, probe) == Ok(Head(HEAD_LINES))
    ensures probe.Ran? && !probe.success ==> PreviewRange(None, query, probe) == Ok(Head(HEAD_LINES))
    ensures probe.Ran? && probe.success && FirstMatchLine(probe.stdout).None?
      ==> PreviewRange(None, query, probe) == Ok(Head(HEAD_LINES))
  {
  }

  /**
   * A probe line of the form `N:text`, as `rg -n` prints it, centres the
   * preview on line `N` when no line was selected and the query is not blank.
   */
  lemma FirstMatchRoundTrip(query: string, n: nat, text: string, more: string)
    requires Trim(query) != [] && n <= USIZE_MAX && '\n' !in text
    ensures PreviewRange(None, query, Ran(true, NatToString(n) + [':'] + text + ['\n'] + more)) == Ok(WindowAround(n))
  {
    FirstMatchLineOf(n, text, more);
  }

  /** The probe's first line `N:text` reads as line `N`. */
  lemma FirstMatchLineOf(n: nat, text: string, more: string)
    requires n <= USIZE_MAX && '\n' !in text
    ensures FirstMatchLine(NatToString(n) + [':'] + text + ['\n'] + more) == Some(n)
  {
    var num := NatToString(n);
    var first := num + [':'] + text;
    assert '\n' !in first;
    LinesAfterBreak(first, more);
    LeadingNumber(n, text);
  }

  /** Cutting `N:text` at its first `:`, with or without a trailing `\r`, leaves the number `N`. */
  lemma LeadingNumber(n: nat, text: string)
    requires n <= USIZE_MAX
    ensures ParseUsize(SplitN(StripCarriageReturn(NatToString(n) + [':'] + text), ':', 2)[0]) == Some(n)
  {
    var num := NatToString(n);
    var first := num + [':'] + text;
    assert ':' !in num by {
      assert forall k :: 0 <= k < |num| ==> IsDigit(num[k]);
    }
    var rest := if text != [] && text[|text| - 1] == '\r' then text[..|text| - 1] else text;
    assert StripCarriageReturn(first) == num + [':'] + rest by {
      if text != [] && text[|text| - 1] == '\r' {
        assert first[..|first| - 1] == num + [':'] + text[..|text| - 1];
      } else if text == [] {
        assert first[|first| - 1] == ':';
      }
    }
    SplitNCons(num, ':', rest, 2);
    ParsePrinted(n);
  }
}

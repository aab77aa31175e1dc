/**
 * How search results are shown: `highlight_query_matches` wraps every regex
 * match in an SGR colour sequence (ECMA-48, section 8.3.117),
 * `truncate_snippet` cuts long snippets, `build_search_entries` lays out a
 * header row per candidate and a row per occurrence, and
 * `format_search_entries` serialises the rows for `fzf`.
 */
module Presentation {
  import opened Wrappers
  import opened Text
  import opened Paths
  import opened Environment
  import opened Ranking
  import opened Occurrences
  import opened Settings
  import opened Candidates

  const ESC: char := '\U{1B}'
  /** SGR 1;36 (bold, cyan foreground) opens a highlighted match. */
  const MATCH_ON: string := [ESC, '[', '1', ';', '3', '6', 'm']
  /** SGR 0 resets every attribute. */
  const SGR_RESET: string := [ESC, '[', '0', 'm']
  /** SGR 33 (yellow foreground) opens the occurrence count. */
  const COUNT_ON: string := [ESC, '[', '3', '3', 'm']
  const ELLIPSIS: char := '\U{2026}'
  const FOLDER_ICON: char := '\U{1F4C1}'
  const FILE_ICON: char := '\U{1F4C4}'
  const ARROW: char := '\U{21B3}'
  /** The longest snippet shown before it is cut. */
  const SNIPPET_LIMIT: nat := 140

  /**
   * The text from `last` on, with the spans from the `k`-th on wrapped in
   * the match colour and a reset; the text between spans is copied unchanged.
   */
  function HighlightFrom(text: string, spans: seq<Span>, k: nat, last: nat): string
    requires SpansWellFormed(spans, |text|)
    requires k <= |spans| && last <= |text| && (k < |spans| ==> last <= spans[k].start)
    decreases |spans| - k
  {
    if k == |spans| then text[last..]
    else
      var s := spans[k];
      text[last..s.start] + MATCH_ON + text[s.start..s.end] + SGR_RESET + HighlightFrom(text, spans, k + 1, s.end)
  }

  /** `highlight_query_matches`: the text unchanged without a regex, else every match highlighted. */
  function Highlight(text: string, re: Option<string>, m: Matchers): string
    requires re.Some? ==> SpansWellFormed(m.findIter(re.value, text), |text|)
  {
    if re.None? then text else HighlightFrom(text, m.findIter(re.value, text), 0, 0)
  }

  /**
   * The loop of `highlight_query_matches`: the gap before each match, the
   * match between the markers, and the rest after the last match, tracked
   * by the `last` cursor.
   */
  method HighlightQueryMatches(text: string, re: Option<string>, m: Matchers) returns (out: string)
    requires re.Some? ==> SpansWellFormed(m.findIter(re.value, text), |text|)
    ensures out == Highlight(text, re, m)
  {
    if re.None? {
      return text;
    }
    var spans := m.findIter(re.value, text);
    out := [];
    var last: nat := 0;
    var k := 0;
    while k < |spans|
      invariant 0 <= k <= |spans|
      invariant last <= |text| && (k < |spans| ==> last <= spans[k].start)
      invariant out + HighlightFrom(text, spans, k, last) == HighlightFrom(text, spans, 0, 0)
    {
      out, last := EmitMatch(out, text, spans, k, last);
      k := k + 1;
    }
    if last < |text| {
      out := out + text[last..];
    } else {
      assert out + text[last..] == out;
    }
  }

  /** One turn of the loop: the gap before match `k` (when not empty), then the match between the markers. */
  method EmitMatch(out0: string, text: string, spans: seq<Span>, k: nat, last0: nat) returns (out: string, last: nat)
    requires SpansWellFormed(spans, |text|)
    requires k < |spans| && last0 <= |text| && last0 <= spans[k].start
    ensures last == spans[k].end
    ensures out + HighlightFrom(text, spans, k + 1, last) == out0 + HighlightFrom(text, spans, k, last0)
  {
    var matched := spans[k];
    HighlightStep(text, spans, k, last0);
    var gap := text[last0..matched.start];
    var hit := text[matched.start..matched.end];
    AppendMarked(out0, gap, hit, HighlightFrom(text, spans, k + 1, matched.end));
    out := out0;
    if matched.start > last0 {
      out := out + gap;
    } else {
      assert out + gap == out;
    }
    out := out + MATCH_ON + hit + SGR_RESET;
    last := matched.end;
  }

  /** Appending a gap, a marked match and the rest in one go or piece by piece gives the same text. */
  lemma AppendMarked(out: string, gap: string, hit: string, rest: string)
    ensures out + (gap + (MATCH_ON + (hit + (SGR_RESET + rest)))) == out + gap + MATCH_ON + hit + SGR_RESET + rest
  {
  }

  /** The text with every match-colour and reset marker deleted. */
  function Unmark(s: string): string
    decreases |s|
  {
    if s == [] then []
    else if MATCH_ON <= s then Unmark(s[|MATCH_ON|..])
    else if SGR_RESET <= s then Unmark(s[|SGR_RESET|..])
    else [s[0]] + Unmark(s[1..])
  }

  /** Text without an escape character passes through `Unmark` unchanged, whatever follows it. */
  lemma {:induction false} UnmarkPlain(x: string, y: string)
    requires ESC !in x
    ensures Unmark(x + y) == x + Unmark(y)
    decreases |x|
  {
    if x == [] {
      assert x + y == y;
    } else {
      assert (x + y)[0] == x[0];
      assert (x + y)[1..] == x[1..] + y;
      UnmarkPlain(x[1..], y);
    }
  }

  /** A match marker and what follows: the marker vanishes. */
  lemma UnmarkMarker(marker: string, y: string)
    requires marker == MATCH_ON || marker == SGR_RESET
    ensures Unmark(marker + y) == Unmark(y)
  {
    assert (marker + y)[|marker|..] == y;
    assert marker <= marker + y;
    if marker == SGR_RESET {
      assert (marker + y)[2] == '0';
    }
  }

  /** A slice of a text without `c` is without `c`. */
  lemma SliceAvoids(text: string, i: nat, j: nat, c: char)
    requires i <= j <= |text| && c !in text
    ensures c !in text[i..j]
  {
    assert forall k :: 0 <= k < j - i ==> text[i..j][k] == text[i + k];
  }

  /** One step of `HighlightFrom`: the gap, the marked match, and the rest. */
  lemma HighlightStep(text: string, spans: seq<Span>, k: nat, last: nat)
    requires SpansWellFormed(spans, |text|)
    requires k < |spans| && last <= |text| && last <= spans[k].start
    ensures HighlightFrom(text, spans, k, last)
      == text[last..spans[k].start] + (MATCH_ON + (text[spans[k].start..spans[k].end] + (SGR_RESET + HighlightFrom(text, spans, k + 1, spans[k].end))))
  {
  }

  /**
   * Deleting the markers from a highlighted text gives the text back, when
   * the text itself holds no escape character.
   */
  lemma {:induction false} UnmarkHighlight(text: string, spans: seq<Span>, k: nat, last: nat)
    requires ESC !in text
    requires SpansWellFormed(spans, |text|)
    requires k <= |spans| && last <= |text| && (k < |spans| ==> last <= spans[k].start)
    ensures Unmark(HighlightFrom(text, spans, k, last)) == text[last..]
    decreases |spans| - k
  {
    if k == |spans| {
      SliceAvoids(text, last, |text|, ESC);
      UnmarkPlain(text[last..], []);
      assert text[last..] + [] == text[last..];
    } else {
      var s := spans[k];
      var gap, hit := text[last..s.start], text[s.start..s.end];
      var rest := HighlightFrom(text, spans, k + 1, s.end);
      UnmarkHighlight(text, spans, k + 1, s.end);
      SliceAvoids(text, last, s.start, ESC);
      SliceAvoids(text, s.start, s.end, ESC);
      HighlightStep(text, spans, k, last);
      calc {
        Unmark(HighlightFrom(text, spans, k, last));
        Unmark(gap + (MATCH_ON + (hit + (SGR_RESET + rest))));
        { UnmarkPlain(gap, MATCH_ON + (hit + (SGR_RESET + rest))); }
        gap + Unmark(MATCH_ON + (hit + (SGR_RESET + rest)));
        { UnmarkMarker(MATCH_ON, hit + (SGR_RESET + rest)); }
        gap + Unmark(hit + (SGR_RESET + rest));
        { UnmarkPlain(hit, SGR_RESET + rest); }
        gap + (hit + Unmark(SGR_RESET + rest));
        { UnmarkMarker(SGR_RESET, rest); }
        gap + (hit + text[s.end..]);
        { AdjacentSlices(text, last, s.start, s.end); }
        text[last..];
      }
    }
  }

  /** How often `c` occurs in `s`. */
  function CountOf(s: string, c: char): nat
    decreases |s|
  {
    if s == [] then 0 else (if s[0] == c then 1 else 0) + CountOf(s[1..], c)
  }

  lemma {:induction false} CountOfConcat(a: string, b: string, c: char)
    ensures CountOf(a + b, c) == CountOf(a, c) + CountOf(b, c)
    decreases |a|
  {
    if a == [] {
      assert a + b == b;
    } else {
      assert (a + b)[1..] == a[1..] + b;
      CountOfConcat(a[1..], b, c);
    }
  }

  lemma {:induction false} CountOfAbsent(a: string, c: char)
    requires c !in a
    ensures CountOf(a, c) == 0
    decreases |a|
  {
    if a != [] {
      CountOfAbsent(a[1..], c);
    }
  }

  /** Each marker holds exactly one escape character, at its start. */
  lemma MarkerEscapes(marker: string)
    requires marker == MATCH_ON || marker == SGR_RESET
    ensures CountOf(marker, ESC) == 1
  {
    assert ESC !in marker[1..];
    CountOfAbsent(marker[1..], ESC);
  }

  /**
   * Every match is wrapped by exactly one marker pair: a text without escape
   * characters comes out with two per match, one opening and one reset.
   */
  lemma {:induction false} HighlightMarkerCount(text: string, spans: seq<Span>, k: nat, last: nat)
    requires ESC !in text
    requires SpansWellFormed(spans, |text|)
    requires k <= |spans| && last <= |text| && (k < |spans| ==> last <= spans[k].start)
    ensures CountOf(HighlightFrom(text, spans, k, last), ESC) == 2 * (|spans| - k)
    decreases |spans| - k
  {
    if k == |spans| {
      SliceAvoids(text, last, |text|, ESC);
      CountOfAbsent(text[last..], ESC);
    } else {
      var s := spans[k];
      var gap, hit := text[last..s.start], text[s.start..s.end];
      var rest := HighlightFrom(text, spans, k + 1, s.end);
      HighlightMarkerCount(text, spans, k + 1, s.end);
      SliceAvoids(text, last, s.start, ESC);
      SliceAvoids(text, s.start, s.end, ESC);
      CountOfAbsent(gap, ESC);
      CountOfAbsent(hit, ESC);
      MarkerEscapes(MATCH_ON);
      MarkerEscapes(SGR_RESET);
      HighlightStep(text, spans, k, last);
      CountOfConcat(gap, MATCH_ON + (hit + (SGR_RESET + rest)), ESC);
      CountOfConcat(MATCH_ON, hit + (SGR_RESET + rest), ESC);
      CountOfConcat(hit, SGR_RESET + rest, ESC);
      CountOfConcat(SGR_RESET, rest, ESC);
    }
  }

  /** Highlighting adds eleven characters per match: seven for the opening marker, four for the reset. */
  lemma {:induction false} HighlightLength(text: string, spans: seq<Span>, k: nat, last: nat)
    requires SpansWellFormed(spans, |text|)
    requires k <= |spans| && last <= |text| && (k < |spans| ==> last <= spans[k].start)
    ensures |HighlightFrom(text, spans, k, last)| == |text| - last + 11 * (|spans| - k)
    decreases |spans| - k
  {
    if k < |spans| {
      HighlightLength(text, spans, k + 1, spans[k].end);
    }
  }

  /** `truncate_snippet`: the characters are copied until `max` of them are, and an ellipsis marks a cut. */
  function Truncated(snippet: string, max: nat): string
    decreases max
  {
    if |snippet| <= max then snippet
    else if max == 0 then [ELLIPSIS]
    else [snippet[0]] + Truncated(snippet[1..], max - 1)
  }

  /**
   * A snippet of at most `max` characters is kept whole; a longer one
   * becomes its first `max` characters and an ellipsis, `max + 1` in all.
   */
  lemma {:induction false} TruncatedFacts(snippet: string, max: nat)
    ensures |snippet| <= max ==> Truncated(snippet, max) == snippet
    ensures |snippet| > max ==> Truncated(snippet, max) == snippet[..max] + [ELLIPSIS]
    decreases max
  {
    if |snippet| > max > 0 {
      TruncatedFacts(snippet[1..], max - 1);
      assert snippet[..max] == [snippet[0]] + snippet[1..][..max - 1];
    }
  }

  /** The character loop of `truncate_snippet`, which stops at the limit. */
  method TruncateSnippet(snippet: string, max: nat) returns (out: string)
    ensures out == Truncated(snippet, max)
  {
    TruncatedFacts(snippet, max);
    if |snippet| <= max {
      return snippet;
    }
    out := [];
    var idx := 0;
    while idx < |snippet|
      invariant 0 <= idx <= max && idx <= |snippet|
      invariant out == snippet[..idx]
    {
      if idx >= max {
        break;
      }
      out := out + [snippet[idx]];
      idx := idx + 1;
    }
    out := out + [ELLIPSIS];
  }

  /** One row of the result list: the text shown, the path it stands for, and its line (none for a header row). */
  datatype SearchEntry = SearchEntry(display: string, path: Path, line: Option<nat>)

  /** Highlighting with `hl` is only asked of a regex crate that keeps its span promise. */
  ghost predicate CanHighlight(hl: Option<string>, m: Matchers) {
    hl.Some? ==> WellBehaved(m)
  }

  /**
   * The width of the line-number column: the most digits any occurrence's
   * line number has, and at least four.
   */
  function LineWidth(occs: seq<Occurrence>): (w: nat)
    ensures w >= 4
    ensures forall i :: 0 <= i < |occs| ==> |NatToString(occs[i].line)| <= w
    ensures w == 4 || exists i :: 0 <= i < |occs| && w == |NatToString(occs[i].line)|
    decreases |occs|
  {
    if occs == [] then 4
    else
      var here := |NatToString(occs[0].line)|;
      var rest := LineWidth(occs[1..]);
      assert forall i :: 0 < i < |occs| ==> occs[1..][i - 1] == occs[i];
      if here > rest then here else rest
  }

  /** The header row of a candidate: its icon, a space, and its highlighted path. */
  function HeaderRow(c: Candidate, hl: Option<string>, m: Matchers): SearchEntry
    requires CanHighlight(hl, m)
  {
    SearchEntry([if c.isDir then FOLDER_ICON else FILE_ICON, ' '] + Highlight(Display(c.path), hl, m), c.path, None)
  }

  /** The count column: the number of occurrences in yellow, right-aligned to two, on the first row; two spaces on the others. */
  function CountColumn(count: nat, i: nat): string {
    if i == 0 then COUNT_ON + PadLeft(NatToString(count), 2) + SGR_RESET else [' ', ' ']
  }

  /** The rest of an occurrence row: an arrow, the line number right-aligned to `width`, and the highlighted snippet cut at `limit`. */
  function OccurrenceText(o: Occurrence, width: nat, hl: Option<string>, m: Matchers, limit: nat): string
    requires CanHighlight(hl, m)
  {
    [' ', ' ', ' ', ARROW, ' '] + PadLeft(NatToString(o.line), width) + [' ', ' '] + Truncated(Highlight(o.snippet, hl, m), limit)
  }

  /** The row of the `i`-th occurrence: the count column, then the occurrence itself. */
  function OccurrenceRow(p: Path, occs: seq<Occurrence>, i: nat, width: nat, hl: Option<string>, m: Matchers, limit: nat): SearchEntry
    requires i < |occs| && CanHighlight(hl, m)
  {
    SearchEntry(CountColumn(|occs|, i) + OccurrenceText(occs[i], width, hl, m, limit), p, Some(occs[i].line))
  }

  /** A candidate's rows: none unless it matched by path or has occurrences, else a header and a row per occurrence. */
  function CandidateRows(c: Candidate, occs: seq<Occurrence>, hl: Option<string>, m: Matchers, limit: nat): seq<SearchEntry>
    requires CanHighlight(hl, m)
  {
    if c.pathMatch || |occs| > 0 then
      [HeaderRow(c, hl, m)] + seq(|occs|, i requires 0 <= i < |occs| => OccurrenceRow(c.path, occs, i, LineWidth(occs), hl, m, limit))
    else []
  }

  /** `occurrence_map.get(path).cloned().unwrap_or_default()`. */
  function OccurrencesFor(occMap: map<Path, seq<Occurrence>>, p: Path): seq<Occurrence> {
    if p in occMap then occMap[p] else []
  }

  /** The rows of the first `n` candidates, in candidate order. */
  function AllRows(cands: seq<Candidate>, n: nat, occMap: map<Path, seq<Occurrence>>, hl: Option<string>, m: Matchers, limit: nat): seq<SearchEntry>
    requires n <= |cands| && CanHighlight(hl, m)
    decreases n
  {
    if n == 0 then []
    else AllRows(cands, n - 1, occMap, hl, m, limit) + CandidateRows(cands[n - 1], OccurrencesFor(occMap, cands[n - 1].path), hl, m, limit)
  }

  /** The rows of one candidate, pushed one by one. */
  method CandidateEntries(c: Candidate, occs: seq<Occurrence>, hl: Option<string>, m: Matchers, limit: nat) returns (rows: seq<SearchEntry>)
    requires CanHighlight(hl, m)
    ensures rows == CandidateRows(c, occs, hl, m, limit)
  {
    rows := [];
    if c.pathMatch || |occs| > 0 {
      var header := HeaderEntry(c, hl, m);
      var occRows := OccurrenceEntries(c.path, occs, LineWidth(occs), hl, m, limit);
      rows := [header] + occRows;
    }
  }

  /** The occurrence rows of one candidate, pushed one by one. */
  method OccurrenceEntries(p: Path, occs: seq<Occurrence>, width: nat, hl: Option<string>, m: Matchers, limit: nat) returns (rows: seq<SearchEntry>)
    requires CanHighlight(hl, m)
    ensures rows == seq(|occs|, i requires 0 <= i < |occs| => OccurrenceRow(p, occs, i, width, hl, m, limit))
  {
    rows := [];
    for i := 0 to |occs|
      invariant |rows| == i
      invariant forall j :: 0 <= j < i ==> rows[j] == OccurrenceRow(p, occs, j, width, hl, m, limit)
    {
      var row := OccurrenceEntry(p, occs, i, width, hl, m, limit);
      rows := rows + [row];
    }
  }

  /**
   * The header row of a candidate, built by `CandidateEntries` for each
   * candidate of `BuildRows`' loop.
   * Its result is `HeaderRow`, about which `HeaderShowsPath` is proved.
   */
  method HeaderEntry(c: Candidate, hl: Option<string>, m: Matchers) returns (row: SearchEntry)
    requires CanHighlight(hl, m)
    ensures row == HeaderRow(c, hl, m)
  {
    var icon := if c.isDir then FOLDER_ICON else FILE_ICON;
    var pathDisplay := HighlightQueryMatches(Display(c.path), hl, m);
    row := SearchEntry([icon, ' '] + pathDisplay, c.path, None);
  }

  /**
   * The row of one occurrence, assembled from its highlighted and truncated
   * snippet: the per-occurrence step of `OccurrenceEntries`' loop. Its result
   * is `OccurrenceRow`, about which `CountOnFirstRowOnly` is proved.
   */
  method OccurrenceEntry(p: Path, occs: seq<Occurrence>, i: nat, width: nat, hl: Option<string>, m: Matchers, limit: nat)
    returns (row: SearchEntry)
    requires i < |occs| && CanHighlight(hl, m)
    ensures row == OccurrenceRow(p, occs, i, width, hl, m, limit)
  {
    var snippet := HighlightQueryMatches(occs[i].snippet, hl, m);
    var countPrefix := if i == 0 then COUNT_ON + PadLeft(NatToString(|occs|), 2) + SGR_RESET else [' ', ' '];
    var shown := TruncateSnippet(snippet, limit);
    var display := countPrefix + ([' ', ' ', ' ', ARROW, ' '] + PadLeft(NatToString(occs[i].line), width) + [' ', ' '] + shown);
    row := SearchEntry(display, p, Some(occs[i].line));
  }

  /** The row loop of `build_search_entries`. */
  method BuildRows(cands: seq<Candidate>, occMap: map<Path, seq<Occurrence>>, hl: Option<string>, m: Matchers, limit: nat)
    returns (entries: seq<SearchEntry>)
    requires CanHighlight(hl, m)
    ensures entries == AllRows(cands, |cands|, occMap, hl, m, limit)
  {
    entries := [];
    for k := 0 to |cands|
      invariant entries == AllRows(cands, k, occMap, hl, m, limit)
    {
      var rows := CandidateEntries(cands[k], OccurrencesFor(occMap, cands[k].path), hl, m, limit);
      entries := entries + rows;
    }
  }

  /** The regex rows are highlighted with: none for a blank query, nor for one that does not compile. */
  function HighlightRegex(query: string, m: Matchers): Option<string> {
    if Trim(query) == [] then None else if m.validRegex(query) then Some(query) else None
  }

  /** `cands` is what `build_candidates` may return: the merged candidates, each once, ranked. */
  ghost predicate RankedCandidates(query: string, w: World, cands: seq<Candidate>) {
    Search(query, w).Ok? && Prepare(query, w).Ok?
    && |cands| == |Search(query, w).value| && UniquePaths(cands)
    && (forall c :: c in cands <==> c in Search(query, w).value.Values)
    && Sorted(Prepare(query, w).value.settings.sortMode, cands)
  }

  /**
   * `occMap` is the occurrence map of the rows: empty for a blank query, else
   * the records of `rg -n --column` grouped by path and sorted.
   */
  ghost predicate GroupedOccurrences(query: string, w: World, occMap: map<Path, seq<Occurrence>>) {
    if Trim(query) == [] then occMap == map[]
    else
      w.rgMatches.Some?
      && (forall p :: p in occMap <==> OccurrencesOf(RgMatches(Lines(w.rgMatches.value)), p) != [])
      && (forall p :: p in occMap ==>
            PosSorted(occMap[p]) && multiset(occMap[p]) == multiset(OccurrencesOf(RgMatches(Lines(w.rgMatches.value)), p)))
  }

  /**
   * `build_search_entries`: the ranked candidates, the occurrences of a
   * non-blank query, and the rows laid out from them. It fails when loading
   * the settings or building the candidates fails, or when `rg` cannot be
   * started for a non-blank query.
   */
  method BuildSearchEntries(query: string, w: World) returns (r: Result<seq<SearchEntry>, SearchError>)
    requires WellBehaved(w.matchers)
    ensures r.Err? <==> Search(query, w).Err? || (Trim(query) != [] && w.rgMatches.None?)
    ensures r.Err? ==> r.error == if Search(query, w).Err? then Search(query, w).error else RgFailed
    ensures r.Ok? ==>
      exists cands :: RankedCandidates(query, w, cands) &&
        exists occMap :: GroupedOccurrences(query, w, occMap) &&
          r.value == AllRows(cands, |cands|, occMap, HighlightRegex(query, w.matchers), w.matchers, SNIPPET_LIMIT)
  {
    var settings := LoadSettings(w.config, w.matchers.validGlob);
    if settings.Err? {
      return Err(ConfigFailed(settings.error));
    }
    var built := BuildCandidates(query, w);
    if built.Err? {
      return Err(built.error);
    }
    var hl: Option<string> := None;
    if Trim(query) != [] && w.matchers.validRegex(query) {
      hl := Some(query);
    }
    var occMap: map<Path, seq<Occurrence>> := map[];
    if Trim(query) != [] {
      if w.rgMatches.None? {
        return Err(RgFailed);
      }
      occMap := CollectOccurrences(w.rgMatches.value);
    }
    assert RankedCandidates(query, w, built.value);
    assert GroupedOccurrences(query, w, occMap);
    var entries := BuildRows(built.value, occMap, hl, w.matchers, SNIPPET_LIMIT);
    return Ok(entries);
  }

  /**
   * A candidate shows rows exactly when it matched by path or has
   * occurrences: then one header row without a line, then one row per
   * occurrence, in order, with that occurrence's line, all for its path.
   */
  lemma CandidateRowsShape(c: Candidate, occs: seq<Occurrence>, hl: Option<string>, m: Matchers, limit: nat)
    requires CanHighlight(hl, m)
    ensures var rows := CandidateRows(c, occs, hl, m, limit);
      (rows == [] <==> !c.pathMatch && occs == [])
      && (rows != [] ==>
            |rows| == 1 + |occs| && rows[0].path == c.path && rows[0].line.None?
            && forall i :: 0 <= i < |occs| ==> rows[i + 1].path == c.path && rows[i + 1].line == Some(occs[i].line))
  {
    if c.pathMatch || |occs| > 0 {
      var rows := CandidateRows(c, occs, hl, m, limit);
      var width := LineWidth(occs);
      var tail := seq(|occs|, i requires 0 <= i < |occs| => OccurrenceRow(c.path, occs, i, width, hl, m, limit));
      assert rows == [HeaderRow(c, hl, m)] + tail;
      forall i | 0 <= i < |occs|
        ensures rows[i + 1].path == c.path && rows[i + 1].line == Some(occs[i].line)
      {
        assert rows[i + 1] == tail[i] == OccurrenceRow(c.path, occs, i, width, hl, m, limit);
      }
    }
  }

  /**
   * Only the first occurrence row opens with the yellow occurrence count;
   * the others open with two spaces.
   */
  lemma CountOnFirstRowOnly(p: Path, occs: seq<Occurrence>, i: nat, width: nat, hl: Option<string>, m: Matchers, limit: nat)
    requires i < |occs| && CanHighlight(hl, m)
    ensures var d := OccurrenceRow(p, occs, i, width, hl, m, limit).display;
      CountColumn(|occs|, i) <= d && (d[0] == ESC <==> i == 0)
  {
    var count := CountColumn(|occs|, i);
    var d := OccurrenceRow(p, occs, i, width, hl, m, limit).display;
    assert d[..|count|] == count;
  }

  /**
   * A header row shows the folder icon for a directory and the file icon
   * otherwise, then a space, then the path, which deleting the markers
   * gives back (for a path without escape characters).
   */
  lemma HeaderShowsPath(c: Candidate, hl: Option<string>, m: Matchers)
    requires CanHighlight(hl, m) && ESC !in Display(c.path)
    ensures var d := HeaderRow(c, hl, m).display;
      |d| >= 2 && d[0] == (if c.isDir then FOLDER_ICON else FILE_ICON) && d[1] == ' '
      && Unmark(d[2..]) == Display(c.path)
  {
    var text := Display(c.path);
    var d := HeaderRow(c, hl, m).display;
    assert d[2..] == Highlight(text, hl, m);
    if hl.None? {
      UnmarkPlain(text, []);
      assert text + [] == text;
    } else {
      UnmarkHighlight(text, m.findIter(hl.value, text), 0, 0);
    }
  }

  /**
   * Snippets are cut after highlighting, so the markers count towards the
   * limit: a snippet that fits, but whose matches push the highlighted text
   * over the limit, is still cut and gets the ellipsis.
   */
  lemma MarkersCountTowardsLimit(snippet: string, hl: Option<string>, m: Matchers, limit: nat)
    requires hl.Some? && CanHighlight(hl, m)
    requires |snippet| <= limit < |snippet| + 11 * |m.findIter(hl.value, snippet)|
    ensures var shown := Truncated(Highlight(snippet, hl, m), limit);
      |shown| == limit + 1 && shown[limit] == ELLIPSIS
  {
    HighlightLength(snippet, m.findIter(hl.value, snippet), 0, 0);
    TruncatedFacts(Highlight(snippet, hl, m), limit);
  }

  /** Some of the first `n` candidates has path `p`. */
  predicate AmongCandidates(cands: seq<Candidate>, n: nat, p: Path) {
    exists i :: 0 <= i < n && i < |cands| && cands[i].path == p
  }

  /** Every row stands for one of the candidates it was laid out from. */
  lemma {:induction false} RowsFromCandidates(cands: seq<Candidate>, n: nat, occMap: map<Path, seq<Occurrence>>, hl: Option<string>, m: Matchers, limit: nat)
    requires n <= |cands| && CanHighlight(hl, m)
    ensures forall e :: e in AllRows(cands, n, occMap, hl, m, limit) ==> AmongCandidates(cands, n, e.path)
    decreases n
  {
    if n > 0 {
      RowsFromCandidates(cands, n - 1, occMap, hl, m, limit);
      var c := cands[n - 1];
      var before: seq<SearchEntry> := AllRows(cands, n - 1, occMap, hl, m, limit);
      var rows: seq<SearchEntry> := CandidateRows(c, OccurrencesFor(occMap, c.path), hl, m, limit);
      CandidateRowsPaths(c, OccurrencesFor(occMap, c.path), hl, m, limit);
      forall e | e in before + rows
        ensures AmongCandidates(cands, n, e.path)
      {
        if e in before {
          assert AmongCandidates(cands, n - 1, e.path);
        } else {
          assert cands[n - 1].path == e.path;
        }
      }
    }
  }

  /** Every row of a candidate carries the candidate's path. */
  lemma CandidateRowsPaths(c: Candidate, occs: seq<Occurrence>, hl: Option<string>, m: Matchers, limit: nat)
    requires CanHighlight(hl, m)
    ensures forall e :: e in CandidateRows(c, occs, hl, m, limit) ==> e.path == c.path
  {
    var rows := CandidateRows(c, occs, hl, m, limit);
    forall e | e in rows
      ensures e.path == c.path
    {
      var t :| 0 <= t < |rows| && rows[t] == e;
      if t > 0 {
        assert rows[(t - 1) + 1].path == c.path;
      }
    }
  }

  /** A candidate that matched by path, or has occurrences, has its header row among the rows. */
  lemma {:induction false} ShownCandidateHasHeader(cands: seq<Candidate>, n: nat, occMap: map<Path, seq<Occurrence>>, hl: Option<string>, m: Matchers, limit: nat, i: nat)
    requires i < n <= |cands| && CanHighlight(hl, m)
    requires cands[i].pathMatch || OccurrencesFor(occMap, cands[i].path) != []
    ensures HeaderRow(cands[i], hl, m) in AllRows(cands, n, occMap, hl, m, limit)
    decreases n
  {
    var before := AllRows(cands, n - 1, occMap, hl, m, limit);
    var rows := CandidateRows(cands[n - 1], OccurrencesFor(occMap, cands[n - 1].path), hl, m, limit);
    if i < n - 1 {
      ShownCandidateHasHeader(cands, n - 1, occMap, hl, m, limit, i);
      assert HeaderRow(cands[i], hl, m) in before + rows;
    } else {
      assert rows[0] == HeaderRow(cands[i], hl, m);
      assert (before + rows)[|before|] == rows[0];
    }
  }

  /** The line column of a row: the number, or nothing for a header row. */
  function LineField(line: Option<nat>): (r: string)
    ensures line.None? <==> r == []
    ensures line.Some? ==> AllDigits(r) && DigitsValue(r) == line.value
  {
    match line
    case None => []
    case Some(v) => NatToString(v)
  }

  /**
   * A row as `format_search_entries` writes it, without its line break: the
   * display with tabs widened to four spaces, a tab, the path, a tab, and
   * the line number.
   */
  function RowText(e: SearchEntry): string {
    Join([ReplaceChar(e.display, '\t', [' ', ' ', ' ', ' ']), Display(e.path), LineField(e.line)], '\t')
  }

  /** A row's fields, written out with the tabs between them. */
  lemma RowTextFields(e: SearchEntry)
    ensures RowText(e)
      == ReplaceChar(e.display, '\t', [' ', ' ', ' ', ' ']) + ['\t'] + Display(e.path) + ['\t'] + LineField(e.line)
  {
    JoinThree(ReplaceChar(e.display, '\t', [' ', ' ', ' ', ' ']), Display(e.path), LineField(e.line), '\t');
  }

  /** The rows' texts, in order. */
  function RowTexts(entries: seq<SearchEntry>): (r: seq<string>)
    ensures |r| == |entries| && forall i :: 0 <= i < |entries| ==> r[i] == RowText(entries[i])
  {
    seq(|entries|, i requires 0 <= i < |entries| => RowText(entries[i]))
  }

  /** The text of the first `n` rows, each ended by a line break. */
  function Formatted(entries: seq<SearchEntry>, n: nat): string
    requires n <= |entries|
    decreases n
  {
    if n == 0 then [] else Formatted(entries, n - 1) + (RowText(entries[n - 1]) + ['\n'])
  }

  /** `format_search_entries`: the rows appended one after another. */
  method FormatSearchEntries(entries: seq<SearchEntry>) returns (out: string)
    ensures out == Formatted(entries, |entries|)
  {
    out := [];
    for k := 0 to |entries|
      invariant out == Formatted(entries, k)
    {
      out := AppendRow(out, entries[k]);
    }
  }

  /** One turn of the loop: the display, a tab, the path, a tab, the line number and a line break. */
  method AppendRow(out0: string, e: SearchEntry) returns (out: string)
    ensures out == out0 + (RowText(e) + ['\n'])
  {
    RowTextFields(e);
    var line := LineField(e.line);
    var display := ReplaceChar(e.display, '\t', [' ', ' ', ' ', ' ']);
    var path := Display(e.path);
    out := out0 + display;
    out := out + ['\t'];
    out := out + path;
    out := out + ['\t'];
    out := out + line;
    out := out + ['\n'];
    PushedFields(out0, display, path, line);
  }

  /** Pushing the fields one by one appends the whole row at once. */
  lemma PushedFields(out0: string, a: string, b: string, c: string)
    ensures out0 + a + ['\t'] + b + ['\t'] + c + ['\n'] == out0 + (a + ['\t'] + b + ['\t'] + c + ['\n'])
  {
  }

  /** A row holds no line break and does not end in `\r`, so it reads back as exactly one line. */
  lemma RowTextIsLine(e: SearchEntry)
    requires '\n' !in e.display && '\n' !in Display(e.path)
    ensures IsLine(RowText(e))
  {
    var display := ReplaceChar(e.display, '\t', [' ', ' ', ' ', ' ']);
    var line := LineField(e.line);
    ReplaceCharKeeps(e.display, '\t', [' ', ' ', ' ', ' '], '\n');
    assert forall k :: 0 <= k < |line| ==> IsDigit(line[k]);
    var r := display + ['\t'] + Display(e.path) + ['\t'] + line;
    RowTextFields(e);
    if line == [] {
      assert r[|r| - 1] == '\t';
    } else {
      assert r[|r| - 1] == line[|line| - 1];
      assert IsDigit(line[|line| - 1]);
    }
  }

  /**
   * Reading the formatted text back line by line, as the picker does, gives
   * the rows one per line, provided no display or path holds a line break.
   */
  lemma FormattedLines(entries: seq<SearchEntry>)
    requires forall i :: 0 <= i < |entries| ==> '\n' !in entries[i].display && '\n' !in Display(entries[i].path)
    ensures Lines(Formatted(entries, |entries|)) == RowTexts(entries)
  {
    FormattedPrefixLines(entries, |entries|);
    WholePrefix(RowTexts(entries));
  }

  /** The first `n` rows read back as the first `n` row texts. */
  lemma {:induction false} FormattedPrefixLines(entries: seq<SearchEntry>, n: nat)
    requires n <= |entries|
    requires forall i :: 0 <= i < |entries| ==> '\n' !in entries[i].display && '\n' !in Display(entries[i].path)
    ensures Lines(Formatted(entries, n)) == RowTexts(entries)[..n]
    decreases n
  {
    if n > 0 {
      FormattedPrefixLines(entries, n - 1);
      FormattedEndsLine(entries, n - 1);
      RowTextIsLine(entries[n - 1]);
      LinesSnoc(Formatted(entries, n - 1), RowText(entries[n - 1]));
      PrefixSnoc(RowTexts(entries), n);
    }
  }

  /** Formatted text is empty or ends with a line break. */
  lemma FormattedEndsLine(entries: seq<SearchEntry>, n: nat)
    requires n <= |entries|
    ensures var s := Formatted(entries, n); s == [] || s[|s| - 1] == '\n'
  {
  }
}

/**
 * The parsing half of `collect_occurrences`: the output of
 * `rg -n --column --no-heading` is read line by line into per-path lists of
 * occurrences, each list then sorted by line and column.
 */
module Occurrences {
  import opened Wrappers
  import opened Text
  import opened Paths

  /** One match `rg` reported: its 1-based line and column, and the trimmed line text. */
  datatype Occurrence = Occurrence(line: nat, column: nat, snippet: string)

  /**
   * One `path:line:column:snippet` record. The record is dropped when it has
   * fewer than three fields or a line or column that is not a `usize`; the
   * snippet is the unsplit rest (empty if absent) with tabs turned into
   * spaces and then trimmed; the path loses its leading `./` prefixes.
   */
  function ParseRgLine(raw: string): Option<(Path, Occurrence)> {
    var parts := SplitN(raw, ':', 4);
    if |parts| < 3 then None
    else
      match (ParseUsize(parts[1]), ParseUsize(parts[2]))
      case (Some(line), Some(column)) =>
        var snippet := if |parts| == 4 then parts[3] else [];
        Some((ParsePath(TrimDotSlash(parts[0])), Occurrence(line, column, Trim(ReplaceChar(snippet, '\t', [' '])))))
      case _ => None
  }

  /** What one output line contributes: blank lines are filtered out before parsing. */
  function RgMatch(line: string): Option<(Path, Occurrence)> {
    if Trim(line) == [] then None else ParseRgLine(line)
  }

  /** What each output line contributes, in output order. */
  function RgMatches(lines: seq<string>): (r: seq<Option<(Path, Occurrence)>>)
    ensures |r| == |lines|
  {
    seq(|lines|, k requires 0 <= k < |lines| => RgMatch(lines[k]))
  }

  /** The occurrences reported for `p`, in output order. */
  function OccurrencesOf(hits: seq<Option<(Path, Occurrence)>>, p: Path): seq<Occurrence>
    decreases |hits|
  {
    if hits == [] then []
    else
      var last := hits[|hits| - 1];
      OccurrencesOf(hits[..|hits| - 1], p) + if last.Some? && last.value.0 == p then [last.value.1] else []
  }

  /** `map.entry(path).or_default().push(occurrence)` for one parsed record. */
  function AddOccurrence(m: map<Path, seq<Occurrence>>, hit: Option<(Path, Occurrence)>): map<Path, seq<Occurrence>> {
    match hit
    case None => m
    case Some((p, o)) => m[p := (if p in m then m[p] else []) + [o]]
  }

  /** The map after the parsed records, applied in order. */
  function GroupFold(hits: seq<Option<(Path, Occurrence)>>): map<Path, seq<Occurrence>>
    decreases |hits|
  {
    if hits == [] then map[] else AddOccurrence(GroupFold(hits[..|hits| - 1]), hits[|hits| - 1])
  }

  /** The grouped map holds, for each path with a record, exactly its occurrences in output order. */
  lemma {:induction false} GroupFoldFacts(hits: seq<Option<(Path, Occurrence)>>)
    ensures forall p :: p in GroupFold(hits) <==> OccurrencesOf(hits, p) != []
    ensures forall p :: p in GroupFold(hits) ==> GroupFold(hits)[p] == OccurrencesOf(hits, p)
    decreases |hits|
  {
    if hits != [] {
      GroupFoldFacts(hits[..|hits| - 1]);
    }
  }

  /** `(line, column)` ordering of occurrences. */
  predicate PosLe(a: Occurrence, b: Occurrence) {
    a.line < b.line || (a.line == b.line && a.column <= b.column)
  }

  predicate PosSorted(s: seq<Occurrence>) {
    forall i, j :: 0 <= i < j < |s| ==> PosLe(s[i], s[j])
  }

  /**
   * The fields of one record, in the order the source takes them from
   * `splitn(4, ':')`, each missing or malformed field skipping the record.
   * It is the per-line step of `GroupRecords`' loop, run by `AddLine`; its result is
   * `ParseRgLine`, about which `ParseRecord` is proved.
   */
  method ParseOccurrenceLine(raw: string) returns (r: Option<(Path, Occurrence)>)
    ensures r == ParseRgLine(raw)
  {
    var parts := SplitN(raw, ':', 4);
    if |parts| < 3 {
      return None;
    }
    var rawPath, rawLine, rawColumn := parts[0], parts[1], parts[2];
    var rawSnippet := if |parts| == 4 then parts[3] else [];
    var path := ParsePath(TrimDotSlash(rawPath));
    var line := ParseUsize(rawLine);
    if line.None? {
      return None;
    }
    var column := ParseUsize(rawColumn);
    if column.None? {
      return None;
    }
    return Some((path, Occurrence(line.value, column.value, Trim(ReplaceChar(rawSnippet, '\t', [' '])))));
  }

  /** One turn of the record loop: a non-blank line that parses is appended to its path's list. */
  method AddLine(m0: map<Path, seq<Occurrence>>, line: string) returns (m: map<Path, seq<Occurrence>>)
    ensures m == AddOccurrence(m0, RgMatch(line))
  {
    m := m0;
    if Trim(line) == [] {
      return;
    }
    var hit := ParseOccurrenceLine(line);
    if hit.Some? {
      var (p, o) := hit.value;
      var list := if p in m then m[p] else [];
      m := m[p := list + [o]];
    }
  }

  /** Folding one more output line is adding its record. */
  lemma GroupStep(lines: seq<string>, k: nat)
    requires k < |lines|
    ensures GroupFold(RgMatches(lines[..k + 1])) == AddOccurrence(GroupFold(RgMatches(lines[..k])), RgMatch(lines[k]))
  {
    assert RgMatches(lines[..k + 1])[..k] == RgMatches(lines[..k]);
  }

  /** The record loop: groups the parsed records by path, in output order. */
  method GroupRecords(lines: seq<string>) returns (m: map<Path, seq<Occurrence>>)
    ensures m == GroupFold(RgMatches(lines))
  {
    m := map[];
    var k := 0;
    while k < |lines|
      invariant 0 <= k <= |lines|
      invariant m == GroupFold(RgMatches(lines[..k]))
    {
      GroupStep(lines, k);
      m := AddLine(m, lines[k]);
      k := k + 1;
    }
    assert lines[..k] == lines;
  }

  /** `occurrences.sort_by_key(|o| (o.line, o.column))`, in place (insertion sort here). */
  method SortOccurrences(a: array<Occurrence>)
    modifies a
    ensures PosSorted(a[..])
    ensures multiset(a[..]) == multiset(old(a[..]))
  {
    var i := 0;
    while i < a.Length
      invariant 0 <= i <= a.Length
      invariant PosSorted(a[..i])
      invariant multiset(a[..]) == multiset(old(a[..]))
    {
      InsertOccurrence(a, i);
      i := i + 1;
    }
    assert a[..i] == a[..];
  }

  /** Moves `a[i]` down into the sorted prefix `a[..i]`, past every occurrence that comes after it. */
  method InsertOccurrence(a: array<Occurrence>, i: nat)
    requires i < a.Length && PosSorted(a[..i])
    modifies a
    ensures PosSorted(a[..i + 1])
    ensures multiset(a[..]) == multiset(old(a[..]))
  {
    var j := i;
    while j > 0 && !PosLe(a[j - 1], a[j])
      invariant 0 <= j <= i
      invariant forall x, y :: 0 <= x < y <= i && x != j && y != j ==> PosLe(a[x], a[y])
      invariant forall y :: j < y <= i ==> PosLe(a[j], a[y])
      invariant multiset(a[..]) == multiset(old(a[..]))
    {
      a[j - 1], a[j] := a[j], a[j - 1];
      j := j - 1;
    }
  }

  /** `for occurrences in map.values_mut() { occurrences.sort_by_key(..) }`. */
  method SortEach(m0: map<Path, seq<Occurrence>>) returns (m: map<Path, seq<Occurrence>>)
    ensures m.Keys == m0.Keys
    ensures forall p :: p in m ==> PosSorted(m[p]) && multiset(m[p]) == multiset(m0[p])
  {
    m := m0;
    var todo := m0.Keys;
    while todo != {}
      invariant todo <= m0.Keys && m.Keys == m0.Keys
      invariant forall p :: p in todo ==> m[p] == m0[p]
      invariant forall p :: p in m && p !in todo ==> PosSorted(m[p]) && multiset(m[p]) == multiset(m0[p])
      decreases |todo|
    {
      var p :| p in todo;
      var a := new Occurrence[|m[p]|](i requires 0 <= i < |m[p]| => m[p][i]);
      assert a[..] == m[p];
      SortOccurrences(a);
      m := m[p := a[..]];
      todo := todo - {p};
    }
  }

  /**
   * `collect_occurrences` once `rg` has run: the standard output's records
   * grouped by path, each path's list a sorted permutation of its records.
   * Skipped records never make the call fail.
   */
  method CollectOccurrences(stdout: string) returns (m: map<Path, seq<Occurrence>>)
    ensures forall p :: p in m <==> OccurrencesOf(RgMatches(Lines(stdout)), p) != []
    ensures forall p :: p in m ==>
      PosSorted(m[p]) && multiset(m[p]) == multiset(OccurrencesOf(RgMatches(Lines(stdout)), p))
  {
    var grouped := GroupRecords(Lines(stdout));
    GroupFoldFacts(RgMatches(Lines(stdout)));
    m := SortEach(grouped);
  }

  /** A record is only kept when its line has at least two `:`. */
  lemma ParsedHasTwoColons(raw: string)
    requires ParseRgLine(raw).Some?
    ensures exists i, j :: 0 <= i < j < |raw| && raw[i] == ':' && raw[j] == ':'
  {
    var parts := SplitN(raw, ':', 4);
    assert Join(parts, ':') == parts[0] + [':'] + (parts[1] + [':'] + Join(parts[2..], ':'));
    var i := |parts[0]|;
    var j := i + 1 + |parts[1]|;
    assert raw[i] == ':' && raw[j] == ':';
  }

  /** The snippet of a kept record holds no tab. */
  lemma SnippetHasNoTab(raw: string)
    requires ParseRgLine(raw).Some?
    ensures '\t' !in ParseRgLine(raw).value.1.snippet
  {
    var parts := SplitN(raw, ':', 4);
    var snippet := if |parts| == 4 then parts[3] else [];
    TrimAvoids(ReplaceChar(snippet, '\t', [' ']), '\t');
  }

  /** The text `rg` prints for one occurrence of a file below the root. */
  function RgRecord(p: Path, o: Occurrence): string {
    Display(p) + [':'] + NatToString(o.line) + [':'] + NatToString(o.column) + [':'] + o.snippet
  }

  /**
   * Reading back a record gives its path and occurrence, whenever the path's
   * components hold no `:`, the numbers fit a `usize` and the snippet is
   * already trimmed and free of tabs.
   */
  lemma ParseRecord(p: Path, o: Occurrence)
    requires WellFormed(p) && p != [] && forall k :: 0 <= k < |p| ==> ':' !in p[k]
    requires o.line <= USIZE_MAX && o.column <= USIZE_MAX
    requires '\t' !in o.snippet && (o.snippet != [] ==> !IsWhitespace(o.snippet[0]) && !IsWhitespace(o.snippet[|o.snippet| - 1]))
    ensures ParseRgLine(RgRecord(p, o)) == Some((p, o))
  {
    RecordFields(p, o);
    ParsePrinted(o.line);
    ParsePrinted(o.column);
    TrimUnpadded(o.snippet);
    DisplayHasNoDotSlash(p);
    ParseDisplay(p);
  }

  /** The four fields of a record are the path, the two numbers and the snippet. */
  lemma RecordFields(p: Path, o: Occurrence)
    requires forall k :: 0 <= k < |p| ==> ':' !in p[k]
    ensures SplitN(RgRecord(p, o), ':', 4) == [Display(p), NatToString(o.line), NatToString(o.column), o.snippet]
  {
    var d := Display(p);
    var l := NatToString(o.line);
    var c := NatToString(o.column);
    JoinAvoids(p, '/', ':');
    DigitsAvoid(l, ':');
    DigitsAvoid(c, ':');
    RegroupFields(d, l, c, o.snippet, ':');
    SplitNCons(d, ':', l + [':'] + (c + [':'] + o.snippet), 4);
    SplitNCons(l, ':', c + [':'] + o.snippet, 3);
    SplitNCons(c, ':', o.snippet, 2);
  }

  /** A displayed path never starts with `./`, as no component is `.`. */
  lemma DisplayHasNoDotSlash(p: Path)
    requires WellFormed(p) && p != []
    ensures TrimDotSlash(Display(p)) == Display(p)
  {
    var d := Display(p);
    if |p| > 1 {
      assert d == p[0] + ['/'] + Join(p[1..], '/');
    }
    assert d[..|p[0]|] == p[0];
  }
}

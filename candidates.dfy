/**
 * `build_candidates`: the paths below the search root that match the query,
 * by name (from a pruned directory walk) or by content (from `rg -l`), merged
 * into one map keyed by relative path and then ranked.
 */
module Candidates {
  import opened Wrappers
  import opened Text
  import opened Paths
  import opened Settings
  import opened Environment
  import opened Ranking

  datatype SearchError =
    | ConfigFailed(error: ConfigError)
    | RootStatFailed
    | InvalidRegex(query: string)
    | RgFailed

  /** What the filters of one search depend on, once settings are loaded. */
  datatype Ctx = Ctx(
    query: string,
    settings: Settings,
    rootDev: Option<int>,
    stat: Path -> Option<Meta>,
    matchers: Matchers)

  /**
   * The set-up `build_candidates` does before walking: load the settings, stat
   * the root unless mounts are included, and compile a non-empty query.
   */
  function Prepare(query: string, w: World): Result<Ctx, SearchError> {
    match LoadSpec(w.config, w.matchers.validGlob)
    case Err(e) => Err(ConfigFailed(e))
    case Ok(st) =>
      if !st.includeMounts && w.rootDev.None? then Err(RootStatFailed)
      else if query != [] && !w.matchers.validRegex(query) then Err(InvalidRegex(query))
      else Ok(Ctx(query, st, if st.includeMounts then None else w.rootDev, w.stat, w.matchers))
  }

  /** Hidden (when hidden paths are excluded) or matched by an ignore glob. */
  predicate Excluded(ctx: Ctx, p: Path) {
    (!ctx.settings.includeHidden && IsHidden(p)) || Ignored(ctx.settings.globs, ctx.matchers, p)
  }

  /** On another device than the root, when mounts are excluded and the device is known. */
  predicate OtherDevice(ctx: Ctx, dev: Option<int>) {
    ctx.rootDev.Some? && dev.Some? && dev.value != ctx.rootDev.value
  }

  /** The `filter_entry` closure: whether the walk keeps an entry (and, for a directory, descends). */
  predicate Admitted(ctx: Ctx, e: WalkEntry) {
    e.rel == []
    || (!(!ctx.settings.includeSymlinks && e.isSymlink)
        && !Excluded(ctx, e.rel)
        && !(e.isDir && OtherDevice(ctx, e.dev)))
  }

  /** `x` names a directory strictly above `y`. */
  predicate Above(x: Path, y: Path) {
    |x| < |y| && x == y[..|x|]
  }

  /** The walk yields an entry when it and every entry above it are admitted. */
  predicate Yielded(ctx: Ctx, entries: seq<WalkEntry>, j: nat)
    requires j < |entries|
  {
    Admitted(ctx, entries[j])
    && forall a :: 0 <= a < |entries| && Above(entries[a].rel, entries[j].rel) ==> Admitted(ctx, entries[a])
  }

  /** The query matches a path when it is empty, or matches the full relative path or its file name. */
  predicate PathMatches(ctx: Ctx, p: Path) {
    ctx.query == [] || ctx.matchers.isMatch(ctx.query, Display(p)) || ctx.matchers.isMatch(ctx.query, FileName(p))
  }

  /** What entry `i` of the walk contributes: a fresh path-match candidate, if the walk yields it and the query matches. */
  function WalkHit(ctx: Ctx, entries: seq<WalkEntry>, i: nat): (r: Option<Candidate>)
    requires i < |entries|
    ensures r.Some? ==> r.value.path == entries[i].rel && r.value.pathMatch && !r.value.contentMatch
  {
    var e := entries[i];
    if e.rel != [] && Yielded(ctx, entries, i) && PathMatches(ctx, e.rel) then Some(Candidate(e.rel, e.isDir, true, false))
    else None
  }

  /** What each entry of the walk contributes, in walk order. */
  function WalkHits(ctx: Ctx, entries: seq<WalkEntry>): (r: seq<Option<Candidate>>)
    ensures |r| == |entries|
  {
    seq(|entries|, i requires 0 <= i < |entries| => WalkHit(ctx, entries, i))
  }

  /** The path an `rg -l` output line contributes, if it survives the filters. */
  function RgPath(ctx: Ctx, line: string): Option<Path> {
    if Trim(line) == [] then None
    else
      var rel := ParsePath(TrimDotSlash(line));
      if Excluded(ctx, rel) then None
      else if ctx.stat(rel).Some? && OtherDevice(ctx, Some(ctx.stat(rel).value.dev)) then None
      else Some(rel)
  }

  /** What each output line of `rg -l` contributes, in output order. */
  function RgHits(ctx: Ctx, lines: seq<string>): (r: seq<Option<Path>>)
    ensures |r| == |lines|
  {
    seq(|lines|, k requires 0 <= k < |lines| => RgPath(ctx, lines[k]))
  }

  /** `full.is_dir()`: false when the path cannot be stat'ed. */
  predicate StatIsDir(ctx: Ctx, p: Path) {
    ctx.stat(p).Some? && ctx.stat(p).value.isDir
  }

  /** Every entry of the map is filed under its own path. */
  predicate KeyedByPath(m: map<Path, Candidate>) {
    forall p :: p in m ==> m[p].path == p
  }

  /** `entry().and_modify(path_match = true).or_insert(candidate)` for one walk hit. */
  function MarkPathMatch(m: map<Path, Candidate>, hit: Option<Candidate>): map<Path, Candidate> {
    match hit
    case None => m
    case Some(c) => if c.path in m then m[c.path := m[c.path].(pathMatch := true)] else m[c.path := c]
  }

  /** The map after the walk hits, applied in order. */
  function WalkFold(m: map<Path, Candidate>, hits: seq<Option<Candidate>>): map<Path, Candidate>
    decreases |hits|
  {
    if hits == [] then m else MarkPathMatch(WalkFold(m, hits[..|hits| - 1]), hits[|hits| - 1])
  }

  /** `entry().and_modify(content_match = true).or_insert(candidate)` for one `rg` hit. */
  function MarkContentMatch(ctx: Ctx, m: map<Path, Candidate>, hit: Option<Path>): map<Path, Candidate> {
    match hit
    case None => m
    case Some(p) => if p in m then m[p := m[p].(contentMatch := true)] else m[p := Candidate(p, StatIsDir(ctx, p), false, true)]
  }

  /** The map after the `rg` hits, applied in order. */
  function ContentFold(ctx: Ctx, m: map<Path, Candidate>, hits: seq<Option<Path>>): map<Path, Candidate>
    decreases |hits|
  {
    if hits == [] then m else MarkContentMatch(ctx, ContentFold(ctx, m, hits[..|hits| - 1]), hits[|hits| - 1])
  }

  /** Hit `i` is a candidate for path `p`. */
  predicate HitAt(hits: seq<Option<Candidate>>, i: int, p: Path) {
    0 <= i < |hits| && hits[i].Some? && hits[i].value.path == p
  }

  /**
   * After the walk hits, the map holds exactly the hit paths, and each path
   * keeps the candidate of its first hit.
   */
  lemma {:induction false} WalkFoldFacts(hits: seq<Option<Candidate>>)
    requires forall i :: 0 <= i < |hits| && hits[i].Some? ==> hits[i].value.pathMatch
    ensures KeyedByPath(WalkFold(map[], hits))
    ensures forall p :: p in WalkFold(map[], hits) <==> exists i :: HitAt(hits, i, p)
    ensures forall p :: p in WalkFold(map[], hits) ==>
      exists i :: HitAt(hits, i, p) && WalkFold(map[], hits)[p] == hits[i].value && forall j :: 0 <= j < i ==> !HitAt(hits, j, p)
    decreases |hits|
  {
    if hits != [] {
      var n := |hits| - 1;
      var init := hits[..n];
      WalkFoldFacts(init);
      var m := WalkFold(map[], init);
      assert forall i, p :: 0 <= i < n ==> (HitAt(init, i, p) <==> HitAt(hits, i, p));
      assert WalkFold(map[], hits) == MarkPathMatch(m, hits[n]);
      forall p | p in WalkFold(map[], hits)
        ensures exists i :: HitAt(hits, i, p) && WalkFold(map[], hits)[p] == hits[i].value && forall j :: 0 <= j < i ==> !HitAt(hits, j, p)
      {
        if p in m {
          var i :| HitAt(init, i, p) && m[p] == init[i].value && forall j :: 0 <= j < i ==> !HitAt(init, j, p);
          assert HitAt(hits, i, p);
        } else {
          assert HitAt(hits, n, p);
        }
      }
    }
  }

  /**
   * After the `rg` hits, the map holds the walk's paths and the hit paths;
   * a walk candidate is marked as a content match when it was hit, and a
   * path only `rg` found is a content match only, with `is_dir` from the
   * file system.
   */
  lemma {:induction false} ContentFoldFacts(ctx: Ctx, m0: map<Path, Candidate>, hits: seq<Option<Path>>)
    ensures forall p :: p in ContentFold(ctx, m0, hits) <==> p in m0 || Some(p) in hits
    ensures forall p :: p in ContentFold(ctx, m0, hits) ==>
      ContentFold(ctx, m0, hits)[p] ==
        if p in m0 then m0[p].(contentMatch := m0[p].contentMatch || Some(p) in hits)
        else Candidate(p, StatIsDir(ctx, p), false, true)
    decreases |hits|
  {
    if hits != [] {
      var n := |hits| - 1;
      var init := hits[..n];
      ContentFoldFacts(ctx, m0, init);
      assert hits == init + [hits[n]];
      var r0 := ContentFold(ctx, m0, init);
      assert ContentFold(ctx, m0, hits) == MarkContentMatch(ctx, r0, hits[n]);
      MarkContentFacts(ctx, r0, hits[n]);
      forall p ensures Some(p) in hits <==> Some(p) in init || hits[n] == Some(p) {
        if Some(p) in hits {
          var i :| 0 <= i < |hits| && hits[i] == Some(p);
          if i < n {
            assert init[i] == Some(p);
          }
        }
      }
    }
  }

  /** Marking one `rg` hit touches only the hit path. */
  lemma MarkContentFacts(ctx: Ctx, m: map<Path, Candidate>, hit: Option<Path>)
    ensures forall p :: p in MarkContentMatch(ctx, m, hit) <==> p in m || hit == Some(p)
    ensures forall p :: p in MarkContentMatch(ctx, m, hit) ==>
      MarkContentMatch(ctx, m, hit)[p] ==
        if hit != Some(p) then m[p]
        else if p in m then m[p].(contentMatch := true)
        else Candidate(p, StatIsDir(ctx, p), false, true)
  {
  }

  /**
   * The walk loop: every yielded entry other than the root whose path the
   * query matches is inserted as a path match, or marks the existing entry.
   */
  method WalkPhase(ctx: Ctx, entries: seq<WalkEntry>) returns (m: map<Path, Candidate>)
    ensures m == WalkFold(map[], WalkHits(ctx, entries))
  {
    ghost var hits := WalkHits(ctx, entries);
    m := map[];
    var i := 0;
    while i < |entries|
      invariant 0 <= i <= |entries|
      invariant m == WalkFold(map[], hits[..i])
    {
      assert hits[..i + 1][..i] == hits[..i];
      var e := entries[i];
      if e.rel != [] && Yielded(ctx, entries, i) && PathMatches(ctx, e.rel) {
        if e.rel in m {
          m := m[e.rel := m[e.rel].(pathMatch := true)];
        } else {
          m := m[e.rel := Candidate(e.rel, e.isDir, true, false)];
        }
      }
      i := i + 1;
    }
    assert hits[..i] == hits;
  }

  /**
   * The `rg -l` loop: every non-blank output line that survives the hidden,
   * glob and device filters marks its path as a content match, inserting it
   * (with `is_dir` from the file system) when the walk did not.
   */
  method ContentPhase(ctx: Ctx, m0: map<Path, Candidate>, lines: seq<string>) returns (m: map<Path, Candidate>)
    ensures m == ContentFold(ctx, m0, RgHits(ctx, lines))
  {
    m := m0;
    var k := 0;
    while k < |lines|
      invariant 0 <= k <= |lines|
      invariant m == ContentFold(ctx, m0, RgHits(ctx, lines[..k]))
    {
      ContentStep(ctx, m0, lines, k);
      m := ContentLine(ctx, m, lines[k]);
      k := k + 1;
    }
    assert lines[..k] == lines;
  }

  /** Folding one more output line is marking its path. */
  lemma ContentStep(ctx: Ctx, m0: map<Path, Candidate>, lines: seq<string>, k: nat)
    requires k < |lines|
    ensures ContentFold(ctx, m0, RgHits(ctx, lines[..k + 1]))
      == MarkContentMatch(ctx, ContentFold(ctx, m0, RgHits(ctx, lines[..k])), RgPath(ctx, lines[k]))
  {
    assert RgHits(ctx, lines[..k + 1])[..k] == RgHits(ctx, lines[..k]);
  }

  /** One turn of the `rg -l` loop: the line's path, if it survives the filters, is marked as a content match. */
  method ContentLine(ctx: Ctx, m0: map<Path, Candidate>, line: string) returns (m: map<Path, Candidate>)
    ensures m == MarkContentMatch(ctx, m0, RgPath(ctx, line))
  {
    m := m0;
    var rel := RgLinePath(ctx, line);
    if rel.Some? {
      var p := rel.value;
      if p in m {
        m := m[p := m[p].(contentMatch := true)];
      } else {
        var meta := ctx.stat(p);
        m := m[p := Candidate(p, meta.Some? && meta.value.isDir, false, true)];
      }
    }
  }

  /**
   * The filters of the `rg -l` loop for one output line: blank lines are
   * skipped, the path loses its leading `./` prefixes, and hidden, ignored
   * and other-device paths are dropped. It is the `rg -l` loop's per-line
   * step, run by `ContentLine` inside `ContentPhase`; its result is `RgPath`, about which
   * `NoExcludedCandidate` and `MergeFacts` are proved.
   */
  method RgLinePath(ctx: Ctx, line: string) returns (r: Option<Path>)
    ensures r == RgPath(ctx, line)
  {
    if Trim(line) == [] {
      return None;
    }
    var p := ParsePath(TrimDotSlash(line));
    if (!ctx.settings.includeHidden && IsHidden(p)) || Ignored(ctx.settings.globs, ctx.matchers, p) {
      return None;
    }
    var meta := ctx.stat(p);
    if ctx.rootDev.Some? && meta.Some? && meta.value.dev != ctx.rootDev.value {
      return None;
    }
    return Some(p);
  }

  /** The content hits of one search: none for an empty query, else the filtered `rg -l` lines. */
  function ContentHits(ctx: Ctx, listing: Option<string>): seq<Option<Path>> {
    if ctx.query == [] || listing.None? then [] else RgHits(ctx, Lines(listing.value))
  }

  /** The map after both loops. */
  function Merged(ctx: Ctx, entries: seq<WalkEntry>, hits: seq<Option<Path>>): map<Path, Candidate> {
    ContentFold(ctx, WalkFold(map[], WalkHits(ctx, entries)), hits)
  }

  /**
   * The candidate map one search builds: the walk's path matches, then, for
   * a non-empty query, the content matches of `rg -l`.
   */
  function Search(query: string, w: World): Result<map<Path, Candidate>, SearchError> {
    match Prepare(query, w)
    case Err(e) => Err(e)
    case Ok(ctx) =>
      if query != [] && w.rgListing.None? then Err(RgFailed)
      else Ok(Merged(ctx, w.entries, ContentHits(ctx, w.rgListing)))
  }

  /** Some walk entry is a path match for `p`. */
  predicate WalkHitPath(ctx: Ctx, entries: seq<WalkEntry>, p: Path) {
    exists i :: 0 <= i < |entries| && HitAt(WalkHits(ctx, entries), i, p)
  }

  /** Walk entry `i` is the first path match for `p`. */
  predicate FirstWalkHit(ctx: Ctx, entries: seq<WalkEntry>, i: int, p: Path) {
    HitAt(WalkHits(ctx, entries), i, p) && forall j :: 0 <= j < i ==> !HitAt(WalkHits(ctx, entries), j, p)
  }

  /**
   * What the two loops build: one candidate per path that the walk or `rg`
   * hit; `path_match` exactly when the walk hit it, `content_match` exactly
   * when `rg` hit it, so at least one of them; `is_dir` from the first
   * walk entry that hit it, else from the file system.
   */
  lemma MergeFacts(ctx: Ctx, entries: seq<WalkEntry>, hits: seq<Option<Path>>)
    ensures KeyedByPath(Merged(ctx, entries, hits))
    ensures forall p :: p in Merged(ctx, entries, hits) <==> WalkHitPath(ctx, entries, p) || Some(p) in hits
    ensures forall p :: p in Merged(ctx, entries, hits) ==>
      (Merged(ctx, entries, hits)[p].pathMatch <==> WalkHitPath(ctx, entries, p))
      && (Merged(ctx, entries, hits)[p].contentMatch <==> Some(p) in hits)
      && (Merged(ctx, entries, hits)[p].pathMatch || Merged(ctx, entries, hits)[p].contentMatch)
    ensures forall p :: p in Merged(ctx, entries, hits) && !WalkHitPath(ctx, entries, p) ==>
      Merged(ctx, entries, hits)[p].isDir == StatIsDir(ctx, p)
    ensures forall p :: p in Merged(ctx, entries, hits) && WalkHitPath(ctx, entries, p) ==>
      exists i :: FirstWalkHit(ctx, entries, i, p) && Merged(ctx, entries, hits)[p].isDir == entries[i].isDir
  {
    var walkHits := WalkHits(ctx, entries);
    WalkFoldFacts(walkHits);
    var walked := WalkFold(map[], walkHits);
    ContentFoldFacts(ctx, walked, hits);
    forall p | p in walked ensures walked[p].pathMatch && !walked[p].contentMatch {
      var i :| HitAt(walkHits, i, p) && walked[p] == walkHits[i].value;
    }
  }

  /** No candidate is hidden (unless hidden paths are included) or ignored, whichever loop found it. */
  lemma NoExcludedCandidate(ctx: Ctx, entries: seq<WalkEntry>, listing: Option<string>)
    ensures forall p :: p in Merged(ctx, entries, ContentHits(ctx, listing)) ==> !Excluded(ctx, p)
  {
    var hits := ContentHits(ctx, listing);
    MergeFacts(ctx, entries, hits);
    forall p | p in Merged(ctx, entries, hits) ensures !Excluded(ctx, p) {
      if WalkHitPath(ctx, entries, p) {
        var i :| 0 <= i < |entries| && HitAt(WalkHits(ctx, entries), i, p);
        assert Admitted(ctx, entries[i]);
      } else {
        var k :| 0 <= k < |hits| && hits[k] == Some(p);
        assert RgPath(ctx, Lines(listing.value)[k]) == Some(p);
      }
    }
  }

  /**
   * A candidate only `rg` found lies on the root's device whenever mounts
   * are excluded and its device is known.
   */
  lemma ContentOnlyOnRootDevice(ctx: Ctx, entries: seq<WalkEntry>, listing: Option<string>)
    ensures forall p :: p in Merged(ctx, entries, ContentHits(ctx, listing)) && !WalkHitPath(ctx, entries, p) && ctx.stat(p).Some? ==>
      !OtherDevice(ctx, Some(ctx.stat(p).value.dev))
  {
    var hits := ContentHits(ctx, listing);
    MergeFacts(ctx, entries, hits);
    forall p | p in Merged(ctx, entries, hits) && !WalkHitPath(ctx, entries, p) && ctx.stat(p).Some?
      ensures !OtherDevice(ctx, Some(ctx.stat(p).value.dev))
    {
      var k :| 0 <= k < |hits| && hits[k] == Some(p);
      assert RgPath(ctx, Lines(listing.value)[k]) == Some(p);
    }
  }

  /** The walk never makes the search root a path match. */
  lemma RootIsNoPathMatch(ctx: Ctx, entries: seq<WalkEntry>, hits: seq<Option<Path>>)
    ensures [] in Merged(ctx, entries, hits) ==> !Merged(ctx, entries, hits)[[]].pathMatch
  {
    MergeFacts(ctx, entries, hits);
  }

  /**
   * The search root is never a candidate as long as every line `rg -l`
   * prints names a file below it.
   */
  lemma RootNeverCandidate(ctx: Ctx, entries: seq<WalkEntry>, listing: Option<string>)
    requires listing.Some? ==> forall k :: 0 <= k < |Lines(listing.value)| ==> ParsePath(TrimDotSlash(Lines(listing.value)[k])) != []
    ensures [] !in Merged(ctx, entries, ContentHits(ctx, listing))
  {
    var hits := ContentHits(ctx, listing);
    RootIsNoPathMatch(ctx, entries, hits);
    MergeFacts(ctx, entries, hits);
  }

  /** An entry below one the `filter_entry` closure rejects is never yielded: the walk prunes that subtree. */
  lemma PrunedSubtree(ctx: Ctx, entries: seq<WalkEntry>, a: nat, i: nat)
    requires a < |entries| && i < |entries|
    requires Above(entries[a].rel, entries[i].rel) && !Admitted(ctx, entries[a])
    ensures WalkHit(ctx, entries, i).None?
  {
  }

  /** Without `include_symlinks`, no path match is a symbolic link or lies below one. */
  lemma SymlinksNotWalked(ctx: Ctx, entries: seq<WalkEntry>, i: nat)
    requires i < |entries| && !ctx.settings.includeSymlinks
    requires WalkHit(ctx, entries, i).Some?
    ensures !entries[i].isSymlink
    ensures forall a :: 0 <= a < |entries| && entries[a].rel != [] && Above(entries[a].rel, entries[i].rel) ==> !entries[a].isSymlink
  {
  }

  /** With an empty query every yielded entry other than the root is a path match. */
  lemma EmptyQueryMatchesWalk(ctx: Ctx, entries: seq<WalkEntry>, i: nat)
    requires i < |entries| && ctx.query == []
    ensures WalkHit(ctx, entries, i).Some? <==> entries[i].rel != [] && Yielded(ctx, entries, i)
  {
  }

  /** Every candidate of the merged map is filed under its own path. */
  lemma MergedKeyedByPath(ctx: Ctx, entries: seq<WalkEntry>, hits: seq<Option<Path>>)
    ensures KeyedByPath(Merged(ctx, entries, hits))
  {
    MergeFacts(ctx, entries, hits);
  }

  /** No two candidates of the list share a path. */
  predicate UniquePaths(list: seq<Candidate>) {
    forall i, j :: 0 <= i < j < |list| ==> list[i].path != list[j].path
  }

  /**
   * Part way through draining the map: `rest` is what is left of `m`, and
   * `list` holds the other candidates of `m`, each once.
   */
  predicate Collecting(m: map<Path, Candidate>, rest: map<Path, Candidate>, list: seq<Candidate>) {
    (forall p :: p in rest ==> p in m && rest[p] == m[p]) &&
    (forall p :: p in m ==> p in rest || m[p] in list) &&
    (forall c :: c in list ==> c.path in m && m[c.path] == c && c.path !in rest) &&
    UniquePaths(list) &&
    |list| + |rest| == |m|
  }

  /** Moving one entry of `rest` to the end of `list` keeps the draining state. */
  lemma CollectingStep(m: map<Path, Candidate>, rest: map<Path, Candidate>, list: seq<Candidate>, p: Path)
    requires KeyedByPath(m) && Collecting(m, rest, list) && p in rest
    ensures Collecting(m, rest - {p}, list + [rest[p]])
  {
    var next := rest - {p};
    var c := rest[p];
    var grown := list + [c];
    assert c.path == p;
    assert rest.Keys == next.Keys + {p} && p !in next.Keys;
    forall q | q in m ensures q in next || m[q] in grown {
      if q != p && q !in rest {
        assert m[q] in list;
      }
    }
    forall d | d in grown ensures d.path in m && m[d.path] == d && d.path !in next {
      if d != c {
        assert d in list;
      }
    }
    forall i, j | 0 <= i < j < |grown| ensures grown[i].path != grown[j].path {
      if j == |list| {
        assert grown[i] in list;
      } else {
        assert grown[i] == list[i] && grown[j] == list[j];
      }
    }
  }

  /** Once `rest` is empty, `list` holds exactly the candidates of `m`. */
  lemma CollectingDone(m: map<Path, Candidate>, list: seq<Candidate>)
    requires Collecting(m, map[], list)
    ensures |list| == |m| && UniquePaths(list)
    ensures forall c :: c in list <==> c in m.Values
  {
  }

  /** `map.into_values().collect()`: the candidates of the map, each once, in some order. */
  method CollectValues(m: map<Path, Candidate>) returns (list: seq<Candidate>)
    requires KeyedByPath(m)
    ensures |list| == |m|
    ensures UniquePaths(list)
    ensures forall c :: c in list <==> c in m.Values
  {
    var rest := m;
    list := [];
    while rest != map[]
      invariant Collecting(m, rest, list)
      decreases |rest|
    {
      var p :| p in rest;
      CollectingStep(m, rest, list, p);
      list := list + [rest[p]];
      rest := rest - {p};
    }
    CollectingDone(m, list);
  }

  /**
   * `build_candidates`: loads the settings, stats the root (unless mounts
   * are included), compiles a non-empty query, merges the path and content
   * matches, and ranks them by the sort mode.
   */
  method BuildCandidates(query: string, w: World) returns (r: Result<seq<Candidate>, SearchError>)
    ensures r.Err? <==> Search(query, w).Err?
    ensures r.Err? ==> r.error == Search(query, w).error
    ensures r.Ok? ==>
      var m := Search(query, w).value;
      |r.value| == |m| && UniquePaths(r.value) && (forall c :: c in r.value <==> c in m.Values)
      && Sorted(Prepare(query, w).value.settings.sortMode, r.value)
  {
    var loaded := LoadSettings(w.config, w.matchers.validGlob);
    if loaded.Err? {
      return Err(ConfigFailed(loaded.error));
    }
    var settings := loaded.value;
    var rootDev: Option<int>;
    if settings.includeMounts {
      rootDev := None;
    } else {
      if w.rootDev.None? {
        return Err(RootStatFailed);
      }
      rootDev := w.rootDev;
    }
    if query != [] && !w.matchers.validRegex(query) {
      return Err(InvalidRegex(query));
    }
    var ctx := Ctx(query, settings, rootDev, w.stat, w.matchers);
    assert Prepare(query, w) == Ok(ctx);
    var m := WalkPhase(ctx, w.entries);
    if query != [] {
      if w.rgListing.None? {
        return Err(RgFailed);
      }
      m := ContentPhase(ctx, m, Lines(w.rgListing.value));
    }
    assert m == Merged(ctx, w.entries, ContentHits(ctx, w.rgListing));
    MergedKeyedByPath(ctx, w.entries, ContentHits(ctx, w.rgListing));
    var ranked := RankValues(m, settings.sortMode);
    return Ok(ranked);
  }

  /** The candidates of the map collected into a vector and sorted by `sort_candidates`. */
  method RankValues(m: map<Path, Candidate>, mode: SortMode) returns (ranked: seq<Candidate>)
    requires KeyedByPath(m)
    ensures |ranked| == |m| && UniquePaths(ranked)
    ensures forall c :: c in ranked <==> c in m.Values
    ensures Sorted(mode, ranked)
  {
    var list := CollectValues(m);
    var a := new Candidate[|list|](i requires 0 <= i < |list| => list[i]);
    assert a[..] == list;
    SortCandidates(a, mode);
    MultisetKeepsUnique(list, a[..]);
    ranked := a[..];
  }

  /** A permutation keeps the elements, and with them distinct paths. */
  lemma MultisetKeepsUnique(s: seq<Candidate>, t: seq<Candidate>)
    requires multiset(s) == multiset(t)
    requires UniquePaths(s)
    ensures |t| == |s|
    ensures forall c :: c in t <==> c in s
    ensures UniquePaths(t)
  {
    assert |t| == |multiset(t)| == |multiset(s)| == |s|;
    forall c ensures c in t <==> c in s {
      assert c in t <==> c in multiset(t);
      assert c in s <==> c in multiset(s);
    }
    forall i, j | 0 <= i < j < |t| ensures t[i].path != t[j].path {
      if t[i] == t[j] {
        RepeatCounts(t, i, j);
        UniqueCounts(s, t[i]);
      } else {
        DistinctPaths(s, t[i], t[j]);
      }
    }
  }

  /** Distinct candidates of a list with distinct paths have distinct paths. */
  lemma DistinctPaths(s: seq<Candidate>, x: Candidate, y: Candidate)
    requires UniquePaths(s) && x in s && y in s && x != y
    ensures x.path != y.path
  {
    var a :| 0 <= a < |s| && s[a] == x;
    var b :| 0 <= b < |s| && s[b] == y;
    assert a != b;
  }

  /** An element at two positions occurs at least twice. */
  lemma RepeatCounts(t: seq<Candidate>, i: nat, j: nat)
    requires i < j < |t| && t[i] == t[j]
    ensures multiset(t)[t[i]] >= 2
  {
    assert t == t[..j] + [t[j]] + t[j + 1..];
    assert t[i] in t[..j];
  }

  /** In a list with distinct paths every candidate occurs at most once. */
  lemma {:induction false} UniqueCounts(s: seq<Candidate>, c: Candidate)
    requires UniquePaths(s)
    ensures multiset(s)[c] <= 1
  {
    if s != [] {
      assert s == [s[0]] + s[1..];
      assert UniquePaths(s[1..]);
      UniqueCounts(s[1..], c);
      if s[0] == c {
        assert c !in s[1..];
      }
    }
  }
}

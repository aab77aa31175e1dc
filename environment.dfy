/**
 * What the search engine learns from outside itself: the glob and regex
 * crates, the file system and the `rg` processes. Each is an input here,
 * so that the engine's own decisions can be stated over any answer they give.
 */
module Environment {
  import opened Wrappers
  import opened Paths
  import opened Settings

  /** A match of the regex in a text: the half-open range `[start, end)`. */
  datatype Span = Span(start: nat, end: nat)

  /**
   * The glob and regex crates. `globMatch(pattern, path)` is `Glob::new(pattern)`
   * matching `path`; `findIter(query, text)` lists the matches `find_iter` yields.
   */
  datatype Matchers = Matchers(
    validGlob: string -> bool,
    globMatch: (string, Path) -> bool,
    validRegex: string -> bool,
    isMatch: (string, string) -> bool,
    findIter: (string, string) -> seq<Span>)

  /** `find_iter` yields leftmost, non-overlapping matches in order, inside the text. */
  predicate SpansWellFormed(spans: seq<Span>, len: nat) {
    (forall k :: 0 <= k < |spans| ==> spans[k].start <= spans[k].end <= len)
    && (forall k :: 0 < k < |spans| ==> spans[k - 1].end <= spans[k].start)
  }

  /** The regex crate keeps the promise above for every query and text. */
  ghost predicate WellBehaved(m: Matchers) {
    forall query: string, text: string :: SpansWellFormed(m.findIter(query, text), |text|)
  }

  /** `GlobSet::is_match`: some ignore glob matches the path. */
  predicate Ignored(globs: seq<string>, m: Matchers, p: Path) {
    globs != [] && (m.globMatch(globs[0], p) || Ignored(globs[1..], m, p))
  }

  /** What `fs::metadata` reports for a path: whether it is a directory, and its device. */
  datatype Meta = Meta(isDir: bool, dev: int)

  /**
   * One entry of the unpruned directory walk below the search root: its
   * components relative to the root (`[]` for the root itself), its own file
   * type (a symbolic link is not a directory), and the device `fs::metadata`
   * reports after following links, if that call succeeds.
   */
  datatype WalkEntry = WalkEntry(rel: Path, isDir: bool, isSymlink: bool, dev: Option<int>)

  /**
   * Everything one search observes: the ignore file, the root's device (if
   * `fs::metadata` succeeds on it), the entries of the walk in walk order,
   * the standard output of `rg -l` and of `rg -n --column` (absent when the
   * process cannot be started), and `fs::metadata` below the root.
   */
  datatype World = World(
    config: ConfigFile,
    rootDev: Option<int>,
    entries: seq<WalkEntry>,
    rgListing: Option<string>,
    rgMatches: Option<string>,
    stat: Path -> Option<Meta>,
    matchers: Matchers)
}

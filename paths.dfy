/**
 * Relative paths as Rust's `Path::components` sees them: a sequence of
 * component names. A path is shown by joining its components with `/`,
 * which is what `to_string_lossy` gives for a path the walk built; paths read
 * back from text are split the way `PathBuf::from` splits them. A path read
 * from text keeps that text in the program, so `a//b`, `a/./b` or a trailing
 * `/` would show as written there and joined here.
 */
module Paths {
  import opened Text

  /** The components of a path relative to the search root; `[]` is the root itself. */
  type Path = seq<string>

  /** `path.to_string_lossy()` for a relative path. */
  function Display(p: Path): string {
    Join(p, '/')
  }

  /** The component `.`, the current directory. */
  predicate IsCurDir(c: string) {
    |c| == 1 && c[0] == '.'
  }

  /** The component `..`, the parent directory. */
  predicate IsParentDir(c: string) {
    |c| == 2 && c[0] == '.' && c[1] == '.'
  }

  /** Drops empty segments (doubled or trailing `/`) and `.` segments. */
  function NormalSegments(parts: seq<string>): (r: Path)
    ensures forall k :: 0 <= k < |r| ==> r[k] in parts && r[k] != [] && !IsCurDir(r[k])
    ensures (forall k :: 0 <= k < |parts| ==> parts[k] != [] && !IsCurDir(parts[k])) ==> r == parts
  {
    if parts == [] then []
    else if parts[0] == [] || IsCurDir(parts[0]) then NormalSegments(parts[1..])
    else [parts[0]] + NormalSegments(parts[1..])
  }

  /**
   * The components of `PathBuf::from(s)` for a relative `s`: split at `/`,
   * empty segments and `.` segments dropped, except that a `.` at the very
   * start stays as a current-directory component.
   */
  function ParsePath(s: string): (r: Path)
    ensures forall k :: 0 <= k < |r| ==> r[k] != [] && '/' !in r[k]
    ensures forall k :: 0 < k < |r| ==> !IsCurDir(r[k])
  {
    var parts := Split(s, '/');
    if IsCurDir(parts[0]) then [parts[0]] + NormalSegments(parts[1..]) else NormalSegments(parts)
  }

  /** Components as a directory walk produces them: file names, never `.`, free of `/`. */
  predicate WellFormed(p: Path) {
    forall k :: 0 <= k < |p| ==> p[k] != [] && !IsCurDir(p[k]) && '/' !in p[k]
  }

  /** Reading back a displayed path gives the same components. */
  lemma ParseDisplay(p: Path)
    requires WellFormed(p)
    ensures ParsePath(Display(p)) == p
  {
    if p == [] {
      assert Split("", '/') == [""];
    } else {
      SplitJoin(p, '/');
    }
  }

  /** Two well-formed paths with the same display string are the same path. */
  lemma DisplayInjective(p: Path, q: Path)
    requires WellFormed(p) && WellFormed(q)
    requires Display(p) == Display(q)
    ensures p == q
  {
    ParseDisplay(p);
    ParseDisplay(q);
  }

  /** `is_hidden_path`: some component's name starts with `.`. */
  predicate IsHidden(p: Path)
    ensures IsHidden(p) <==> exists k :: 0 <= k < |p| && p[k] != [] && p[k][0] == '.'
  {
    p != [] && ((p[0] != [] && p[0][0] == '.') || IsHidden(p[1..]))
  }

  /** `path_depth`: the number of components. */
  function Depth(p: Path): nat {
    |p|
  }

  /** `Path::file_name`, falling back to the whole path when the last component is not a name. */
  function FileName(p: Path): string {
    if p != [] && !IsCurDir(p[|p| - 1]) && !IsParentDir(p[|p| - 1]) then p[|p| - 1] else Display(p)
  }
}

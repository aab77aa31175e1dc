/**
 * `sort_candidates` and `path_depth`: candidates are ranked by component
 * count and then by path string, or by path string alone.
 */
module Ranking {
  import opened Text
  import opened Paths
  import opened Settings

  /** A search result: a path below the root, and how it matched. */
  datatype Candidate = Candidate(path: Path, isDir: bool, pathMatch: bool, contentMatch: bool)

  /**
   * The sort key comparison: `(path_depth, path string)` in depth mode, the
   * path string alone in alphabetical mode; strings compare as Rust's `String`.
   */
  predicate KeyLe(mode: SortMode, a: Path, b: Path) {
    match mode
    case Depth => Paths.Depth(a) < Paths.Depth(b) || (Paths.Depth(a) == Paths.Depth(b) && LexLe(Display(a), Display(b)))
    case Alphabetical => LexLe(Display(a), Display(b))
  }

  predicate Sorted(mode: SortMode, s: seq<Candidate>) {
    forall i, j :: 0 <= i < j < |s| ==> KeyLe(mode, s[i].path, s[j].path)
  }

  lemma KeyLeTotal(mode: SortMode, a: Path, b: Path)
    ensures KeyLe(mode, a, b) || KeyLe(mode, b, a)
  {
    LexLeTotal(Display(a), Display(b));
  }

  lemma KeyLeTransitive(mode: SortMode, a: Path, b: Path, c: Path)
    requires KeyLe(mode, a, b) && KeyLe(mode, b, c)
    ensures KeyLe(mode, a, c)
  {
    if LexLe(Display(a), Display(b)) && LexLe(Display(b), Display(c)) {
      LexLeTransitive(Display(a), Display(b), Display(c));
    }
  }

  /** Two well-formed paths that each sort no later than the other are the same path. */
  lemma KeyLeAntisymmetric(mode: SortMode, a: Path, b: Path)
    requires WellFormed(a) && WellFormed(b)
    requires KeyLe(mode, a, b) && KeyLe(mode, b, a)
    ensures a == b
  {
    LexLeAntisymmetric(Display(a), Display(b));
    DisplayInjective(a, b);
  }

  /** Exchanges two slots of the slice. */
  method Swap(a: array<Candidate>, i: nat, j: nat)
    requires i < a.Length && j < a.Length
    modifies a
    ensures a[..] == old(a[..])[i := old(a[j])][j := old(a[i])]
    ensures multiset(a[..]) == multiset(old(a[..]))
  {
    a[i], a[j] := a[j], a[i];
  }

  /**
   * `sort_candidates`: a stable sort of the slice in place by the key of the
   * sort mode (insertion sort here; the order it produces is the one any
   * stable sort produces).
   */
  method SortCandidates(a: array<Candidate>, mode: SortMode)
    modifies a
    ensures Sorted(mode, a[..])
    ensures multiset(a[..]) == multiset(old(a[..]))
  {
    var i := 0;
    while i < a.Length
      invariant 0 <= i <= a.Length
      invariant Sorted(mode, a[..i])
      invariant multiset(a[..]) == multiset(old(a[..]))
    {
      InsertNext(a, i, mode);
      i := i + 1;
    }
    assert a[..i] == a[..];
  }

  /**
   * The state of one insertion: the first `i + 1` slots are in order except
   * for the moving candidate at `j`, which sorts no later than everything
   * above it.
   */
  predicate Inserting(mode: SortMode, s: seq<Candidate>, i: nat, j: nat) {
    j <= i < |s| &&
    (forall x, y :: 0 <= x < y <= i && x != j && y != j ==> KeyLe(mode, s[x].path, s[y].path)) &&
    (forall y :: j < y <= i ==> KeyLe(mode, s[j].path, s[y].path))
  }

  /** Swapping the moving candidate with a later-sorting neighbour below it keeps the state. */
  lemma InsertingStep(mode: SortMode, s: seq<Candidate>, i: nat, j: nat)
    requires Inserting(mode, s, i, j) && 0 < j && !KeyLe(mode, s[j - 1].path, s[j].path)
    ensures Inserting(mode, s[j - 1 := s[j]][j := s[j - 1]], i, j - 1)
  {
    KeyLeTotal(mode, s[j - 1].path, s[j].path);
  }

  /** Once the neighbour below sorts no later, the first `i + 1` slots are sorted. */
  lemma InsertingDone(mode: SortMode, s: seq<Candidate>, i: nat, j: nat)
    requires Inserting(mode, s, i, j) && (j == 0 || KeyLe(mode, s[j - 1].path, s[j].path))
    ensures Sorted(mode, s[..i + 1])
  {
    if j > 0 {
      forall x | 0 <= x < j ensures KeyLe(mode, s[x].path, s[j].path) {
        if x < j - 1 {
          KeyLeTransitive(mode, s[x].path, s[j - 1].path, s[j].path);
        }
      }
    }
  }

  /** Moves `a[i]` down into the sorted prefix `a[..i]`, past every candidate that sorts after it. */
  method InsertNext(a: array<Candidate>, i: nat, mode: SortMode)
    requires i < a.Length && Sorted(mode, a[..i])
    modifies a
    ensures Sorted(mode, a[..i + 1])
    ensures multiset(a[..]) == multiset(old(a[..]))
  {
    var j: nat := i;
    while j > 0 && !KeyLe(mode, a[j - 1].path, a[j].path)
      invariant Inserting(mode, a[..], i, j)
      invariant multiset(a[..]) == multiset(old(a[..]))
    {
      InsertingStep(mode, a[..], i, j);
      Swap(a, j - 1, j);
      j := j - 1;
    }
    InsertingDone(mode, a[..], i, j);
  }

  /**
   * In alphabetical mode the nested `a/deeper/file1.txt` sorts before the
   * top-level `a_root.txt`, since `/` precedes `_`.
   */
  lemma AlphabeticalNestedFirst(s: seq<Candidate>, i: nat, j: nat, nested: Path, top: Path)
    requires nested == ["a", "deeper", "file1.txt"] && top == ["a_root.txt"]
    requires Sorted(Alphabetical, s) && i < |s| && j < |s| && s[i].path == nested && s[j].path == top
    ensures i < j
  {
    if j < i {
      var n := Display(nested);
      var t := Display(top);
      assert n == nested[0] + ['/'] + Join(nested[1..], '/');
      assert n[0] == 'a' && n[1] == '/';
      assert t[0] == 'a' && t[1] == '_';
      assert !LexLe(t[1..], n[1..]);
      assert false;
    }
  }

  /**
   * In depth mode the top-level `a_root.txt` and `z_root.txt` come first, in
   * that order, and the nested `a/deeper/file1.txt` after both.
   */
  lemma DepthShallowFirst(s: seq<Candidate>, i: nat, j: nat, k: nat, first: Path, second: Path, nested: Path)
    requires first == ["a_root.txt"] && second == ["z_root.txt"] && nested == ["a", "deeper", "file1.txt"]
    requires Sorted(Depth, s) && i < |s| && j < |s| && k < |s|
    requires s[i].path == first && s[j].path == second && s[k].path == nested
    ensures i < j < k
  {
  }
}

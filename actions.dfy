/**
 * Choosing the directory to change into for a selected row: the parent of
 * the selected path joined onto the working directory.
 */
module Actions {
  import opened Wrappers
  import opened Text
  import opened Paths

  /**
   * A `PathBuf` as its components see it: whether it starts at the root `/`,
   * and the components after that.
   */
  datatype FsPath = FsPath(rooted: bool, comps: seq<string>)

  /** `PathBuf::display`: a leading `/` for a rooted path, then the components joined by `/`. */
  function ShowPath(p: FsPath): string {
    (if p.rooted then ['/'] else []) + Join(p.comps, '/')
  }

  /**
   * `cwd.join(rel)`: an absolute `rel` replaces `cwd`; a relative one is
   * appended. Empty and `.` segments of `rel` vanish from the components,
   * as they do inside a joined path.
   */
  function JoinPath(cwd: FsPath, rel: string): (r: FsPath)
    ensures rel != [] && rel[0] == '/' ==> r.rooted
    ensures (rel == [] || rel[0] != '/') ==>
      r.rooted == cwd.rooted && |r.comps| >= |cwd.comps| && r.comps[..|cwd.comps|] == cwd.comps
  {
    var segs := NormalSegments(Split(rel, '/'));
    if rel != [] && rel[0] == '/' then FsPath(true, segs)
    else
      assert (cwd.comps + segs)[..|cwd.comps|] == cwd.comps;
      FsPath(cwd.rooted, cwd.comps + segs)
  }

  /** `Path::parent`: the path without its last component, or nothing for `/` and the empty path. */
  function Parent(p: FsPath): (r: Option<FsPath>)
    ensures r.None? <==> p.comps == []
    ensures r.Some? ==> r.value.rooted == p.rooted && r.value.comps + [p.comps[|p.comps| - 1]] == p.comps
  {
    if p.comps == [] then None
    else
      var init := p.comps[..|p.comps| - 1];
      assert init + [p.comps[|p.comps| - 1]] == p.comps;
      Some(FsPath(p.rooted, init))
  }

  /**
   * `resolve_target_dir`: the parent of `cwd.join(rel)`, or `cwd` itself when
   * that has none. For a relative selection that names at least one
   * component, the result's components start with `cwd`'s components. This is
   * a lexical fact: a `..` segment is kept as a component, so
   * `../../etc/x` still leads above `cwd` once the path is resolved.
   */
  function ResolveTargetDir(cwd: FsPath, rel: string): (r: FsPath)
    ensures (rel == [] || rel[0] != '/') && NormalSegments(Split(rel, '/')) != [] ==>
      r.rooted == cwd.rooted && |cwd.comps| <= |r.comps| && r.comps[..|cwd.comps|] == cwd.comps
  {
    match Parent(JoinPath(cwd, rel))
    case Some(parent) => parent
    case None => cwd
  }

  /**
   * In general the target is the joined path with its last component
   * removed, and it is `cwd` when the joined path has no components left.
   */
  lemma TargetIsParentOfJoined(cwd: FsPath, rel: string)
    ensures var joined := JoinPath(cwd, rel);
      var target := ResolveTargetDir(cwd, rel);
      if joined.comps == [] then target == cwd
      else target.rooted == joined.rooted && target.comps + [joined.comps[|joined.comps| - 1]] == joined.comps
  {
  }

  /** A relative path with a directory part resolves to that directory under `cwd`. */
  lemma FileResolvesToItsDirectory(cwd: FsPath, dir: Path, name: string)
    requires dir != [] && WellFormed(dir)
    requires name != [] && '/' !in name && !IsCurDir(name)
    requires dir[0][0] != '/'
    ensures ResolveTargetDir(cwd, Display(dir) + ['/'] + name) == FsPath(cwd.rooted, cwd.comps + dir)
  {
    var rel := Display(dir) + ['/'] + name;
    SegmentsOfFilePath(dir, name);
    JoinHead(dir, '/');
    assert rel[0] == dir[0][0];
    ResolveRelative(cwd, rel, dir, name);
  }

  /** A relative path whose segments end in `last` resolves to `cwd` joined with the segments before it. */
  lemma ResolveRelative(cwd: FsPath, rel: string, init: seq<string>, last: string)
    requires rel == [] || rel[0] != '/'
    requires NormalSegments(Split(rel, '/')) == init + [last]
    ensures ResolveTargetDir(cwd, rel) == FsPath(cwd.rooted, cwd.comps + init)
  {
    var comps := cwd.comps + (init + [last]);
    assert JoinPath(cwd, rel) == FsPath(cwd.rooted, comps);
    assert comps[..|comps| - 1] == cwd.comps + init;
  }

  /** The segments of `dir/name` are the directory's components, then the name. */
  lemma SegmentsOfFilePath(dir: Path, name: string)
    requires dir != [] && WellFormed(dir)
    requires name != [] && '/' !in name && !IsCurDir(name)
    ensures NormalSegments(Split(Display(dir) + ['/'] + name, '/')) == dir + [name]
  {
    var parts := dir + [name];
    JoinSnoc(dir, name, '/');
    assert WellFormed(parts) by {
      forall k | 0 <= k < |parts|
        ensures parts[k] != [] && !IsCurDir(parts[k]) && '/' !in parts[k]
      {
        if k < |dir| {
          assert parts[k] == dir[k];
        }
      }
    }
    SplitJoin(parts, '/');
  }

  /** A relative path of one plain component resolves to `cwd` itself. */
  lemma SingleComponentResolvesToCwd(cwd: FsPath, name: string)
    requires name != [] && '/' !in name && !IsCurDir(name)
    ensures ResolveTargetDir(cwd, name) == cwd
  {
    assert IndexOf(name, '/') == |name|;
    assert name[..|name|] == name;
    assert NormalSegments(Split(name, '/')) == [] + [name];
    ResolveRelative(cwd, name, [], name);
    assert cwd.comps + [] == cwd.comps;
  }

  /** Under `/tmp/work`, the file `src/main.rs` leads to `/tmp/work/src`, which is what is printed. */
  lemma FileUnderWorkDir(cwd: FsPath, rel: string)
    requires cwd == FsPath(true, ["tmp", "work"])
    requires rel == "src/main.rs"
    ensures ResolveTargetDir(cwd, rel) == FsPath(true, ["tmp", "work", "src"])
    ensures ShowPath(ResolveTargetDir(cwd, rel)) == "/tmp/work/src"
  {
    var dir: Path := ["src"];
    assert Display(dir) == "src";
    assert rel == Display(dir) + ['/'] + "main.rs";
    FileResolvesToItsDirectory(cwd, dir, "main.rs");
    var target := FsPath(true, ["tmp", "work", "src"]);
    assert Join(target.comps[2..], '/') == "src";
    assert Join(target.comps[1..], '/') == "work/src";
  }

  /** Under `/tmp/work`, the directory `src` leads to `/tmp/work` itself, which is what is printed. */
  lemma DirectoryUnderWorkDir(cwd: FsPath, rel: string)
    requires cwd == FsPath(true, ["tmp", "work"])
    requires rel == "src"
    ensures ResolveTargetDir(cwd, rel) == cwd
    ensures ShowPath(ResolveTargetDir(cwd, rel)) == "/tmp/work"
  {
    SingleComponentResolvesToCwd(cwd, rel);
    assert Join(cwd.comps[1..], '/') == "work";
  }

  /** `Join` of a non-empty list starts with the first piece. */
  lemma JoinHead(parts: seq<string>, sep: char)
    requires parts != [] && parts[0] != []
    ensures Join(parts, sep) != [] && Join(parts, sep)[0] == parts[0][0]
  {
  }

  /** Joining one more piece puts a separator before it. */
  lemma {:induction false} JoinSnoc(parts: seq<string>, last: string, sep: char)
    requires parts != []
    ensures Join(parts + [last], sep) == Join(parts, sep) + [sep] + last
    decreases |parts|
  {
    var all := parts + [last];
    if |parts| == 1 {
      assert all[1..] == [last];
    } else {
      assert all[1..] == parts[1..] + [last];
      JoinSnoc(parts[1..], last, sep);
    }
  }
}

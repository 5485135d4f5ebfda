/** The stricter ServerDir of server_management/descriptors.py. Its ServerCore and
    MinMaxRam are the same as in descriptors.py and are modelled once, there. */
module StrictDescriptors {
  import opened Wrappers
  import opened FileSystem
  import Descriptors

  /** The name of the tool's own package directory, directly below the repository root. */
  const PackageName: string := "server_management"

  /** The shape test: a relative path with exactly one segment (after pathlib drops empty
      and "." segments; ".." counts as a segment). */
  predicate SingleName(text: string)
  {
    !IsAbsolute(text) && |Parts(text)| == 1
  }

  /** ServerDir.__set__: type test, shape test, resolution, containment below the
      repository root, the reserved package directory, then the existence step. */
  function BindServerDir(v: Descriptors.Value, repoRoot: Path, cwd: Path, fs: FS)
    : (r: Result<Descriptors.Bound, Error>)
    requires WellFormed(fs)
    ensures !v.PathValue? ==> r == Err(WrongType)
    ensures v.PathValue? && !SingleName(v.text) ==> r == Err(NotSingleName)
    ensures r.Ok? <==> v.PathValue? && SingleName(v.text)
                       && repoRoot <= Resolve(cwd, v.text)
                       && Resolve(cwd, v.text) != repoRoot + [PackageName]
                       && Descriptors.EnsureDirectory(fs, Resolve(cwd, v.text)).Ok?
    ensures r.Ok? ==> r.value.dir == Resolve(cwd, v.text) && IsDir(r.value.fs, r.value.dir)
                      && WellFormed(r.value.fs)
  {
    if !v.PathValue? then Err(WrongType)
    else if IsAbsolute(v.text) || |Parts(v.text)| != 1 then Err(NotSingleName)
    else
      var p := Resolve(cwd, v.text);
      if !(repoRoot <= p) then Err(NotUnderRoot)
      else if p == repoRoot + [PackageName] then Err(ReservedDir)
      else match Descriptors.EnsureDirectory(fs, p)
        case Ok(fs') => Ok(Descriptors.Bound(p, fs'))
        case Err(e) => Err(e)
  }

  // ---------------------------------------------------------------------------
  // Properties
  // ---------------------------------------------------------------------------

  /** A bound directory is one step from the working directory: the named child, or the
      parent for "..". */
  lemma {:induction false} BoundIsOneStep(v: Descriptors.Value, repoRoot: Path, cwd: Path, fs: FS)
    requires WellFormed(fs) && BindServerDir(v, repoRoot, cwd, fs).Ok?
    ensures var d := BindServerDir(v, repoRoot, cwd, fs).value.dir;
            var seg := Parts(v.text)[0];
            (seg == ".." ==> d == (if cwd == [] then [] else Parent(cwd)))
            && (seg != ".." ==> d == cwd + [seg])
  {
    var segs := Parts(v.text);
    assert !IsAbsolute(v.text);
    assert segs[1..] == [];
    if segs[0] == ".." {
      assert Walk(cwd, segs) == Walk(if cwd == [] then [] else Parent(cwd), segs[1..]);
    } else {
      assert Walk(cwd, segs) == Walk(cwd + [segs[0]], segs[1..]);
    }
  }

  /** With the repository root as working directory, ".." escapes and is rejected. */
  lemma ParentOfRootRejected(repoRoot: Path, fs: FS)
    requires WellFormed(fs) && repoRoot != []
    ensures BindServerDir(Descriptors.PathValue(".."), repoRoot, repoRoot, fs) == Err(NotUnderRoot)
  {
    PartsOfSegment("..");
    assert Walk(repoRoot, [".."]) == Walk(Parent(repoRoot), []);
    assert Resolve(repoRoot, "..") == Parent(repoRoot);
  }

  /** With the repository root as working directory, the package directory is refused. */
  lemma PackageDirRejected(repoRoot: Path, fs: FS)
    requires WellFormed(fs)
    ensures BindServerDir(Descriptors.PathValue(PackageName), repoRoot, repoRoot, fs) == Err(ReservedDir)
  {
    PartsOfSegment(PackageName);
    assert Walk(repoRoot, [PackageName]) == Walk(repoRoot + [PackageName], []);
    assert Resolve(repoRoot, PackageName) == repoRoot + [PackageName];
  }

  /** With the repository root as working directory, any other plain name is bound to the
      child of that name, whether it existed as a directory or not. */
  lemma PlainNameBound(seg: string, repoRoot: Path, fs: FS)
    requires WellFormed(fs) && IsDir(fs, repoRoot)
    requires seg != "" && seg != "." && seg != ".." && '/' !in seg && seg != PackageName
    requires !IsFile(fs, repoRoot + [seg])
    ensures BindServerDir(Descriptors.PathValue(seg), repoRoot, repoRoot, fs).Ok?
    ensures BindServerDir(Descriptors.PathValue(seg), repoRoot, repoRoot, fs).value.dir == repoRoot + [seg]
  {
    PartsOfSegment(seg);
    assert Walk(repoRoot, [seg]) == Walk(repoRoot + [seg], []);
    assert Resolve(repoRoot, seg) == repoRoot + [seg];
    assert Parent(repoRoot + [seg]) == repoRoot;
  }

  /** The strict validator accepts only what the one in descriptors.py accepts (with the
      same root), and then binds the same directory with the same filesystem effect. */
  lemma StricterThanRoot(v: Descriptors.Value, repoRoot: Path, cwd: Path, fs: FS)
    requires WellFormed(fs) && BindServerDir(v, repoRoot, cwd, fs).Ok?
    ensures Descriptors.BindServerDir(v, repoRoot, cwd, fs) == BindServerDir(v, repoRoot, cwd, fs)
  {
  }

  /** Binding the same value a second time changes nothing further. */
  lemma BindServerDirIdempotent(v: Descriptors.Value, repoRoot: Path, cwd: Path, fs: FS)
    requires WellFormed(fs) && BindServerDir(v, repoRoot, cwd, fs).Ok?
    ensures var b := BindServerDir(v, repoRoot, cwd, fs).value;
            BindServerDir(v, repoRoot, cwd, b.fs) == Ok(b)
  {
  }
}

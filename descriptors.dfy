/** The assignment-time validators of descriptors.py, the variant the handlers import:
    ServerDir, ServerCore and MinMaxRam. Each is a function from the assigned value (and
    the filesystem) to the value that gets stored, or to the error raised before storing. */
module Descriptors {
  import opened Wrappers
  import opened FileSystem

  /** A value assigned to a descriptor. Python is dynamically typed: the value is either a
      `Path` built from some text or something else. */
  datatype Value = PathValue(text: string) | OtherValue

  /** A tuple of numbers, or anything else, assigned to MinMaxRam. */
  datatype RamValue = TupleValue(items: seq<int>) | OtherRamValue

  /** What a successful ServerDir assignment produces: the stored directory and the
      filesystem after it (the directory created if it was absent). */
  datatype Bound = Bound(dir: Path, fs: FS)

  function Abs(x: int): nat
  {
    if x < 0 then -x else x
  }

  /** The existence step the ServerDir variants share: an existing directory is kept as
      it is, an existing non-directory is rejected, an absent path is created. */
  function EnsureDirectory(fs: FS, p: Path): (r: Result<FS, Error>)
    requires WellFormed(fs)
    ensures IsDir(fs, p) ==> r == Ok(fs)
    ensures IsFile(fs, p) ==> r == Err(NotADirectory)
    ensures p !in fs ==> r == Mkdir(fs, p)
    ensures r.Ok? ==> IsDir(r.value, p) && WellFormed(r.value)
  {
    if p in fs then
      if fs[p].Dir? then Ok(fs) else Err(NotADirectory)
    else
      var made := Mkdir(fs, p);
      if made.Ok? then MkdirWellFormed(fs, p); made else made
  }

  /** ServerDir.__set__: the value must be a Path; its resolved form must lie below the
      directory holding descriptors.py (`relative_to` raises otherwise; the truthiness test
      on its result can never fail, since a path object is always true); then the
      existence step. */
  function BindServerDir(v: Value, scriptDir: Path, cwd: Path, fs: FS): (r: Result<Bound, Error>)
    requires WellFormed(fs)
    ensures !v.PathValue? ==> r == Err(WrongType)
    ensures v.PathValue? && !(scriptDir <= Resolve(cwd, v.text)) ==> r == Err(NotUnderRoot)
    ensures r.Ok? <==> v.PathValue? && scriptDir <= Resolve(cwd, v.text)
                       && EnsureDirectory(fs, Resolve(cwd, v.text)).Ok?
    ensures r.Ok? ==> r.value.dir == Resolve(cwd, v.text) && IsDir(r.value.fs, r.value.dir)
                      && WellFormed(r.value.fs)
    ensures r.Ok? ==> r.value.fs == fs || (r.value.dir !in fs && r.value.fs == fs[r.value.dir := Dir])
  {
    if !v.PathValue? then Err(WrongType)
    else
      var p := Resolve(cwd, v.text);
      if !(scriptDir <= p) then Err(NotUnderRoot)
      else match EnsureDirectory(fs, p)
        case Ok(fs') => Ok(Bound(p, fs'))
        case Err(e) => Err(e)
  }

  /** ServerCore.__set__: `value.resolve()` comes first (a non-path has no such method),
      then the owner must have a server directory, then the resolved path must lie below it.
      The file need not exist. */
  function BindServerCore(serverDir: Option<Path>, v: Value, cwd: Path): (r: Result<Path, Error>)
    ensures r.Ok? <==> v.PathValue? && serverDir.Some? && serverDir.value <= Resolve(cwd, v.text)
    ensures r.Ok? ==> r.value == Resolve(cwd, v.text)
    ensures !v.PathValue? ==> r == Err(NoAttribute)
    ensures v.PathValue? && serverDir.None? ==> r == Err(NoServerDir)
  {
    if !v.PathValue? then Err(NoAttribute)
    else
      var p := Resolve(cwd, v.text);
      match serverDir
      case None => Err(NoServerDir)
      case Some(d) => if d <= p then Ok(p) else Err(NotUnderServerDir)
  }

  /** MinMaxRam.__set__: a tuple of exactly two numbers, stored as their absolute values
      when the first magnitude is strictly below the second. */
  function ValidateRam(v: RamValue): (r: Result<(nat, nat), Error>)
    ensures !v.TupleValue? ==> r == Err(WrongType)
    ensures v.TupleValue? && |v.items| != 2 ==> r == Err(WrongArity)
    ensures r.Ok? <==> v.TupleValue? && |v.items| == 2 && Abs(v.items[0]) < Abs(v.items[1])
    ensures r.Ok? ==> r.value.0 < r.value.1
  {
    if !v.TupleValue? then Err(WrongType)
    else if |v.items| != 2 then Err(WrongArity)
    else
      var (lo, hi) := (Abs(v.items[0]), Abs(v.items[1]));
      if lo < hi then Ok((lo, hi)) else Err(MinNotBelowMax)
  }

  // ---------------------------------------------------------------------------
  // Properties
  // ---------------------------------------------------------------------------

  /** Binding the same value a second time leaves the filesystem as the first binding
      left it and stores the same directory. */
  lemma BindServerDirIdempotent(v: Value, scriptDir: Path, cwd: Path, fs: FS)
    requires WellFormed(fs) && BindServerDir(v, scriptDir, cwd, fs).Ok?
    ensures var b := BindServerDir(v, scriptDir, cwd, fs).value;
            BindServerDir(v, scriptDir, cwd, b.fs) == Ok(b)
  {
  }

  /** An existing directory below the script directory is bound without any change to the
      filesystem. */
  lemma BindExistingDirChangesNothing(v: Value, scriptDir: Path, cwd: Path, fs: FS)
    requires WellFormed(fs) && v.PathValue?
    requires scriptDir <= Resolve(cwd, v.text) && IsDir(fs, Resolve(cwd, v.text))
    ensures BindServerDir(v, scriptDir, cwd, fs) == Ok(Bound(Resolve(cwd, v.text), fs))
  {
  }

  /** An absent directory whose parent exists is created empty: nothing is below it. */
  lemma BindCreatesEmptyDir(v: Value, scriptDir: Path, cwd: Path, fs: FS)
    requires WellFormed(fs) && v.PathValue?
    requires scriptDir <= Resolve(cwd, v.text) && Resolve(cwd, v.text) !in fs
    requires Resolve(cwd, v.text) != [] && IsDir(fs, Parent(Resolve(cwd, v.text)))
    ensures BindServerDir(v, scriptDir, cwd, fs).Ok?
    ensures var b := BindServerDir(v, scriptDir, cwd, fs).value;
            ChildPaths(b.fs, b.dir) == {}
  {
    var p := Resolve(cwd, v.text);
    var b := BindServerDir(v, scriptDir, cwd, fs).value;
    forall q | q in b.fs && q != [] ensures Parent(q) != p {
      assert q == p || IsDir(fs, Parent(q));
    }
  }

  /** The core path is accepted exactly when it is at or below the bound directory, with no
      condition on the filesystem; in particular it may be absent. */
  lemma CoreNeedNotExist(dir: Path, v: Value, cwd: Path, fs: FS)
    requires v.PathValue? && dir <= Resolve(cwd, v.text) && Resolve(cwd, v.text) !in fs
    ensures BindServerCore(Some(dir), v, cwd) == Ok(Resolve(cwd, v.text))
  {
  }

  /** Only magnitudes matter: flipping the sign of either bound never changes the outcome. */
  lemma RamSignInsensitive(a: int, b: int)
    ensures ValidateRam(TupleValue([a, b])) == ValidateRam(TupleValue([-a, b]))
    ensures ValidateRam(TupleValue([a, b])) == ValidateRam(TupleValue([a, -b]))
  {
  }

  /** Reversed or equal magnitudes are rejected rather than swapped. */
  lemma RamNeverSwaps(a: int, b: int)
    requires Abs(a) >= Abs(b)
    ensures ValidateRam(TupleValue([a, b])) == Err(MinNotBelowMax)
  {
  }
}

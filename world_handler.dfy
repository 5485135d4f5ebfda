/** WorldHandler of handlers.py: saving the live world directories of a server into a tar
    archive, restoring them, listing and removing saved worlds. */
module WorldHandling {
  import opened Wrappers
  import opened FileSystem
  import Text
  import Descriptors

  const TarSuffix: string := ".tar"
  const WorldPrefix: string := "world"

  /** The members of an archive: each member name with the directory tree stored under it. */
  type Members = map<string, FS>

  // ---------------------------------------------------------------------------
  // Naming
  // ---------------------------------------------------------------------------

  /** `self.server_dir / Path(name).with_suffix(".tar")`, the entry it names. */
  function ArchivePath(dir: Path, name: string): (r: Result<Path, Error>)
    ensures r.Err? <==> Parts(name) == []
    ensures r.Ok? ==> r.value != [] && Text.Suffix(Name(r.value)) == Text.Suffix(Text.WithSuffix(Parts(name)[|Parts(name)| - 1], TarSuffix))
  {
    match SuffixedPath(dir, name, TarSuffix)
    case Err(e) => Err(e)
    case Ok(raw) => Ok(Locate(raw))
  }

  /** The archive path of `pack_current_world`, which first checks with `relative_to` that
      the path as written lies below the server directory; that check only rejects
      absolute names elsewhere (it is lexical, so "../x" passes), and the truthiness test
      on its result never fails. */
  function PackTarget(dir: Path, name: string): (r: Result<Path, Error>)
    ensures !IsAbsolute(name) ==> r == ArchivePath(dir, name)
    ensures r.Ok? ==> r == ArchivePath(dir, name)
  {
    match SuffixedPath(dir, name, TarSuffix)
    case Err(e) => Err(e)
    case Ok(raw) => if !(dir <= raw) then Err(NotUnderServerDir) else ArchivePath(dir, name)
  }

  /** A plain name is stored next to the live worlds, with its suffix replaced by ".tar". */
  lemma PlainArchivePath(dir: Path, name: string)
    requires Normalized(dir) && name != "" && name != "." && name != ".." && '/' !in name
    ensures PackTarget(dir, name) == Ok(dir + [Text.WithSuffix(name, TarSuffix)])
    ensures ArchivePath(dir, name) == Ok(dir + [Text.WithSuffix(name, TarSuffix)])
  {
    PlainSuffixedPath(dir, name, TarSuffix);
    assert !IsAbsolute(name);
  }

  // ---------------------------------------------------------------------------
  // Listing
  // ---------------------------------------------------------------------------

  /** What `glob("world*")` yields in the server directory: entries whose name starts with
      "world", of any kind. */
  function WorldGlob(fs: FS, dir: Path): (r: set<Path>)
    ensures forall p :: p in r <==> p in ChildPaths(fs, dir) && Text.StartsWith(Name(p), WorldPrefix)
  {
    set p | p in ChildPaths(fs, dir) && Text.StartsWith(Name(p), WorldPrefix)
  }

  /** The live worlds `_get_current_world` keeps: the directories among them. */
  function LiveWorlds(fs: FS, dir: Path): (r: set<Path>)
    ensures forall p :: p in r <==> p in WorldGlob(fs, dir) && IsDir(fs, p)
  {
    set p | p in WorldGlob(fs, dir) && IsDir(fs, p)
  }

  /** `_get_world_list`: the stems of the entries with suffix ".tar". */
  function WorldList(fs: FS, dir: Path): (r: set<string>)
    ensures forall p :: p in ChildPaths(fs, dir) && Text.Suffix(Name(p)) == TarSuffix
                        ==> Text.Stem(Name(p)) in r
    ensures forall s :: s in r ==> exists p :: p in ChildPaths(fs, dir) && Text.Suffix(Name(p)) == TarSuffix
                                             && Text.Stem(Name(p)) == s
  {
    set p | p in ChildPaths(fs, dir) && Text.Suffix(Name(p)) == TarSuffix :: Text.Stem(Name(p))
  }

  predicate Distinct(s: seq<Path>)
  {
    forall i, j :: 0 <= i < j < |s| ==> s[i] != s[j]
  }

  /** `s` lists every element of `set` once, in some order. */
  ghost predicate Enumerates(s: seq<Path>, elements: set<Path>)
  {
    Distinct(s) && forall p :: p in s <==> p in elements
  }

  /** A Python value compared by `in`: a path is never equal to a string. */
  datatype PyValue = PyStr(s: string) | PyPath(p: Path)

  /** The collision test of `pack_current_world` as written: the archive path (a Path)
      looked up among the world names (strings). */
  predicate CollisionGuard(fs: FS, dir: Path, archive: Path)
  {
    var packed := WorldList(fs, dir);
    |packed| > 0 && exists s :: s in packed && PyStr(s) == PyPath(archive)
  }

  // ---------------------------------------------------------------------------
  // Archives
  // ---------------------------------------------------------------------------

  /** `tarfile.open(p, mode="w")`: creates or truncates the file, an empty archive. */
  function OpenForWrite(fs: FS, p: Path): (r: Result<FS, Error>)
    requires p != []
    ensures r.Ok? <==> !IsDir(fs, p) && IsDir(fs, Parent(p))
    ensures r.Ok? ==> r.value == fs[p := Tar(map[])]
  {
    if p in fs && fs[p].Dir? then Err(IsADirectory)
    else if Parent(p) !in fs then Err(NoSuchFile)
    else if !fs[Parent(p)].Dir? then Err(NotADirectoryOs)
    else Ok(fs[p := Tar(map[])])
  }

  /** The `archive.add(dir, arcname=dir.name)` loop: each world's tree is stored under its
      name, without the archive itself (tarfile skips its own file); a world that no longer
      exists raises FileNotFoundError, leaving the members added so far. */
  function AddMembers(fs: FS, archive: Path, worlds: seq<Path>): (r: (FS, Option<Error>))
    requires archive in fs && fs[archive].Tar?
    ensures r.0.Keys == fs.Keys && r.0[archive].Tar?
    ensures forall q :: q in fs && q != archive ==> r.0[q] == fs[q]
    ensures r.1.Some? ==> r.1 == Some(NoSuchFile)
    decreases |worlds|
  {
    if worlds == [] then (fs, None)
    else
      var w := worlds[0];
      if w == archive then AddMembers(fs, archive, worlds[1..])
      else if w !in fs then (fs, Some(NoSuchFile))
      else
        var tree := Subtree(fs - {archive}, w);
        AddMembers(fs[archive := Tar(fs[archive].members[Name(w) := tree])], archive, worlds[1..])
  }

  /** Opening the archive, then adding the worlds. */
  function WriteArchive(fs: FS, archive: Path, worlds: seq<Path>): (r: (FS, Option<Error>))
    requires archive != []
    ensures r.1.None? ==> r.0.Keys == fs.Keys + {archive} && r.0[archive].Tar?
    ensures forall q :: q in fs && q != archive ==> q in r.0 && r.0[q] == fs[q]
  {
    match OpenForWrite(fs, archive)
    case Err(e) => (fs, Some(e))
    case Ok(empty) => AddMembers(empty, archive, worlds)
  }

  /** The `shutil.rmtree` loop over the listed worlds; the first failure stops it. */
  function DeleteAll(fs: FS, worlds: seq<Path>): (r: (FS, Option<Error>))
    ensures forall q :: q in r.0 ==> q in fs && r.0[q] == fs[q]
    ensures r.1.None? ==> forall w, q :: w in worlds && q in r.0 ==> !(w <= q)
    decreases |worlds|
  {
    if worlds == [] then (fs, None)
    else match RemoveTree(fs, worlds[0])
      case Err(e) => (fs, Some(e))
      case Ok(rest) =>
        assert forall w :: w in worlds ==> w == worlds[0] || w in worlds[1..];
        DeleteAll(rest, worlds[1..])
  }

  /** An archive member as tarfile extracts it: a tree whose every entry below the top sits
      in a directory of the tree (a lone file is a tree too). */
  predicate TreeShaped(t: FS)
  {
    [] in t && forall r :: r in t && r != [] ==> IsDir(t, Parent(r))
  }

  predicate ArchiveShaped(ms: Members)
  {
    forall m :: m in ms ==> TreeShaped(ms[m])
  }

  /** Whether `q` is the target of an archive entry extracted into `dir`. */
  predicate Placed(dir: Path, ms: Members, q: Path)
  {
    |dir| < |q| && dir <= q && q[|dir|] in ms && q[|dir| + 1..] in ms[q[|dir|]]
  }

  function Member(dir: Path, ms: Members, q: Path): Node
    requires Placed(dir, ms, q)
  {
    ms[q[|dir|]][q[|dir| + 1..]]
  }

  /** `extractall(path=dir)`: every entry is written below `dir` under its member name,
      replacing what was there. */
  function Extract(fs: FS, dir: Path, ms: Members): (r: FS)
    ensures forall q :: q in r <==> q in fs || Placed(dir, ms, q)
    ensures forall q :: q in r ==> r[q] == if Placed(dir, ms, q) then Member(dir, ms, q) else fs[q]
  {
    var keys := set m, t | m in ms && t in ms[m] :: dir + [m] + t;
    assert forall q :: q in keys <==> Placed(dir, ms, q) by {
      forall q ensures q in keys <==> Placed(dir, ms, q) {
        if Placed(dir, ms, q) {
          assert q == dir + [q[|dir|]] + q[|dir| + 1..];
        }
        if q in keys {
          var m, t :| m in ms && t in ms[m] && q == dir + [m] + t;
          assert q[|dir|] == m && q[|dir| + 1..] == t;
        }
      }
    }
    fs + map q | q in keys :: Member(dir, ms, q)
  }

  /** An entry extracted where an entry of the other kind exists: tarfile cannot replace a
      directory by a file or a file by a directory. */
  predicate Conflict(fs: FS, dir: Path, ms: Members)
  {
    exists q :: q in fs && Placed(dir, ms, q) && fs[q].Dir? != Member(dir, ms, q).Dir?
  }

  // ---------------------------------------------------------------------------
  // The operations, on the state after the live worlds were listed
  // ---------------------------------------------------------------------------

  /** The filesystem, the handler's `_current_world` list and the outcome after a pack. */
  datatype PackOutcome = PackOutcome(fs: FS, worlds: seq<Path>, result: Result<Option<Path>, Error>)

  /** The handler's list holds children of the server directory. */
  predicate ChildrenOf(worlds: seq<Path>, dir: Path)
  {
    forall w :: w in worlds ==> w != [] && Parent(w) == dir
  }

  /** `pack_current_world` once the archive path is known and the live worlds have been
      appended to `worlds`: the collision guard, the archive written when the list is not
      empty, and then, whenever the archive path exists (even one written by an earlier
      call), every listed world removed and the list cleared. */
  function PackResult(fs: FS, dir: Path, archive: Path, worlds: seq<Path>): (r: PackOutcome)
    requires WellFormed(fs) && IsDir(fs, dir) && archive != [] && ChildrenOf(worlds, dir)
    ensures WellFormed(r.fs) && IsDir(r.fs, dir) && ChildrenOf(r.worlds, dir)
    ensures r.worlds == worlds || (r.worlds == [] && r.result == Ok(Some(archive)))
  {
    if CollisionGuard(fs, dir, archive) then PackOutcome(fs, worlds, Err(AlreadyExists))
    else
      var written := if worlds == [] then (fs, None) else WriteArchive(fs, archive, worlds);
      WriteArchiveWellFormed(fs, archive, worlds);
      if written.1.Some? then PackOutcome(written.0, worlds, Err(written.1.value))
      else if archive !in written.0 then PackOutcome(written.0, worlds, Ok(None))
      else
        var deleted := DeleteAll(written.0, worlds);
        DeleteAllWellFormed(written.0, dir, worlds);
        if deleted.1.Some? then PackOutcome(deleted.0, worlds, Err(deleted.1.value))
        else PackOutcome(deleted.0, [], Ok(Some(archive)))
  }

  /** `unpack_world_from_archive` once the live worlds have been appended to `worlds`: any
      listed world refuses the restore; otherwise the archive must exist and be a tar
      archive, is extracted into the server directory and is then deleted. */
  function UnpackResult(fs: FS, dir: Path, name: string, worlds: seq<Path>): (r: Result<FS, Error>)
    requires WellFormed(fs) && IsDir(fs, dir)
    ensures worlds != [] ==> r == Err(AlreadyExists)
    ensures r.Ok? ==> WellFormed(r.value) && IsDir(r.value, dir)
  {
    if worlds != [] then Err(AlreadyExists)
    else match ArchivePath(dir, name)
      case Err(e) => Err(e)
      case Ok(archive) =>
        if archive !in fs then Err(NoSuchFile)
        else match fs[archive]
          case Dir => Err(IsADirectory)
          case File(_) => Err(NotATarArchive)
          case Tar(ms) =>
            if !ArchiveShaped(ms) then Err(NotATarArchive)
            else if Conflict(fs, dir, ms) then Err(ExtractConflict)
            else
              var extracted := Extract(fs, dir, ms);
              ExtractWellFormed(fs, dir, ms);
              var r := Unlink(extracted, archive);
              if r.Ok? then UnlinkWellFormed(extracted, archive); r else r
  }

  /** `remove_world`: the archive path must exist and is unlinked. */
  function RemoveWorldResult(fs: FS, dir: Path, name: string): (r: Result<FS, Error>)
    requires WellFormed(fs) && IsDir(fs, dir)
    ensures r.Ok? <==> ArchivePath(dir, name).Ok? && IsFile(fs, ArchivePath(dir, name).value)
    ensures r.Ok? ==> r.value == fs - {ArchivePath(dir, name).value}
                      && WellFormed(r.value) && IsDir(r.value, dir)
    ensures ArchivePath(dir, name).Ok? && ArchivePath(dir, name).value !in fs ==> r == Err(NoSuchFile)
  {
    match ArchivePath(dir, name)
    case Err(e) => Err(e)
    case Ok(archive) =>
      var r := Unlink(fs, archive);
      if r.Ok? then UnlinkWellFormed(fs, archive); r else r
  }

  // ---------------------------------------------------------------------------
  // Shape of the filesystem
  // ---------------------------------------------------------------------------

  /** Changing what non-directories hold keeps the shape. */
  lemma SameShapeWellFormed(fs: FS, fs': FS)
    requires WellFormed(fs) && fs'.Keys == fs.Keys
    requires forall q :: q in fs ==> (fs'[q].Dir? <==> fs[q].Dir?)
    ensures WellFormed(fs') && forall q :: IsDir(fs', q) <==> IsDir(fs, q)
  {
  }

  lemma WriteArchiveWellFormed(fs: FS, archive: Path, worlds: seq<Path>)
    requires WellFormed(fs) && archive != []
    ensures var r := WriteArchive(fs, archive, worlds);
            WellFormed(r.0) && forall q :: IsDir(r.0, q) <==> IsDir(fs, q)
  {
    if OpenForWrite(fs, archive).Ok? {
      var empty := fs[archive := Tar(map[])];
      assert WellFormed(empty) by {
        forall q | q in empty && q != [] ensures IsDir(empty, Parent(q)) {
          if q != archive {
            assert Parent(q) != archive;
          }
        }
      }
      var r := AddMembers(empty, archive, worlds);
      SameShapeWellFormed(empty, r.0);
    }
  }

  lemma {:induction false} DeleteAllWellFormed(fs: FS, dir: Path, worlds: seq<Path>)
    requires WellFormed(fs) && IsDir(fs, dir) && ChildrenOf(worlds, dir)
    ensures WellFormed(DeleteAll(fs, worlds).0) && IsDir(DeleteAll(fs, worlds).0, dir)
    decreases |worlds|
  {
    if worlds != [] && RemoveTree(fs, worlds[0]).Ok? {
      var w := worlds[0];
      assert w in worlds;
      RemoveTreeWellFormed(fs, w);
      assert !(w <= dir);
      assert ChildrenOf(worlds[1..], dir) by {
        forall v | v in worlds[1..] ensures v != [] && Parent(v) == dir {
          assert v in worlds;
        }
      }
      DeleteAllWellFormed(Without(fs, w), dir, worlds[1..]);
    }
  }

  /** Extracting a well-shaped archive without conflicts keeps the filesystem well formed. */
  lemma ExtractWellFormed(fs: FS, dir: Path, ms: Members)
    requires WellFormed(fs) && IsDir(fs, dir) && ArchiveShaped(ms) && !Conflict(fs, dir, ms)
    ensures WellFormed(Extract(fs, dir, ms)) && IsDir(Extract(fs, dir, ms), dir)
  {
    var r := Extract(fs, dir, ms);
    forall q | q in r && q != [] ensures IsDir(r, Parent(q)) {
      if Placed(dir, ms, q) {
        PlacedParent(fs, dir, ms, q);
      } else {
        KeptParent(fs, dir, ms, q);
      }
    }
  }

  lemma PlacedParent(fs: FS, dir: Path, ms: Members, q: Path)
    requires IsDir(fs, dir) && ArchiveShaped(ms) && Placed(dir, ms, q)
    ensures IsDir(Extract(fs, dir, ms), Parent(q))
  {
    var m, t := q[|dir|], q[|dir| + 1..];
    if t == [] {
      assert Parent(q) == dir;
      assert !Placed(dir, ms, dir);
    } else {
      var p := Parent(q);
      assert TreeShaped(ms[m]);
      assert t in ms[m];
      assert IsDir(ms[m], Parent(t));
      assert p == dir + [m] + Parent(t);
      assert p[|dir|] == m && p[|dir| + 1..] == Parent(t);
      assert Placed(dir, ms, p) && Member(dir, ms, p) == ms[m][Parent(t)];
    }
  }

  lemma KeptParent(fs: FS, dir: Path, ms: Members, q: Path)
    requires WellFormed(fs) && !Conflict(fs, dir, ms) && q in fs && q != []
    ensures IsDir(Extract(fs, dir, ms), Parent(q))
  {
    var p := Parent(q);
    assert IsDir(fs, p);
    if Placed(dir, ms, p) {
      assert !(fs[p].Dir? != Member(dir, ms, p).Dir?);
    }
  }

  // ---------------------------------------------------------------------------
  // Packing every live world and restoring them
  // ---------------------------------------------------------------------------

  /** The members the add loop collects when every world is present. */
  function Collected(ms: Members, base: FS, worlds: seq<Path>): Members
    decreases |worlds|
  {
    if worlds == [] then ms
    else Collected(ms[Name(worlds[0]) := Subtree(base, worlds[0])], base, worlds[1..])
  }

  predicate DistinctNames(worlds: seq<Path>)
  {
    forall i, j :: 0 <= i < j < |worlds| ==> Name(worlds[i]) != Name(worlds[j])
  }

  /** Whatever is below one of `ws` removed. */
  function WithoutAll(fs: FS, ws: set<Path>): (r: FS)
    ensures forall q :: q in r <==> q in fs && forall w :: w in ws ==> !(w <= q)
    ensures forall q :: q in r ==> r[q] == fs[q]
  {
    map q | q in fs && (forall w :: w in ws ==> !(w <= q)) :: fs[q]
  }

  lemma ChildrenDistinctNames(worlds: seq<Path>, dir: Path)
    requires Distinct(worlds) && ChildrenOf(worlds, dir)
    ensures DistinctNames(worlds)
  {
    forall i, j | 0 <= i < j < |worlds| ensures Name(worlds[i]) != Name(worlds[j]) {
      assert worlds[i] in worlds && worlds[j] in worlds;
      SiblingNames(worlds[i], worlds[j]);
    }
  }

  /** When every world is present and none is the archive, the add loop stores each of
      them and fails nowhere. */
  lemma {:induction false} AddMembersPresent(fs: FS, archive: Path, worlds: seq<Path>, ms: Members)
    requires archive in fs && fs[archive] == Tar(ms)
    requires forall w :: w in worlds ==> w in fs && w != archive
    ensures AddMembers(fs, archive, worlds) == (fs[archive := Tar(Collected(ms, fs - {archive}, worlds))], None)
    decreases |worlds|
  {
    if worlds == [] {
      assert fs[archive := Tar(ms)] == fs;
    } else {
      var w := worlds[0];
      assert w in worlds;
      var ms' := ms[Name(w) := Subtree(fs - {archive}, w)];
      var fs' := fs[archive := Tar(ms')];
      assert AddMembers(fs, archive, worlds) == AddMembers(fs', archive, worlds[1..]);
      SameBase(fs, archive, Tar(ms'));
      forall v | v in worlds[1..] ensures v in fs' && v != archive {
        assert v in worlds;
      }
      AddMembersPresent(fs', archive, worlds[1..], ms');
      var c := Collected(ms', fs - {archive}, worlds[1..]);
      assert Collected(ms, fs - {archive}, worlds) == c;
      Overwrite(fs, archive, Tar(ms'), Tar(c));
    }
  }

  lemma SameBase(fs: FS, p: Path, n: Node)
    ensures fs[p := n] - {p} == fs - {p}
  {
  }

  lemma Overwrite(fs: FS, p: Path, n: Node, n': Node)
    ensures fs[p := n][p := n'] == fs[p := n']
  {
  }

  function NamesOf(worlds: seq<Path>): set<string>
  {
    set w | w in worlds :: Name(w)
  }

  /** The collected members: one per world, under the world's name, holding its tree. */
  lemma {:induction false} CollectedValues(ms: Members, base: FS, worlds: seq<Path>)
    requires DistinctNames(worlds)
    ensures Collected(ms, base, worlds).Keys == ms.Keys + NamesOf(worlds)
    ensures forall w :: w in worlds ==> Collected(ms, base, worlds)[Name(w)] == Subtree(base, w)
    ensures forall m :: m in ms && m !in NamesOf(worlds) ==> Collected(ms, base, worlds)[m] == ms[m]
    decreases |worlds|
  {
    if worlds != [] {
      var w0, tail := worlds[0], worlds[1..];
      var n0 := Name(w0);
      var ms' := ms[n0 := Subtree(base, w0)];
      TailNames(worlds);
      var c := Collected(ms', base, tail);
      assert Collected(ms, base, worlds) == c;
      CollectedValues(ms', base, tail);
      forall w | w in worlds ensures c[Name(w)] == Subtree(base, w) {
        if w != w0 {
          assert w in tail;
        }
      }
    }
  }

  /** The names after the first of distinct names are distinct and differ from it. */
  lemma TailNames(worlds: seq<Path>)
    requires worlds != [] && DistinctNames(worlds)
    ensures DistinctNames(worlds[1..]) && Name(worlds[0]) !in NamesOf(worlds[1..])
    ensures NamesOf(worlds) == {Name(worlds[0])} + NamesOf(worlds[1..])
    ensures forall w :: w in worlds ==> w == worlds[0] || w in worlds[1..]
  {
    var w0, tail := worlds[0], worlds[1..];
    forall i, j | 0 <= i < j < |tail| ensures Name(tail[i]) != Name(tail[j]) {
      assert tail[i] == worlds[i + 1] && tail[j] == worlds[j + 1];
    }
    forall w | w in tail ensures Name(w) != Name(w0) {
      var j :| 0 <= j < |tail| && tail[j] == w;
      assert worlds[j + 1] == w;
    }
    assert worlds == [w0] + tail;
  }

  function Elements(worlds: seq<Path>): (r: set<Path>)
    ensures forall p :: p in r <==> p in worlds
  {
    set w | w in worlds
  }

  /** Removing distinct sibling directories one after the other removes all of them. */
  lemma {:induction false} DeleteAllPresent(fs: FS, dir: Path, worlds: seq<Path>)
    requires Distinct(worlds) && ChildrenOf(worlds, dir)
    requires forall w :: w in worlds ==> IsDir(fs, w)
    ensures DeleteAll(fs, worlds) == (WithoutAll(fs, Elements(worlds)), None)
    decreases |worlds|
  {
    if worlds == [] {
      assert Elements(worlds) == {};
      assert WithoutAll(fs, {}) == fs;
    } else {
      var w0, tail := worlds[0], worlds[1..];
      assert w0 in worlds;
      var fs' := Without(fs, w0);
      assert DeleteAll(fs, worlds) == DeleteAll(fs', tail);
      TailStillPresent(fs, dir, worlds);
      DeleteAllPresent(fs', dir, tail);
      ElementsStep(worlds);
      WithoutAllStep(fs, w0, Elements(tail));
    }
  }

  lemma ElementsStep(worlds: seq<Path>)
    requires worlds != []
    ensures Elements(worlds) == Elements(worlds[1..]) + {worlds[0]}
  {
    assert worlds == [worlds[0]] + worlds[1..];
    forall p ensures p in Elements(worlds) <==> p in Elements(worlds[1..]) || p == worlds[0] {
    }
  }

  lemma TailStillPresent(fs: FS, dir: Path, worlds: seq<Path>)
    requires worlds != [] && Distinct(worlds) && ChildrenOf(worlds, dir)
    requires forall w :: w in worlds ==> IsDir(fs, w)
    ensures Distinct(worlds[1..]) && ChildrenOf(worlds[1..], dir)
    ensures forall v :: v in worlds[1..] ==> IsDir(Without(fs, worlds[0]), v)
  {
    var w0, tail := worlds[0], worlds[1..];
    assert w0 in worlds;
    forall i, j | 0 <= i < j < |tail| ensures tail[i] != tail[j] {
      assert tail[i] == worlds[i + 1] && tail[j] == worlds[j + 1];
    }
    forall v | v in tail ensures v in worlds && v != w0 && |v| == |w0| {
      var j :| 0 <= j < |tail| && tail[j] == v;
      assert worlds[j + 1] == v;
    }
  }

  lemma WithoutAllStep(fs: FS, w0: Path, ws: set<Path>)
    ensures WithoutAll(Without(fs, w0), ws) == WithoutAll(fs, ws + {w0})
  {
    var a, b := WithoutAll(Without(fs, w0), ws), WithoutAll(fs, ws + {w0});
    assert a.Keys == b.Keys;
    assert forall q :: q in a ==> a[q] == b[q];
  }

  /** A directory's tree has the shape tarfile extracts. */
  lemma SubtreeShaped(fs: FS, w: Path)
    requires WellFormed(fs) && w in fs
    ensures TreeShaped(Subtree(fs, w))
  {
    var t := Subtree(fs, w);
    assert w + [] == w;
    forall r | r in t && r != [] ensures IsDir(t, Parent(r)) {
      assert w + r in fs;
      assert Parent(w + r) == w + Parent(r);
    }
  }

  /** The live worlds of a filesystem with the same directories and fewer entries are
      among the original ones. */
  lemma LiveWorldsShrink(fs: FS, fs': FS, dir: Path)
    requires forall q :: q in fs' ==> q in fs && (fs'[q].Dir? <==> fs[q].Dir?)
    ensures LiveWorlds(fs', dir) <= LiveWorlds(fs, dir)
  {
  }

  /** Which entries an archive of the worlds `ws` of `dir` places back. */
  lemma PlacedIff(fs: FS, dir: Path, ws: set<Path>, ms: Members, q: Path)
    requires forall w :: w in ws ==> w in fs && w != [] && Parent(w) == dir
    requires forall m :: m in ms <==> exists w :: w in ws && Name(w) == m
    requires forall w :: w in ws ==> ms[Name(w)] == Subtree(fs, w)
    ensures Placed(dir, ms, q) <==> q in fs && exists w :: w in ws && w <= q
    ensures Placed(dir, ms, q) ==> Member(dir, ms, q) == fs[q]
  {
    if Placed(dir, ms, q) {
      PlacedInWorld(fs, dir, ws, ms, q);
    }
    if q in fs && exists w :: w in ws && w <= q {
      var w :| w in ws && w <= q;
      WorldPlaced(fs, dir, ws, ms, q, w);
    }
  }

  lemma PlacedInWorld(fs: FS, dir: Path, ws: set<Path>, ms: Members, q: Path)
    requires forall w :: w in ws ==> w in fs && w != [] && Parent(w) == dir
    requires forall m :: m in ms <==> exists w :: w in ws && Name(w) == m
    requires forall w :: w in ws ==> ms[Name(w)] == Subtree(fs, w)
    requires Placed(dir, ms, q)
    ensures q in fs && Member(dir, ms, q) == fs[q]
    ensures exists w :: w in ws && w <= q
  {
    var m, t := q[|dir|], q[|dir| + 1..];
    var w :| w in ws && Name(w) == m;
    assert w == Parent(w) + [Name(w)] == dir + [m];
    assert q == w + t;
  }

  lemma WorldPlaced(fs: FS, dir: Path, ws: set<Path>, ms: Members, q: Path, w: Path)
    requires forall w :: w in ws ==> w in fs && w != [] && Parent(w) == dir
    requires forall w :: w in ws ==> Name(w) in ms && ms[Name(w)] == Subtree(fs, w)
    requires q in fs && w in ws && w <= q
    ensures Placed(dir, ms, q) && Member(dir, ms, q) == fs[q]
  {
    assert w == Parent(w) + [Name(w)] == dir + [Name(w)];
    var t := q[|w|..];
    assert q == w + t;
    assert q[|dir|] == Name(w) && q[|dir| + 1..] == t;
  }

  /** Extracting such an archive over the filesystem the pack left (worlds removed, the
      archive written) meets no conflict and gives back every removed entry. */
  lemma ExtractRestores(fs: FS, dir: Path, ws: set<Path>, ms: Members, archive: Path)
    requires forall w :: w in ws ==> w in fs && w != [] && Parent(w) == dir
    requires forall m :: m in ms <==> exists w :: w in ws && Name(w) == m
    requires forall w :: w in ws ==> ms[Name(w)] == Subtree(fs, w)
    requires archive !in fs && forall w :: w in ws ==> !(w <= archive)
    ensures var left := WithoutAll(fs[archive := Tar(ms)], ws);
            !Conflict(left, dir, ms) && Extract(left, dir, ms) == fs[archive := Tar(ms)]
  {
    PlacesBackOf(fs, dir, ws, ms);
    LeftNotPlaced(fs, dir, ws, ms, archive);
    ExtractLeft(fs, dir, ws, ms, archive);
  }

  /** The archive places back exactly the entries at or below the worlds, as they were. */
  ghost predicate PlacesBack(fs: FS, dir: Path, ws: set<Path>, ms: Members)
  {
    forall q :: (Placed(dir, ms, q) <==> q in fs && exists w :: w in ws && w <= q)
                && (Placed(dir, ms, q) ==> Member(dir, ms, q) == fs[q])
  }

  lemma PlacesBackOf(fs: FS, dir: Path, ws: set<Path>, ms: Members)
    requires forall w :: w in ws ==> w in fs && w != [] && Parent(w) == dir
    requires forall m :: m in ms <==> exists w :: w in ws && Name(w) == m
    requires forall w :: w in ws ==> ms[Name(w)] == Subtree(fs, w)
    ensures PlacesBack(fs, dir, ws, ms)
  {
    forall q ensures (Placed(dir, ms, q) <==> q in fs && exists w :: w in ws && w <= q)
                     && (Placed(dir, ms, q) ==> Member(dir, ms, q) == fs[q])
    {
      PlacedIff(fs, dir, ws, ms, q);
    }
  }

  /** Nothing left after the worlds are removed is an extraction target. */
  lemma LeftNotPlaced(fs: FS, dir: Path, ws: set<Path>, ms: Members, archive: Path)
    requires PlacesBack(fs, dir, ws, ms)
    ensures !Conflict(WithoutAll(fs[archive := Tar(ms)], ws), dir, ms)
  {
    var left := WithoutAll(fs[archive := Tar(ms)], ws);
    forall q | q in left ensures !Placed(dir, ms, q) {
    }
  }

  /** Extracting over what is left gives back the written filesystem. */
  lemma ExtractLeft(fs: FS, dir: Path, ws: set<Path>, ms: Members, archive: Path)
    requires PlacesBack(fs, dir, ws, ms)
    requires archive !in fs && forall w :: w in ws ==> !(w <= archive)
    ensures Extract(WithoutAll(fs[archive := Tar(ms)], ws), dir, ms) == fs[archive := Tar(ms)]
  {
    var written := fs[archive := Tar(ms)];
    var left := WithoutAll(written, ws);
    var e := Extract(left, dir, ms);
    assert archive in left;
    assert e.Keys == written.Keys;
    assert forall q :: q in e ==> e[q] == written[q];
  }

  /** The pack of every live world into an archive next to them that is not a directory:
      whatever the archive held before is replaced by exactly the live worlds. */
  lemma PackAllWorlds(fs: FS, dir: Path, archive: Path, worlds: seq<Path>)
    requires WellFormed(fs) && IsDir(fs, dir) && archive != [] && Parent(archive) == dir
    requires !IsDir(fs, archive) && Enumerates(worlds, LiveWorlds(fs, dir)) && worlds != []
    ensures ChildrenOf(worlds, dir) && DistinctNames(worlds)
    ensures forall w :: w in LiveWorlds(fs, dir) ==> !(w <= archive)
    ensures PackResult(fs, dir, archive, worlds)
            == PackOutcome(WithoutAll(fs[archive := Tar(Collected(map[], fs - {archive}, worlds))],
                                      LiveWorlds(fs, dir)),
                           [], Ok(Some(archive)))
  {
    var ws := LiveWorlds(fs, dir);
    assert ChildrenOf(worlds, dir);
    ChildrenDistinctNames(worlds, dir);
    var empty := fs[archive := Tar(map[])];
    assert OpenForWrite(fs, archive) == Ok(empty);
    forall w | w in worlds ensures w in empty && w != archive {
      assert w in ws;
    }
    AddMembersPresent(empty, archive, worlds, map[]);
    SameBase(fs, archive, Tar(map[]));
    var ms := Collected(map[], fs - {archive}, worlds);
    var written := fs[archive := Tar(ms)];
    Overwrite(fs, archive, Tar(map[]), Tar(ms));
    assert WriteArchive(fs, archive, worlds) == (written, None);
    forall w | w in worlds ensures IsDir(written, w) {
      assert w in ws;
    }
    DeleteAllPresent(written, dir, worlds);
    assert Elements(worlds) == ws;
    var left := WithoutAll(written, ws);
    forall w | w in ws ensures !(w <= archive) {
      assert |w| == |archive| && w in fs && w != archive;
      assert archive[..|w|] == archive;
    }
    assert archive in left;
  }

  /** After that pack no live world is left. */
  lemma NoLiveWorldLeft(fs: FS, dir: Path, archive: Path, ms: Members)
    requires archive !in fs
    ensures LiveWorlds(WithoutAll(fs[archive := Tar(ms)], LiveWorlds(fs, dir)), dir) == {}
  {
    var ws := LiveWorlds(fs, dir);
    var left := WithoutAll(fs[archive := Tar(ms)], ws);
    forall p | p in LiveWorlds(left, dir) ensures p in ws {
      assert p != archive;
    }
    forall p | p in left ensures p !in ws {
      assert p <= p;
    }
  }

  /** What that pack leaves is well formed and holds the archive. */
  lemma PackedShape(fs: FS, dir: Path, archive: Path, ms: Members)
    requires WellFormed(fs) && IsDir(fs, dir) && archive != [] && Parent(archive) == dir
    requires archive !in fs
    ensures forall w :: w in LiveWorlds(fs, dir) ==> !(w <= archive) && !(w <= dir) && w != []
    ensures var left := WithoutAll(fs[archive := Tar(ms)], LiveWorlds(fs, dir));
            WellFormed(left) && IsDir(left, dir) && archive in left && left[archive] == Tar(ms)
  {
    var ws := LiveWorlds(fs, dir);
    forall w | w in ws ensures !(w <= archive) && !(w <= dir) && w != [] {
      assert |w| == |archive| && w in fs && w != archive;
      assert archive[..|w|] == archive;
    }
    PutFileWellFormed(fs, archive, Tar(ms));
    WithoutAllWellFormed(fs[archive := Tar(ms)], ws);
  }

  lemma WithoutAllWellFormed(fs: FS, ws: set<Path>)
    requires WellFormed(fs) && forall w :: w in ws ==> w != []
    ensures WellFormed(WithoutAll(fs, ws))
  {
    var left := WithoutAll(fs, ws);
    forall q | q in left && q != [] ensures IsDir(left, Parent(q)) {
      assert Parent(q) <= q;
    }
  }

  /** The collected members of the live worlds are shaped trees, one per world name. */
  lemma CollectedShaped(fs: FS, dir: Path, worlds: seq<Path>)
    requires WellFormed(fs)
    requires Enumerates(worlds, LiveWorlds(fs, dir)) && DistinctNames(worlds)
    ensures var ms := Collected(map[], fs, worlds);
            && ArchiveShaped(ms)
            && (forall m :: m in ms <==> exists w :: w in LiveWorlds(fs, dir) && Name(w) == m)
            && (forall w :: w in LiveWorlds(fs, dir) ==> ms[Name(w)] == Subtree(fs, w))
  {
    var ms := Collected(map[], fs, worlds);
    CollectedValues(map[], fs, worlds);
    forall m | m in ms ensures TreeShaped(ms[m]) {
      var w :| w in worlds && Name(w) == m;
      SubtreeShaped(fs, w);
    }
  }

  /** How `UnpackResult` proceeds on a well-shaped archive that meets no conflict. */
  lemma UnpackOfArchive(fs: FS, dir: Path, name: string, archive: Path, ms: Members)
    requires WellFormed(fs) && IsDir(fs, dir) && ArchivePath(dir, name) == Ok(archive)
    requires archive in fs && fs[archive] == Tar(ms) && ArchiveShaped(ms) && !Conflict(fs, dir, ms)
    ensures UnpackResult(fs, dir, name, []) == Unlink(Extract(fs, dir, ms), archive)
  {
  }

  /** Unpacking that archive restores the filesystem as it was before the pack. */
  lemma UnpackRestores(fs: FS, dir: Path, name: string, archive: Path, worlds: seq<Path>)
    requires WellFormed(fs) && IsDir(fs, dir)
    requires ArchivePath(dir, name) == Ok(archive) && Parent(archive) == dir && archive !in fs
    requires Enumerates(worlds, LiveWorlds(fs, dir)) && ChildrenOf(worlds, dir) && DistinctNames(worlds)
    ensures var left := WithoutAll(fs[archive := Tar(Collected(map[], fs, worlds))], LiveWorlds(fs, dir));
            WellFormed(left) && IsDir(left, dir)
            && UnpackResult(left, dir, name, []) == Ok(fs)
  {
    var ws := LiveWorlds(fs, dir);
    var ms := Collected(map[], fs, worlds);
    var written := fs[archive := Tar(ms)];
    var left := WithoutAll(written, ws);
    PackedShape(fs, dir, archive, ms);
    assert ArchiveShaped(ms) && !Conflict(left, dir, ms) && Extract(left, dir, ms) == written by {
      CollectedShaped(fs, dir, worlds);
      ExtractRestores(fs, dir, ws, ms, archive);
    }
    assert Unlink(written, archive) == Ok(fs) by {
      assert fs[archive := Tar(ms)] - {archive} == fs;
    }
    UnpackOfArchive(left, dir, name, archive, ms);
  }

  /** Packing every live world into a fresh archive and unpacking it again leaves the
      filesystem exactly as it was; in between no live world remains and the list is
      empty, so the restore is not refused. */
  lemma PackThenUnpack(fs: FS, dir: Path, name: string, worlds: seq<Path>)
    requires WellFormed(fs) && IsDir(fs, dir) && Normalized(dir)
    requires name != "" && name != "." && name != ".." && '/' !in name
    requires dir + [Text.WithSuffix(name, TarSuffix)] !in fs
    requires Enumerates(worlds, LiveWorlds(fs, dir)) && worlds != []
    ensures PackTarget(dir, name) == Ok(dir + [Text.WithSuffix(name, TarSuffix)])
    ensures var archive := dir + [Text.WithSuffix(name, TarSuffix)];
            var out := PackResult(fs, dir, archive, worlds);
            && out.result == Ok(Some(archive)) && out.worlds == []
            && LiveWorlds(out.fs, dir) == {}
            && UnpackResult(out.fs, dir, name, []) == Ok(fs)
  {
    PlainArchivePath(dir, name);
    var archive := dir + [Text.WithSuffix(name, TarSuffix)];
    assert Parent(archive) == dir;
    PackAllWorlds(fs, dir, archive, worlds);
    assert fs - {archive} == fs;
    NoLiveWorldLeft(fs, dir, archive, Collected(map[], fs, worlds));
    UnpackRestores(fs, dir, name, archive, worlds);
  }

  /** With the list empty there is nothing to archive: without an archive of that name
      nothing is written and None is returned; an archive left from earlier is returned
      as it is, and nothing changes either way. */
  lemma PackWithoutWorlds(fs: FS, dir: Path, archive: Path)
    requires WellFormed(fs) && IsDir(fs, dir) && archive != []
    ensures archive !in fs ==> PackResult(fs, dir, archive, []) == PackOutcome(fs, [], Ok(None))
    ensures archive in fs ==> PackResult(fs, dir, archive, []) == PackOutcome(fs, [], Ok(Some(archive)))
  {
    CollisionGuardNeverFires(fs, dir, archive);
  }

  /** With no live world listed, a missing `NAME.tar` is FileNotFoundError and nothing is
      extracted. */
  lemma UnpackMissingArchive(fs: FS, dir: Path, name: string)
    requires WellFormed(fs) && IsDir(fs, dir)
    requires ArchivePath(dir, name).Ok? && ArchivePath(dir, name).value !in fs
    ensures UnpackResult(fs, dir, name, []) == Err(NoSuchFile)
  {
  }

  // ---------------------------------------------------------------------------
  // What the code does against what it evidently means
  // ---------------------------------------------------------------------------

  /** The collision guard compares a path with strings and so never fires. */
  lemma CollisionGuardNeverFires(fs: FS, dir: Path, archive: Path)
    ensures !CollisionGuard(fs, dir, archive)
  {
  }

  /** A saved world of the same name is listed by `_get_world_list`, yet packing over it
      succeeds and replaces its contents: members saved before that are not live worlds
      now are lost. */
  lemma PackOverwritesSavedWorld(fs: FS, dir: Path, name: string, worlds: seq<Path>)
    requires WellFormed(fs) && IsDir(fs, dir) && Normalized(dir)
    requires name != "" && name != "." && name != ".." && '/' !in name
    requires var archive := dir + [Text.WithSuffix(name, TarSuffix)];
             archive in fs && fs[archive].Tar?
    requires Enumerates(worlds, LiveWorlds(fs, dir)) && worlds != []
    ensures var archive := dir + [Text.WithSuffix(name, TarSuffix)];
            && Text.Stem(Name(archive)) in WorldList(fs, dir)
            && PackTarget(dir, name) == Ok(archive)
            && var out := PackResult(fs, dir, archive, worlds);
               && out.result == Ok(Some(archive)) && archive in out.fs && out.fs[archive].Tar?
               && forall m :: m in fs[archive].members && m !in NamesOf(worlds)
                              ==> m !in out.fs[archive].members
  {
    PlainArchivePath(dir, name);
    var archive := dir + [Text.WithSuffix(name, TarSuffix)];
    assert Parent(archive) == dir && Name(archive) == Text.WithSuffix(name, TarSuffix);
    IntendedGuardIffSaved(fs, dir, name);
    OverwrittenMembers(fs, dir, archive, worlds);
  }

  lemma OverwrittenMembers(fs: FS, dir: Path, archive: Path, worlds: seq<Path>)
    requires WellFormed(fs) && IsDir(fs, dir) && archive != [] && Parent(archive) == dir
    requires archive in fs && fs[archive].Tar?
    requires Enumerates(worlds, LiveWorlds(fs, dir)) && worlds != []
    ensures var out := PackResult(fs, dir, archive, worlds);
            && out.result == Ok(Some(archive)) && archive in out.fs
            && out.fs[archive] == Tar(Collected(map[], fs - {archive}, worlds))
            && Collected(map[], fs - {archive}, worlds).Keys == NamesOf(worlds)
  {
    PackAllWorlds(fs, dir, archive, worlds);
    var ms := Collected(map[], fs - {archive}, worlds);
    var written := fs[archive := Tar(ms)];
    var left := WithoutAll(written, LiveWorlds(fs, dir));
    assert archive in left && left[archive] == Tar(ms);
    CollectedValues(map[], fs - {archive}, worlds);
  }

  /** A name with ".tar" put in place of its suffix has suffix ".tar" and keeps its stem. */
  lemma TarNameHasTarSuffix(name: string)
    requires name != ""
    ensures Text.Suffix(Text.WithSuffix(name, TarSuffix)) == TarSuffix
    ensures Text.Stem(Text.WithSuffix(name, TarSuffix)) == Text.Stem(name)
  {
    assert TarSuffix[0] == '.' && TarSuffix[1..] == "tar";
    assert Text.PlainSuffix(TarSuffix);
    Text.WithSuffixRoundTrip(name, TarSuffix, TarSuffix);
  }

  /** With one live world, an unpack is refused and leaves that world in the list; the next
      pack lists it again (its only listing is [w]), stores it, removes it, then fails on the duplicate entry with
      FileNotFoundError: the world is gone, the archive holds it, and the list keeps both
      entries, so every later unpack is refused. */
  lemma StaleListBreaksPack(fs: FS, dir: Path, name: string, w: Path)
    requires WellFormed(fs) && IsDir(fs, dir) && Normalized(dir)
    requires name != "" && name != "." && name != ".." && '/' !in name
    requires dir + [Text.WithSuffix(name, TarSuffix)] !in fs
    requires LiveWorlds(fs, dir) == {w}
    ensures Enumerates([w], LiveWorlds(fs, dir))
    ensures forall n :: UnpackResult(fs, dir, n, [w]) == Err(AlreadyExists)
    ensures var archive := dir + [Text.WithSuffix(name, TarSuffix)];
            var out := PackResult(fs, dir, archive, [w] + [w]);
            && PackTarget(dir, name) == Ok(archive)
            && out.result == Err(NoSuchFile) && out.worlds == [w, w]
            && w in fs && w !in out.fs && IsFile(out.fs, archive)
  {
    PlainArchivePath(dir, name);
    var archive := dir + [Text.WithSuffix(name, TarSuffix)];
    assert w in LiveWorlds(fs, dir);
    assert Parent(archive) == dir;
    DuplicateEntryFails(fs, dir, archive, w);
  }

  /** Packing a list that names one live world twice into a fresh archive. */
  lemma DuplicateEntryFails(fs: FS, dir: Path, archive: Path, w: Path)
    requires WellFormed(fs) && IsDir(fs, dir) && archive != [] && Parent(archive) == dir
    requires archive !in fs && w in LiveWorlds(fs, dir)
    ensures var out := PackResult(fs, dir, archive, [w] + [w]);
            && out.result == Err(NoSuchFile) && out.worlds == [w, w]
            && w in fs && w !in out.fs && IsFile(out.fs, archive)
  {
    assert w != archive;
    var empty := fs[archive := Tar(map[])];
    assert OpenForWrite(fs, archive) == Ok(empty);
    AddMembersPresent(empty, archive, [w, w], map[]);
    var written := empty[archive := Tar(Collected(map[], empty - {archive}, [w, w]))];
    assert WriteArchive(fs, archive, [w] + [w]) == (written, None);
    assert IsDir(written, w);
    var once := Without(written, w);
    assert w !in once;
    assert DeleteAll(written, [w, w]) == DeleteAll(once, [w]);
    assert DeleteAll(once, [w]) == (once, Some(NoSuchFile));
    assert !(w <= archive) by {
      assert |w| == |archive|;
      assert archive[..|w|] == archive;
    }
    assert IsFile(once, archive);
  }

  /** The guard the code evidently means: the archive's stem among the saved worlds. */
  predicate IntendedGuard(fs: FS, dir: Path, archive: Path)
  {
    Text.Stem(Name(archive)) in WorldList(fs, dir)
  }

  /** `pack_current_world` as evidently intended: an existing saved world of that name is
      refused, and the worlds packed are the ones listed by this call alone. */
  function PackIntended(fs: FS, dir: Path, archive: Path, listed: seq<Path>): (r: PackOutcome)
    requires WellFormed(fs) && IsDir(fs, dir) && archive != [] && ChildrenOf(listed, dir)
    ensures r.worlds == [] && WellFormed(r.fs) && IsDir(r.fs, dir)
  {
    if IntendedGuard(fs, dir, archive) then PackOutcome(fs, [], Err(AlreadyExists))
    else
      var out := PackResult(fs, dir, archive, listed);
      PackOutcome(out.fs, [], out.result)
  }

  /** The intended guard fires exactly when the archive already exists. */
  lemma IntendedGuardIffSaved(fs: FS, dir: Path, name: string)
    requires name != "" && name != "." && name != ".." && '/' !in name
    ensures var archive := dir + [Text.WithSuffix(name, TarSuffix)];
            IntendedGuard(fs, dir, archive) <==> archive in fs
  {
    var archive := dir + [Text.WithSuffix(name, TarSuffix)];
    assert Parent(archive) == dir && Name(archive) == Text.WithSuffix(name, TarSuffix);
    TarNameHasTarSuffix(name);
    if IntendedGuard(fs, dir, archive) {
      SavedFromGuard(fs, dir, archive);
    }
    if archive in fs {
      assert archive in ChildPaths(fs, dir);
    }
  }

  lemma SavedFromGuard(fs: FS, dir: Path, archive: Path)
    requires archive != [] && Parent(archive) == dir && Text.Suffix(Name(archive)) == TarSuffix
    requires IntendedGuard(fs, dir, archive)
    ensures archive in fs
  {
    var stem := Text.Stem(Name(archive));
    var p := SavedWithStem(fs, dir, stem);
    SameStemAndSuffix(Name(p), Name(archive));
    if p != archive {
      SiblingNames(p, archive);
    }
  }

  /** The entry behind a name in the world list. */
  lemma SavedWithStem(fs: FS, dir: Path, stem: string) returns (p: Path)
    requires stem in WorldList(fs, dir)
    ensures p in ChildPaths(fs, dir) && Text.Suffix(Name(p)) == TarSuffix && Text.Stem(Name(p)) == stem
  {
    p :| p in ChildPaths(fs, dir) && Text.Suffix(Name(p)) == TarSuffix && Text.Stem(Name(p)) == stem;
  }

  lemma SameStemAndSuffix(a: string, b: string)
    requires Text.Stem(a) == Text.Stem(b) && Text.Suffix(a) == Text.Suffix(b)
    ensures a == b
  {
    Text.StemSuffix(a);
    Text.StemSuffix(b);
  }

  /** The intended pack refuses to overwrite a saved world and changes nothing. */
  lemma PackIntendedRefusesSaved(fs: FS, dir: Path, name: string, listed: seq<Path>)
    requires WellFormed(fs) && IsDir(fs, dir) && ChildrenOf(listed, dir)
    requires name != "" && name != "." && name != ".." && '/' !in name
    requires dir + [Text.WithSuffix(name, TarSuffix)] in fs
    ensures PackIntended(fs, dir, dir + [Text.WithSuffix(name, TarSuffix)], listed)
            == PackOutcome(fs, [], Err(AlreadyExists))
  {
    IntendedGuardIffSaved(fs, dir, name);
  }

  /** With the intended pack, whatever happened before (a refused unpack included), a
      fresh listing of the live worlds is packed once and restored exactly. */
  lemma PackIntendedThenUnpack(fs: FS, dir: Path, name: string, listed: seq<Path>)
    requires WellFormed(fs) && IsDir(fs, dir) && Normalized(dir)
    requires name != "" && name != "." && name != ".." && '/' !in name
    requires dir + [Text.WithSuffix(name, TarSuffix)] !in fs
    requires Enumerates(listed, LiveWorlds(fs, dir)) && listed != []
    ensures ChildrenOf(listed, dir)
    ensures var archive := dir + [Text.WithSuffix(name, TarSuffix)];
            var out := PackIntended(fs, dir, archive, listed);
            && out.result == Ok(Some(archive))
            && LiveWorlds(out.fs, dir) == {}
            && UnpackResult(out.fs, dir, name, []) == Ok(fs)
  {
    assert ChildrenOf(listed, dir);
    IntendedGuardIffSaved(fs, dir, name);
    PackThenUnpack(fs, dir, name, listed);
  }

  // ---------------------------------------------------------------------------
  // The handler
  // ---------------------------------------------------------------------------

  /** The `archive.add` loop on the disk: the worlds added one by one to the open archive. */
  method WriteMembers(d: Disk, archive: Path, worlds: seq<Path>) returns (err: Option<Error>)
    requires archive in d.fs && d.fs[archive].Tar?
    modifies d
    ensures (d.fs, err) == AddMembers(old(d.fs), archive, worlds)
  {
    ghost var fs0 := d.fs;
    var i := 0;
    while i < |worlds|
      invariant 0 <= i <= |worlds|
      invariant archive in d.fs && d.fs[archive].Tar?
      invariant AddMembers(d.fs, archive, worlds[i..]) == AddMembers(fs0, archive, worlds)
      decreases |worlds| - i
    {
      var w := worlds[i];
      assert worlds[i..][1..] == worlds[i + 1..];
      if w != archive {
        if w !in d.fs {
          return Some(NoSuchFile);
        }
        var tree := Subtree(d.fs - {archive}, w);
        d.fs := d.fs[archive := Tar(d.fs[archive].members[Name(w) := tree])];
      }
      i := i + 1;
    }
    return None;
  }

  /** The `shutil.rmtree` loop on the disk; the first failure stops it. */
  method DeleteWorlds(d: Disk, worlds: seq<Path>) returns (err: Option<Error>)
    modifies d
    ensures (d.fs, err) == DeleteAll(old(d.fs), worlds)
  {
    ghost var fs0 := d.fs;
    var i := 0;
    while i < |worlds|
      invariant 0 <= i <= |worlds|
      invariant DeleteAll(d.fs, worlds[i..]) == DeleteAll(fs0, worlds)
      decreases |worlds| - i
    {
      assert worlds[i..][1..] == worlds[i + 1..];
      match RemoveTree(d.fs, worlds[i]) {
        case Err(e) =>
          return Some(e);
        case Ok(rest) =>
          d.fs := rest;
      }
      i := i + 1;
    }
    return None;
  }

  class WorldHandler {
    const serverDir: Path
    const disk: Disk
    /** `_current_world`: the live worlds found so far and not yet packed away. */
    var currentWorld: seq<Path>

    ghost predicate Valid()
      reads this, disk
    {
      disk.Valid() && IsDir(disk.fs, serverDir) && ChildrenOf(currentWorld, serverDir)
    }

    /** `WorldHandler(server_dir)` once the descriptor accepted the directory. */
    constructor (dir: Path, d: Disk)
      requires d.Valid() && IsDir(d.fs, dir)
      ensures serverDir == dir && disk == d && currentWorld == [] && Valid()
    {
      serverDir, disk, currentWorld := dir, d, [];
    }

    /** `WorldHandler(server_dir)`: the assignment goes through descriptors.py's ServerDir,
        which may create the directory; a rejected value raises and no handler exists.
        A new handler starts with an empty `_current_world`. */
    static method Create(v: Descriptors.Value, scriptDir: Path, cwd: Path, d: Disk)
      returns (r: Result<WorldHandler, Error>)
      requires d.Valid()
      modifies d
      ensures d.Valid()
      ensures match Descriptors.BindServerDir(v, scriptDir, cwd, old(d.fs))
              case Ok(b) => r.Ok? && fresh(r.value) && r.value.serverDir == b.dir
                            && r.value.disk == d && d.fs == b.fs
                            && r.value.currentWorld == [] && r.value.Valid()
              case Err(e) => r == Err(e) && d.fs == old(d.fs)
    {
      match Descriptors.BindServerDir(v, scriptDir, cwd, d.fs)
      case Ok(b) =>
        d.fs := b.fs;
        var h := new WorldHandler(b.dir, d);
        r := Ok(h);
      case Err(e) =>
        r := Err(e);
    }

    /** `_get_current_world`: appends the live worlds, in directory order, to the list and
        returns the list, or None when it is empty. */
    method GetCurrentWorld() returns (r: Option<seq<Path>>, ghost listed: seq<Path>)
      requires Valid()
      modifies this`currentWorld
      ensures Valid()
      ensures Enumerates(listed, LiveWorlds(disk.fs, serverDir))
      ensures currentWorld == old(currentWorld) + listed
      ensures r == if currentWorld == [] then None else Some(currentWorld)
    {
      var todo := WorldGlob(disk.fs, serverDir);
      listed := [];
      while todo != {}
        invariant todo <= WorldGlob(disk.fs, serverDir)
        invariant Distinct(listed)
        invariant forall p :: p in listed <==> p in LiveWorlds(disk.fs, serverDir) && p !in todo
        invariant currentWorld == old(currentWorld) + listed
        invariant ChildrenOf(currentWorld, serverDir)
        decreases todo
      {
        var p :| p in todo;
        todo := todo - {p};
        if IsDir(disk.fs, p) {
          currentWorld := currentWorld + [p];
          listed := listed + [p];
        }
      }
      r := if currentWorld == [] then None else Some(currentWorld);
    }

    /** `pack_current_world(name)`: returns the archive path when it exists at the end,
        None otherwise. */
    method Pack(name: string) returns (r: Result<Option<Path>, Error>, ghost listed: seq<Path>)
      requires Valid()
      modifies this`currentWorld, disk
      ensures Valid()
      ensures match PackTarget(serverDir, name)
              case Err(e) => r == Err(e) && disk.fs == old(disk.fs) && currentWorld == old(currentWorld)
              case Ok(archive) =>
                Enumerates(listed, LiveWorlds(old(disk.fs), serverDir))
                && PackResult(old(disk.fs), serverDir, archive, old(currentWorld) + listed)
                   == PackOutcome(disk.fs, currentWorld, r)
    {
      listed := [];
      var target := PackTarget(serverDir, name);
      if target.Err? {
        return Err(target.error), listed;
      }
      var archive := target.value;
      var _, found := GetCurrentWorld();
      listed := found;
      ghost var fs0 := disk.fs;
      ghost var worlds := currentWorld;
      if CollisionGuard(disk.fs, serverDir, archive) {
        return Err(AlreadyExists), listed;
      }
      if currentWorld != [] {
        var created := OpenForWrite(disk.fs, archive);
        if created.Err? {
          return Err(created.error), listed;
        }
        disk.fs := created.value;
        var failed := WriteMembers(disk, archive, currentWorld);
        if failed.Some? {
          WriteArchiveWellFormed(fs0, archive, currentWorld);
          return Err(failed.value), listed;
        }
      }
      WriteArchiveWellFormed(fs0, archive, currentWorld);
      if archive in disk.fs {
        ghost var fs2 := disk.fs;
        var failed := DeleteWorlds(disk, currentWorld);
        if failed.Some? {
          DeleteAllWellFormed(fs2, serverDir, currentWorld);
          return Err(failed.value), listed;
        }
        DeleteAllWellFormed(fs2, serverDir, currentWorld);
        currentWorld := [];
        return Ok(Some(archive)), listed;
      }
      return Ok(None), listed;
    }

    /** `unpack_world_from_archive(name)`. */
    method Unpack(name: string) returns (err: Option<Error>, ghost listed: seq<Path>)
      requires Valid()
      modifies this`currentWorld, disk
      ensures Valid()
      ensures Enumerates(listed, LiveWorlds(old(disk.fs), serverDir))
      ensures currentWorld == old(currentWorld) + listed
      ensures match UnpackResult(old(disk.fs), serverDir, name, currentWorld)
              case Ok(fs') => err == None && disk.fs == fs'
              case Err(e) => err == Some(e) && disk.fs == old(disk.fs)
    {
      var _, found := GetCurrentWorld();
      listed := found;
      match UnpackResult(disk.fs, serverDir, name, currentWorld) {
        case Ok(fs') =>
          disk.fs := fs';
          err := None;
        case Err(e) =>
          err := Some(e);
      }
    }

    /** `remove_world(name)`. */
    method RemoveWorld(name: string) returns (err: Option<Error>)
      requires Valid()
      modifies disk
      ensures Valid()
      ensures match RemoveWorldResult(old(disk.fs), serverDir, name)
              case Ok(fs') => err == None && disk.fs == fs'
              case Err(e) => err == Some(e) && disk.fs == old(disk.fs)
    {
      match RemoveWorldResult(disk.fs, serverDir, name) {
        case Ok(fs') =>
          disk.fs := fs';
          err := None;
        case Err(e) =>
          err := Some(e);
      }
    }
  }
}

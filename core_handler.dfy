/** CoreHandler of handlers.py: finding, naming and removing the server core, the `.jar`
    file the server runs. */
module CoreHandling {
  import opened Wrappers
  import opened FileSystem
  import Text
  import Descriptors

  const JarSuffix: string := ".jar"

  /** The candidates of `find_core`: entries directly in `dir` that are not directories and
      whose pathlib suffix is ".jar". */
  function Cores(fs: FS, dir: Path): (r: set<Path>)
    ensures forall p :: p in r <==> p in ChildPaths(fs, dir) && !fs[p].Dir? && Text.Suffix(Name(p)) == JarSuffix
  {
    set p | p in ChildPaths(fs, dir) && !fs[p].Dir? && Text.Suffix(Name(p)) == JarSuffix
  }

  /** What `glob("*.jar")` in `remove_core` matches: every entry directly in `dir` whose name
      ends in ".jar", directories included (pathlib's `*` also matches a leading dot and
      the empty string, so ".jar" itself matches). */
  function JarGlob(fs: FS, dir: Path): (r: set<Path>)
    ensures forall p :: p in r <==> p in ChildPaths(fs, dir) && Text.EndsWith(Name(p), JarSuffix)
  {
    set p | p in ChildPaths(fs, dir) && Text.EndsWith(Name(p), JarSuffix)
  }

  /** The download URL `install_paper_core` builds. */
  function PaperUrl(version: string, build: string): string
  {
    "https://api.papermc.io/v2/projects/paper/versions/" + version + "/builds/" + build
    + "/downloads/paper-" + version + "-" + build + ".jar"
  }

  /** The file `install_other_core` writes into the server directory: the last segment of
      the URL. */
  function DownloadName(url: string): (r: string)
    ensures '/' !in r
  {
    Text.LastPiece(url, '/')
  }

  class CoreHandler {
    const serverDir: Path
    const disk: Disk

    ghost predicate Valid()
      reads this, disk
    {
      disk.Valid() && IsDir(disk.fs, serverDir)
    }

    constructor (dir: Path, d: Disk)
      requires d.Valid() && IsDir(d.fs, dir)
      ensures serverDir == dir && disk == d && Valid()
    {
      serverDir, disk := dir, d;
    }

    /** `CoreHandler(server_dir)`: the assignment goes through descriptors.py's ServerDir,
        which may create the directory; a rejected value raises and no handler exists. */
    static method Create(v: Descriptors.Value, scriptDir: Path, cwd: Path, d: Disk)
      returns (r: Result<CoreHandler, Error>)
      requires d.Valid()
      modifies d
      ensures d.Valid()
      ensures match Descriptors.BindServerDir(v, scriptDir, cwd, old(d.fs))
              case Ok(b) => r.Ok? && fresh(r.value) && r.value.serverDir == b.dir
                            && r.value.disk == d && d.fs == b.fs && r.value.Valid()
              case Err(e) => r == Err(e) && d.fs == old(d.fs)
    {
      match Descriptors.BindServerDir(v, scriptDir, cwd, d.fs)
      case Ok(b) =>
        d.fs := b.fs;
        var h := new CoreHandler(b.dir, d);
        r := Ok(h);
      case Err(e) =>
        r := Err(e);
    }

    /** `find_core`: the greatest candidate in pathlib's order (all candidates share the
        server directory, so their names decide), or None when there is none. */
    method FindCore() returns (core: Option<Path>)
      requires Valid()
      ensures core.None? <==> Cores(disk.fs, serverDir) == {}
      ensures core.Some? ==> core.value in Cores(disk.fs, serverDir)
      ensures core.Some? ==> forall p :: p in Cores(disk.fs, serverDir) && p != core.value
                                         ==> Text.Less(Name(p), Name(core.value))
    {
      var todo := ChildPaths(disk.fs, serverDir);
      var all := Cores(disk.fs, serverDir);
      core := None;
      while todo != {}
        invariant todo <= ChildPaths(disk.fs, serverDir)
        invariant core.None? ==> all <= todo
        invariant core.Some? ==> core.value in all && core.value !in todo
        invariant core.Some? ==> forall p :: p in all && p !in todo && p != core.value
                                             ==> Text.Less(Name(p), Name(core.value))
        decreases todo
      {
        var p :| p in todo;
        todo := todo - {p};
        if !disk.fs[p].Dir? && Text.Suffix(Name(p)) == JarSuffix {
          if core.None? {
            core := Some(p);
          } else {
            var c := core.value;
            SiblingNames(p, c);
            Text.LessTotal(Name(p), Name(c));
            if Text.Less(Name(c), Name(p)) {
              forall q | q in all && q !in todo && q != p
                ensures Text.Less(Name(q), Name(p))
              {
                if q != c {
                  Text.LessTransitive(Name(q), Name(c), Name(p));
                }
              }
              core := Some(p);
            }
          }
        }
      }
    }

    /** `remove_core(name)` with a non-empty name: the entry `server_dir / name` must
        exist (ValueError otherwise) and is unlinked, which fails on a directory. Without a
        name (None or ""): every entry `glob("*.jar")` listed is unlinked in some order; one
        that is a directory raises IsADirectoryError after the entries before it were
        removed. */
    method RemoveCore(name: Option<string>) returns (err: Option<Error>, ghost removed: set<Path>)
      requires Valid()
      modifies disk
      ensures Valid()
      ensures name.Some? && name.value != "" ==>
                var target := Resolve(serverDir, name.value);
                && (target !in old(disk.fs) ==> err == Some(MissingCore))
                && (target in old(disk.fs) && old(disk.fs)[target].Dir? ==> err == Some(IsADirectory))
                && (err == None <==> IsFile(old(disk.fs), target))
                && disk.fs == (if err == None then old(disk.fs) - {target} else old(disk.fs))
      ensures (name.None? || name.value == "") ==>
                var glob := JarGlob(old(disk.fs), serverDir);
                && (err == None <==> forall p :: p in glob ==> IsFile(old(disk.fs), p))
                && (err != None ==> err == Some(IsADirectory))
                && removed <= glob
                && (err == None ==> removed == glob)
                && (forall p :: p in removed ==> IsFile(old(disk.fs), p))
                && disk.fs == old(disk.fs) - removed
    {
      removed := {};
      if name.Some? && name.value != "" {
        var target := Resolve(serverDir, name.value);
        if target !in disk.fs {
          return Some(MissingCore), removed;
        }
        match Unlink(disk.fs, target) {
          case Ok(fs') =>
            UnlinkWellFormed(disk.fs, target);
            disk.fs := fs';
            removed := {target};
            err := None;
          case Err(e) =>
            err := Some(e);
        }
        return;
      }
      ghost var fs0 := disk.fs;
      var todo := JarGlob(disk.fs, serverDir);
      ghost var glob := todo;
      while todo != {}
        invariant disk.Valid() && IsDir(disk.fs, serverDir)
        invariant todo <= glob && removed == glob - todo
        invariant forall p :: p in removed ==> IsFile(fs0, p)
        invariant disk.fs == fs0 - removed
        decreases todo
      {
        var p :| p in todo;
        todo := todo - {p};
        assert p in disk.fs && p != serverDir;
        match Unlink(disk.fs, p)
        case Ok(fs') =>
          UnlinkWellFormed(disk.fs, p);
          disk.fs := fs';
          removed := removed + {p};
        case Err(e) =>
          return Some(e), removed;
      }
      err := None;
    }
  }

  // ---------------------------------------------------------------------------
  // Properties
  // ---------------------------------------------------------------------------

  /** Every candidate of `find_core` is matched by the glob of the bulk removal, so a
      bulk removal that succeeds leaves no core behind. */
  lemma BulkRemovalLeavesNoCore(fs: FS, dir: Path, removed: set<Path>)
    requires removed == JarGlob(fs, dir)
    ensures Cores(fs - removed, dir) == {}
  {
    forall p | p in Cores(fs, dir) ensures p in removed {
      var n := Name(p);
      var i := Text.LastIndexOf(n, '.');
      assert n[i..] == JarSuffix;
      assert n[|n| - |JarSuffix|..] == n[i..];
    }
  }

  /** The glob is wider than the candidates: a directory named like a core, or a file
      named just ".jar", is removed in bulk but never found. */
  lemma GlobWiderThanCores(fs: FS, dir: Path)
    requires IsDir(fs, dir) && dir + [JarSuffix] !in fs
    ensures var fs' := fs[dir + [JarSuffix] := File("")];
            dir + [JarSuffix] in JarGlob(fs', dir) && dir + [JarSuffix] !in Cores(fs', dir)
  {
    var p := dir + [JarSuffix];
    assert Parent(p) == dir && Name(p) == JarSuffix;
    assert JarSuffix[0] == '.' && JarSuffix[1] == 'j' && JarSuffix[2] == 'a' && JarSuffix[3] == 'r';
    assert Text.LastIndexOf(JarSuffix, '.') == 0;
  }

  /** The order is textual, not numeric: of two builds of one version, build 9 sorts above
      build 10, so `find_core` prefers the older build. */
  lemma BuildOrderIsTextual()
    ensures Text.Less("paper-1.21-10.jar", "paper-1.21-9.jar")
  {
    assert "paper-1.21-10.jar"[11..] == "10.jar" && "paper-1.21-9.jar"[11..] == "9.jar";
  }

  /** The URL of a Paper build ends in the file name "paper-VERSION-BUILD.jar". */
  lemma PaperDownloadName(version: string, build: string)
    requires '/' !in version && '/' !in build
    ensures DownloadName(PaperUrl(version, build)) == "paper-" + version + "-" + build + ".jar"
  {
    var head := "https://api.papermc.io/v2/projects/paper/versions/" + version + "/builds/" + build
                + "/downloads";
    var tail := "paper-" + version + "-" + build + ".jar";
    assert "/downloads/paper-" == "/downloads" + ['/'] + "paper-";
    assert PaperUrl(version, build) == head + ['/'] + tail;
    Text.LastPieceAfter(head, '/', tail);
  }

  /** A Paper core lands in the server directory under the name "paper-VERSION-BUILD.jar"
      and is then a candidate of `find_core`. */
  lemma PaperCoreIsFound(version: string, build: string, fs: FS, dir: Path)
    requires '/' !in version && '/' !in build
    requires IsDir(fs, dir) && dir + [DownloadName(PaperUrl(version, build))] !in fs
    ensures DownloadName(PaperUrl(version, build)) == "paper-" + version + "-" + build + ".jar"
    ensures var p := dir + [DownloadName(PaperUrl(version, build))];
            p in Cores(fs[p := File("")], dir)
  {
    PaperDownloadName(version, build);
    var stem := "paper-" + version + "-" + build;
    Text.SuffixOfConcat(stem, JarSuffix);
    var p := dir + [stem + JarSuffix];
    assert Parent(p) == dir && Name(p) == stem + JarSuffix;
  }
}

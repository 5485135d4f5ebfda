/** The filesystem the handlers work on, as seen through pathlib: a map from resolved
    absolute paths (the segments below "/") to what is stored there. A tar archive is a
    file whose contents are kept abstractly, as a map from member name to the directory
    tree stored under that name. */
module FileSystem {
  import opened Wrappers
  import Text

  /** A resolved absolute path, as its segments below the root. */
  type Path = seq<string>

  datatype Node =
    | File(text: string)
    | Dir
    | Tar(members: map<string, map<seq<string>, Node>>)

  type FS = map<Path, Node>

  function Parent(p: Path): Path
    requires p != []
  {
    p[..|p| - 1]
  }

  /** `PurePath.name`: the last segment, "" for the root. */
  function Name(p: Path): string
  {
    if p == [] then "" else p[|p| - 1]
  }

  predicate IsDir(fs: FS, p: Path)
  {
    p in fs && fs[p].Dir?
  }

  /** Anything that is not a directory: a plain file or an archive. */
  predicate IsFile(fs: FS, p: Path)
  {
    p in fs && !fs[p].Dir?
  }

  /** The root is a directory and every other entry sits in a directory. The same shape
      describes a directory tree relative to its own top, as stored in an archive. */
  ghost predicate WellFormed(fs: FS)
  {
    IsDir(fs, []) && forall p :: p in fs && p != [] ==> IsDir(fs, Parent(p))
  }

  /** `d.iterdir()` as a set of paths. */
  function ChildPaths(fs: FS, d: Path): (r: set<Path>)
    ensures forall p :: p in r <==> p in fs && p != [] && Parent(p) == d
  {
    set p | p in fs && p != [] && Parent(p) == d
  }

  /** Different entries of one directory have different names. */
  lemma SiblingNames(p: Path, q: Path)
    requires p != [] && q != [] && Parent(p) == Parent(q) && p != q
    ensures Name(p) != Name(q)
  {
    assert p == Parent(p) + [Name(p)] && q == Parent(q) + [Name(q)];
  }

  // ---------------------------------------------------------------------------
  // Raw paths and resolution
  // ---------------------------------------------------------------------------

  /** The segments pathlib keeps when it parses `Path(text)`: it splits at "/" and drops
      empty and "." segments. */
  function Parts(text: string): (r: seq<string>)
    ensures forall k :: 0 <= k < |r| ==> r[k] != "" && r[k] != "." && '/' !in r[k]
  {
    Keep(Text.Split(text, '/'))
  }

  function Keep(segs: seq<string>): (r: seq<string>)
    requires forall k :: 0 <= k < |segs| ==> '/' !in segs[k]
    ensures forall k :: 0 <= k < |r| ==> r[k] != "" && r[k] != "." && '/' !in r[k]
  {
    if segs == [] then []
    else if segs[0] == "" || segs[0] == "." then Keep(segs[1..])
    else [segs[0]] + Keep(segs[1..])
  }

  /** `PurePath.is_absolute()`. */
  predicate IsAbsolute(text: string)
  {
    |text| > 0 && text[0] == '/'
  }

  /** A resolved path: no empty, "." or ".." segment and no separator inside a segment. */
  predicate Normalized(p: Path)
  {
    forall k :: 0 <= k < |p| ==> p[k] != "" && p[k] != "." && p[k] != ".." && '/' !in p[k]
  }

  /** Applies segments to a base directory: ".." goes up (and stays at the root), any
      other segment goes down. */
  function Walk(base: Path, segs: seq<string>): Path
    decreases |segs|
  {
    if segs == [] then base
    else if segs[0] == ".." then Walk(if base == [] then [] else Parent(base), segs[1..])
    else Walk(base + [segs[0]], segs[1..])
  }

  /** `Path(text).resolve()` with the process's working directory `cwd`, on a filesystem
      without symbolic links. */
  function Resolve(cwd: Path, text: string): Path
  {
    Walk(if IsAbsolute(text) then [] else cwd, Parts(text))
  }

  /** pathlib keeps a plain segment as the one part of its path. */
  lemma PartsOfSegment(seg: string)
    requires seg != "" && seg != "." && '/' !in seg
    ensures Parts(seg) == [seg]
  {
    assert Text.FirstIndexOf(seg, '/') == -1;
    assert Text.Split(seg, '/') == [seg];
    assert [seg][1..] == [];
    assert Keep([seg]) == [seg] + Keep([]);
  }

  /** Resolution yields a resolved path. */
  lemma {:induction false} WalkNormalized(base: Path, segs: seq<string>)
    requires Normalized(base)
    requires forall k :: 0 <= k < |segs| ==> segs[k] != "" && segs[k] != "." && '/' !in segs[k]
    ensures Normalized(Walk(base, segs))
    decreases |segs|
  {
    if segs != [] {
      if segs[0] == ".." {
        WalkNormalized(if base == [] then [] else Parent(base), segs[1..]);
      } else {
        WalkNormalized(base + [segs[0]], segs[1..]);
      }
    }
  }

  lemma ResolveNormalized(cwd: Path, text: string)
    requires Normalized(cwd)
    ensures Normalized(Resolve(cwd, text))
  {
    WalkNormalized(if IsAbsolute(text) then [] else cwd, Parts(text));
  }

  /** Segments without ".." just extend the base. */
  lemma {:induction false} WalkPlain(base: Path, segs: seq<string>)
    requires forall k :: 0 <= k < |segs| ==> segs[k] != ".."
    ensures Walk(base, segs) == base + segs
    decreases |segs|
  {
    if segs != [] {
      WalkPlain(base + [segs[0]], segs[1..]);
      assert base + [segs[0]] + segs[1..] == base + segs;
    }
  }

  /** `dir / Path(name).with_suffix(ext)` as written, before any lookup: an absolute name
      discards `dir`, and the last part of the name gets the new suffix. A name without
      parts ("", ".") has no last part, and pathlib raises ValueError. */
  function SuffixedPath(dir: Path, name: string, ext: string): (r: Result<seq<string>, Error>)
    ensures r.Err? <==> Parts(name) == []
    ensures r.Err? ==> r.error == EmptyName
    ensures r.Ok? ==> r.value != [] && r.value[|r.value| - 1] == Text.WithSuffix(Parts(name)[|Parts(name)| - 1], ext)
    ensures r.Ok? && !IsAbsolute(name) ==> dir <= r.value
  {
    var parts := Parts(name);
    if parts == [] then Err(EmptyName)
    else
      var base := if IsAbsolute(name) then [] else dir;
      Ok(base + parts[..|parts| - 1] + [Text.WithSuffix(parts[|parts| - 1], ext)])
  }

  /** The entry a path written as `raw` names when the operating system looks it up: the
      ".." steps of its directory part are taken; the last part is kept. */
  function Locate(raw: seq<string>): (r: Path)
    requires raw != []
    ensures r != [] && Name(r) == raw[|raw| - 1]
  {
    Walk([], raw[..|raw| - 1]) + [raw[|raw| - 1]]
  }

  /** Two suffixes of one name are siblings, and different suffixes give different
      entries. */
  lemma SuffixedSiblings(dir: Path, name: string, ext: string, ext': string)
    requires SuffixedPath(dir, name, ext).Ok? && ext != ext'
    ensures var p, q := Locate(SuffixedPath(dir, name, ext).value), Locate(SuffixedPath(dir, name, ext').value);
            Parent(p) == Parent(q) && p != q
  {
    var parts := Parts(name);
    var stem := Text.Stem(parts[|parts| - 1]);
    var p, q := Locate(SuffixedPath(dir, name, ext).value), Locate(SuffixedPath(dir, name, ext').value);
    assert Name(p) == stem + ext && Name(q) == stem + ext';
    assert (stem + ext)[|stem|..] == ext;
    assert (stem + ext')[|stem|..] == ext';
  }

  /** A plain name (one segment, no "..") below a resolved directory is its child, with
      the suffix replaced. */
  lemma PlainSuffixedPath(dir: Path, name: string, ext: string)
    requires Normalized(dir) && name != "" && name != "." && name != ".." && '/' !in name
    ensures SuffixedPath(dir, name, ext) == Ok(dir + [Text.WithSuffix(name, ext)])
    ensures Locate(dir + [Text.WithSuffix(name, ext)]) == dir + [Text.WithSuffix(name, ext)]
  {
    PartsOfSegment(name);
    var raw := dir + [Text.WithSuffix(name, ext)];
    var parts := Parts(name);
    assert parts[..|parts| - 1] == [] && parts[|parts| - 1] == name;
    assert dir + parts[..|parts| - 1] + [Text.WithSuffix(name, ext)] == raw;
    assert raw[..|raw| - 1] == dir && raw[|raw| - 1] == Text.WithSuffix(name, ext);
    WalkPlain([], dir);
    assert [] + dir == dir;
  }

  // ---------------------------------------------------------------------------
  // Operations on the filesystem
  // ---------------------------------------------------------------------------

  /** `p.mkdir()` without `parents` or `exist_ok`. */
  function Mkdir(fs: FS, p: Path): (r: Result<FS, Error>)
    requires p != []
    ensures r.Ok? <==> p !in fs && IsDir(fs, Parent(p))
    ensures r.Ok? ==> r.value == fs[p := Dir]
  {
    if p in fs then Err(AlreadyExists)
    else if Parent(p) !in fs then Err(NoSuchFile)
    else if !fs[Parent(p)].Dir? then Err(NotADirectoryOs)
    else Ok(fs[p := Dir])
  }

  /** `p.unlink()`. */
  function Unlink(fs: FS, p: Path): (r: Result<FS, Error>)
    ensures r.Ok? <==> IsFile(fs, p)
    ensures r.Ok? ==> r.value == fs - {p}
  {
    if p !in fs then Err(NoSuchFile)
    else if fs[p].Dir? then Err(IsADirectory)
    else Ok(fs - {p})
  }

  /** What `shutil.rmtree(p)` leaves: everything not at or below `p`. */
  function Without(fs: FS, p: Path): (r: FS)
    ensures forall q :: q in r <==> q in fs && !(p <= q)
    ensures forall q :: q in r ==> r[q] == fs[q]
  {
    map q | q in fs && !(p <= q) :: fs[q]
  }

  /** `shutil.rmtree(p)`. */
  function RemoveTree(fs: FS, p: Path): (r: Result<FS, Error>)
    ensures r.Ok? <==> IsDir(fs, p)
    ensures r.Ok? ==> r.value == Without(fs, p)
  {
    if p !in fs then Err(NoSuchFile)
    else if !fs[p].Dir? then Err(NotADirectoryOs)
    else Ok(Without(fs, p))
  }

  /** The tree below `p`, with paths relative to `p` (what `tarfile.add(p)` records). */
  function Subtree(fs: FS, p: Path): (t: FS)
    ensures forall r :: r in t <==> p + r in fs
    ensures forall r :: r in t ==> t[r] == fs[p + r]
  {
    var keys := set q | q in fs && p <= q :: q[|p|..];
    assert forall r :: p + r in fs ==> r in keys by {
      forall r | p + r in fs ensures r in keys {
        var q := p + r;
        assert q[|p|..] == r;
      }
    }
    assert forall r :: r in keys ==> p + r in fs by {
      forall r | r in keys ensures p + r in fs {
        var q :| q in fs && p <= q && q[|p|..] == r;
        assert q == p + r;
      }
    }
    map r | r in keys :: fs[p + r]
  }

  /** Places a relative tree below `p`, replacing whatever was at the same paths
      (what extracting an archive member does). */
  function Graft(fs: FS, p: Path, t: FS): (r: FS)
    ensures forall q :: q in r <==> q in fs || (p <= q && q[|p|..] in t)
    ensures forall q :: q in r ==> r[q] == if p <= q && q[|p|..] in t then t[q[|p|..]] else fs[q]
  {
    var placed := map q | q in (set s | s in t :: p + s) :: t[q[|p|..]];
    assert forall q :: q in placed <==> p <= q && q[|p|..] in t by {
      forall q ensures q in placed <==> p <= q && q[|p|..] in t {
        if p <= q && q[|p|..] in t { assert q == p + q[|p|..]; }
      }
    }
    fs + placed
  }

  /** `src.rename(dst)` (POSIX rename, which replaces a file or an empty directory at
      `dst`). */
  function Rename(fs: FS, src: Path, dst: Path): (r: Result<FS, Error>)
    requires dst != []
    ensures r.Ok? ==> src in fs
  {
    if src !in fs then Err(NoSuchFile)
    else if src == dst then Ok(fs)
    else if !IsDir(fs, Parent(dst)) then Err(NoSuchFile)
    else if !fs[src].Dir? then
      if IsDir(fs, dst) then Err(IsADirectory) else Ok((fs - {src})[dst := fs[src]])
    else if IsFile(fs, dst) then Err(NotADirectoryOs)
    else if dst in fs && ChildPaths(fs, dst) != {} then Err(DirectoryNotEmpty)
    else if src <= dst then Err(InvalidMove)
    else Ok(Graft(Without(Without(fs, src), dst), dst, Subtree(fs, src)))
  }

  // ---------------------------------------------------------------------------
  // Properties of the operations
  // ---------------------------------------------------------------------------

  lemma MkdirWellFormed(fs: FS, p: Path)
    requires WellFormed(fs) && p != [] && Mkdir(fs, p).Ok?
    ensures WellFormed(Mkdir(fs, p).value)
  {
  }

  /** A file has nothing below it, so removing it keeps the shape. */
  /** Writing a file into an existing directory keeps the tree well formed. */
  lemma PutFileWellFormed(fs: FS, p: Path, n: Node)
    requires WellFormed(fs) && p != [] && IsDir(fs, Parent(p)) && !IsDir(fs, p) && !n.Dir?
    ensures WellFormed(fs[p := n])
    ensures forall q :: IsDir(fs[p := n], q) <==> IsDir(fs, q)
  {
    var r := fs[p := n];
    forall q | q in r && q != [] ensures IsDir(r, Parent(q)) {
      if q != p {
        assert IsDir(fs, Parent(q));
      }
    }
  }

  lemma UnlinkWellFormed(fs: FS, p: Path)
    requires WellFormed(fs) && Unlink(fs, p).Ok?
    ensures WellFormed(Unlink(fs, p).value)
  {
    var r := Unlink(fs, p).value;
    forall q | q in r && q != [] ensures IsDir(r, Parent(q)) {
      assert IsDir(fs, Parent(q));
    }
  }

  /** A rename that succeeds keeps the shape: a file lands in an existing directory, and a
      directory moved elsewhere than into itself takes its whole tree along. */
  lemma RenameWellFormed(fs: FS, src: Path, dst: Path)
    requires WellFormed(fs) && dst != [] && Rename(fs, src, dst).Ok?
    ensures WellFormed(Rename(fs, src, dst).value)
  {
    if src != dst {
      if !fs[src].Dir? {
        UnlinkWellFormed(fs, src);
        PutFileWellFormed(fs - {src}, dst, fs[src]);
      } else {
        MoveTreeWellFormed(fs, src, dst);
      }
    }
  }

  lemma ParentBelow(src: Path, dst: Path, rel: Path)
    requires rel != []
    ensures Parent(src + rel) == src + Parent(rel) && Parent(dst + rel) == dst + Parent(rel)
  {
    assert (src + rel)[..|src + rel| - 1] == src + rel[..|rel| - 1];
    assert (dst + rel)[..|dst + rel| - 1] == dst + rel[..|rel| - 1];
  }

  lemma MoveTreeWellFormed(fs: FS, src: Path, dst: Path)
    requires WellFormed(fs) && IsDir(fs, src) && dst != [] && IsDir(fs, Parent(dst)) && !(src <= dst)
    ensures WellFormed(Graft(Without(Without(fs, src), dst), dst, Subtree(fs, src)))
  {
    var mid := Without(Without(fs, src), dst);
    var t := Subtree(fs, src);
    var r := Graft(mid, dst, t);
    assert src != [] && [] in mid;
    forall q | q in r && q != [] ensures IsDir(r, Parent(q)) {
      var pq := Parent(q);
      assert pq <= q;
      if dst <= q && q[|dst|..] in t {
        var rel := q[|dst|..];
        if rel == [] {
          assert q == dst && !(src <= pq);
        } else {
          assert q == dst + rel;
          ParentBelow(src, dst, rel);
          assert (dst + Parent(rel))[|dst|..] == Parent(rel);
        }
      } else {
        assert !(dst <= pq);
      }
    }
  }

  /** Removing a tree other than the root keeps the shape. */
  lemma {:induction false} RemoveTreeWellFormed(fs: FS, p: Path)
    requires WellFormed(fs) && p != []
    ensures WellFormed(Without(fs, p))
  {
    var r := Without(fs, p);
    forall q | q in r && q != [] ensures IsDir(r, Parent(q)) {
      var d := Parent(q);
      assert d in fs && fs[d].Dir?;
      assert !(p <= d);
    }
  }

  /** After `rmtree(p)` nothing at or below `p` is left and nothing else changed. */
  lemma RemoveTreeExact(fs: FS, p: Path, q: Path)
    requires RemoveTree(fs, p).Ok?
    ensures q in RemoveTree(fs, p).value <==> q in fs && !(p <= q)
  {
  }

  /** Recording the tree below `p`, removing it and placing the record back at `p`
      restores the filesystem: the core of the pack/unpack round trip. */
  lemma {:induction false} GraftSubtreeRestores(fs: FS, p: Path)
    ensures Graft(Without(fs, p), p, Subtree(fs, p)) == fs
  {
    var g := Graft(Without(fs, p), p, Subtree(fs, p));
    forall q ensures q in g <==> q in fs {
      if p <= q { assert p + q[|p|..] == q; }
    }
    forall q | q in g ensures g[q] == fs[q] {
      if p <= q { assert p + q[|p|..] == q; }
    }
  }

  /** Renaming a file to an absent sibling and back restores the filesystem. */
  lemma RenameFileRoundTrip(fs: FS, src: Path, dst: Path)
    requires src != [] && dst != [] && src != dst && Parent(src) == Parent(dst)
    requires WellFormed(fs) && IsFile(fs, src) && dst !in fs
    ensures Rename(fs, src, dst).Ok?
    ensures Rename(Rename(fs, src, dst).value, dst, src) == Ok(fs)
  {
    var mid := (fs - {src})[dst := fs[src]];
    assert Rename(fs, src, dst) == Ok(mid);
    assert (mid - {dst})[src := mid[dst]] == fs;
  }

  // ---------------------------------------------------------------------------
  // The mutable filesystem the handlers share
  // ---------------------------------------------------------------------------

  /** The machine's filesystem as one mutable object: every handler method that touches
      files names it in its `modifies` clause. */
  class Disk {
    var fs: FS

    ghost predicate Valid()
      reads this
    {
      WellFormed(fs)
    }

    constructor (initial: FS)
      requires WellFormed(initial)
      ensures fs == initial && Valid()
    {
      fs := initial;
    }
  }
}

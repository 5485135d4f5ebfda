/** ModHandler of handlers.py: the plugins directory of a server, the file name a
    downloaded plugin gets, and removing, enabling, disabling and listing plugins. A
    plugin is enabled as "NAME.jar" and disabled as "NAME.disabled". */
module ModHandling {
  import opened Wrappers
  import opened FileSystem
  import Text
  import Descriptors

  const PluginsName: string := "plugins"
  const JarSuffix: string := ".jar"
  const DisabledSuffix: string := ".disabled"
  const DisabledLabel: string := " (disabled)"

  // ---------------------------------------------------------------------------
  // The file name of a download
  // ---------------------------------------------------------------------------

  /** The renaming in `download_plugin`: the text before the last dot has its dots turned
      into underscores, and the text from the last dot on is kept. Without a dot, `rfind`
      gives -1 and the slice stops before the last character, which changes nothing since
      there is no dot to replace. */
  function Mangle(name: string): string
  {
    var i := Text.LastIndexOf(name, '.');
    var cut := if i >= 0 then i else if name == "" then 0 else |name| - 1;
    Text.Replace(name[..cut], ".", "_") + name[cut..]
  }

  /** The name `download_plugin` gives the file in the plugins directory: the URL's last
      segment, mangled. */
  function PluginFileName(url: string): (r: string)
    ensures '/' !in r
  {
    var n := Text.LastPiece(url, '/');
    MangleChars(n);
    Mangle(n)
  }

  /** Mangling is a character-wise map: every dot before the last one becomes an
      underscore and nothing else changes. */
  lemma MangleChars(name: string)
    ensures var i, r := Text.LastIndexOf(name, '.'), Mangle(name);
            |r| == |name|
            && forall k :: 0 <= k < |name| ==> r[k] == if k < i && name[k] == '.' then '_' else name[k]
  {
    var i := Text.LastIndexOf(name, '.');
    var cut := if i >= 0 then i else if name == "" then 0 else |name| - 1;
    Text.ReplaceChar(name[..cut], '.', '_');
    var r := Mangle(name);
    forall k | 0 <= k < |name|
      ensures r[k] == if k < i && name[k] == '.' then '_' else name[k]
    {
      if k < cut {
        assert name[..cut][k] == name[k];
      } else {
        assert r[k] == name[cut..][k - cut];
      }
    }
  }

  /** At most one dot survives, the last one, at its old place. */
  lemma MangleKeepsLastDot(name: string)
    ensures Text.LastIndexOf(Mangle(name), '.') == Text.LastIndexOf(name, '.')
    ensures forall k :: 0 <= k < |Mangle(name)| && Mangle(name)[k] == '.' ==> k == Text.LastIndexOf(name, '.')
  {
    MangleChars(name);
    var i, r := Text.LastIndexOf(name, '.'), Mangle(name);
    if i >= 0 {
      assert r[i] == '.';
    }
  }

  /** Mangling keeps pathlib's suffix, so a ".jar" download stays a ".jar" plugin. */
  lemma MangleKeepsSuffix(name: string)
    ensures Text.Suffix(Mangle(name)) == Text.Suffix(name)
  {
    MangleChars(name);
    MangleKeepsLastDot(name);
    var i, r := Text.LastIndexOf(name, '.'), Mangle(name);
    if 0 < i < |name| - 1 {
      assert r[i..] == name[i..];
    }
  }

  /** A mangled name is mangled already. */
  lemma MangleIdempotent(name: string)
    ensures Mangle(Mangle(name)) == Mangle(name)
  {
    MangleChars(name);
    MangleKeepsLastDot(name);
    var r := Mangle(name);
    MangleChars(r);
  }

  /** A download "…/STEM.ext" becomes "STEM.ext" with the dots of STEM replaced. */
  lemma {:induction false} PluginFileNameOf(head: string, stem: string, ext: string)
    requires stem != "" && '/' !in stem && Text.PlainSuffix(ext) && '/' !in ext
    ensures PluginFileName(head + "/" + stem + ext) == Text.Replace(stem, ".", "_") + ext
  {
    var tail := stem + ext;
    assert head + "/" + stem + ext == head + ['/'] + tail;
    assert '/' !in tail by {
      forall k | 0 <= k < |tail| ensures tail[k] != '/' {
        if k < |stem| { assert tail[k] == stem[k]; } else { assert tail[k] == ext[k - |stem|]; }
      }
    }
    Text.LastPieceAfter(head, '/', tail);
    Text.LastDotOfConcat(stem, ext);
    assert tail[..|stem|] == stem && tail[|stem|..] == ext;
  }

  // ---------------------------------------------------------------------------
  // Entries of the plugins directory
  // ---------------------------------------------------------------------------

  /** `plugins_dir / Path(name).with_suffix(ext)`: the entry it names. */
  function PluginPath(pluginsDir: Path, name: string, ext: string): (r: Result<Path, Error>)
    ensures r.Err? <==> Parts(name) == []
    ensures r.Err? ==> r.error == EmptyName
    ensures r.Ok? ==> r.value != []
  {
    match SuffixedPath(pluginsDir, name, ext)
    case Err(e) => Err(e)
    case Ok(raw) => Ok(Locate(raw))
  }

  /** A plain plugin name (one segment) below a resolved plugins directory. */
  lemma PlainPluginPath(pluginsDir: Path, name: string, ext: string)
    requires Normalized(pluginsDir) && name != "" && name != "." && name != ".." && '/' !in name
    ensures PluginPath(pluginsDir, name, ext) == Ok(pluginsDir + [Text.WithSuffix(name, ext)])
  {
    PlainSuffixedPath(pluginsDir, name, ext);
  }

  /** What `get_plugin_names` counts as a plugin: a ".jar" or ".disabled" suffix. */
  predicate Listed(name: string)
  {
    Text.Suffix(name) == JarSuffix || Text.Suffix(name) == DisabledSuffix
  }

  /** The names of the plugins in `dir`, of any kind of entry. */
  function PluginNames(fs: FS, dir: Path): (r: set<string>)
    ensures forall n :: n in r <==> dir + [n] in fs && Listed(n)
  {
    var r := set p | p in ChildPaths(fs, dir) && Listed(Name(p)) :: Name(p);
    forall n | dir + [n] in fs && Listed(n) ensures n in r {
      var p := dir + [n];
      assert Parent(p) == dir && Name(p) == n;
    }
    forall n | n in r ensures dir + [n] in fs {
      var p :| p in ChildPaths(fs, dir) && Name(p) == n;
      assert p == Parent(p) + [Name(p)];
    }
    r
  }

  /** How `get_plugin_names` shows a plugin: its stem, marked when disabled. */
  function Label(name: string): string
  {
    if Text.Suffix(name) == JarSuffix then Text.Stem(name) else Text.Stem(name) + DisabledLabel
  }

  lemma PlainSuffixes()
    ensures Text.PlainSuffix(JarSuffix) && Text.PlainSuffix(DisabledSuffix) && JarSuffix != DisabledSuffix
  {
    assert JarSuffix[1..] == "jar";
    assert DisabledSuffix[1..] == "disabled";
    assert |DisabledSuffix| != |JarSuffix|;
  }

  /** The two files of one plugin are shown as the plugin's name, the disabled one marked. */
  lemma LabelOfPlugin(stem: string)
    requires stem != ""
    ensures Label(stem + JarSuffix) == stem
    ensures Label(stem + DisabledSuffix) == stem + DisabledLabel
  {
    PlainSuffixes();
    Text.SuffixOfConcat(stem, JarSuffix);
    Text.SuffixOfConcat(stem, DisabledSuffix);
  }

  // ---------------------------------------------------------------------------
  // Removing and toggling
  // ---------------------------------------------------------------------------

  /** `remove_plugin(name)`: the entry `plugins_dir / Path(name).with_suffix(".jar")` must
      exist (FileNotFoundError) and is unlinked, which fails on a directory. */
  function RemovePluginResult(fs: FS, pluginsDir: Path, name: string): (r: Result<FS, Error>)
    requires WellFormed(fs)
    ensures Parts(name) == [] ==> r == Err(EmptyName)
    ensures Parts(name) != [] ==>
              var p := PluginPath(pluginsDir, name, JarSuffix).value;
              && (p !in fs ==> r == Err(NoSuchFile))
              && (IsDir(fs, p) ==> r == Err(IsADirectory))
              && (r.Ok? <==> IsFile(fs, p))
              && (r.Ok? ==> r.value == fs - {p})
    ensures r.Ok? ==> WellFormed(r.value)
  {
    match PluginPath(pluginsDir, name, JarSuffix)
    case Err(e) => Err(e)
    case Ok(p) =>
      if p !in fs then Err(NoSuchFile)
      else
        var r := Unlink(fs, p);
        if r.Ok? then UnlinkWellFormed(fs, p); r else r
  }

  /** A plugin is removed once: the second removal finds nothing. */
  lemma RemovePluginOnce(fs: FS, pluginsDir: Path, name: string)
    requires WellFormed(fs) && RemovePluginResult(fs, pluginsDir, name).Ok?
    ensures RemovePluginResult(RemovePluginResult(fs, pluginsDir, name).value, pluginsDir, name) == Err(NoSuchFile)
  {
  }

  /** The entries `toggle_plugin(name, …)` renames between: "name.jar" and
      "name.disabled", two different entries of one directory. */
  function ToggleEnds(pluginsDir: Path, name: string, disable: bool): (r: (Path, Path))
    requires Parts(name) != []
    ensures r.0 != [] && r.1 != [] && Parent(r.0) == Parent(r.1) && r.0 != r.1
  {
    var on, off := PluginPath(pluginsDir, name, JarSuffix).value, PluginPath(pluginsDir, name, DisabledSuffix).value;
    SuffixedSiblings(pluginsDir, name, JarSuffix, DisabledSuffix);
    if disable then (on, off) else (off, on)
  }

  /** `toggle_plugin(name, disable)`: when neither "name.jar" nor "name.disabled" exists,
      FileNotFoundError; otherwise the enabled file is renamed to the disabled one, or
      back. The rename itself raises when its source is the one that is missing. */
  function ToggleResult(fs: FS, pluginsDir: Path, name: string, disable: bool): (r: Result<FS, Error>)
    requires WellFormed(fs)
    ensures Parts(name) == [] ==> r == Err(EmptyName)
    ensures Parts(name) != [] && ToggleEnds(pluginsDir, name, disable).0 !in fs ==> r == Err(NoSuchFile)
    ensures r.Ok? ==> WellFormed(r.value)
  {
    match PluginPath(pluginsDir, name, JarSuffix)
    case Err(e) => Err(e)
    case Ok(on) =>
      var off := PluginPath(pluginsDir, name, DisabledSuffix).value;
      if on !in fs && off !in fs then Err(NoSuchFile)
      else
        var (src, dst) := ToggleEnds(pluginsDir, name, disable);
        var r := Rename(fs, src, dst);
        if r.Ok? then RenameWellFormed(fs, src, dst); r else r
  }

  /** Toggling a plugin file onto a free name in an existing directory moves it there
      unchanged and touches nothing else. */
  lemma ToggleMovesFile(fs: FS, pluginsDir: Path, name: string, disable: bool)
    requires WellFormed(fs) && Parts(name) != []
    requires var (src, dst) := ToggleEnds(pluginsDir, name, disable);
             IsFile(fs, src) && !IsDir(fs, dst) && IsDir(fs, Parent(dst))
    ensures var (src, dst) := ToggleEnds(pluginsDir, name, disable);
            var r := ToggleResult(fs, pluginsDir, name, disable);
            && r.Ok? && src !in r.value && dst in r.value && r.value[dst] == fs[src]
            && (forall q :: q != src && q != dst ==> (q in r.value <==> q in fs))
            && (forall q :: q != src && q != dst && q in fs ==> r.value[q] == fs[q])
  {
  }

  /** Disabling a plugin and enabling it again restores the filesystem, and so does the
      opposite round trip. */
  lemma ToggleRoundTrip(fs: FS, pluginsDir: Path, name: string, disable: bool)
    requires WellFormed(fs) && Parts(name) != []
    requires var (src, dst) := ToggleEnds(pluginsDir, name, disable);
             IsFile(fs, src) && dst !in fs
    ensures ToggleResult(fs, pluginsDir, name, disable).Ok?
    ensures ToggleResult(ToggleResult(fs, pluginsDir, name, disable).value, pluginsDir, name, !disable) == Ok(fs)
  {
    var (src, dst) := ToggleEnds(pluginsDir, name, disable);
    assert ToggleEnds(pluginsDir, name, !disable) == (dst, src);
    RenameFileRoundTrip(fs, src, dst);
  }

  /** Both ends of a toggle are listed plugins: the last part of the name gets a ".jar"
      or ".disabled" suffix. */
  lemma EndsListed(pluginsDir: Path, name: string, disable: bool)
    requires Parts(name) != []
    ensures Listed(Name(ToggleEnds(pluginsDir, name, disable).0))
    ensures Listed(Name(ToggleEnds(pluginsDir, name, disable).1))
  {
    var parts := Parts(name);
    PlainSuffixes();
    Text.WithSuffixRoundTrip(parts[|parts| - 1], JarSuffix, JarSuffix);
    Text.WithSuffixRoundTrip(parts[|parts| - 1], DisabledSuffix, DisabledSuffix);
  }

  /** A toggle within the plugins directory changes the listing by exactly the renamed
      entry. */
  lemma ToggleRelists(fs: FS, pluginsDir: Path, name: string, disable: bool)
    requires WellFormed(fs) && Parts(name) != [] && IsDir(fs, pluginsDir)
    requires var (src, dst) := ToggleEnds(pluginsDir, name, disable);
             IsFile(fs, src) && dst !in fs && Parent(dst) == pluginsDir
    ensures var (src, dst) := ToggleEnds(pluginsDir, name, disable);
            PluginNames(ToggleResult(fs, pluginsDir, name, disable).value, pluginsDir)
            == PluginNames(fs, pluginsDir) - {Name(src)} + {Name(dst)}
  {
    var (src, dst) := ToggleEnds(pluginsDir, name, disable);
    ToggleMovesFile(fs, pluginsDir, name, disable);
    EndsListed(pluginsDir, name, disable);
    assert src == pluginsDir + [Name(src)] && dst == pluginsDir + [Name(dst)];
    MoveRelists(fs, ToggleResult(fs, pluginsDir, name, disable).value, pluginsDir, Name(src), Name(dst));
  }

  lemma MoveRelists(fs: FS, fs': FS, dir: Path, a: string, b: string)
    requires Listed(a) && Listed(b) && a != b
    requires dir + [a] in fs && dir + [a] !in fs' && dir + [b] in fs'
    requires forall q :: q != dir + [a] && q != dir + [b] ==> (q in fs' <==> q in fs)
    ensures PluginNames(fs', dir) == PluginNames(fs, dir) - {a} + {b}
  {
    forall n ensures n in PluginNames(fs', dir) <==> n in PluginNames(fs, dir) - {a} + {b} {
      var q := dir + [n];
      assert q == dir + [a] <==> n == a;
      assert q == dir + [b] <==> n == b;
    }
  }

  /** Disabling a plain plugin that is enabled renames "stem.jar" to "stem.disabled" with
      its contents, and the listing shows the one in place of the other. */
  lemma DisableRelists(fs: FS, pluginsDir: Path, stem: string)
    requires WellFormed(fs) && Normalized(pluginsDir)
    requires stem != "" && stem != ".." && '.' !in stem && '/' !in stem
    requires IsFile(fs, pluginsDir + [stem + JarSuffix]) && pluginsDir + [stem + DisabledSuffix] !in fs
    ensures ToggleResult(fs, pluginsDir, stem, true).Ok?
    ensures var fs' := ToggleResult(fs, pluginsDir, stem, true).value;
            && PluginNames(fs', pluginsDir) == PluginNames(fs, pluginsDir) - {stem + JarSuffix} + {stem + DisabledSuffix}
            && pluginsDir + [stem + JarSuffix] !in fs'
            && fs'[pluginsDir + [stem + DisabledSuffix]] == fs[pluginsDir + [stem + JarSuffix]]
  {
    assert stem != "." by { assert '.' !in stem; }
    assert Text.Stem(stem) == stem by {
      assert Text.LastIndexOf(stem, '.') == -1;
    }
    PlainPluginPath(pluginsDir, stem, JarSuffix);
    PlainPluginPath(pluginsDir, stem, DisabledSuffix);
    PartsOfSegment(stem);
    var on, off := pluginsDir + [stem + JarSuffix], pluginsDir + [stem + DisabledSuffix];
    assert ToggleEnds(pluginsDir, stem, true) == (on, off);
    assert Parent(off) == pluginsDir && Parent(on) == pluginsDir;
    ToggleMovesFile(fs, pluginsDir, stem, true);
    ToggleRelists(fs, pluginsDir, stem, true);
  }

  // ---------------------------------------------------------------------------
  // The handler
  // ---------------------------------------------------------------------------

  class ModHandler {
    const serverDir: Path
    const pluginsDir: Path
    const disk: Disk

    /** The server directory need not stay a directory: a name with ".." steps can make
        `toggle_plugin` rename it, and no method here relies on it. */
    ghost predicate Valid()
      reads this, disk
    {
      disk.Valid() && pluginsDir == serverDir + [PluginsName]
    }

    constructor (dir: Path, d: Disk)
      requires d.Valid()
      ensures serverDir == dir && disk == d && Valid()
    {
      serverDir, pluginsDir, disk := dir, dir + [PluginsName], d;
    }

    /** `ModHandler(server_dir)`: descriptors.py's ServerDir binds the directory (which may
        create it); then the plugins directory is created unless something of that name
        exists. */
    static method Create(v: Descriptors.Value, scriptDir: Path, cwd: Path, d: Disk)
      returns (r: Result<ModHandler, Error>)
      requires d.Valid()
      modifies d
      ensures d.Valid()
      ensures match Descriptors.BindServerDir(v, scriptDir, cwd, old(d.fs))
              case Ok(b) =>
                var plugins := b.dir + [PluginsName];
                && r.Ok? && fresh(r.value) && r.value.serverDir == b.dir && r.value.disk == d
                && r.value.Valid() && IsDir(d.fs, b.dir)
                && d.fs == (if plugins in b.fs then b.fs else b.fs[plugins := Dir])
              case Err(e) => r == Err(e) && d.fs == old(d.fs)
    {
      match Descriptors.BindServerDir(v, scriptDir, cwd, d.fs)
      case Ok(b) =>
        d.fs := b.fs;
        var plugins := b.dir + [PluginsName];
        if plugins !in d.fs {
          assert Parent(plugins) == b.dir;
          MkdirWellFormed(d.fs, plugins);
          d.fs := d.fs[plugins := Dir];
        }
        var h := new ModHandler(b.dir, d);
        r := Ok(h);
      case Err(e) =>
        r := Err(e);
    }

    /** `remove_plugin(name)`. */
    method RemovePlugin(name: string) returns (err: Option<Error>)
      requires Valid()
      modifies disk
      ensures Valid()
      ensures match RemovePluginResult(old(disk.fs), pluginsDir, name)
              case Ok(fs') => err == None && disk.fs == fs'
              case Err(e) => err == Some(e) && disk.fs == old(disk.fs)
    {
      var r := RemovePluginResult(disk.fs, pluginsDir, name);
      match r {
        case Ok(fs') =>
          disk.fs := fs';
          err := None;
        case Err(e) =>
          err := Some(e);
      }
    }

    /** `toggle_plugin(name, disable)`. */
    method TogglePlugin(name: string, disable: bool) returns (err: Option<Error>)
      requires Valid()
      modifies disk
      ensures Valid()
      ensures match ToggleResult(old(disk.fs), pluginsDir, name, disable)
              case Ok(fs') => err == None && disk.fs == fs'
              case Err(e) => err == Some(e) && disk.fs == old(disk.fs)
    {
      var r := ToggleResult(disk.fs, pluginsDir, name, disable);
      match r {
        case Ok(fs') =>
          disk.fs := fs';
          err := None;
        case Err(e) =>
          err := Some(e);
      }
    }

    /** `get_plugin_names`: listing a plugins directory that is missing or not a directory
        raises; no plugin at all raises FileNotFoundError; otherwise the labels, in the
        sorted order of the plugins' names (they share the directory, so comparing the
        paths compares the names). */
    method GetPluginNames() returns (r: Result<seq<string>, Error>, ghost order: seq<string>)
      requires Valid()
      ensures pluginsDir !in disk.fs ==> r == Err(NoSuchFile)
      ensures IsFile(disk.fs, pluginsDir) ==> r == Err(NotADirectoryOs)
      ensures IsDir(disk.fs, pluginsDir) ==> (r.Err? <==> PluginNames(disk.fs, pluginsDir) == {})
      ensures IsDir(disk.fs, pluginsDir) && r.Err? ==> r == Err(NoSuchFile)
      ensures r.Ok? ==> && Text.Sorted(order)
                        && (forall n :: n in order <==> n in PluginNames(disk.fs, pluginsDir))
                        && |r.value| == |order|
                        && forall i :: 0 <= i < |order| ==> r.value[i] == Label(order[i])
    {
      order := [];
      if pluginsDir !in disk.fs {
        return Err(NoSuchFile), order;
      }
      if !disk.fs[pluginsDir].Dir? {
        return Err(NotADirectoryOs), order;
      }
      var names := SortedPluginNames(disk.fs, pluginsDir);
      if names == [] {
        return Err(NoSuchFile), order;
      }
      assert names[0] in PluginNames(disk.fs, pluginsDir);
      var labels := Labels(names);
      r, order := Ok(labels), names;
    }
  }

  /** The `sorted()` list of the plugins' names in `dir`, built one entry at a time in
      whatever order `iterdir` yields them. */
  method SortedPluginNames(fs: FS, dir: Path) returns (names: seq<string>)
    ensures Text.Sorted(names)
    ensures forall n :: n in names <==> n in PluginNames(fs, dir)
  {
    var todo := ChildPaths(fs, dir);
    ghost var all := PluginNames(fs, dir);
    names := [];
    while todo != {}
      invariant todo <= ChildPaths(fs, dir)
      invariant Text.Sorted(names)
      invariant Unlisted(names, all, dir, todo)
      decreases todo
    {
      var p :| p in todo;
      var n := Name(p);
      ListingStep(fs, dir, todo, p, names);
      todo := todo - {p};
      if Listed(n) {
        names := Text.Insert(names, n);
      }
    }
  }

  /** The names already taken are the plugin names whose entries are no longer to visit. */
  ghost predicate Unlisted(names: seq<string>, all: set<string>, dir: Path, todo: set<Path>)
  {
    forall n :: n in names <==> n in all && dir + [n] !in todo
  }

  /** Visiting one more entry of the directory takes its name when it is a plugin's. */
  lemma ListingStep(fs: FS, dir: Path, todo: set<Path>, p: Path, names: seq<string>)
    requires p in todo && todo <= ChildPaths(fs, dir)
    requires Unlisted(names, PluginNames(fs, dir), dir, todo)
    ensures Name(p) !in names
    ensures Listed(Name(p)) ==> forall n :: n in names || n == Name(p) <==> n in PluginNames(fs, dir) && dir + [n] !in todo - {p}
    ensures !Listed(Name(p)) ==> Unlisted(names, PluginNames(fs, dir), dir, todo - {p})
  {
    var m := Name(p);
    assert p == dir + [m];
    var all := PluginNames(fs, dir);
    assert m in all <==> Listed(m);
    forall n | n != m ensures (dir + [n] in todo - {p}) == (dir + [n] in todo) {
      assert Name(dir + [n]) == n;
    }
  }

  lemma LabelsStep(names: seq<string>, labels: seq<string>, shown: string)
    requires |labels| < |names| && forall j :: 0 <= j < |labels| ==> labels[j] == Label(names[j])
    requires shown == Label(names[|labels|])
    ensures forall j :: 0 <= j < |labels| + 1 ==> (labels + [shown])[j] == Label(names[j])
  {
  }

  /** The loop of `get_plugin_names` that turns each name into its label. */
  method Labels(names: seq<string>) returns (labels: seq<string>)
    ensures |labels| == |names|
    ensures forall i :: 0 <= i < |names| ==> labels[i] == Label(names[i])
  {
    labels := [];
    var i := 0;
    while i < |names|
      invariant 0 <= i <= |names| && |labels| == i
      invariant forall j :: 0 <= j < i ==> labels[j] == Label(names[j])
    {
      var n := names[i];
      var shown := if Text.Suffix(n) == JarSuffix then Text.Stem(n) else Text.Stem(n) + DisabledLabel;
      LabelsStep(names, labels, shown);
      labels := labels + [shown];
      i := i + 1;
    }
  }
}

/** ServerHandler of handlers.py: the validated server settings, the EULA file, the
    command that launches the server and the removal of a whole server directory. */
module ServerHandling {
  import opened Wrappers
  import opened FileSystem
  import Text
  import Descriptors

  const EulaName: string := "eula.txt"
  const EulaText: string := "eula=true"

  function EulaPath(dir: Path): Path
  {
    dir + [EulaName]
  }

  /** `_eula_handling` on a filesystem: an absent eula.txt is written with the accepting
      line; anything already at that name, whatever it holds, is left alone. */
  function WithEula(fs: FS, dir: Path): (r: FS)
    requires IsDir(fs, dir)
    ensures EulaPath(dir) in fs ==> r == fs
    ensures EulaPath(dir) !in fs ==> r == fs[EulaPath(dir) := File(EulaText)]
  {
    if EulaPath(dir) in fs then fs else fs[EulaPath(dir) := File(EulaText)]
  }

  /** The guard of `remove_server`: a directory with an entry named eula.txt (of any kind). */
  predicate IsServerDir(fs: FS, p: Path)
  {
    IsDir(fs, p) && exists q :: q in ChildPaths(fs, p) && Name(q) == EulaName
  }

  /** The argument list `start_server` passes to the process: the Java executable, the
      heap bounds in gigabytes, and the core's file name (the process runs inside the
      server directory). */
  function LaunchCommand(javaPath: string, minRam: nat, maxRam: nat, core: Path): (r: seq<string>)
    ensures |r| == 6 && r[0] == javaPath && r[3] == "-jar" && r[4] == Name(core) && r[5] == "--nogui"
  {
    [javaPath, "-Xms" + Text.Decimal(minRam) + "G", "-Xmx" + Text.Decimal(maxRam) + "G",
     "-jar", Name(core), "--nogui"]
  }

  /** The number inside a heap flag such as "-Xmx8G": the digits between the four-character
      option and the trailing unit. */
  function HeapAmount(flag: string): Option<nat>
  {
    if |flag| >= 6 && flag[|flag| - 1] == 'G'
       && forall k :: 4 <= k < |flag| - 1 ==> Text.IsDigit(flag[k])
    then Some(Text.ParseDecimal(flag[4..|flag| - 1]))
    else None
  }

  /** `remove_server(server_dir)`: a path naming a directory that holds eula.txt is removed
      with everything below it; anything else is refused with ValueError. */
  function RemoveServer(fs: FS, v: Descriptors.Value, cwd: Path): (r: Result<FS, Error>)
    requires WellFormed(fs)
    requires v.PathValue? ==> Resolve(cwd, v.text) != []
    ensures r.Ok? <==> v.PathValue? && IsServerDir(fs, Resolve(cwd, v.text))
    ensures r.Err? ==> r.error == NotAServerDir
    ensures r.Ok? ==> r.value == Without(fs, Resolve(cwd, v.text)) && WellFormed(r.value)
  {
    if v.PathValue? && IsServerDir(fs, Resolve(cwd, v.text)) then
      var p := Resolve(cwd, v.text);
      RemoveTreeWellFormed(fs, p);
      Ok(Without(fs, p))
    else Err(NotAServerDir)
  }

  class ServerHandler {
    const serverDir: Path
    const serverCore: Path
    const minRam: nat
    const maxRam: nat
    const javaPath: string
    const disk: Disk

    ghost predicate Valid()
      reads this, disk
    {
      disk.Valid() && IsDir(disk.fs, serverDir) && serverDir <= serverCore && minRam < maxRam
    }

    constructor (dir: Path, core: Path, ram: (nat, nat), java: string, d: Disk)
      requires d.Valid() && IsDir(d.fs, dir) && dir <= core && ram.0 < ram.1
      ensures serverDir == dir && serverCore == core && minRam == ram.0 && maxRam == ram.1
      ensures javaPath == java && disk == d && Valid()
    {
      serverDir, serverCore, minRam, maxRam, javaPath, disk := dir, core, ram.0, ram.1, java, d;
    }

    /** `ServerHandler(server_dir, server_core, ram, java_path)`: the three descriptors run
        in that order, so the server directory may already have been created when the core
        or the RAM bounds are rejected. */
    static method Create(dirV: Descriptors.Value, coreV: Descriptors.Value, ramV: Descriptors.RamValue,
                         java: string, scriptDir: Path, cwd: Path, d: Disk)
      returns (r: Result<ServerHandler, Error>)
      requires d.Valid()
      modifies d
      ensures d.Valid()
      ensures match Descriptors.BindServerDir(dirV, scriptDir, cwd, old(d.fs))
              case Err(e) => r == Err(e) && d.fs == old(d.fs)
              case Ok(b) =>
                d.fs == b.fs
                && match Descriptors.BindServerCore(Some(b.dir), coreV, cwd)
                   case Err(e) => r == Err(e)
                   case Ok(core) =>
                     match Descriptors.ValidateRam(ramV)
                     case Err(e) => r == Err(e)
                     case Ok(ram) =>
                       r.Ok? && fresh(r.value) && r.value.Valid() && r.value.disk == d
                       && r.value.serverDir == b.dir && r.value.serverCore == core
                       && r.value.minRam == ram.0 && r.value.maxRam == ram.1
                       && r.value.javaPath == java
    {
      var bound := Descriptors.BindServerDir(dirV, scriptDir, cwd, d.fs);
      if bound.Err? {
        return Err(bound.error);
      }
      var b := bound.value;
      d.fs := b.fs;
      match Descriptors.BindServerCore(Some(b.dir), coreV, cwd) {
        case Err(e) => return Err(e);
        case Ok(core) =>
          match Descriptors.ValidateRam(ramV) {
            case Err(e) => return Err(e);
            case Ok(ram) =>
              var h := new ServerHandler(b.dir, core, ram, java, d);
              return Ok(h);
          }
      }
    }

    /** `_eula_handling`. */
    method EulaHandling()
      requires Valid()
      modifies disk
      ensures Valid() && disk.fs == WithEula(old(disk.fs), serverDir)
    {
      if EulaPath(serverDir) !in disk.fs {
        WithEulaWellFormed(disk.fs, serverDir);
        disk.fs := disk.fs[EulaPath(serverDir) := File(EulaText)];
      }
    }

    /** `start_server` up to the launch: the EULA step, then the command the process is
        started with. The core is not checked to exist. */
    method StartServer() returns (command: seq<string>)
      requires Valid()
      modifies disk
      ensures Valid() && disk.fs == WithEula(old(disk.fs), serverDir)
      ensures command == LaunchCommand(javaPath, minRam, maxRam, serverCore)
    {
      EulaHandling();
      command := LaunchCommand(javaPath, minRam, maxRam, serverCore);
    }
  }

  /** `ServerHandler.remove_server` on the machine's filesystem. */
  method RemoveServerDir(v: Descriptors.Value, cwd: Path, d: Disk) returns (err: Option<Error>)
    requires d.Valid()
    requires v.PathValue? ==> Resolve(cwd, v.text) != []
    modifies d
    ensures d.Valid()
    ensures match RemoveServer(old(d.fs), v, cwd)
            case Ok(fs') => err == None && d.fs == fs'
            case Err(e) => err == Some(e) && d.fs == old(d.fs)
  {
    match RemoveServer(d.fs, v, cwd) {
      case Ok(fs') =>
        d.fs := fs';
        err := None;
      case Err(e) =>
        err := Some(e);
    }
  }

  // ---------------------------------------------------------------------------
  // Properties
  // ---------------------------------------------------------------------------

  lemma WithEulaWellFormed(fs: FS, dir: Path)
    requires WellFormed(fs) && IsDir(fs, dir)
    ensures WellFormed(WithEula(fs, dir)) && IsDir(WithEula(fs, dir), dir)
  {
    assert Parent(EulaPath(dir)) == dir;
  }

  /** The EULA step is idempotent, and afterwards the directory passes the guard of
      `remove_server`: a started server can be removed. */
  lemma EulaMakesServerDir(fs: FS, dir: Path)
    requires IsDir(fs, dir)
    ensures WithEula(WithEula(fs, dir), dir) == WithEula(fs, dir)
    ensures IsServerDir(WithEula(fs, dir), dir)
  {
    var q := EulaPath(dir);
    assert q != [] && Parent(q) == dir && Name(q) == EulaName;
    assert q in ChildPaths(WithEula(fs, dir), dir);
  }

  /** An existing eula.txt, for instance one that declines, is never overwritten. */
  lemma EulaKeepsExisting(fs: FS, dir: Path, text: string)
    requires IsDir(fs, dir) && EulaPath(dir) in fs && fs[EulaPath(dir)] == File(text)
    ensures WithEula(fs, dir)[EulaPath(dir)] == File(text)
  {
  }

  /** The heap flags carry the two RAM bounds, recoverable from the text. */
  lemma {:induction false} HeapFlagsRoundTrip(javaPath: string, minRam: nat, maxRam: nat, core: Path)
    ensures var c := LaunchCommand(javaPath, minRam, maxRam, core);
            HeapAmount(c[1]) == Some(minRam) && HeapAmount(c[2]) == Some(maxRam)
  {
    HeapFlagRoundTrip("-Xms", minRam);
    HeapFlagRoundTrip("-Xmx", maxRam);
  }

  lemma {:induction false} HeapFlagRoundTrip(option: string, n: nat)
    requires |option| == 4
    ensures HeapAmount(option + Text.Decimal(n) + "G") == Some(n)
  {
    var digits := Text.Decimal(n);
    var flag := option + digits + "G";
    assert flag[4..|flag| - 1] == digits;
    forall k | 4 <= k < |flag| - 1 ensures Text.IsDigit(flag[k]) {
      assert flag[k] == digits[k - 4];
    }
    Text.ParseDecimalOfDecimal(n);
  }

  /** Removal takes exactly the server directory and what lies below it, so a second
      removal of the same directory is refused. */
  lemma RemoveServerOnce(fs: FS, v: Descriptors.Value, cwd: Path)
    requires WellFormed(fs) && v.PathValue? && Resolve(cwd, v.text) != []
    requires RemoveServer(fs, v, cwd).Ok?
    ensures RemoveServer(RemoveServer(fs, v, cwd).value, v, cwd) == Err(NotAServerDir)
  {
    var p := Resolve(cwd, v.text);
    assert p !in Without(fs, p);
  }
}

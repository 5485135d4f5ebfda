/** The object a descriptor writes to. Each assignment runs the validator and calls
    `setattr` only after every check passed, so a rejected assignment leaves the stored
    attribute (and the filesystem) as it was. */
module Binding {
  import opened Wrappers
  import opened FileSystem
  import Descriptors
  import StrictDescriptors

  class Owner {
    /** `_server_dir`, `_server_core` and `_ram`; None until first assigned. */
    var serverDir: Option<Path>
    var serverCore: Option<Path>
    var ram: Option<(nat, nat)>

    constructor ()
      ensures serverDir == None && serverCore == None && ram == None
    {
      serverDir, serverCore, ram := None, None, None;
    }

    /** `owner.server_dir = value` with descriptors.py's ServerDir. */
    method AssignServerDir(v: Descriptors.Value, scriptDir: Path, cwd: Path, disk: Disk)
      returns (err: Option<Error>)
      requires disk.Valid()
      modifies this`serverDir, disk
      ensures disk.Valid()
      ensures match Descriptors.BindServerDir(v, scriptDir, cwd, old(disk.fs))
              case Ok(b) => err == None && serverDir == Some(b.dir) && disk.fs == b.fs
              case Err(e) => err == Some(e) && serverDir == old(serverDir) && disk.fs == old(disk.fs)
    {
      match Descriptors.BindServerDir(v, scriptDir, cwd, disk.fs)
      case Ok(b) =>
        disk.fs := b.fs;
        serverDir := Some(b.dir);
        err := None;
      case Err(e) =>
        err := Some(e);
    }

    /** `owner.server_dir = value` with server_management/descriptors.py's ServerDir. */
    method AssignServerDirStrict(v: Descriptors.Value, repoRoot: Path, cwd: Path, disk: Disk)
      returns (err: Option<Error>)
      requires disk.Valid()
      modifies this`serverDir, disk
      ensures disk.Valid()
      ensures match StrictDescriptors.BindServerDir(v, repoRoot, cwd, old(disk.fs))
              case Ok(b) => err == None && serverDir == Some(b.dir) && disk.fs == b.fs
              case Err(e) => err == Some(e) && serverDir == old(serverDir) && disk.fs == old(disk.fs)
    {
      match StrictDescriptors.BindServerDir(v, repoRoot, cwd, disk.fs)
      case Ok(b) =>
        disk.fs := b.fs;
        serverDir := Some(b.dir);
        err := None;
      case Err(e) =>
        err := Some(e);
    }

    /** `owner.server_core = value`, checked against the directory bound now. */
    method AssignServerCore(v: Descriptors.Value, cwd: Path) returns (err: Option<Error>)
      modifies this`serverCore
      ensures match Descriptors.BindServerCore(serverDir, v, cwd)
              case Ok(p) => err == None && serverCore == Some(p)
              case Err(e) => err == Some(e) && serverCore == old(serverCore)
    {
      match Descriptors.BindServerCore(serverDir, v, cwd)
      case Ok(p) =>
        serverCore := Some(p);
        err := None;
      case Err(e) =>
        err := Some(e);
    }

    /** `owner.ram = value`. */
    method AssignRam(v: Descriptors.RamValue) returns (err: Option<Error>)
      modifies this`ram
      ensures match Descriptors.ValidateRam(v)
              case Ok(pair) => err == None && ram == Some(pair)
              case Err(e) => err == Some(e) && ram == old(ram)
    {
      match Descriptors.ValidateRam(v)
      case Ok(pair) =>
        ram := Some(pair);
        err := None;
      case Err(e) =>
        err := Some(e);
    }
  }
}

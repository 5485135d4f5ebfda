/** Option and Result, and the closed set of failures the modelled code raises. */
module Wrappers {

  datatype Option<+T> = None | Some(value: T)

  datatype Result<+T, +E> = Ok(value: T) | Err(error: E)

  /** One constructor per distinct failure of the modelled Python code; the comment gives the
      exception class the code raises there. */
  datatype Error =
    | WrongType            // ValueError: the value is not of the expected type
    | NotUnderRoot         // ValueError: the resolved path is not below the required root
    | NotSingleName        // ValueError: absolute or multi-segment server directory name
    | ReservedDir          // ValueError: the package directory itself was named
    | NotADirectory        // ValueError: the path exists but is not a directory
    | NoServerDir          // ValueError: the owner has no server directory bound
    | NotUnderServerDir    // ValueError: core path outside the server directory
    | WrongArity           // ValueError: the RAM tuple does not have two items
    | MinNotBelowMax       // ValueError: |min| >= |max|
    | MissingCore          // ValueError: the named core file does not exist
    | NotAServerDir        // ValueError: remove_server guard failed
    | NoAttribute          // AttributeError: a non-path value has no resolve()
    | EmptyName            // ValueError from pathlib's with_suffix on an empty name
    | NoSuchFile           // FileNotFoundError
    | AlreadyExists        // FileExistsError
    | IsADirectory         // IsADirectoryError
    | NotADirectoryOs      // NotADirectoryError raised by the operating system
    | DirectoryNotEmpty    // OSError ENOTEMPTY from rename
    | NotATarArchive       // tarfile.ReadError
    | InvalidMove          // OSError EINVAL: renaming a directory into itself
    | NotAString           // TypeError from str.replace on a non-string argument
    | ExtractConflict      // IsADirectoryError or FileExistsError while tarfile extracts
    | NotText              // UnicodeDecodeError: the file's bytes (a tar archive) read as text
}

/** File errors, byte buffers and the `read` helper of lib.rs, over an abstract view
    of the operating system's file queries. */
module Files {
  import opened Wrappers
  import opened Paths

  newtype byte = x: int | 0 <= x < 0x100
  type Bytes = seq<byte>

  /** The error kinds a file access reports. */
  datatype FileError =
    | NotFound(path: Path)
    | AccessDenied
    | IsDirectory
    | NotSource
    | InvalidUtf8
    | Other(message: Option<string>)

  type FileResult<T> = Result<T, FileError>

  datatype Metadata = Metadata(isDir: bool)

  /** What the operating system answers about a path: `fs::metadata` and `fs::read`. */
  datatype FileSystem = FileSystem(
    metadata: Path -> FileResult<Metadata>,
    contents: Path -> FileResult<Bytes>)

  /** `read`: a directory is refused with `IsDirectory` before any read is attempted;
      a failing metadata query is passed on as is. */
  function Read(fs: FileSystem, path: Path): (r: FileResult<Bytes>)
    ensures fs.metadata(path).Err? ==> r == Err(fs.metadata(path).error)
    ensures fs.metadata(path).Ok? && fs.metadata(path).value.isDir ==> r == Err(IsDirectory)
    ensures fs.metadata(path).Ok? && !fs.metadata(path).value.isDir ==> r == fs.contents(path)
  {
    match fs.metadata(path)
    case Err(e) => Err(e)
    case Ok(m) => if m.isDir then Err(IsDirectory) else fs.contents(path)
  }
}

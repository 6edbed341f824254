/** The outside world of the merger, reduced to what its logic observes:
    paths as strings, file contents as bytes, and the filesystem and the
    glob matcher as oracles over one fixed snapshot of the disk. */
module Fs {

  datatype Option<T> = None | Some(value: T)

  type Path = string

  type Byte = bv8

  type Bytes = seq<Byte>

  /** One item yielded by the glob matcher: a matched path, or an error
      raised while walking the directory tree for that item. */
  datatype GlobEntry = Found(path: Path) | Unreadable

  /** What the glob matcher makes of a pattern: a syntax error, or the
      matches in the order the matcher yields them. */
  datatype GlobResult = BadPattern | Matches(entries: seq<GlobEntry>)

  /** The filesystem as the program sees it.  `read` is None when the file
      cannot be read; `canCreate` is false when opening the destination for
      appending (creating it) fails. */
  datatype FileSystem = FileSystem(
    isFile: Path -> bool,
    isDir: Path -> bool,
    pathExists: Path -> bool,
    read: Path -> Option<Bytes>,
    glob: Path -> GlobResult,
    canCreate: Path -> bool)
}

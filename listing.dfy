// A directory listing as the server reads it: names, whether each entry
// is a directory, and its size and modification time when those could be
// read. Reading the directory itself is outside the model; listings are
// inputs.

module Listing {
  import opened Wrappers

  /** Size in bytes and modification time (nanoseconds since the epoch) of a file. */
  datatype FileInfo = FileInfo(size: int, modTime: int)

  /** One directory entry; `info` is `None` when its metadata could not be read. */
  datatype DirEntry = DirEntry(name: string, isDir: bool, info: Option<FileInfo>)
}

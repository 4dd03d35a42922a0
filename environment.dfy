/** What the three custom tools see of the machine they run on: the answers
    of the file system, and the outcome of each call into a foreign library or
    web service (which either returns a value or raises an exception whose
    text is all the tool keeps of it). */
module Environment {

  datatype Option<+T> = None | Some(value: T)

  /** The outcome of a foreign call: a returned value, or the message of the
      exception it raised. */
  datatype Outcome<+T> = Done(value: T) | Raised(msg: string)

  /** The kind of directory entry a path string resolves to. */
  datatype Entry = RegularFile | Directory | OtherEntry

  /** The file system as the tools query it: a path string that is not a
      key does not exist. */
  type FileSystem = map<string, Entry>

  /** `Path(path).exists()`: true for any kind of entry. */
  predicate Exists(fs: FileSystem, path: string)
  {
    path in fs
  }

  /** `os.path.isfile(path)`: true only for a regular file. */
  predicate IsFile(fs: FileSystem, path: string)
    ensures IsFile(fs, path) ==> Exists(fs, path)
  {
    path in fs && fs[path] == RegularFile
  }
}

/** The part of `java.io.File` that the directory tree reads, as an in-memory value.
    A directory that cannot be listed (permissions, I/O error) keeps its children
    field, but the listing call reports failure for it, as `listFiles()` does by
    returning null. */
module FileSystem {

  datatype Option<+T> = None | Some(value: T)

  /** One filesystem entry: `name` is `getName()`, `hidden` is `isHidden()`,
      `Dir?` is `isDirectory()`; `listable` says whether listing the directory succeeds. */
  datatype Entry =
    | File(name: string, hidden: bool)
    | Dir(name: string, hidden: bool, listable: bool, children: seq<Entry>)

  /** `listFiles()`: the directory's entries in listing order, or None (null) for a
      plain file or a directory whose listing fails. */
  function ListFiles(e: Entry): Option<seq<Entry>>
  {
    if e.Dir? && e.listable then Some(e.children) else None
  }
}

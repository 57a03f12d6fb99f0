/** What the two sequence managers see of the file system: each path
    holds either something whose reading raises `json.JSONDecodeError` or
    `OSError` (which `load_from_file` catches), bytes that are not UTF-8
    (reading them raises `UnicodeDecodeError`, which it does not catch),
    a JSON document whose top level is not a list, or a list of entries. */
module Store {
  import opened Wrappers

  datatype FileContent<T> = Unreadable | Undecodable | NotAList | Items(items: seq<T>)

  /** `json.load` returns a document. */
  predicate Readable<T>(c: FileContent<T>) {
    c.NotAList? || c.Items?
  }

  /** `entry.get(key, default)` for a key that may be absent */
  function Get(v: Option<string>, default: string): (r: string)
    ensures v.None? ==> r == default
    ensures v.Some? ==> r == v.value
  {
    if v.Some? then v.value else default
  }

  /** `if self.current_file_path:` an absent path and the empty path are
      both false. */
  predicate Remembered(path: Option<string>) {
    path.Some? && path.value != []
  }

  /** `os.path.dirname(path)` is not empty: `os.makedirs("")` raises, so a
      path without a directory part can never be written. */
  predicate HasDirectory(path: string) {
    exists i | 0 <= i < |path| :: path[i] == '/'
  }

  /** The list a successful `load_from_file` installs: the file's entries,
      or nothing when the document is not a list. */
  function Loaded<T>(c: FileContent<T>): (r: seq<T>)
    requires Readable(c)
    ensures c.Items? ==> r == c.items
    ensures c.NotAList? ==> r == []
  {
    if c.Items? then c.items else []
  }
}

/** The saved send sequences (send_sequence_manager.py): an ordered list
    of named byte sequences kept in a JSON file. The class is the same as
    the rule manager's, over a different entry. */
module SendSequences {
  import opened Wrappers
  import opened Store
  import opened Lists

  /** One entry as the sequence editor writes it; keys may be absent in a
      loaded file. */
  datatype Sequence = Sequence(name: Option<string>, sequence: Option<string>, mode: Option<string>)

  class SendSequenceManager {
    var sequences: seq<Sequence>
    var currentFilePath: Option<string>
    /** The files as `open`/`json.load` would find them. */
    var files: map<string, FileContent<Sequence>>

    constructor(files0: map<string, FileContent<Sequence>>)
      ensures sequences == [] && currentFilePath == None && files == files0
    {
      sequences := [];
      currentFilePath := None;
      files := files0;
    }

    /** `load_from_file`: a readable file installs its list (an empty one
        when the document is not a list) and is remembered; a missing file
        or one whose reading raises `JSONDecodeError` or `OSError` clears
        both the list and the path; a file that is not UTF-8 raises
        `UnicodeDecodeError` out of the method, with nothing changed. */
    method LoadFromFile(path: string) returns (ok: bool, raised: bool)
      modifies this
      ensures files == old(files)
      ensures raised <==> path in files && files[path].Undecodable?
      ensures raised ==> !ok && unchanged(this)
      ensures ok <==> path in files && Readable(files[path])
      ensures ok ==> sequences == Loaded(files[path]) && currentFilePath == Some(path)
      ensures !ok && !raised ==> sequences == [] && currentFilePath == None
    {
      raised := false;
      if path in files && files[path].Undecodable? {
        return false, true;
      }
      if path in files && Readable(files[path]) {
        sequences := Loaded(files[path]);
        currentFilePath := Some(path);
        ok := true;
      } else {
        sequences := [];
        currentFilePath := None;
        ok := false;
      }
    }

    /** `save_to_file`: `writable` is whether the system lets the file be
        created and written. A path with no directory part always fails,
        since `os.makedirs("")` raises. On success the file holds the list
        and the path is remembered; on failure nothing changes. */
    method SaveToFile(path: string, writable: bool) returns (ok: bool)
      modifies this
      ensures ok <==> writable && HasDirectory(path)
      ensures sequences == old(sequences)
      ensures ok ==> files == old(files)[path := Items(sequences)] && currentFilePath == Some(path)
      ensures !ok ==> files == old(files) && currentFilePath == old(currentFilePath)
    {
      if writable && HasDirectory(path) {
        files := files[path := Items(sequences)];
        currentFilePath := Some(path);
        ok := true;
      } else {
        ok := false;
      }
    }

    /** `save_current_file`: writes only when a path is remembered. */
    method SaveCurrentFile(writable: bool) returns (ok: bool)
      modifies this
      ensures sequences == old(sequences) && currentFilePath == old(currentFilePath)
      ensures ok <==> Remembered(currentFilePath) && writable && HasDirectory(currentFilePath.value)
      ensures ok ==> files == old(files)[currentFilePath.value := Items(sequences)]
      ensures !ok ==> files == old(files)
    {
      if Remembered(currentFilePath) {
        ok := SaveToFile(currentFilePath.value, writable);
      } else {
        ok := false;
      }
    }

    /** `new_set`: an empty list, no file. */
    method NewSet()
      modifies this
      ensures sequences == [] && currentFilePath == None && files == old(files)
    {
      sequences := [];
      currentFilePath := None;
    }

    /** `add_sequence`: appended at the end, then saved to the current file. */
    method AddSequence(data: Sequence, writable: bool)
      modifies this
      ensures sequences == old(sequences) + [data]
      ensures currentFilePath == old(currentFilePath)
      ensures Saved(old(files), writable) == files
    {
      sequences := sequences + [data];
      var _ := SaveCurrentFile(writable);
    }

    /** `edit_sequence`: only an index inside the list is replaced and saved. */
    method EditSequence(index: int, data: Sequence, writable: bool)
      modifies this
      ensures sequences == ReplaceAt(old(sequences), index, data)
      ensures currentFilePath == old(currentFilePath)
      ensures files == if 0 <= index < |old(sequences)| then Saved(old(files), writable) else old(files)
    {
      if 0 <= index < |sequences| {
        sequences := ReplaceAt(sequences, index, data);
        var _ := SaveCurrentFile(writable);
      }
    }

    /** `delete_sequence`: only an index inside the list is removed and saved. */
    method DeleteSequence(index: int, writable: bool)
      modifies this
      ensures sequences == RemoveAt(old(sequences), index)
      ensures currentFilePath == old(currentFilePath)
      ensures files == if 0 <= index < |old(sequences)| then Saved(old(files), writable) else old(files)
    {
      if 0 <= index < |sequences| {
        sequences := RemoveAt(sequences, index);
        var _ := SaveCurrentFile(writable);
      }
    }

    /** The files after the current list are saved, if they are. */
    function Saved(before: map<string, FileContent<Sequence>>, writable: bool): map<string, FileContent<Sequence>>
      reads this
    {
      if Remembered(currentFilePath) && writable && HasDirectory(currentFilePath.value)
      then before[currentFilePath.value := Items(sequences)]
      else before
    }
  }
}

// The records the bundling stages pass around (src/types_def.ts):
// a dependency file and a rename record, with the first-match lookups the
// visitors perform on lists of rename records.
module Records {
  import opened Wrappers
  import opened Ast

  /** `DepsFile`: a file path, its content and whatever other fields the
      dependency collector attached. */
  datatype DepsFile = DepsFile(file: string, content: seq<Stmt>, rest: map<string, string>)

  /** `NamesSet` entry: `base` in `file` is to be called `newName`. */
  datatype NamesSet = NamesSet(base: string, file: string, newName: string, isEd: bool)

  /** `list.find(m => m.base === base && m.file === file)`. */
  function FindBaseFile(list: seq<NamesSet>, base: string, file: string): (r: Option<NamesSet>)
    ensures r.Some? ==> r.value in list && r.value.base == base && r.value.file == file
    ensures r.None? <==> forall i :: 0 <= i < |list| ==> !(list[i].base == base && list[i].file == file)
    ensures r.Some? ==> (exists i :: 0 <= i < |list| && list[i] == r.value
                          && forall j :: 0 <= j < i ==> !(list[j].base == base && list[j].file == file))
  {
    if list == [] then None
    else if list[0].base == base && list[0].file == file then Some(list[0])
    else
      var r := FindBaseFile(list[1..], base, file);
      if r.Some? then
        var i :| 0 <= i < |list[1..]| && list[1..][i] == r.value
                 && forall j :: 0 <= j < i ==> !(list[1..][j].base == base && list[1..][j].file == file);
        assert list[i + 1] == r.value;
        r
      else r
  }

  /** `list.find(m => m.file === file)`. */
  function FindFile(list: seq<NamesSet>, file: string): (r: Option<NamesSet>)
    ensures r.Some? ==> r.value in list && r.value.file == file
    ensures r.None? <==> forall i :: 0 <= i < |list| ==> list[i].file != file
  {
    if list == [] then None
    else if list[0].file == file then Some(list[0])
    else FindFile(list[1..], file)
  }

  /** The entry found is the first one for `file`. */
  lemma {:induction false} FindFileFirst(list: seq<NamesSet>, file: string) returns (i: nat)
    requires FindFile(list, file).Some?
    ensures i < |list| && list[i] == FindFile(list, file).value
    ensures forall j :: 0 <= j < i ==> list[j].file != file
  {
    if list[0].file == file {
      i := 0;
    } else {
      var k := FindFileFirst(list[1..], file);
      i := k + 1;
    }
  }

  /** Appending entries for other files or other names does not change a lookup. */
  lemma {:induction false} FindBaseFileAppend(list: seq<NamesSet>, extra: seq<NamesSet>, base: string, file: string)
    requires FindBaseFile(list, base, file).Some?
    ensures FindBaseFile(list + extra, base, file) == FindBaseFile(list, base, file)
  {
    assert (list + extra)[0] == list[0];
    if !(list[0].base == base && list[0].file == file) {
      assert FindBaseFile(list, base, file) == FindBaseFile(list[1..], base, file);
      assert (list + extra)[1..] == list[1..] + extra;
      FindBaseFileAppend(list[1..], extra, base, file);
    }
  }

  /** When no record has that base and file, appending records that do not
      either keeps the search empty. */
  lemma FindBaseFileAppendMiss(list: seq<NamesSet>, extra: seq<NamesSet>, base: string, file: string)
    requires FindBaseFile(list, base, file).None?
    requires forall i :: 0 <= i < |extra| ==> !(extra[i].base == base && extra[i].file == file)
    ensures FindBaseFile(list + extra, base, file).None?
  {
    forall i | 0 <= i < |list + extra| ensures !((list + extra)[i].base == base && (list + extra)[i].file == file) {
      if i < |list| {
        assert (list + extra)[i] == list[i];
      } else {
        assert (list + extra)[i] == extra[i - |list|];
      }
    }
  }
}

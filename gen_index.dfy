/**
 The index generator script: given its command-line arguments and the JSON
 files listed under the root directory, laid out as
 `<root>/<date>/<lang>/<file>.json`, it builds the table
 date -> language -> file names in the order the files are listed.
 */
module GenIndex {
  import opened PathSplit
  import opened IndexTable

  /** Every listed path has at least three components. */
  predicate AllValid(paths: seq<string>)
  {
    forall i :: 0 <= i < |paths| ==> ValidPath(paths[i])
  }

  /** The entry read from each path, in order. */
  function EntriesOf(paths: seq<string>): (r: seq<Entry>)
    requires AllValid(paths)
    ensures |r| == |paths|
    ensures forall i :: 0 <= i < |paths| ==>
      IsComponent(r[i].date) && IsComponent(r[i].lang) && IsComponent(r[i].file) && EndsWithEntry(paths[i], r[i])
  {
    seq(|paths|, i requires 0 <= i < |paths| => PathEntry(paths[i]))
  }

  /** The file name of every listed path appears in the list of that
      path's date and language. */
  lemma PathListed(paths: seq<string>, i: nat)
    requires AllValid(paths) && i < |paths|
    ensures var e := PathEntry(paths[i]);
      e.file in Files(IndexOf(EntriesOf(paths)), e.date, e.lang)
  {
    EntryListed(EntriesOf(paths), i);
  }

  /** The table for the first `i + 1` paths is the table for the first `i`
      with the entry of path `i` inserted. */
  lemma IndexStep(paths: seq<string>, i: nat)
    requires AllValid(paths) && i < |paths|
    ensures IndexOf(EntriesOf(paths)[..i + 1]) == Insert(IndexOf(EntriesOf(paths)[..i]), PathEntry(paths[i]))
  {
    var entries := EntriesOf(paths);
    assert entries[i] == PathEntry(paths[i]);
    assert entries[..i + 1] == entries[..i] + [entries[i]];
    IndexOfSnoc(entries[..i], entries[i]);
  }

  /** The table of the script, which its loop fills one path at a time. */
  class IndexBuilder {
    var result: Index

    ghost predicate Valid()
      reads this
    {
      NoEmptyList(result)
    }

    /** `result = {}` */
    constructor ()
      ensures Valid() && result == map[]
    {
      result := map[];
    }

    /** One turn of the loop: split `p` and put its file name at the end
        of the list of its date and language. */
    method AddPath(p: string)
      requires Valid() && ValidPath(p)
      modifies this
      ensures Valid()
      ensures result == Insert(old(result), PathEntry(p))
    {
      var e := PathEntry(p);
      AddEntry(e);
    }

    /** `result.setdefault(date, {}).setdefault(lang, []).append(f)`: create
        the date and the language entries when they are missing, then append
        the file name. */
    method AddEntry(e: Entry)
      requires Valid()
      modifies this
      ensures Valid()
      ensures result == Insert(old(result), e)
    {
      ghost var m := result;
      ghost var langs := if e.date in m then m[e.date] else map[];
      ghost var files := if e.lang in langs then langs[e.lang] else [];
      if e.date !in result {
        result := result[e.date := map[]];
      }
      if e.lang !in result[e.date] {
        result := result[e.date := result[e.date][e.lang := []]];
      }
      assert result[e.date] == langs[e.lang := files];
      assert forall d :: d in m && d != e.date ==> result[d] == m[d];
      result := result[e.date := result[e.date][e.lang := result[e.date][e.lang] + [e.file]]];
      assert result[e.date] == langs[e.lang := files + [e.file]];
      assert result == m[e.date := langs[e.lang := files + [e.file]]];
      InsertNoEmptyList(m, e);
    }
  }

  /** The loop over the listed paths. */
  method BuildIndex(paths: seq<string>) returns (b: IndexBuilder)
    requires AllValid(paths)
    ensures fresh(b) && b.Valid()
    ensures b.result == IndexOf(EntriesOf(paths))
  {
    ghost var entries := EntriesOf(paths);
    b := new IndexBuilder();
    for i := 0 to |paths|
      invariant b.Valid()
      invariant b.result == IndexOf(entries[..i])
    {
      b.AddPath(paths[i]);
      IndexStep(paths, i);
    }
    assert entries[..|paths|] == entries;
  }

  /** What the script ends with: an exit status, or the table it prints. */
  datatype Outcome = Exit(code: int) | Printed(index: Index)

  /** The script run with arguments `argv` (`argv[0]` is the script), where
      `glob(root)` stands for the paths the file system lists under `root`. */
  method Run(argv: seq<string>, glob: string -> seq<string>) returns (out: Outcome)
    requires |argv| >= 2 ==> AllValid(glob(argv[1]))
    ensures |argv| < 2 <==> out == Exit(-1)
    ensures |argv| >= 2 ==> out == Printed(IndexOf(EntriesOf(glob(argv[1]))))
  {
    if |argv| < 2 {
      return Exit(-1);
    }
    var root := argv[1];
    var b := BuildIndex(glob(root));
    out := Printed(b.result);
  }
}

/**
 The table the index generator prints: date -> language -> file names,
 filled by inserting one entry at a time, and what it holds once a whole
 sequence of entries has been inserted.
 */
module IndexTable {
  import opened PathSplit
  import opened MapSum

  /** The result table: date -> language -> file names. */
  type Index = map<string, map<string, seq<string>>>

  /** The list held for `date`/`lang`, or the empty list when there is none. */
  function Files(m: Index, date: string, lang: string): seq<string>
  {
    if date in m && lang in m[date] then m[date][lang] else []
  }

  /** Every list present in the table has at least one file in it. */
  predicate NoEmptyList(m: Index)
  {
    forall d, l :: d in m && l in m[d] ==> m[d][l] != []
  }

  /** `result.setdefault(date, {}).setdefault(lang, []).append(f)` on the
      table as a value. */
  function Insert(m: Index, e: Entry): (m': Index)
    ensures m'.Keys == m.Keys + {e.date}
    ensures Files(m', e.date, e.lang) == Files(m, e.date, e.lang) + [e.file]
  {
    var langs := if e.date in m then m[e.date] else map[];
    var files := if e.lang in langs then langs[e.lang] else [];
    m[e.date := langs[e.lang := files + [e.file]]]
  }

  /** An insertion appends the file name to the one list of its date and
      language, creating the keys that were missing; every other list is
      left as it was. */
  lemma InsertEffect(m: Index, e: Entry)
    ensures Insert(m, e).Keys == m.Keys + {e.date}
    ensures Insert(m, e)[e.date].Keys == (if e.date in m then m[e.date].Keys else {}) + {e.lang}
    ensures forall d :: d in m && d != e.date ==> Insert(m, e)[d] == m[d]
    ensures forall d, l :: Files(Insert(m, e), d, l) == Files(m, d, l) + (if d == e.date && l == e.lang then [e.file] else [])
  {
  }

  /** An insertion never leaves an empty list behind. */
  lemma InsertNoEmptyList(m: Index, e: Entry)
    requires NoEmptyList(m)
    ensures NoEmptyList(Insert(m, e))
  {
  }

  /** The table after inserting `entries` one after the other into an
      empty one. */
  function IndexOf(entries: seq<Entry>): (m: Index)
    ensures m == map[] <==> entries == []
    decreases |entries|
  {
    if entries == [] then map[]
    else Insert(IndexOf(entries[..|entries| - 1]), entries[|entries| - 1])
  }

  /** Inserting one more entry at the end is one more insertion. */
  lemma IndexOfSnoc(entries: seq<Entry>, e: Entry)
    ensures IndexOf(entries + [e]) == Insert(IndexOf(entries), e)
  {
    assert (entries + [e])[..|entries|] == entries;
  }

  /** The dates of the entries. */
  function Dates(entries: seq<Entry>): set<string>
  {
    set i | 0 <= i < |entries| :: entries[i].date
  }

  /** The languages of the entries that carry `date`. */
  function Langs(entries: seq<Entry>, date: string): set<string>
  {
    set i | 0 <= i < |entries| && entries[i].date == date :: entries[i].lang
  }

  /** The entry has date `date` and language `lang`. */
  predicate InGroup(e: Entry, date: string, lang: string)
  {
    e.date == date && e.lang == lang
  }

  /** The positions of the entries with date `date` and language `lang`, in
      increasing order. */
  function Positions(entries: seq<Entry>, date: string, lang: string): (r: seq<nat>)
    ensures forall k :: 0 <= k < |r| ==> r[k] < |entries|
    ensures forall j, k :: 0 <= j < k < |r| ==> r[j] < r[k]
    ensures forall i :: 0 <= i < |entries| ==> (i in r <==> InGroup(entries[i], date, lang))
    decreases |entries|
  {
    if entries == [] then []
    else
      var n := |entries| - 1;
      var front := entries[..n];
      assert forall i :: 0 <= i < n ==> front[i] == entries[i];
      Positions(front, date, lang) + (if InGroup(entries[n], date, lang) then [n] else [])
  }

  /** The file names of the entries with date `date` and language `lang`,
      in the order those entries come. */
  function GroupFiles(entries: seq<Entry>, date: string, lang: string): seq<string>
  {
    var r := Positions(entries, date, lang);
    seq(|r|, k requires 0 <= k < |r| => entries[r[k]].file)
  }

  /** One more entry adds its file name at the end of its own group only. */
  lemma GroupFilesSnoc(entries: seq<Entry>, date: string, lang: string)
    requires entries != []
    ensures var n := |entries| - 1;
      GroupFiles(entries, date, lang) == GroupFiles(entries[..n], date, lang)
        + (if InGroup(entries[n], date, lang) then [entries[n].file] else [])
  {
    var n := |entries| - 1;
    var front := entries[..n];
    var r, r' := Positions(entries, date, lang), Positions(front, date, lang);
    assert r == r' + (if InGroup(entries[n], date, lang) then [n] else []);
    assert forall k :: 0 <= k < |r'| ==> front[r'[k]] == entries[r'[k]];
  }

  /** Each list in the table holds exactly the file names of the entries of
      its date and language, in input order: every entry lands in the list
      of its own date and language and nowhere else. */
  lemma {:induction false} IndexFiles(entries: seq<Entry>, date: string, lang: string)
    ensures Files(IndexOf(entries), date, lang) == GroupFiles(entries, date, lang)
    decreases |entries|
  {
    if entries != [] {
      var n := |entries| - 1;
      GroupFilesSnoc(entries, date, lang);
      IndexFiles(entries[..n], date, lang);
      InsertEffect(IndexOf(entries[..n]), entries[n]);
    }
  }

  /** Every entry's file name is listed under its own date and language. */
  lemma EntryListed(entries: seq<Entry>, i: nat)
    requires i < |entries|
    ensures entries[i].file in Files(IndexOf(entries), entries[i].date, entries[i].lang)
  {
    var e := entries[i];
    IndexFiles(entries, e.date, e.lang);
    var r := Positions(entries, e.date, e.lang);
    assert i in r;
    var k :| 0 <= k < |r| && r[k] == i;
    assert GroupFiles(entries, e.date, e.lang)[k] == e.file;
  }

  /** No list of the table is empty. */
  lemma {:induction false} IndexNoEmptyList(entries: seq<Entry>)
    ensures NoEmptyList(IndexOf(entries))
    decreases |entries|
  {
    if entries != [] {
      var n := |entries| - 1;
      IndexNoEmptyList(entries[..n]);
      InsertNoEmptyList(IndexOf(entries[..n]), entries[n]);
    }
  }

  /** One more entry adds its date to the dates. */
  lemma DatesSnoc(entries: seq<Entry>)
    requires entries != []
    ensures Dates(entries) == Dates(entries[..|entries| - 1]) + {entries[|entries| - 1].date}
  {
    var n := |entries| - 1;
    assert forall i :: 0 <= i < n ==> entries[..n][i] == entries[i];
  }

  /** One more entry adds its language to the languages of its date. */
  lemma LangsSnoc(entries: seq<Entry>, date: string)
    requires entries != []
    ensures var n := |entries| - 1;
      Langs(entries, date) == Langs(entries[..n], date) + (if entries[n].date == date then {entries[n].lang} else {})
  {
    var n := |entries| - 1;
    assert forall i :: 0 <= i < n ==> entries[..n][i] == entries[i];
  }

  /** The top-level keys are the dates of the entries, and the keys under a
      date are the languages of the entries with that date. */
  lemma {:induction false} IndexKeys(entries: seq<Entry>)
    ensures IndexOf(entries).Keys == Dates(entries)
    ensures forall d :: d in IndexOf(entries) ==> IndexOf(entries)[d].Keys == Langs(entries, d)
    decreases |entries|
  {
    if entries != [] {
      var n := |entries| - 1;
      var front, e := entries[..n], entries[n];
      IndexKeys(front);
      InsertEffect(IndexOf(front), e);
      DatesSnoc(entries);
      forall d | d in IndexOf(entries)
        ensures IndexOf(entries)[d].Keys == Langs(entries, d)
      {
        LangsSnoc(entries, d);
      }
    }
  }

  /** Adding more entries only appends: what is listed for a date and
      language stays at the front of that list. */
  lemma {:induction false} IndexAppendOnly(entries: seq<Entry>, more: seq<Entry>, date: string, lang: string)
    ensures Files(IndexOf(entries), date, lang) <= Files(IndexOf(entries + more), date, lang)
    decreases |more|
  {
    if more != [] {
      var m := |more| - 1;
      var front := entries + more[..m];
      assert entries + more == front + [more[m]];
      IndexAppendOnly(entries, more[..m], date, lang);
      IndexOfSnoc(front, more[m]);
      InsertEffect(IndexOf(front), more[m]);
      var before, after := Files(IndexOf(front), date, lang), Files(IndexOf(entries + more), date, lang);
      assert before <= after;
    } else {
      assert entries + more == entries;
    }
  }

  function Len(files: seq<string>): nat
  {
    |files|
  }

  /** The number of files listed under one date. */
  ghost function LangTotal(langs: map<string, seq<string>>): nat
  {
    SumOver(langs, Len)
  }

  /** The number of files listed in the whole table. */
  ghost function Total(m: Index): nat
  {
    SumOver(m, LangTotal)
  }

  /** One insertion lists exactly one file more. */
  lemma InsertTotal(m: Index, e: Entry)
    ensures Total(Insert(m, e)) == Total(m) + 1
  {
    var langs := if e.date in m then m[e.date] else map[];
    var files := if e.lang in langs then langs[e.lang] else [];
    SumOverUpdate(langs, Len, e.lang, files + [e.file]);
    SumOverUpdate(m, LangTotal, e.date, langs[e.lang := files + [e.file]]);
  }

  /** The table lists exactly as many files as there are entries: none is
      dropped and none is listed twice. */
  lemma {:induction false} IndexTotal(entries: seq<Entry>)
    ensures Total(IndexOf(entries)) == |entries|
    decreases |entries|
  {
    if entries != [] {
      var n := |entries| - 1;
      IndexTotal(entries[..n]);
      InsertTotal(IndexOf(entries[..n]), entries[n]);
    }
  }
}

# Index generator model

This project models `tools/gen_index.py`, the script that builds the index of
the trending-topics archive. The archive holds JSON files laid out as
`<root>/<date>/<lang>/<file>.json`. Given the root
directory as its first command-line argument, the script lists those files
and groups the file names into a two-level table, date -> language -> list of
file names. Then it prints the table as JSON. Without the argument it exits
with status -1.

The model has four modules:

- `PathSplit` (`path_split.dfy`) models Python's `str.split` on `'/'`
  (`Split`) and its inverse (`Join`). `PathEntry` models the unpacking
  `date, lang, f = str(p).split('/')[-3:]`.
- `MapSum` (`map_sum.dfy`) sums a weight over the values of a map. It is
  used to count the files in the table.
- `IndexTable` (`index_table.dfy`) models the table as a value.
  `Insert` is `result.setdefault(date, {}).setdefault(lang, []).append(f)`,
  and `IndexOf` is the table after inserting a sequence of entries in order.
  The lemmas say what that table holds.
- `GenIndex` (`gen_index.dfy`) models the script itself. The class
  `IndexBuilder` owns the mutable `result` dictionary. `AddPath` is one turn
  of the loop. `BuildIndex` is the loop. `Run` adds the argument guard.

The file system listing `Path(root_dir).glob('*/*/*.json')` is not modelled.
`Run` takes it as a parameter `glob` that maps the root argument to the
listed path strings, in whatever order the operating system gives them.

## Model

| member | source | states |
|---|---|---|
| PathSplit.Split | tools/gen_index.py:13 | `str.split('/')` always gives at least one piece, and no piece contains the separator |
| PathSplit.SplitCount | tools/gen_index.py:13 | there is exactly one piece more than there are separators in the string |
| PathSplit.JoinSplit | tools/gen_index.py:13 | joining the pieces with the separator gives the original string back |
| PathSplit.SplitJoin | tools/gen_index.py:13 | splitting a join of separator-free pieces gives the same pieces back |
| PathSplit.PathEntry | tools/gen_index.py:13 | needs a path with at least two '/'. Date, language and file name contain no '/'. The path ends with `date/lang/file`, and either that is the whole path or a '/' comes just before it |
| PathSplit.PathEntryRoundTrip | tools/gen_index.py:12-13 | for any root and any '/'-free date, language and file name, the path `<root>/<date>/<lang>/<file>` is accepted and reads back as exactly those three components |
| IndexTable.Insert | tools/gen_index.py:14 | `result.setdefault(date, {}).setdefault(lang, []).append(f)` as a value: the date becomes a key, and the file name goes at the end of that date and language's list. The full effect is given by InsertEffect, InsertTotal and InsertNoEmptyList |
| IndexTable.IndexOf | tools/gen_index.py:11-14 | the table after inserting the entries in order into `{}`. It is empty exactly when there are no entries. What it holds is given by IndexFiles, IndexKeys, IndexNoEmptyList and IndexTotal |
| IndexTable.InsertEffect | tools/gen_index.py:14 | one insertion adds the date key and the language key if they were missing. It appends the file name at the end of that one list, and every other date and every other list stays unchanged |
| IndexTable.InsertNoEmptyList | tools/gen_index.py:14 | an insertion into a table with no empty list leaves no empty list |
| IndexTable.InsertTotal | tools/gen_index.py:14 | one insertion adds exactly one file name to the table |
| IndexTable.Positions | tools/gen_index.py:12-14 | the positions of the entries of one date and language, strictly increasing, holding every such position and no other |
| IndexTable.GroupFilesSnoc | tools/gen_index.py:14 | one more entry extends only its own group, at the end |
| IndexTable.IndexFiles | tools/gen_index.py:11-14 | the list for a date and a language holds exactly the file names of the entries with that date and language, in input order |
| IndexTable.EntryListed | tools/gen_index.py:13-14 | each entry's file name appears in the list of its own date and language |
| IndexTable.IndexNoEmptyList | tools/gen_index.py:14 | no list in the finished table is empty |
| IndexTable.IndexKeys | tools/gen_index.py:13-14 | the top-level keys are exactly the dates of the entries. The keys under a date are exactly the languages of the entries with that date |
| IndexTable.IndexAppendOnly | tools/gen_index.py:14 | later entries only append: each list of the table for a prefix of the input is a prefix of the same list for the whole input |
| IndexTable.IndexTotal | tools/gen_index.py:11-14 | the lengths of all lists add up to the number of entries, so nothing is dropped or duplicated |
| GenIndex.EntriesOf | tools/gen_index.py:12-13 | one entry per listed path, in listing order. Each entry is the last three '/'-free components of its own path: the path ends with `date/lang/file`, either as the whole path or just after a '/' |
| GenIndex.PathListed | tools/gen_index.py:13-14 | the file name of every listed path appears in the list of that path's date and language |
| GenIndex.IndexBuilder.constructor | tools/gen_index.py:11 | the table starts empty |
| GenIndex.IndexBuilder.AddEntry | tools/gen_index.py:14 | `setdefault` creates the missing keys and `append` adds the file name. The new table is the old one with the entry inserted, and it still has no empty list |
| GenIndex.IndexBuilder.AddPath | tools/gen_index.py:13-14 | one turn of the loop: the path is split and its entry is inserted into the table in place |
| GenIndex.BuildIndex | tools/gen_index.py:11-14 | after the loop, the table equals the table of the entries of all listed paths, in listing order |
| GenIndex.Run | tools/gen_index.py:5-15 | without a root argument the outcome is exit status -1, and only then. Otherwise the outcome is the table built from the listing of that root |
| IndexTable.IndexOfSnoc | tools/gen_index.py:11-14 | supporting lemma: the table for one more entry is the previous table with that entry inserted. This is the loop step that BuildIndex relies on |
| MapSum.SumOverUpdate | tools/gen_index.py:14 | supporting lemma for InsertTotal: setting one key changes a sum over a map by the new value's weight minus the old one's |

## Left out

- The file system listing (`Path(root_dir).glob('*/*/*.json')`) is a parameter of `Run`. Its order depends on the operating system and is taken as given.
- JSON serialisation (`json.dumps(result, indent=4)`) and printing to standard output are left out. `Run` returns the table that would be printed.
- Key order is left out. Python dictionaries remember the order in which keys were inserted, and `json.dumps` prints dates and languages in first-seen order. The model uses `map`, which has no order. The order of file names inside each list is modelled.
- In-place aliasing is not modelled. `setdefault` returns the nested dictionary and list, and the script mutates them in place. The model reassigns the whole `result` map. No other reference to those inner objects exists, so nothing observable changes.
- PathSplit.PathEntry: a path with fewer than three components would make the unpacking raise `ValueError`. The listing never yields such a path, so the model requires at least three components (`ValidPath`).
- Windows path separators are left out. `str(p)` uses `\` on Windows, but the script splits on `/`, so the model assumes `/`.
- Run: the status is modelled as the value -1 passed to `sys.exit`. A POSIX shell sees it as 255.
- The bare `except:` around `sys.argv[1]` can only catch the missing-argument `IndexError` there, so that is the only error path modelled.
- `batch/src/index.js` and `app/src/index.js` are not part of this model. They only pass process arguments, environment variables and the page location to the Elm program, and connect its ports to `console.log` and `process.exit`.

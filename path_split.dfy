/**
 Splitting a path string on '/' the way Python's `str.split` does with a
 one-character separator, and reading an index entry (date, language, file
 name) from the last three components of a path.
 */
module PathSplit {

  /** The pieces of `parts` glued back together with `sep` between them
      (Python's `sep.join(parts)`). */
  function Join(parts: seq<string>, sep: char): string
    requires |parts| >= 1
    decreases |parts|
  {
    if |parts| == 1 then parts[0] else parts[0] + [sep] + Join(parts[1..], sep)
  }

  /** `s.split(sep)`: the pieces of `s` between occurrences of `sep`, empty
      pieces included; one piece more than there are separators. */
  function Split(s: string, sep: char): (parts: seq<string>)
    ensures |parts| >= 1
    ensures forall i :: 0 <= i < |parts| ==> sep !in parts[i]
    decreases |s|
  {
    if s == [] then [[]]
    else
      var rest := Split(s[1..], sep);
      if s[0] == sep then
        [[]] + rest
      else
        [[s[0]] + rest[0]] + rest[1..]
  }

  /** There is one piece more than there are separators. */
  lemma {:induction false} SplitCount(s: string, sep: char)
    ensures |Split(s, sep)| == multiset(s)[sep] + 1
    decreases |s|
  {
    if s != [] {
      SplitCount(s[1..], sep);
      assert s == [s[0]] + s[1..];
      assert multiset(s) == multiset{s[0]} + multiset(s[1..]);
    }
  }

  /** Joining the pieces of a split gives the string back. */
  lemma {:induction false} JoinSplit(s: string, sep: char)
    ensures Join(Split(s, sep), sep) == s
    decreases |s|
  {
    if s != [] {
      var rest := Split(s[1..], sep);
      JoinSplit(s[1..], sep);
      if s[0] == sep {
        assert Split(s, sep) == [[]] + rest;
        assert ([[]] + rest)[1..] == rest;
      } else {
        var parts := [[s[0]] + rest[0]] + rest[1..];
        assert Split(s, sep) == parts;
        if |rest| == 1 {
          assert parts == [[s[0]] + rest[0]];
        } else {
          assert parts[1..] == rest[1..];
          assert Join(rest, sep) == rest[0] + [sep] + Join(rest[1..], sep);
        }
      }
    }
  }

  /** Prepending a separator-free string `x` only lengthens the first piece. */
  lemma {:induction false} SplitPrepend(x: string, y: string, sep: char)
    requires sep !in x
    ensures Split(x + y, sep) == [x + Split(y, sep)[0]] + Split(y, sep)[1..]
    decreases |x|
  {
    if x != [] {
      var z, ys := x + y, Split(y, sep);
      assert z[0] == x[0] && z[1..] == x[1..] + y;
      SplitPrepend(x[1..], y, sep);
      var rest := Split(z[1..], sep);
      assert rest[0] == x[1..] + ys[0] && rest[1..] == ys[1..];
      assert Split(z, sep) == [[x[0]] + rest[0]] + rest[1..];
      assert [x[0]] + (x[1..] + ys[0]) == x + ys[0];
    } else {
      var ys := Split(y, sep);
      assert x + y == y && x + ys[0] == ys[0];
      assert [ys[0]] + ys[1..] == ys;
    }
  }

  /** A separator in front adds one empty piece in front. */
  lemma SplitSep(y: string, sep: char)
    ensures Split([sep] + y, sep) == [[]] + Split(y, sep)
  {
    assert ([sep] + y)[1..] == y;
  }

  /** Splitting a join of separator-free pieces gives the pieces back. */
  lemma {:induction false} SplitJoin(parts: seq<string>, sep: char)
    requires |parts| >= 1
    requires forall i :: 0 <= i < |parts| ==> sep !in parts[i]
    ensures Split(Join(parts, sep), sep) == parts
    decreases |parts|
  {
    var x := parts[0];
    if |parts| == 1 {
      SplitPrepend(x, [], sep);
      assert x + [] == x;
    } else {
      var y := Join(parts[1..], sep);
      var t := [sep] + y;
      SplitJoin(parts[1..], sep);
      SplitSep(y, sep);
      SplitPrepend(x, t, sep);
      assert x + t == Join(parts, sep);
      assert Split(t, sep)[0] == [] && Split(t, sep)[1..] == parts[1..];
      assert x + [] == x;
      assert parts == [x] + parts[1..];
    }
  }

  /** Joining splits at any inner position into two joins and a separator. */
  lemma {:induction false} JoinAt(parts: seq<string>, sep: char, k: nat)
    requires 1 <= k < |parts|
    ensures Join(parts, sep) == Join(parts[..k], sep) + [sep] + Join(parts[k..], sep)
    decreases k
  {
    if k > 1 {
      JoinAt(parts[1..], sep, k - 1);
      assert parts[1..][..k - 1] == parts[..k][1..];
      assert parts[1..][k - 1..] == parts[k..];
    }
  }

  /** One line of the index: the three last components of a path. */
  datatype Entry = Entry(date: string, lang: string, file: string)

  /** A path with at least three '/'-separated components; a path that the
      glob pattern (any date, any language, any `.json` file) matches
      under a root directory always has them. */
  predicate ValidPath(p: string)
  {
    multiset(p)['/'] >= 2
  }

  /** A path component: a string holding no '/'. */
  predicate IsComponent(s: string)
  {
    '/' !in s
  }

  /** `date/lang/file`. */
  function Tail(e: Entry): string
  {
    e.date + "/" + e.lang + "/" + e.file
  }

  /** `p` ends with `date/lang/file`, and either that is all of `p` or a '/'
      comes just before it. */
  predicate EndsWithEntry(p: string, e: Entry)
  {
    var t := Tail(e);
    |t| <= |p| && p[|p| - |t|..] == t && (|t| == |p| || p[|p| - |t| - 1] == '/')
  }

  /** The join of exactly three pieces is `date/lang/file`. */
  lemma JoinThree(parts: seq<string>)
    requires |parts| == 3
    ensures Join(parts, '/') == Tail(Entry(parts[0], parts[1], parts[2]))
  {
    assert parts[1..][1..] == parts[2..];
    assert Join(parts[2..], '/') == parts[2];
  }

  /** A string that ends with a '/' and then `t` ends with `t`. */
  lemma EndsAfterSlash(pre: string, t: string)
    ensures var p := pre + "/" + t;
      p[|p| - |t|..] == t && p[|p| - |t| - 1] == '/'
  {
  }

  /** A join of at least three pieces ends with its last three pieces. */
  lemma JoinEndsWithLastThree(parts: seq<string>)
    requires |parts| >= 3
    ensures EndsWithEntry(Join(parts, '/'), Entry(parts[|parts| - 3], parts[|parts| - 2], parts[|parts| - 1]))
  {
    var n := |parts|;
    var last := parts[n - 3..];
    JoinThree(last);
    if n > 3 {
      JoinAt(parts, '/', n - 3);
      EndsAfterSlash(Join(parts[..n - 3], '/'), Join(last, '/'));
    } else {
      assert last == parts;
    }
  }

  /** `date, lang, f = p.split('/')[-3:]`: the last three components of `p`. */
  function PathEntry(p: string): (e: Entry)
    requires ValidPath(p)
    ensures IsComponent(e.date) && IsComponent(e.lang) && IsComponent(e.file)
    ensures EndsWithEntry(p, e)
  {
    var parts := Split(p, '/');
    var n := |parts|;
    SplitCount(p, '/');
    JoinSplit(p, '/');
    JoinEndsWithLastThree(parts);
    Entry(parts[n - 3], parts[n - 2], parts[n - 1])
  }

  /** Reading back the path `<root>/<date>/<lang>/<file>` gives the date,
      language and file name it was made of, whatever the root. */
  lemma PathEntryRoundTrip(root: string, e: Entry)
    requires IsComponent(e.date) && IsComponent(e.lang) && IsComponent(e.file)
    ensures ValidPath(root + "/" + Tail(e))
    ensures PathEntry(root + "/" + Tail(e)) == e
  {
    var rp := Split(root, '/');
    var last := [e.date, e.lang, e.file];
    var parts := rp + last;
    var p := root + "/" + Tail(e);
    JoinSplit(root, '/');
    JoinThree(last);
    JoinAt(parts, '/', |rp|);
    assert parts[..|rp|] == rp && parts[|rp|..] == last;
    assert Join(parts, '/') == p;
    SplitJoin(parts, '/');
    SplitCount(p, '/');
  }
}

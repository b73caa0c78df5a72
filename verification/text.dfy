/** Failure-compatible result used for the JavaScript exceptions the core can raise. */
module Results {

  datatype Result<+T> = Ok(value: T) | Err(error: string) {

    predicate IsFailure() {
      Err?
    }

    function PropagateFailure<U>(): Result<U>
      requires Err?
    {
      Err(error)
    }

    function Extract(): T
      requires Ok?
    {
      value
    }
  }
}

/** String helpers shared by the renderers: JavaScript's `Array.prototype.join`,
    splitting on one separator character, and prefixes. */
module Text {

  /** `parts.join(sep)` as JavaScript defines it. */
  function Join(parts: seq<string>, sep: string): string
  {
    if |parts| == 0 then ""
    else if |parts| == 1 then parts[0]
    else parts[0] + sep + Join(parts[1..], sep)
  }

  /** `s.split(sep)` for a one-character separator: the maximal separator-free
      pieces, in order; there is always at least one piece. */
  function Split(s: string, sep: char): (r: seq<string>)
    ensures |r| >= 1
    ensures forall i :: 0 <= i < |r| ==> sep !in r[i]
  {
    if |s| == 0 then [""]
    else
      var rest := Split(s[1..], sep);
      if s[0] == sep then [""] + rest
      else [[s[0]] + rest[0]] + rest[1..]
  }

  /** The characters of `s` that satisfy `keep`, in order. */
  function Filter(s: string, keep: char -> bool): (r: string)
    ensures |r| <= |s|
    ensures forall i :: 0 <= i < |r| ==> keep(r[i])
  {
    if |s| == 0 then ""
    else (if keep(s[0]) then [s[0]] else "") + Filter(s[1..], keep)
  }

  /** The lines of a text. */
  function Lines(s: string): seq<string>
  {
    Split(s, '\n')
  }

  predicate HasPrefix(s: string, p: string)
  {
    |p| <= |s| && s[..|p|] == p
  }

  predicate HasSuffix(s: string, p: string)
  {
    |p| <= |s| && s[|s| - |p|..] == p
  }

  /** A text without the separator is a single piece. */
  lemma {:induction false} SplitNoSep(s: string, sep: char)
    requires sep !in s
    ensures Split(s, sep) == [s]
  {
    if |s| > 0 {
      assert sep !in s[1..] by {
        forall i | 0 <= i < |s[1..]| ensures s[1..][i] != sep {
          assert s[1..][i] == s[i + 1];
        }
      }
      SplitNoSep(s[1..], sep);
      assert [s[0]] + s[1..] == s;
    }
  }

  /** A separator between two texts separates their pieces. */
  lemma {:induction false} SplitConcat(a: string, b: string, sep: char)
    ensures Split(a + [sep] + b, sep) == Split(a, sep) + Split(b, sep)
  {
    if |a| == 0 {
      assert a + [sep] + b == [sep] + b;
      assert ([sep] + b)[1..] == b;
    } else {
      assert (a + [sep] + b)[1..] == a[1..] + [sep] + b;
      SplitConcat(a[1..], b, sep);
    }
  }

  /** Splitting a join undoes it when no part holds the separator. */
  lemma {:induction false} SplitJoin(parts: seq<string>, sep: char)
    requires |parts| >= 1
    requires forall i :: 0 <= i < |parts| ==> sep !in parts[i]
    ensures Split(Join(parts, [sep]), sep) == parts
  {
    if |parts| == 1 {
      SplitNoSep(parts[0], sep);
    } else {
      SplitJoin(parts[1..], sep);
      SplitNoSep(parts[0], sep);
      SplitConcat(parts[0], Join(parts[1..], [sep]), sep);
      assert [parts[0]] + parts[1..] == parts;
    }
  }

  /** Lines of a text made of a separator-free line, a newline and the rest. */
  lemma LinesCons(line: string, rest: string)
    requires '\n' !in line
    ensures Lines(line + "\n" + rest) == [line] + Lines(rest)
  {
    SplitConcat(line, rest, '\n');
    SplitNoSep(line, '\n');
  }

  /** Joining one more part appends the separator and that part. */
  lemma {:induction false} JoinSnoc(parts: seq<string>, x: string, sep: string)
    requires |parts| > 0
    ensures Join(parts + [x], sep) == Join(parts, sep) + sep + x
  {
    if |parts| == 1 {
      assert parts + [x] == [parts[0], x];
      assert [parts[0], x][1..] == [x];
    } else {
      assert (parts + [x])[1..] == parts[1..] + [x];
      JoinSnoc(parts[1..], x, sep);
      var j := Join(parts[1..], sep);
      ConcatAssoc(parts[0] + sep, j + sep, x);
      ConcatAssoc(parts[0] + sep, j, sep);
    }
  }

  /** Joining without a separator concatenates the first part with the join of the rest. */
  lemma JoinNoSep(parts: seq<string>)
    requires |parts| > 0
    ensures Join(parts, "") == parts[0] + Join(parts[1..], "")
  {
    if |parts| == 1 {
      assert parts[0] + "" == parts[0];
    } else {
      assert parts[0] + "" + Join(parts[1..], "") == parts[0] + Join(parts[1..], "");
    }
  }

  /** The first character of a join is that of its first part, the last that of its last part. */
  lemma {:induction false} JoinEnds(parts: seq<string>, sep: string)
    requires |parts| >= 1
    requires forall i :: 0 <= i < |parts| ==> |parts[i]| > 0
    ensures var j := Join(parts, sep);
      |j| > 0 && j[0] == parts[0][0] && j[|j| - 1] == parts[|parts| - 1][|parts[|parts| - 1]| - 1]
  {
    if |parts| > 1 {
      JoinEnds(parts[1..], sep);
    }
  }

  lemma {:induction false} FilterConcat(a: string, b: string, keep: char -> bool)
    ensures Filter(a + b, keep) == Filter(a, keep) + Filter(b, keep)
  {
    if |a| > 0 {
      assert (a + b)[1..] == a[1..] + b;
      FilterConcat(a[1..], b, keep);
    } else {
      assert a + b == b;
    }
  }

  /** Filtering keeps a text whose every character is kept. */
  lemma {:induction false} FilterKeepsAll(s: string, keep: char -> bool)
    requires forall i :: 0 <= i < |s| ==> keep(s[i])
    ensures Filter(s, keep) == s
  {
    if |s| > 0 {
      FilterKeepsAll(s[1..], keep);
      assert [s[0]] + s[1..] == s;
    }
  }

  /** A filter comes out empty exactly when no character is kept. */
  lemma {:induction false} FilterEmpty(s: string, keep: char -> bool)
    ensures Filter(s, keep) == "" <==> forall i :: 0 <= i < |s| ==> !keep(s[i])
  {
    if |s| > 0 {
      FilterEmpty(s[1..], keep);
      assert forall i :: 1 <= i < |s| ==> s[i] == s[1..][i - 1];
    }
  }

  /** A join is made only of characters from its parts and its separator. */
  lemma {:induction false} JoinChars(parts: seq<string>, sep: string, ok: char -> bool)
    requires forall i, j :: 0 <= i < |parts| && 0 <= j < |parts[i]| ==> ok(parts[i][j])
    requires forall j :: 0 <= j < |sep| ==> ok(sep[j])
    ensures forall j :: 0 <= j < |Join(parts, sep)| ==> ok(Join(parts, sep)[j])
  {
    if |parts| > 1 {
      JoinChars(parts[1..], sep, ok);
      assert forall i, j :: 0 <= i < |parts[1..]| && 0 <= j < |parts[1..][i]| ==> parts[1..][i][j] == parts[i + 1][j];
    }
  }

  /** Dropping the separator character from a join concatenates the parts. */
  lemma {:induction false} FilterJoin(parts: seq<string>, sep: char)
    requires forall i :: 0 <= i < |parts| ==> sep !in parts[i]
    ensures Filter(Join(parts, [sep]), c => c != sep) == Join(parts, "")
  {
    var notSep := c => c != sep;
    if |parts| == 1 {
      FilterKeepsAll(parts[0], notSep);
    } else if |parts| > 1 {
      FilterJoin(parts[1..], sep);
      FilterKeepsAll(parts[0], notSep);
      FilterConcat(parts[0] + [sep], Join(parts[1..], [sep]), notSep);
      FilterConcat(parts[0], [sep], notSep);
      assert Filter([sep], notSep) == "";
    }
  }

  /** The pieces of `xs` followed by those of `ys`, the last of `xs` and the
      first of `ys` glued together: what splitting a concatenation gives. */
  function Glue(xs: seq<string>, ys: seq<string>): (r: seq<string>)
    requires |xs| > 0 && |ys| > 0
    ensures |r| == |xs| + |ys| - 1
  {
    xs[..|xs| - 1] + [xs[|xs| - 1] + ys[0]] + ys[1..]
  }

  lemma GlueCons(x: string, xs: seq<string>, ys: seq<string>)
    requires |xs| > 0 && |ys| > 0
    ensures Glue([x] + xs, ys) == [x] + Glue(xs, ys)
  {
    assert ([x] + xs)[..|xs|] == [x] + xs[..|xs| - 1];
  }

  lemma GlueFirst(c: char, xs: seq<string>, ys: seq<string>)
    requires |xs| > 0 && |ys| > 0
    ensures var g := Glue(xs, ys);
      Glue([[c] + xs[0]] + xs[1..], ys) == [[c] + g[0]] + g[1..]
  {
    var g := Glue(xs, ys);
    if |xs| == 1 {
      assert [c] + xs[0] + ys[0] == [c] + (xs[0] + ys[0]);
    } else {
      GlueCons(xs[0], xs[1..], ys);
      GlueCons([c] + xs[0], xs[1..], ys);
      assert [xs[0]] + xs[1..] == xs;
    }
  }

  lemma {:induction false} SplitAppend(a: string, b: string, sep: char)
    ensures Split(a + b, sep) == Glue(Split(a, sep), Split(b, sep))
  {
    var sb := Split(b, sep);
    if |a| > 0 {
      assert (a + b)[1..] == a[1..] + b;
      SplitAppend(a[1..], b, sep);
      var sa := Split(a[1..], sep);
      if a[0] == sep {
        GlueCons("", sa, sb);
      } else {
        GlueFirst(a[0], sa, sb);
      }
    } else {
      assert a + b == b;
      assert "" + sb[0] == sb[0];
      assert [sb[0]] + sb[1..] == sb;
    }
  }

  /** The pieces of every part, in order. */
  function SplitEach(parts: seq<string>, sep: char): seq<string>
  {
    if |parts| == 0 then [] else Split(parts[0], sep) + SplitEach(parts[1..], sep)
  }

  lemma {:induction false} SplitEachConcat(a: seq<string>, b: seq<string>, sep: char)
    ensures SplitEach(a + b, sep) == SplitEach(a, sep) + SplitEach(b, sep)
  {
    if |a| > 0 {
      assert (a + b)[1..] == a[1..] + b;
      SplitEachConcat(a[1..], b, sep);
    } else {
      assert a + b == b;
    }
  }

  lemma {:induction false} SplitEachSingle(parts: seq<string>, sep: char)
    requires forall i :: 0 <= i < |parts| ==> sep !in parts[i]
    ensures SplitEach(parts, sep) == parts
  {
    if |parts| > 0 {
      SplitNoSep(parts[0], sep);
      SplitEachSingle(parts[1..], sep);
      assert [parts[0]] + parts[1..] == parts;
    }
  }

  /** Splitting a join yields the pieces of each part in turn. */
  lemma {:induction false} SplitJoinEach(parts: seq<string>, sep: char)
    requires |parts| >= 1
    ensures Split(Join(parts, [sep]), sep) == SplitEach(parts, sep)
  {
    if |parts| == 1 {
      assert parts[1..] == [];
    } else {
      SplitJoinEach(parts[1..], sep);
      SplitConcat(parts[0], Join(parts[1..], [sep]), sep);
    }
  }

  lemma ConsAssoc<T>(x: T, xs: seq<T>, ys: seq<T>)
    ensures [x] + (xs + ys) == ([x] + xs) + ys
  {
  }

  lemma ConcatAssoc<T>(a: seq<T>, b: seq<T>, c: seq<T>)
    ensures a + b + c == a + (b + c)
  {
  }

  lemma PairCons<T>(x: T, y: T, rest: seq<T>)
    ensures [x] + ([y] + rest) == [x, y] + rest
  {
  }

  lemma TakeDrop<T>(s: seq<T>, n: nat)
    requires n <= |s|
    ensures s == s[..n] + s[n..]
  {
  }

  lemma ConsParts<T>(x: T, xs: seq<T>)
    ensures ([x] + xs)[0] == x && ([x] + xs)[1..] == xs
  {
  }

  lemma Uncons<T>(s: seq<T>)
    requires |s| > 0
    ensures s == [s[0]] + s[1..]
  {
  }

  lemma ConsSplit(a: string, t: string)
    requires |a| > 0
    ensures a + t == a[..1] + (a[1..] + t)
  {
    assert a == a[..1] + a[1..];
  }

  lemma PrefixOfConcat(p: string, s: string)
    ensures HasPrefix(p + s, p) && (p + s)[|p|..] == s
  {
    assert (p + s)[..|p|] == p;
  }
}

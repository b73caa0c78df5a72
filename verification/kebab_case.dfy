/** `toKebabCase` of the Ethereum manifest scaffold: the contract name is cut
    into tokens by the global regular expression

        [A-Z]{2,}(?=[A-Z][a-z]+[0-9]*|\b) | [A-Z]?[a-z]+[0-9]* | [A-Z] | [0-9]+

    (alternatives tried leftmost first, at each position from left to right,
    skipping a position where none matches), the tokens are lower-cased and
    joined with `-`. When nothing matches, `String.prototype.match` returns
    `null` and the following `.map` throws. */
module KebabCase {
  import opened Results
  import opened Text

  /** The ASCII character classes the expression uses (no `i` or `u` flag). */
  datatype CharClass = Upper | Lower | Digit

  predicate InClass(c: char, k: CharClass)
  {
    match k
    case Upper => 'A' <= c <= 'Z'
    case Lower => 'a' <= c <= 'z'
    case Digit => '0' <= c <= '9'
  }

  predicate IsAlnum(c: char)
  {
    InClass(c, Upper) || InClass(c, Lower) || InClass(c, Digit)
  }

  /** `\w`, which decides `\b`. */
  predicate IsWordChar(c: char)
  {
    IsAlnum(c) || c == '_'
  }

  /** Length of the longest prefix of `s` inside class `k`. */
  function Run(s: string, k: CharClass): (n: nat)
    ensures n <= |s|
    ensures forall i :: 0 <= i < n ==> InClass(s[i], k)
    ensures n == |s| || !InClass(s[n], k)
  {
    if |s| == 0 || !InClass(s[0], k) then 0 else 1 + Run(s[1..], k)
  }

  // ---------------------------------------------------------------------------
  // The four alternatives, each giving the length it matches at the start of
  // `s` (0 when it does not match; no alternative matches the empty string).
  // ---------------------------------------------------------------------------

  predicate WordAt(s: string, i: int)
  {
    0 <= i < |s| && IsWordChar(s[i])
  }

  /** `\b` at position `p`: a word character on exactly one side. */
  predicate WordBoundary(s: string, p: int)
  {
    WordAt(s, p - 1) != WordAt(s, p)
  }

  /** `(?=[A-Z][a-z]+[0-9]*|\b)` at position `p`; the first branch holds exactly
      when an upper-case letter is followed by a lower-case one, since `[0-9]*`
      may be empty. */
  predicate AcronymLookahead(s: string, p: nat)
  {
    (p + 1 < |s| && InClass(s[p], Upper) && InClass(s[p + 1], Lower))
    || WordBoundary(s, p)
  }

  /** `[A-Z]{2,}` backtracking from `k` letters down to two until the lookahead
      holds: the longest such length is taken, and the branch fails only when
      there is none. */
  function AcronymBacktrack(s: string, k: nat): (n: nat)
    ensures n == 0 || (2 <= n <= k && AcronymLookahead(s, n))
    ensures forall j :: 2 <= j <= k && n < j ==> !AcronymLookahead(s, j)
  {
    if k < 2 then 0
    else if AcronymLookahead(s, k) then k
    else AcronymBacktrack(s, k - 1)
  }

  /** First alternative: the greedy upper-case run, then backtracking. */
  function AcronymMatch(s: string): nat
  {
    AcronymBacktrack(s, Run(s, Upper))
  }

  /** `[a-z]+[0-9]*` at the start of `t`. */
  function LowerThenDigits(t: string): nat
  {
    var l := Run(t, Lower);
    if l == 0 then 0 else l + Run(t[l..], Digit)
  }

  /** Second alternative `[A-Z]?[a-z]+[0-9]*`: the optional letter is tried
      first; without it the match must start with a lower-case letter. */
  function WordMatch(s: string): nat
  {
    if |s| > 0 && InClass(s[0], Upper) && LowerThenDigits(s[1..]) > 0
    then 1 + LowerThenDigits(s[1..])
    else LowerThenDigits(s)
  }

  /** Third alternative `[A-Z]`. */
  function CapitalMatch(s: string): nat
  {
    if |s| > 0 && InClass(s[0], Upper) then 1 else 0
  }

  /** Fourth alternative `[0-9]+`. */
  function NumberMatch(s: string): nat
  {
    Run(s, Digit)
  }

  /** The length of the match at the start of `s`, alternatives in order. A
      match exists exactly when `s` starts with a letter or digit, and it holds
      only letters and digits. */
  function MatchAt(s: string): (n: nat)
    ensures n <= |s|
    ensures n > 0 <==> |s| > 0 && IsAlnum(s[0])
    ensures forall i :: 0 <= i < n ==> IsAlnum(s[i])
  {
    var a := AcronymMatch(s);
    if a > 0 then a
    else
      var w := WordMatch(s);
      if w > 0 then w
      else
        var c := CapitalMatch(s);
        if c > 0 then c
        else NumberMatch(s)
  }

  /** A token: a non-empty run of letters and digits. */
  predicate IsToken(t: string)
  {
    |t| > 0 && forall j :: 0 <= j < |t| ==> IsAlnum(t[j])
  }

  /** The array `String.prototype.match` returns for the global expression
      (empty where it returns `null`). */
  function Tokens(s: string): (r: seq<string>)
    ensures forall i :: 0 <= i < |r| ==> IsToken(r[i])
    decreases |s|
  {
    if |s| == 0 then []
    else
      var n := MatchAt(s);
      if n == 0 then Tokens(s[1..])
      else [s[..n]] + Tokens(s[n..])
  }

  /** ASCII `toLowerCase`; the tokens hold only ASCII letters and digits. */
  function LowerChar(c: char): char
  {
    if InClass(c, Upper) then (c as int + 32) as char else c
  }

  /** Each upper-case letter becomes the lower-case letter at the same place
      in the alphabet; every other character is kept. */
  function LowerCase(t: string): (r: string)
    ensures |r| == |t|
    ensures forall i :: 0 <= i < |t| ==> !InClass(r[i], Upper)
    ensures forall i :: 0 <= i < |t| && InClass(t[i], Upper) ==>
      InClass(r[i], Lower) && r[i] as int - 'a' as int == t[i] as int - 'A' as int
    ensures forall i :: 0 <= i < |t| && !InClass(t[i], Upper) ==> r[i] == t[i]
  {
    seq(|t|, i requires 0 <= i < |t| => LowerChar(t[i]))
  }

  function LowerAll(ts: seq<string>): (r: seq<string>)
    ensures |r| == |ts|
  {
    seq(|ts|, i requires 0 <= i < |ts| => LowerCase(ts[i]))
  }

  /** `toKebabCase(contractName)`; `Err` where the JavaScript throws, which is
      exactly when the name holds no ASCII letter or digit. */
  function ToKebabCase(name: string): (r: Result<string>)
    ensures r.Err? <==> forall i :: 0 <= i < |name| ==> !IsAlnum(name[i])
  {
    TokensCoverAlnum(name);
    JoinTokensNonEmpty(Tokens(name));
    FilterEmpty(name, IsAlnum);
    var ts := Tokens(name);
    if |ts| == 0 then Err("TypeError: Cannot read properties of null (reading 'map')")
    else Ok(Join(LowerAll(ts), "-"))
  }

  // ---------------------------------------------------------------------------
  // Properties
  // ---------------------------------------------------------------------------

  /** Below the last two letters of an upper-case run, backtracking finds nothing:
      an upper-case letter follows, so neither lookahead branch holds. */
  lemma {:induction false} AcronymBacktrackInsideRun(s: string, k: nat)
    requires k + 1 < Run(s, Upper)
    ensures AcronymBacktrack(s, k) == 0
  {
    if k >= 2 {
      assert !AcronymLookahead(s, k) by {
        assert InClass(s[k + 1], Upper) && WordAt(s, k - 1) && WordAt(s, k);
      }
      AcronymBacktrackInsideRun(s, k - 1);
    }
  }

  /** The backtracking acronym branch in closed form: with an upper-case run of
      `m >= 2` letters it takes the whole run when no word character follows,
      leaves the last letter to the next token when a lower-case letter follows
      and the run has at least three letters, and otherwise fails. */
  lemma AcronymClosedForm(s: string)
    ensures var m := Run(s, Upper);
      AcronymMatch(s) ==
        if m < 2 then 0
        else if m == |s| || !IsWordChar(s[m]) then m
        else if m >= 3 && InClass(s[m], Lower) then m - 1
        else 0
  {
    var m := Run(s, Upper);
    if m >= 2 {
      assert WordAt(s, m - 1);
      if m < |s| && IsWordChar(s[m]) {
        assert !AcronymLookahead(s, m);
        assert AcronymMatch(s) == AcronymBacktrack(s, m - 1);
        if m >= 3 {
          assert WordAt(s, m - 2);
          assert AcronymLookahead(s, m - 1) <==> InClass(s[m], Lower);
          AcronymBacktrackInsideRun(s, m - 2);
        }
      }
    }
  }

  function KeepAlnum(s: string): string
  {
    Filter(s, IsAlnum)
  }

  /** The tokens, concatenated, are exactly the letters and digits of the name
      in order: every other character is dropped and none is duplicated. */
  lemma {:induction false} TokensCoverAlnum(s: string)
    ensures Join(Tokens(s), "") == KeepAlnum(s)
    decreases |s|
  {
    if |s| > 0 {
      var n := MatchAt(s);
      assert s == s[..1] + s[1..];
      FilterConcat(s[..1], s[1..], IsAlnum);
      if n == 0 {
        TokensCoverAlnum(s[1..]);
      } else {
        TokensCoverAlnum(s[n..]);
        TokensCoverMatch(s, n);
      }
    }
  }

  /** One match of the global expression: its text is kept whole. */
  lemma TokensCoverMatch(s: string, n: nat)
    requires 0 < n == MatchAt(s)
    requires Join(Tokens(s[n..]), "") == KeepAlnum(s[n..])
    ensures Join(Tokens(s), "") == KeepAlnum(s)
  {
    var head, rest := s[..n], Tokens(s[n..]);
    TokensStep(s, n, rest);
    JoinNoSep([head] + rest);
    ConsParts(head, rest);
    TakeDrop(s, n);
    FilterConcat(head, s[n..], IsAlnum);
    FilterKeepsAll(head, IsAlnum);
  }

  /** One step of the global match: the matched text, then the matches of the rest. */
  lemma TokensStep(s: string, n: nat, rest: seq<string>)
    requires 0 < n <= |s| && MatchAt(s) == n && Tokens(s[n..]) == rest
    ensures Tokens(s) == [s[..n]] + rest
  {
  }

  /** The same step, with the text given as the match and what follows it. */
  lemma TokensSplit(s: string, head: string, tail: string, rest: seq<string>)
    requires s == head + tail && |head| > 0 && MatchAt(s) == |head| && Tokens(tail) == rest
    ensures Tokens(s) == [head] + rest
  {
    assert s[..|head|] == head && s[|head|..] == tail;
    TokensStep(s, |head|, rest);
  }

  /** Every token is one of the four shapes of the alternatives. */
  predicate IsAcronym(t: string)
  {
    |t| >= 2 && forall i :: 0 <= i < |t| ==> InClass(t[i], Upper)
  }

  predicate IsWordToken(t: string)
  {
    var u := if |t| > 0 && InClass(t[0], Upper) then 1 else 0;
    var l := u + Run(t[u..], Lower);
    l > u && forall i :: l <= i < |t| ==> InClass(t[i], Digit)
  }

  predicate IsCapital(t: string)
  {
    |t| == 1 && InClass(t[0], Upper)
  }

  predicate IsNumber(t: string)
  {
    |t| >= 1 && forall i :: 0 <= i < |t| ==> InClass(t[i], Digit)
  }

  predicate HasAlternativeShape(t: string)
  {
    IsAcronym(t) || IsWordToken(t) || IsCapital(t) || IsNumber(t)
  }

  lemma RunPrefix(s: string, n: nat, k: CharClass)
    requires n <= Run(s, k)
    ensures Run(s[..n], k) == n
    decreases n
  {
    if n > 0 {
      assert s[..n][1..] == s[1..][..n - 1];
      RunPrefix(s[1..], n - 1, k);
    }
  }

  lemma LowerThenDigitsShape(t: string, n: nat)
    requires n == LowerThenDigits(t) && n > 0
    ensures Run(t[..n], Lower) == Run(t, Lower)
    ensures forall i :: Run(t, Lower) <= i < n ==> InClass(t[..n][i], Digit)
  {
    var l := Run(t, Lower);
    RunPrefix(t, l, Lower);
    assert t[..n][..l] == t[..l];
    if l < n {
      assert !InClass(t[..n][l], Lower) by {
        assert t[..n][l] == t[l..][0];
        assert InClass(t[l..][0], Digit);
      }
      RunStopsAt(t[..n], l, Lower);
    } else {
      RunPrefix(t, n, Lower);
    }
    forall i | l <= i < n ensures InClass(t[..n][i], Digit) {
      assert t[..n][i] == t[l..][i - l];
    }
  }

  lemma RunStopsAt(s: string, l: nat, k: CharClass)
    requires l < |s|
    requires forall i :: 0 <= i < l ==> InClass(s[i], k)
    requires !InClass(s[l], k)
    ensures Run(s, k) == l
    decreases l
  {
    if l > 0 {
      RunStopsAt(s[1..], l - 1, k);
    }
  }

  lemma MatchShape(s: string)
    requires MatchAt(s) > 0
    ensures HasAlternativeShape(s[..MatchAt(s)])
  {
    if AcronymMatch(s) > 0 {
      AcronymShape(s);
    } else if WordMatch(s) > 0 {
      if InClass(s[0], Upper) && LowerThenDigits(s[1..]) > 0 {
        CapitalWordShape(s);
      } else {
        LowerWordShape(s);
      }
    } else if CapitalMatch(s) > 0 {
      assert IsCapital(s[..MatchAt(s)]);
    } else {
      assert IsNumber(s[..MatchAt(s)]);
    }
  }

  lemma AcronymShape(s: string)
    requires AcronymMatch(s) > 0
    ensures IsAcronym(s[..AcronymMatch(s)])
  {
    AcronymClosedForm(s);
  }

  lemma CapitalWordShape(s: string)
    requires |s| > 0 && InClass(s[0], Upper) && LowerThenDigits(s[1..]) > 0
    ensures IsWordToken(s[..1 + LowerThenDigits(s[1..])])
  {
    var m := LowerThenDigits(s[1..]);
    var t := s[..1 + m];
    LowerThenDigitsShape(s[1..], m);
    assert t[1..] == s[1..][..m];
  }

  lemma LowerWordShape(s: string)
    requires LowerThenDigits(s) > 0
    ensures IsWordToken(s[..LowerThenDigits(s)])
  {
    var n := LowerThenDigits(s);
    var t := s[..n];
    LowerThenDigitsShape(s, n);
    assert t[0..] == t;
  }

  lemma {:induction false} TokenShapes(s: string)
    ensures forall i :: 0 <= i < |Tokens(s)| ==> HasAlternativeShape(Tokens(s)[i])
    decreases |s|
  {
    if |s| > 0 {
      var n := MatchAt(s);
      if n == 0 {
        TokenShapes(s[1..]);
      } else {
        TokenShapes(s[n..]);
        MatchShape(s);
      }
    }
  }

  predicate IsKebabChar(c: char)
  {
    InClass(c, Lower) || InClass(c, Digit) || c == '-'
  }

  lemma LowerCaseToken(t: string)
    requires IsToken(t)
    ensures IsToken(LowerCase(t))
    ensures forall j :: 0 <= j < |t| ==> IsKebabChar(LowerCase(t)[j]) && LowerCase(t)[j] != '-'
  {
  }

  lemma {:induction false} JoinTokensNonEmpty(ts: seq<string>)
    requires forall i :: 0 <= i < |ts| ==> IsToken(ts[i])
    ensures Join(ts, "") == "" <==> |ts| == 0
  {
    if |ts| > 0 {
      JoinEnds(ts, "");
    }
  }

  /** The result splits on `-` back into the lower-cased tokens, in order: no
      segment is empty, so the text neither starts nor ends with `-` and never
      holds two dashes in a row. */
  lemma KebabSegments(name: string)
    requires ToKebabCase(name).Ok?
    ensures var k := ToKebabCase(name).value;
      && Split(k, '-') == LowerAll(Tokens(name))
      && (forall i :: 0 <= i < |Split(k, '-')| ==> |Split(k, '-')[i]| > 0)
      && |k| > 0 && k[0] != '-' && k[|k| - 1] != '-'
  {
    var ts := Tokens(name);
    var ls := LowerAll(ts);
    forall i | 0 <= i < |ls| ensures IsToken(ls[i]) && '-' !in ls[i] {
      LowerCaseToken(ts[i]);
    }
    SplitJoin(ls, '-');
    JoinEnds(ls, "-");
    LowerCaseToken(ls[0]);
    LowerCaseToken(ls[|ls| - 1]);
  }

  /** The result holds only lower-case letters, digits and `-`; in particular
      no upper-case letter and no line break. */
  lemma KebabAlphabet(name: string)
    requires ToKebabCase(name).Ok?
    ensures var k := ToKebabCase(name).value;
      forall i :: 0 <= i < |k| ==> IsKebabChar(k[i])
  {
    var ts := Tokens(name);
    var ls := LowerAll(ts);
    forall i, j | 0 <= i < |ls| && 0 <= j < |ls[i]| ensures IsKebabChar(ls[i][j]) {
      LowerCaseToken(ts[i]);
    }
    JoinChars(ls, "-", IsKebabChar);
  }

  lemma LowerCaseConcat(a: string, b: string)
    ensures LowerCase(a + b) == LowerCase(a) + LowerCase(b)
  {
  }

  lemma {:induction false} LowerCaseJoin(ts: seq<string>)
    ensures Join(LowerAll(ts), "") == LowerCase(Join(ts, ""))
  {
    if |ts| > 1 {
      LowerCaseJoin(ts[1..]);
      assert LowerAll(ts)[1..] == LowerAll(ts[1..]);
      LowerCaseConcat(ts[0], Join(ts[1..], ""));
      assert ts[0] + "" + Join(ts[1..], "") == ts[0] + Join(ts[1..], "");
      assert LowerAll(ts)[0] + "" + Join(LowerAll(ts)[1..], "")
        == LowerAll(ts)[0] + Join(LowerAll(ts)[1..], "");
    }
  }

  /** Removing the dashes leaves the name's letters and digits, lower-cased,
      in their original order. */
  lemma KebabLetters(name: string)
    requires ToKebabCase(name).Ok?
    ensures Filter(ToKebabCase(name).value, c => c != '-') == LowerCase(KeepAlnum(name))
  {
    var ts := Tokens(name);
    var ls := LowerAll(ts);
    forall i | 0 <= i < |ls| ensures '-' !in ls[i] {
      LowerCaseToken(ts[i]);
    }
    FilterJoin(ls, '-');
    LowerCaseJoin(ts);
    TokensCoverAlnum(name);
  }
}

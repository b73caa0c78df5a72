/** What `toKebabCase` makes of the usual shapes of a contract name: words in
    Pascal case, an acronym before a word, and an upper-case run before a
    number. */
module KebabCaseShapes {
  import opened Results
  import opened Text
  import opened KebabCase

  predicate AllIn(s: string, k: CharClass)
  {
    forall i :: 0 <= i < |s| ==> InClass(s[i], k)
  }

  /** An upper-case letter followed by one or more lower-case letters. */
  predicate CapitalWord(w: string)
  {
    |w| >= 2 && InClass(w[0], Upper) && AllIn(w[1..], Lower)
  }

  /** A text that does not continue a word or a number: empty, or starting
      with something other than a lower-case letter or a digit. */
  predicate EndsWordOrNumber(rest: string)
  {
    |rest| == 0 || (!InClass(rest[0], Lower) && !InClass(rest[0], Digit))
  }

  /** Each letter as a token of its own. */
  function Singles(a: string): (r: seq<string>)
    ensures |r| == |a|
  {
    seq(|a|, i requires 0 <= i < |a| => [a[i]])
  }

  lemma {:induction false} RunAll(s: string, t: string, k: CharClass)
    requires AllIn(s, k) && (|t| == 0 || !InClass(t[0], k))
    ensures Run(s + t, k) == |s|
  {
    if |s| > 0 {
      assert (s + t)[1..] == s[1..] + t;
      RunAll(s[1..], t, k);
    } else {
      assert s + t == t;
    }
  }

  // ---------------------------------------------------------------------------
  // Pascal case
  // ---------------------------------------------------------------------------

  /** A capitalised word is matched whole by `[A-Z]?[a-z]+[0-9]*`. */
  lemma MatchCapitalWord(w: string, rest: string)
    requires CapitalWord(w) && EndsWordOrNumber(rest)
    ensures MatchAt(w + rest) == |w|
  {
    var s := w + rest;
    assert s[1] == w[1];
    assert Run(s, Upper) == 1;
    assert s[1..] == w[1..] + rest;
    RunAll(w[1..], rest, Lower);
    assert s[1..][|w| - 1..] == rest;
    assert Run(rest, Digit) == 0;
  }

  lemma TokensCapitalWord(w: string, rest: string)
    requires CapitalWord(w) && EndsWordOrNumber(rest)
    ensures Tokens(w + rest) == [w] + Tokens(rest)
  {
    MatchCapitalWord(w, rest);
    TokensSplit(w + rest, w, rest, Tokens(rest));
  }

  /** A name written as capitalised words is cut into exactly those words. */
  lemma {:induction false} PascalCaseTokens(ws: seq<string>)
    requires forall i :: 0 <= i < |ws| ==> CapitalWord(ws[i])
    ensures Tokens(Join(ws, "")) == ws
  {
    if |ws| > 0 {
      var rest := Join(ws[1..], "");
      JoinNoSep(ws);
      PascalCaseTokens(ws[1..]);
      if |ws| > 1 {
        JoinEnds(ws[1..], "");
        assert rest[0] == ws[1][0];
      }
      TokensCapitalWord(ws[0], rest);
      Uncons(ws);
    }
  }

  /** `MyContract` style names: the words, lower-cased, joined by `-`. */
  lemma PascalCaseKebab(ws: seq<string>)
    requires |ws| > 0
    requires forall i :: 0 <= i < |ws| ==> CapitalWord(ws[i])
    ensures ToKebabCase(Join(ws, "")) == Ok(Join(LowerAll(ws), "-"))
  {
    PascalCaseTokens(ws);
  }

  // ---------------------------------------------------------------------------
  // An acronym before a word
  // ---------------------------------------------------------------------------

  /** `HTMLParser` style names: the acronym gives its last letter back to the
      word after it. */
  lemma AcronymBeforeWord(a: string, w: string, rest: string)
    requires |a| >= 2 && AllIn(a, Upper) && CapitalWord(w) && EndsWordOrNumber(rest)
    ensures Tokens(a + w + rest) == [a, w] + Tokens(rest)
  {
    var u := w + rest;
    assert u[0] == w[0] && u[1] == w[1];
    MatchAcronym(a, u);
    TokensCapitalWord(w, rest);
    ConcatAssoc(a, w, rest);
    TokensSplit(a + u, a, u, [w] + Tokens(rest));
    PairCons(a, w, Tokens(rest));
  }

  /** An acronym followed by a capital and a lower-case letter is matched
      up to, and without, that capital. */
  lemma MatchAcronym(a: string, u: string)
    requires |a| >= 2 && AllIn(a, Upper)
    requires |u| >= 2 && InClass(u[0], Upper) && InClass(u[1], Lower)
    ensures MatchAt(a + u) == |a|
  {
    var s := a + u;
    assert s == (a + [u[0]]) + u[1..];
    assert u[1..][0] == u[1];
    RunAll(a + [u[0]], u[1..], Upper);
    assert s[|a| + 1] == u[1];
    AcronymClosedForm(s);
  }

  // ---------------------------------------------------------------------------
  // An upper-case run before a number
  // ---------------------------------------------------------------------------

  /** A run of digits is matched whole by `[0-9]+`. */
  lemma TokensDigits(d: string, rest: string)
    requires |d| > 0 && AllIn(d, Digit) && (|rest| == 0 || !InClass(rest[0], Digit))
    ensures Tokens(d + rest) == [d] + Tokens(rest)
  {
    var s := d + rest;
    assert s[0] == d[0];
    assert Run(s, Upper) == 0 && Run(s, Lower) == 0;
    RunAll(d, rest, Digit);
    TokensSplit(s, d, rest, Tokens(rest));
  }

  /** Before a digit, neither lookahead of the acronym branch holds, so each
      capital is a token of its own. */
  lemma MatchCapitalBeforeDigits(a: string, t: string)
    requires |a| > 0 && AllIn(a, Upper) && |t| > 0 && InClass(t[0], Digit)
    ensures MatchAt(a + t) == 1
  {
    var s := a + t;
    RunAll(a, t, Upper);
    assert s[|a|] == t[0];
    AcronymClosedForm(s);
    assert s[1..][0] == if |a| > 1 then a[1] else t[0];
    assert Run(s[1..], Lower) == 0;
    assert Run(s, Lower) == 0;
  }

  lemma {:induction false} CapitalsBeforeDigits(a: string, t: string)
    requires AllIn(a, Upper) && |t| > 0 && InClass(t[0], Digit)
    ensures Tokens(a + t) == Singles(a) + Tokens(t)
  {
    if |a| > 0 {
      AllInTail(a, Upper);
      CapitalsBeforeDigits(a[1..], t);
      CapitalStep(a, t);
    } else {
      assert a + t == t;
    }
  }

  lemma CapitalStep(a: string, t: string)
    requires |a| > 0 && AllIn(a, Upper) && |t| > 0 && InClass(t[0], Digit)
    requires Tokens(a[1..] + t) == Singles(a[1..]) + Tokens(t)
    ensures Tokens(a + t) == Singles(a) + Tokens(t)
  {
    var x, xs, ys := a[..1], Singles(a[1..]), Tokens(t);
    CapitalToken(a, t);
    SinglesCons(a);
    ConsAssoc(x, xs, ys);
  }

  lemma CapitalToken(a: string, t: string)
    requires |a| > 0 && AllIn(a, Upper) && |t| > 0 && InClass(t[0], Digit)
    ensures Tokens(a + t) == [a[..1]] + Tokens(a[1..] + t)
  {
    ConsSplit(a, t);
    MatchCapitalBeforeDigits(a, t);
    TokensSplit(a + t, a[..1], a[1..] + t, Tokens(a[1..] + t));
  }

  lemma AllInTail(s: string, k: CharClass)
    requires |s| > 0 && AllIn(s, k)
    ensures AllIn(s[1..], k)
  {
    assert forall i :: 0 <= i < |s[1..]| ==> s[1..][i] == s[i + 1];
  }

  lemma SinglesCons(a: string)
    requires |a| > 0
    ensures Singles(a) == [a[..1]] + Singles(a[1..])
  {
    assert a[..1] == [a[0]];
    assert forall i :: 0 <= i < |a| - 1 ==> Singles(a[1..])[i] == [a[i + 1]];
  }

  /** `ERC20Token` style names: the letters of an upper-case run before a
      number are separate tokens, so the result is `e-r-c-20-token` rather
      than `erc20-token`. */
  lemma CapitalsNumberWord(a: string, d: string, w: string)
    requires AllIn(a, Upper) && |d| > 0 && AllIn(d, Digit) && CapitalWord(w)
    ensures Tokens(a + d + w) == Singles(a) + [d, w]
    ensures ToKebabCase(a + d + w) == Ok(Join(LowerAll(Singles(a) + [d, w]), "-"))
  {
    TokensCapitalWord(w, "");
    assert w + "" == w;
    assert Tokens("") == [];
    TokensDigits(d, w);
    CapitalsBeforeDigits(a, d + w);
    ConcatAssoc(a, d, w);
  }
}

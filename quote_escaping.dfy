/** The apostrophe escaping DataScripter.ts applies to character-typed cells:
    `displayValue.replace(/'+/g, "''")`. The regular expression matches a whole
    run of apostrophes, so every maximal run (of any length) becomes exactly two
    apostrophes. A lone apostrophe is doubled, but a run of two or more shrinks
    to two: the escaping is idempotent and not injective. */
module QuoteEscaping {

  const Apostrophe: char := '\''

  /** Drops the run of apostrophes at the front of `s`. */
  function SkipQuotes(s: string): (r: string)
    ensures |r| <= |s| && r == s[|s| - |r|..]
    ensures forall k | 0 <= k < |s| - |r| :: s[k] == Apostrophe
    ensures r == [] || r[0] != Apostrophe
    decreases |s|
  {
    if s != [] && s[0] == Apostrophe then SkipQuotes(s[1..]) else s
  }

  /** `s.replace(/'+/g, "''")`. */
  function EscapeQuotes(s: string): (r: string)
    ensures (r == []) <==> (s == [])
    ensures s != [] && s[0] != Apostrophe ==> r[0] == s[0]
    ensures s != [] && s[0] == Apostrophe ==> |r| >= 2 && r[0] == Apostrophe && r[1] == Apostrophe
    decreases |s|
  {
    if s == [] then []
    else if s[0] == Apostrophe then
      assert |SkipQuotes(s)| < |s| by { assert s[0] == Apostrophe; }
      [Apostrophe, Apostrophe] + EscapeQuotes(SkipQuotes(s))
    else [s[0]] + EscapeQuotes(s[1..])
  }

  /** Every maximal run of apostrophes in `r` has length exactly two. */
  predicate PairedQuotes(r: string)
    decreases |r|
  {
    if r == [] then true
    else if r[0] != Apostrophe then PairedQuotes(r[1..])
    else |r| >= 2 && r[1] == Apostrophe && (|r| == 2 || r[2] != Apostrophe) && PairedQuotes(r[2..])
  }

  /** How a SQL string literal body is read: each `''` stands for one `'`. */
  function Unescape(r: string): string
    decreases |r|
  {
    if r == [] then []
    else if |r| >= 2 && r[0] == Apostrophe && r[1] == Apostrophe then [Apostrophe] + Unescape(r[2..])
    else [r[0]] + Unescape(r[1..])
  }

  /** No two apostrophes stand next to each other in `s`. */
  predicate NoAdjacentQuotes(s: string)
  {
    forall k | 0 <= k < |s| - 1 :: !(s[k] == Apostrophe && s[k + 1] == Apostrophe)
  }

  /** `s` with every maximal run of apostrophes replaced by a single apostrophe. */
  function CollapseRuns(s: string): string
    decreases |s|
  {
    if s == [] then []
    else if s[0] == Apostrophe then
      assert |SkipQuotes(s)| < |s| by { assert s[0] == Apostrophe; }
      [Apostrophe] + CollapseRuns(SkipQuotes(s))
    else [s[0]] + CollapseRuns(s[1..])
  }

  /** `s` with every apostrophe removed. */
  function WithoutQuotes(s: string): string
    decreases |s|
  {
    if s == [] then [] else (if s[0] == Apostrophe then [] else [s[0]]) + WithoutQuotes(s[1..])
  }

  /** The escaped text has no apostrophe run of a length other than two. */
  lemma {:induction false} EscapeQuotesPaired(s: string)
    ensures PairedQuotes(EscapeQuotes(s))
    decreases |s|
  {
    var r := EscapeQuotes(s);
    if s == [] {
    } else if s[0] == Apostrophe {
      var rest := SkipQuotes(s);
      EscapeQuotesPaired(rest);
      assert r == [Apostrophe, Apostrophe] + EscapeQuotes(rest);
      assert r[2..] == EscapeQuotes(rest);
    } else {
      EscapeQuotesPaired(s[1..]);
      assert r[1..] == EscapeQuotes(s[1..]);
    }
  }

  /** Escaping leaves a text whose runs already have length two unchanged. */
  lemma {:induction false} PairedQuotesFixed(r: string)
    requires PairedQuotes(r)
    ensures EscapeQuotes(r) == r
    decreases |r|
  {
    if r == [] {
    } else if r[0] != Apostrophe {
      PairedQuotesFixed(r[1..]);
    } else {
      assert SkipQuotes(r) == r[2..] by {
        var t := SkipQuotes(r);
        assert |r| - |t| >= 2 by {
          assert SkipQuotes(r) == SkipQuotes(r[1..]);
        }
      }
      PairedQuotesFixed(r[2..]);
      assert r == [Apostrophe, Apostrophe] + r[2..];
    }
  }

  /** A text escaping leaves unchanged has only runs of length two. */
  lemma {:induction false} FixedPairedQuotes(r: string)
    requires EscapeQuotes(r) == r
    ensures PairedQuotes(r)
    decreases |r|
  {
    if r == [] {
    } else if r[0] != Apostrophe {
      assert EscapeQuotes(r) == [r[0]] + EscapeQuotes(r[1..]);
      assert EscapeQuotes(r[1..]) == r[1..];
      FixedPairedQuotes(r[1..]);
    } else {
      var t := SkipQuotes(r);
      assert EscapeQuotes(r) == [Apostrophe, Apostrophe] + EscapeQuotes(t);
      assert EscapeQuotes(t) == r[2..];
      assert |r| >= 2 && r[1] == Apostrophe;
      if |r| > 2 {
        assert t != [] && EscapeQuotes(t)[0] == t[0];
        assert r[2] != Apostrophe;
      }
      assert t == r[2..] by {
        assert SkipQuotes(r) == SkipQuotes(r[1..]);
      }
      FixedPairedQuotes(r[2..]);
    }
  }

  /** The texts escaping leaves unchanged are exactly those whose runs have length two. */
  lemma EscapeQuotesFixedPoints(r: string)
    ensures EscapeQuotes(r) == r <==> PairedQuotes(r)
  {
    if PairedQuotes(r) {
      PairedQuotesFixed(r);
    }
    if EscapeQuotes(r) == r {
      FixedPairedQuotes(r);
    }
  }

  /** Escaping twice is escaping once. */
  lemma EscapeQuotesIdempotent(s: string)
    ensures EscapeQuotes(EscapeQuotes(s)) == EscapeQuotes(s)
  {
    EscapeQuotesPaired(s);
    PairedQuotesFixed(EscapeQuotes(s));
  }

  /** Two different texts escape to the same text: one apostrophe and two. */
  lemma EscapeQuotesNotInjective()
    ensures "'" != "''" && EscapeQuotes("'") == EscapeQuotes("''") == "''"
  {
    assert SkipQuotes("'") == [] by { assert "'"[1..] == []; }
    assert SkipQuotes("''") == [] by {
      assert "''"[1..] == "'";
      assert SkipQuotes("''") == SkipQuotes("'");
      assert "'"[1..] == [];
    }
  }

  /** Escaping keeps every other character, in order. */
  lemma {:induction false} EscapeQuotesKeepsText(s: string)
    ensures WithoutQuotes(EscapeQuotes(s)) == WithoutQuotes(s)
    decreases |s|
  {
    if s == [] {
    } else if s[0] == Apostrophe {
      EscapeQuotesKeepsText(SkipQuotes(s));
      EscapeQuotesRunStep(s);
    } else {
      EscapeQuotesKeepsText(s[1..]);
      EscapeQuotesOtherStep(s);
    }
  }

  lemma EscapeQuotesRunStep(s: string)
    requires s != [] && s[0] == Apostrophe
    requires WithoutQuotes(EscapeQuotes(SkipQuotes(s))) == WithoutQuotes(SkipQuotes(s))
    ensures WithoutQuotes(EscapeQuotes(s)) == WithoutQuotes(s)
  {
    SkipQuotesKeepsText(s);
    WithoutQuotesPair(EscapeQuotes(SkipQuotes(s)));
  }

  /** The pair of apostrophes escaping puts in front disappears. */
  lemma WithoutQuotesPair(e: string)
    ensures WithoutQuotes([Apostrophe, Apostrophe] + e) == WithoutQuotes(e)
  {
    assert [Apostrophe, Apostrophe] + e == [Apostrophe] + ([Apostrophe] + e);
    WithoutQuotesCons(Apostrophe, [Apostrophe] + e);
    WithoutQuotesCons(Apostrophe, e);
  }

  lemma EscapeQuotesOtherStep(s: string)
    requires s != [] && s[0] != Apostrophe
    requires WithoutQuotes(EscapeQuotes(s[1..])) == WithoutQuotes(s[1..])
    ensures WithoutQuotes(EscapeQuotes(s)) == WithoutQuotes(s)
  {
    assert EscapeQuotes(s) == [s[0]] + EscapeQuotes(s[1..]);
    WithoutQuotesCons(s[0], EscapeQuotes(s[1..]));
  }

  /** Removing apostrophes from a text with one more character in front. */
  lemma WithoutQuotesCons(c: char, t: string)
    ensures WithoutQuotes([c] + t) == (if c == Apostrophe then [] else [c]) + WithoutQuotes(t)
  {
    assert ([c] + t)[1..] == t;
  }

  lemma {:induction false} SkipQuotesKeepsText(s: string)
    ensures WithoutQuotes(SkipQuotes(s)) == WithoutQuotes(s)
    decreases |s|
  {
    if s != [] && s[0] == Apostrophe {
      SkipQuotesKeepsText(s[1..]);
    }
  }

  /** Where no two apostrophes are adjacent, SQL's reading of the escaped
      text gives the original text back. */
  lemma {:induction false} UnescapeEscapeQuotes(s: string)
    requires NoAdjacentQuotes(s)
    ensures Unescape(EscapeQuotes(s)) == s
    decreases |s|
  {
    if s == [] {
    } else if s[0] == Apostrophe {
      assert SkipQuotes(s) == s[1..] by {
        if |s| > 1 {
          assert s[1] != Apostrophe;
        }
      }
      UnescapeEscapeQuotes(s[1..]);
      var e := [Apostrophe, Apostrophe] + EscapeQuotes(s[1..]);
      assert e[2..] == EscapeQuotes(s[1..]);
    } else {
      UnescapeEscapeQuotes(s[1..]);
      var e := [s[0]] + EscapeQuotes(s[1..]);
      assert e[1..] == EscapeQuotes(s[1..]);
    }
  }

  /** A character other than an apostrophe is copied. */
  lemma EscapeQuotesOther(c: char, t: string)
    requires c != Apostrophe
    ensures EscapeQuotes([c] + t) == [c] + EscapeQuotes(t)
  {
    assert ([c] + t)[1..] == t;
  }

  /** A lone apostrophe is doubled. */
  lemma EscapeQuotesLoneQuote(t: string)
    requires t == [] || t[0] != Apostrophe
    ensures EscapeQuotes([Apostrophe] + t) == [Apostrophe, Apostrophe] + EscapeQuotes(t)
  {
    var s := [Apostrophe] + t;
    SkipOneQuote(s);
    assert s[1..] == t;
  }

  lemma SkipOneQuote(s: string)
    requires |s| >= 1 && s[0] == Apostrophe && (|s| == 1 || s[1] != Apostrophe)
    ensures SkipQuotes(s) == s[1..]
  {
    assert SkipQuotes(s) == SkipQuotes(s[1..]);
  }

  /** A single apostrophe inside text that has no other apostrophe is doubled. */
  lemma {:induction false} LoneQuoteDoubled(pre: string, post: string)
    requires forall k | 0 <= k < |pre| :: pre[k] != Apostrophe
    requires forall k | 0 <= k < |post| :: post[k] != Apostrophe
    ensures EscapeQuotes(pre + [Apostrophe] + post) == pre + [Apostrophe, Apostrophe] + post
    decreases |pre|
  {
    if pre == [] {
      NoQuotesFixed(post);
      EscapeQuotesLoneQuote(post);
      assert pre + [Apostrophe] + post == [Apostrophe] + post;
      assert pre + [Apostrophe, Apostrophe] + post == [Apostrophe, Apostrophe] + post;
    } else {
      LoneQuoteDoubled(pre[1..], post);
      EscapeQuotesOther(pre[0], pre[1..] + [Apostrophe] + post);
      assert pre + [Apostrophe] + post == [pre[0]] + (pre[1..] + [Apostrophe] + post);
      assert pre + [Apostrophe, Apostrophe] + post == [pre[0]] + (pre[1..] + [Apostrophe, Apostrophe] + post);
    }
  }

  /** A text without apostrophes is left unchanged. */
  lemma {:induction false} NoQuotesFixed(s: string)
    requires forall k | 0 <= k < |s| :: s[k] != Apostrophe
    ensures EscapeQuotes(s) == s
    decreases |s|
  {
    if s != [] {
      NoQuotesFixed(s[1..]);
      assert s == [s[0]] + s[1..];
    }
  }

  /** The round trip fails for a run of two apostrophes: it comes back as one. */
  lemma UnescapeEscapeQuotesLosesRuns()
    ensures Unescape(EscapeQuotes("''")) == "'" != "''"
  {
    EscapeQuotesNotInjective();
    assert "''"[2..] == [];
  }

  /** For every value, SQL reads the escaped text back as the value with each
      run of apostrophes shortened to one apostrophe. */
  lemma {:induction false} UnescapeEscapeQuotesCollapses(s: string)
    ensures Unescape(EscapeQuotes(s)) == CollapseRuns(s)
    decreases |s|
  {
    if s == [] {
    } else if s[0] == Apostrophe {
      var t := SkipQuotes(s);
      UnescapeEscapeQuotesCollapses(t);
      var e := [Apostrophe, Apostrophe] + EscapeQuotes(t);
      assert e[2..] == EscapeQuotes(t);
    } else {
      UnescapeEscapeQuotesCollapses(s[1..]);
      var e := [s[0]] + EscapeQuotes(s[1..]);
      assert e[1..] == EscapeQuotes(s[1..]);
    }
  }

  /** Collapsing leaves a value unchanged exactly when no two of its apostrophes are adjacent. */
  lemma {:induction false} CollapseRunsFixed(s: string)
    ensures CollapseRuns(s) == s <==> NoAdjacentQuotes(s)
    decreases |s|
  {
    if s == [] {
    } else if s[0] == Apostrophe {
      var t := SkipQuotes(s);
      CollapseRunsFixed(t);
      assert SkipQuotes(s) == SkipQuotes(s[1..]);
      if NoAdjacentQuotes(s) {
        assert t == s[1..] by {
          if |s| > 1 {
            assert s[1] != Apostrophe;
          }
        }
        NoAdjacentTail(s);
      }
      if CollapseRuns(s) == s {
        assert CollapseRuns(t) == s[1..];
        CollapseRunsShorter(t);
        assert t == s[1..];
        NoAdjacentTail(s);
      }
    } else {
      CollapseRunsFixed(s[1..]);
      NoAdjacentTail(s);
    }
  }

  /** Adjacency of apostrophes in `s` beyond its first character is that of `s[1..]`. */
  lemma NoAdjacentTail(s: string)
    requires s != []
    requires |s| == 1 || s[0] != Apostrophe || s[1] != Apostrophe
    ensures NoAdjacentQuotes(s) <==> NoAdjacentQuotes(s[1..])
  {
    var u := s[1..];
    if NoAdjacentQuotes(s) {
      forall k | 0 <= k < |u| - 1
        ensures !(u[k] == Apostrophe && u[k + 1] == Apostrophe)
      {
        assert u[k] == s[k + 1] && u[k + 1] == s[k + 2];
      }
    }
    if NoAdjacentQuotes(u) {
      forall k | 0 <= k < |s| - 1
        ensures !(s[k] == Apostrophe && s[k + 1] == Apostrophe)
      {
        if k > 0 {
          assert s[k] == u[k - 1] && s[k + 1] == u[k];
        }
      }
    }
  }

  lemma {:induction false} CollapseRunsShorter(s: string)
    ensures |CollapseRuns(s)| <= |s|
    decreases |s|
  {
    if s == [] {
    } else if s[0] == Apostrophe {
      CollapseRunsShorter(SkipQuotes(s));
    } else {
      CollapseRunsShorter(s[1..]);
    }
  }
}

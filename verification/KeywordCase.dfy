/** Re-casing keywords: the text that comes out has the same tokens, and is not
    changed by re-casing it again. */
module KeywordCase {
  import opened Text
  import opened Scanner
  import opened ScannerFacts
  import opened FormatLexer
  import opened LexLocality

  function Cased(k: string, lower: bool): string {
    if lower then ToLower(k) else ToUpper(k)
  }

  /** Whether the first token stands next to a dot. */
  predicate InName(ts: seq<Lexeme>, afterDot: bool) {
    afterDot || (|ts| > 1 && ts[1].typ == Dot)
  }

  function RecasedFirst(ts: seq<Lexeme>, afterDot: bool, lower: bool): Lexeme
    requires ts != []
  {
    if ts[0].typ == Keyword && !InName(ts, afterDot) then Lexeme(Keyword, Cased(ts[0].text, lower)) else ts[0]
  }

  function Recased(ts: seq<Lexeme>, afterDot: bool, lower: bool): seq<Lexeme> {
    if ts == [] then [] else [RecasedFirst(ts, afterDot, lower)] + Recased(ts[1..], ts[0].typ == Dot, lower)
  }

  /** The re-cased text; without a preference it is left as it is. */
  function Rekeyword(text: string, keywordCase: string, keywords: set<string>): string {
    if keywordCase == "" then text else Texts(Recased(Lex(text, keywords), false, keywordCase == "lower"))
  }

  // ----- texts that differ in case only

  lemma FoldTail(y: string, y': string)
    requires SameFold(y, y') && y != []
    ensures y' != [] && SameFold(y[1..], y'[1..]) && UpperChar(y[0]) == UpperChar(y'[0])
  {
    assert |ToUpper(y)| == |ToUpper(y')|;
    assert ToUpper(y)[0] == ToUpper(y')[0];
    assert ToUpper(y[1..]) == ToUpper(y)[1..] && ToUpper(y'[1..]) == ToUpper(y')[1..];
  }

  lemma {:induction false} FoldWord(y: string, y': string)
    requires SameFold(y, y')
    ensures |Word(y)| == |Word(y')| && SameFold(AfterWord(y), AfterWord(y'))
  {
    if y == [] {
      assert |ToUpper(y')| == 0;
    } else {
      FoldTail(y, y');
      if IsWordChar(y[0]) {
        FoldWord(y[1..], y'[1..]);
        assert AfterWord(y) == AfterWord(y[1..]) && AfterWord(y') == AfterWord(y'[1..]);
      } else {
        assert AfterWord(y) == y && AfterWord(y') == y';
      }
    }
  }

  lemma FoldAlike(y: string, y': string)
    requires SameFold(y, y')
    ensures Alike(y, y')
  {
    assert |ToUpper(y)| == |ToUpper(y')|;
    if y != [] {
      FoldTail(y, y');
      FoldWord(y, y');
      if AfterWord(y) != [] {
        FoldTail(AfterWord(y), AfterWord(y'));
      } else {
        assert |ToUpper(AfterWord(y'))| == 0;
      }
    }
    assert ("$" + y)[1..] == y && ("$" + y')[1..] == y';
  }

  lemma CasedFolds(k: string, lower: bool)
    ensures SameFold(k, Cased(k, lower)) && Cased(Cased(k, lower), lower) == Cased(k, lower)
  {
  }

  lemma FoldJoins(a: string, a': string, b: string, b': string)
    requires SameFold(a, a') && SameFold(b, b')
    ensures SameFold(a + b, a' + b')
  {
    assert ToUpper(a + b) == ToUpper(a) + ToUpper(b) && ToUpper(a' + b') == ToUpper(a') + ToUpper(b');
  }

  // ----- the tokens of the re-cased text

  /** The re-cased text differs in case only, and its tokens are the re-cased ones. */
  lemma {:induction false} RecasedLexes(s: string, afterDot: bool, lower: bool, keywords: set<string>)
    ensures SameFold(s, Texts(Recased(Lex(s, keywords), afterDot, lower)))
    ensures Lex(Texts(Recased(Lex(s, keywords), afterDot, lower)), keywords) ==
      Recased(Lex(s, keywords), afterDot, lower)
    decreases |s|
  {
    if s != [] {
      var ts := Lex(s, keywords);
      var t, y := FirstText(s), FirstRest(s);
      FirstSuffix(s);
      LexStep(t, y, keywords);
      RecasedLexes(y, ts[0].typ == Dot, lower, keywords);
      var more := Recased(ts[1..], ts[0].typ == Dot, lower);
      assert ts[1..] == Lex(y, keywords);
      FoldAlike(y, Texts(more));
      CasedFolds(t, lower);
      OneRecased(t, RecasedFirst(ts, afterDot, lower).text, y, more, keywords);
    }
  }

  lemma OneRecased(t: string, t': string, y: string, more: seq<Lexeme>, keywords: set<string>)
    requires t != [] && FirstRest(t + y) == y && Alike(y, Texts(more)) && SameFold(y, Texts(more))
    requires t' == t || (FirstType(t + y, keywords) == Keyword && SameFold(t, t'))
    requires Lex(Texts(more), keywords) == more
    ensures SameFold(t + y, Texts([Lexeme(FirstType(t + y, keywords), t')] + more))
    ensures Lex(Texts([Lexeme(FirstType(t + y, keywords), t')] + more), keywords) ==
      [Lexeme(FirstType(t + y, keywords), t')] + more
  {
    var first := Lexeme(FirstType(t + y, keywords), t');
    assert ([first] + more)[1..] == more;
    assert (t + y)[0] == t[0];
    FirstLocal(t, t', y, Texts(more), keywords);
    LexStep(t', Texts(more), keywords);
    FoldJoins(t, t', y, Texts(more));
  }

  /** Re-casing keeps the tokens: their number, types and, but for the case of
      keywords that stand next to no dot, their texts. */
  lemma RekeywordKeepsTokens(text: string, keywordCase: string, keywords: set<string>)
    ensures
      var before, after := Lex(text, keywords), Lex(Rekeyword(text, keywordCase, keywords), keywords);
      && |after| == |before|
      && forall i :: 0 <= i < |before| ==>
           && after[i].typ == before[i].typ
           && after[i].text ==
                if keywordCase != "" && before[i].typ == Keyword && !NextToDot(before, i)
                then Cased(before[i].text, keywordCase == "lower")
                else before[i].text
  {
    if keywordCase != "" {
      RecasedLexes(text, false, keywordCase == "lower", keywords);
      RecasedAt(Lex(text, keywords), false, keywordCase == "lower");
    }
  }

  predicate NextToDot(ts: seq<Lexeme>, i: nat)
    requires i < |ts|
  {
    (i > 0 && ts[i - 1].typ == Dot) || (i + 1 < |ts| && ts[i + 1].typ == Dot)
  }

  lemma {:induction false} RecasedAt(ts: seq<Lexeme>, afterDot: bool, lower: bool)
    ensures |Recased(ts, afterDot, lower)| == |ts|
    ensures forall i :: 0 <= i < |ts| ==>
      Recased(ts, afterDot, lower)[i] ==
        if ts[i].typ == Keyword && !NextToDot(ts, i) && !(i == 0 && afterDot)
        then Lexeme(Keyword, Cased(ts[i].text, lower)) else ts[i]
  {
    if ts != [] {
      RecasedAt(ts[1..], ts[0].typ == Dot, lower);
      forall i | 1 <= i < |ts|
        ensures NextToDot(ts, i) == (NextToDot(ts[1..], i - 1) || (i == 1 && ts[0].typ == Dot))
      {
      }
    }
  }

  /** Re-casing again changes nothing. */
  lemma RekeywordIdempotent(text: string, keywordCase: string, keywords: set<string>)
    ensures Rekeyword(Rekeyword(text, keywordCase, keywords), keywordCase, keywords) ==
      Rekeyword(text, keywordCase, keywords)
  {
    if keywordCase != "" {
      var lower := keywordCase == "lower";
      RecasedLexes(text, false, lower, keywords);
      RecasedTwice(Lex(text, keywords), false, lower);
    }
  }

  lemma {:induction false} RecasedTwice(ts: seq<Lexeme>, afterDot: bool, lower: bool)
    ensures Recased(Recased(ts, afterDot, lower), afterDot, lower) == Recased(ts, afterDot, lower)
  {
    if ts != [] {
      RecasedTwice(ts[1..], ts[0].typ == Dot, lower);
      var rs := Recased(ts, afterDot, lower);
      assert rs[1..] == Recased(ts[1..], ts[0].typ == Dot, lower);
      RecasedAt(ts, afterDot, lower);
      assert rs[0].typ == ts[0].typ && InName(rs, afterDot) == InName(ts, afterDot);
      CasedFolds(ts[0].text, lower);
    }
  }

  // ----- the method

  method Rewrite(text: string, keywordCase: string, keywords: set<string>) returns (out: string)
    ensures out == Rekeyword(text, keywordCase, keywords)
  {
    if keywordCase == "" {
      return text;
    }
    var tokens := Lex(text, keywords);
    var lower := keywordCase == "lower";
    out := "";
    ghost var recased := Recased(tokens, false, lower);
    RecasedAt(tokens, false, lower);
    for i := 0 to |tokens|
      invariant out + Texts(recased[i..]) == Texts(recased)
    {
      var inIdentPosition := (i > 0 && tokens[i - 1].typ == Dot) || (i + 1 < |tokens| && tokens[i + 1].typ == Dot);
      var word := if tokens[i].typ == Keyword && !inIdentPosition then Cased(tokens[i].text, lower) else tokens[i].text;
      assert word == recased[i].text;
      TextsNext(recased, i, out);
      out := out + word;
    }
    assert recased[|tokens|..] == [];
  }

  lemma TextsNext(ts: seq<Lexeme>, i: nat, out: string)
    requires i < |ts|
    ensures out + ts[i].text + Texts(ts[i + 1..]) == out + Texts(ts[i..])
  {
    assert ts[i..][1..] == ts[i + 1..];
  }
}

/** A token depends only on its own text and on a glance at what follows it. */
module LexLocality {
  import opened Text
  import opened Scanner
  import opened ScannerFacts
  import opened FormatLexer

  /** The same first character, up to case, or none. */
  predicate SameHead(y: string, y': string) {
    (y == [] <==> y' == []) && (y != [] && y' != [] ==> UpperChar(y[0]) == UpperChar(y'[0]))
  }

  /** What follows a token looks alike: the same first character, up to case,
      and the same answer to whether a dollar sign before it opens a quote. */
  predicate Alike(y: string, y': string) {
    SameHead(y, y') && (DollarTag("$" + y).Some? <==> DollarTag("$" + y').Some?)
  }

  lemma {:induction false} RunBlankLocal(t: string, y: string, y': string)
    requires SkipRunBlank(t + y) == y && SameHead(y, y')
    ensures SkipRunBlank(t + y') == y'
  {
    if t == [] {
      assert t + y == y && t + y' == y';
    } else {
      assert (t + y)[1..] == t[1..] + y && (t + y')[1..] == t[1..] + y';
      RunBlankLocal(t[1..], y, y');
    }
  }

  lemma {:induction false} NumberLocal(t: string, y: string, y': string)
    requires SkipNumber(t + y) == y && SameHead(y, y')
    ensures SkipNumber(t + y') == y'
  {
    if t == [] {
      assert t + y == y && t + y' == y';
    } else {
      assert (t + y)[1..] == t[1..] + y && (t + y')[1..] == t[1..] + y';
      NumberLocal(t[1..], y, y');
    }
  }

  lemma {:induction false} LineLocal(t: string, y: string, y': string)
    requires SkipLine(t + y) == y && SameHead(y, y')
    ensures SkipLine(t + y') == y'
  {
    if t == [] {
      assert t + y == y && t + y' == y';
    } else {
      assert (t + y)[1..] == t[1..] + y && (t + y')[1..] == t[1..] + y';
      LineLocal(t[1..], y, y');
    }
  }

  lemma {:induction false} BlockLocal(t: string, y: string, y': string, depth: nat)
    requires BlockRest(t + y, depth) == y && SameHead(y, y')
    ensures BlockRest(t + y', depth) == y'
    decreases |t|
  {
    if t == [] {
      assert t + y == y && t + y' == y';
    } else {
      assert (t + y)[1..] == t[1..] + y && (t + y')[1..] == t[1..] + y';
      if |t| == 1 {
        assert !StartsWithTwo(t + y, '/', '*') && !StartsWithTwo(t + y, '*', '/');
        BlockLocal(t[1..], y, y', depth);
      } else {
        assert (t + y)[2..] == t[2..] + y && (t + y')[2..] == t[2..] + y';
        if StartsWithTwo(t, '/', '*') {
          BlockLocal(t[2..], y, y', depth + 1);
        } else if !StartsWithTwo(t, '*', '/') {
          BlockLocal(t[1..], y, y', depth);
        } else if depth > 1 {
          BlockLocal(t[2..], y, y', depth - 1);
        }
      }
    }
  }

  lemma {:induction false} QuotedLocal(t: string, q: char, y: string, y': string)
    requires QuotedRest(t + y, q) == y && SameHead(y, y') && UpperChar(q) == q && LowerChar(q) == q
    ensures QuotedRest(t + y', q) == y'
    decreases |t|
  {
    if t == [] {
      assert t + y == y && t + y' == y';
    } else {
      assert (t + y)[1..] == t[1..] + y && (t + y')[1..] == t[1..] + y';
      if t[0] != q {
        QuotedLocal(t[1..], q, y, y');
      } else if StartsWithTwo(t, q, q) {
        assert (t + y)[2..] == t[2..] + y && (t + y')[2..] == t[2..] + y';
        QuotedLocal(t[2..], q, y, y');
      } else {
        assert |t| > 1 ==> !StartsWithTwo(t + y, q, q);
        assert !StartsWithTwo(t + y, q, q) ==> |t| == 1;
      }
    }
  }

  lemma {:induction false} TagLocal(t: string, tag: string, y: string, y': string)
    requires tag != [] && TagRest(t + y, tag) == y && SameHead(y, y')
    ensures TagRest(t + y', tag) == y'
  {
    if t == [] {
      assert t + y == y && t + y' == y';
    } else if tag <= t + y {
      assert t == tag;
      assert (t + y')[|tag|..] == y';
    } else {
      assert (t + y)[1..] == t[1..] + y && (t + y')[1..] == t[1..] + y';
      TagLocal(t[1..], tag, y, y');
      assert |tag| <= |t| ==> !(tag <= t);
    }
  }

  lemma {:induction false} WordIsAllWord(s: string)
    ensures AllWord(Word(s)) && NoWordAhead(AfterWord(s))
  {
    if s != [] && IsWordChar(s[0]) {
      WordIsAllWord(s[1..]);
      assert AfterWord(s) == AfterWord(s[1..]);
    }
  }

  /** A dollar tag: two dollars, or a word between two. */
  predicate IsTag(tag: string) {
    tag == "$$" || (|tag| > 2 && tag[0] == '$' && tag[|tag| - 1] == '$' && IsWordStart(tag[1]) && AllWord(tag[1..|tag| - 1]))
  }

  lemma TagShape(s: string)
    requires StartsWith(s, '$') && DollarTag(s).Some?
    ensures IsTag(DollarTag(s).value) && DollarTag(s).value <= s
  {
    if !StartsWithTwo(s, '$', '$') {
      var w, tag := Word(s[1..]), DollarTag(s).value;
      WordIsAllWord(s[1..]);
      assert AfterWord(s[1..])[0] == s[1 + |w|];
      assert tag[1..|tag| - 1] == w;
      assert w[0] == s[1];
    }
  }

  lemma TagRead(tag: string, z: string)
    requires IsTag(tag)
    ensures DollarTag(tag + z) == Some(tag)
  {
    var s := tag + z;
    if tag != "$$" {
      var w := tag[1..|tag| - 1];
      assert s[1..] == w + ("$" + z);
      ReadsWord(w, "$" + z);
      assert s[..|w| + 2] == tag;
    }
  }

  lemma CutInFront(t: string, y: string, n: nat)
    requires n <= |t|
    ensures (t + y)[..n] == t[..n] && (t + y)[n..] == t[n..] + y && t == t[..n] + t[n..]
  {
  }

  /** A dollar sign that stands alone, or a whole dollar-quoted text. */
  lemma DollarLocal(t: string, y: string, y': string)
    requires StartsWith(t, '$') && FirstRest(t + y) == y && Alike(y, y')
    ensures FirstRest(t + y') == y' && (DollarTag(t + y).Some? <==> DollarTag(t + y').Some?)
  {
    if DollarTag(t + y).None? {
      CutInFront(t, y, 1);
      CutInFront(t, y', 1);
      assert t == "$";
    } else {
      var tag := DollarTag(t + y).value;
      var t2 := TagInside(t, y, tag);
      DollarQuoteLocal(tag, t2, y, y');
      Assoc(tag, t2, y');
    }
  }

  lemma TagInside(t: string, y: string, tag: string) returns (t2: string)
    requires StartsWith(t, '$') && FirstRest(t + y) == y && DollarTag(t + y) == Some(tag)
    ensures t == tag + t2 && TagRest(t2 + y, tag) == y && IsTag(tag)
  {
    TagShape(t + y);
    assert (t + y)[..|tag|] == tag;
    assert |tag| <= |t|;
    CutInFront(t, y, |tag|);
    t2 := t[|tag|..];
  }

  lemma DollarQuoteLocal(tag: string, t: string, y: string, y': string)
    requires IsTag(tag) && TagRest(t + y, tag) == y && SameHead(y, y')
    ensures DollarTag(tag + (t + y')) == Some(tag) && FirstRest(tag + (t + y')) == y'
  {
    var s := tag + (t + y');
    TagRead(tag, t + y');
    TagLocal(t, tag, y, y');
    assert s[|tag|..] == t + y' && s[0] == '$';
  }

  lemma WordLocal(t: string, t': string, y: string, y': string)
    requires t != [] && AfterWord(t + y) == y && SameHead(y, y') && SameFold(t, t')
    ensures Word(t + y) == t && Word(t' + y') == t' && AfterWord(t' + y') == y' && AllWord(t)
  {
    WordIsAllWord(t + y);
    assert Word(t + y) == t;
    FoldIsWord(t, t');
    ReadsWord(t', y');
  }

  lemma FoldIsWord(t: string, t': string)
    requires AllWord(t) && SameFold(t, t')
    ensures AllWord(t') && |t| == |t'|
    ensures t != [] ==> (IsWordStart(t[0]) <==> IsWordStart(t'[0]))
  {
    assert |ToUpper(t)| == |ToUpper(t')|;
    forall i | 0 <= i < |t'| ensures IsWordChar(t'[i]) {
      assert ToUpper(t)[i] == ToUpper(t')[i];
    }
    assert t != [] ==> ToUpper(t)[0] == ToUpper(t')[0];
  }

  predicate IsWordToken(t: string) {
    t != [] && IsWordStart(t[0])
  }

  /** A token stays one token, of the same type, before any text that looks
      alike; a word may also change case. */
  lemma FirstLocal(t: string, t': string, y: string, y': string, keywords: set<string>)
    requires t != [] && FirstRest(t + y) == y && Alike(y, y')
    requires t' == t || (IsWordToken(t) && SameFold(t, t'))
    ensures t' != [] && FirstRest(t' + y') == y' && FirstType(t' + y', keywords) == FirstType(t + y, keywords)
  {
    if IsWordToken(t) {
      WordToken(t, t', y, y', keywords);
    } else {
      OtherToken(t, y, y', keywords);
    }
  }

  lemma WordToken(t: string, t': string, y: string, y': string, keywords: set<string>)
    requires IsWordToken(t) && FirstRest(t + y) == y && SameHead(y, y') && SameFold(t, t')
    ensures IsWordToken(t') && FirstRest(t' + y') == y' && FirstType(t' + y', keywords) == FirstType(t + y, keywords)
  {
    assert (t + y)[0] == t[0];
    WordLocal(t, t', y, y');
    FoldIsWord(t, t');
    assert (t' + y')[0] == t'[0];
  }

  lemma OtherToken(t: string, y: string, y': string, keywords: set<string>)
    requires t != [] && !IsWordStart(t[0]) && FirstRest(t + y) == y && Alike(y, y')
    ensures FirstRest(t + y') == y' && FirstType(t + y', keywords) == FirstType(t + y, keywords)
  {
    var s, s' := t + y, t + y';
    assert s[0] == t[0] == s'[0];
    assert s[1..] == t[1..] + y && s'[1..] == t[1..] + y';
    if s[0] == '\n' {
      assert t == "\n";
    } else if IsRunBlank(s[0]) {
      RunBlankLocal(t[1..], y, y');
    } else if s[0] == '$' {
      DollarLocal(t, y, y');
    } else if s[0] == '\'' || s[0] == '"' {
      QuotedLocal(t[1..], s[0], y, y');
    } else if IsDigit(s[0]) {
      NumberLocal(t[1..], y, y');
    } else {
      CommentOrMark(t, y, y', keywords);
    }
  }

  lemma CommentOrMark(t: string, y: string, y': string, keywords: set<string>)
    requires t != [] && FirstRest(t + y) == y && SameHead(y, y')
    requires t[0] != '\n' && !IsRunBlank(t[0]) &&
      t[0] != '$' && t[0] != '\'' && t[0] != '"' && !IsDigit(t[0]) && !IsWordStart(t[0])
    ensures FirstRest(t + y') == y' && FirstType(t + y', keywords) == FirstType(t + y, keywords)
  {
    var s, s' := t + y, t + y';
    assert s[1..] == t[1..] + y && s'[1..] == t[1..] + y';
    if |t| == 1 {
      assert !StartsWithTwo(s, '-', '-') && !StartsWithTwo(s, '/', '*');
      assert !StartsWithTwo(s', '-', '-') && !StartsWithTwo(s', '/', '*');
    } else {
      assert s[2..] == t[2..] + y && s'[2..] == t[2..] + y';
      if StartsWithTwo(t, '-', '-') {
        LineLocal(t[2..], y, y');
      } else if StartsWithTwo(t, '/', '*') {
        BlockLocal(t[2..], y, y', 1);
      }
    }
  }

  /** The first lexeme of a text that begins with a token. */
  lemma LexStep(t: string, y: string, keywords: set<string>)
    requires t != [] && FirstRest(t + y) == y
    ensures Lex(t + y, keywords) == [Lexeme(FirstType(t + y, keywords), t)] + Lex(y, keywords)
  {
    assert FirstText(t + y) == t;
  }
}

/** What the cursor reads of a text that is followed by more text. */
module ScannerFacts {
  import opened Text
  import opened Scanner

  predicate Blanks(s: string) {
    forall i :: 0 <= i < |s| ==> IsBlank(s[i])
  }

  /** Nothing here is skipped as white space or comment. */
  predicate Visible(s: string) {
    s != [] ==> !IsBlank(s[0]) && s[0] != '-' && s[0] != '/'
  }

  lemma {:induction false} SkipsBlanks(w: string, s: string)
    requires Blanks(w) && Visible(s)
    ensures SkipBlank(w + s) == s
  {
    if w == [] {
      assert w + s == s;
    } else {
      assert (w + s)[1..] == w[1..] + s;
      SkipsBlanks(w[1..], s);
    }
  }

  lemma SkipsOne(s: string)
    requires Visible(s)
    ensures SkipBlank(" " + s) == s
  {
    assert (" " + s)[1..] == s;
  }

  predicate AllWord(w: string) {
    forall i :: 0 <= i < |w| ==> IsWordChar(w[i])
  }

  predicate NoWordAhead(s: string) {
    s != [] ==> !IsWordChar(s[0])
  }

  lemma {:induction false} ReadsWord(w: string, s: string)
    requires AllWord(w) && NoWordAhead(s)
    ensures Word(w + s) == w && AfterWord(w + s) == s
  {
    if w == [] {
      assert w + s == s;
    } else {
      assert (w + s)[1..] == w[1..] + s;
      ReadsWord(w[1..], s);
    }
  }

  lemma {:induction false} QuotedLonger(t: string, q: char, s: string)
    requires QuotedTail(t, q).Some? && !StartsWith(s, q)
    ensures QuotedTail(t + s, q) == Some(Read(QuotedTail(t, q).value.value, QuotedTail(t, q).value.rest + s))
    decreases |t|
  {
    assert (t + s)[1..] == t[1..] + s;
    if t[0] != q {
      QuotedLonger(t[1..], q, s);
    } else if StartsWithTwo(t, q, q) {
      assert (t + s)[2..] == t[2..] + s;
      QuotedLonger(t[2..], q, s);
    }
  }

  lemma {:induction false} SkipLineLonger(t: string, s: string)
    requires SkipLine(t) != []
    ensures SkipLine(t + s) == SkipLine(t) + s
  {
    if t[0] != '\n' {
      assert (t + s)[1..] == t[1..] + s;
      SkipLineLonger(t[1..], s);
    }
  }

  /** A comment whose end is in the text. */
  predicate ClosesComment(t: string) {
    t != [] && (StartsWithTwo(t, '*', '/') || ClosesComment(t[1..]))
  }

  lemma {:induction false} SkipCommentLonger(t: string, s: string)
    requires ClosesComment(t)
    ensures SkipComment(t + s) == SkipComment(t) + s
  {
    if StartsWithTwo(t, '*', '/') {
      assert (t + s)[2..] == t[2..] + s;
    } else {
      assert (t + s)[1..] == t[1..] + s;
      SkipCommentLonger(t[1..], s);
    }
  }

  datatype Depth = Depth(paren: nat, brace: nat)

  /** The depth after raw text that is read to its end: no stop character in it,
      and its quoted texts and comments are closed. */
  function Through(t: string, stops: string, at: Depth): Option<Depth>
    decreases |t|
  {
    if t == [] then Some(at)
    else if at == Depth(0, 0) && t[0] in stops then None
    else if t[0] == '(' then Through(t[1..], stops, at.(paren := at.paren + 1))
    else if t[0] == ')' then Through(t[1..], stops, if at.paren > 0 then at.(paren := at.paren - 1) else at)
    else if t[0] == '{' then Through(t[1..], stops, at.(brace := at.brace + 1))
    else if t[0] == '}' then if at.brace > 0 then Through(t[1..], stops, at.(brace := at.brace - 1)) else None
    else if t[0] == '\'' then
      var quoted :- QuotedTail(t[1..], '\'');
      Through(quoted.rest, stops, at)
    else if StartsWithTwo(t, '-', '-') then
      if SkipLine(t[2..]) == [] then None else Through(SkipLine(t[2..]), stops, at)
    else if StartsWithTwo(t, '/', '*') then
      if ClosesComment(t[2..]) then Through(SkipComment(t[2..]), stops, at) else None
    else Through(t[1..], stops, at)
  }

  /** What follows does not combine with the last character of a text before it. */
  predicate Apart(s: string) {
    s != [] ==> s[0] != '\'' && s[0] != '-' && s[0] != '*'
  }

  lemma {:induction false} RawEndAfter(t: string, s: string, stops: string, at: Depth)
    requires Through(t, stops, at).Some? && Apart(s)
    ensures RawEnd(t + s, stops, at.paren, at.brace) ==
      RawEnd(s, stops, Through(t, stops, at).value.paren, Through(t, stops, at).value.brace)
    decreases |t|
  {
    if t == [] {
      assert t + s == s;
    } else {
      assert (t + s)[1..] == t[1..] + s;
      if t[0] == '(' {
        RawEndAfter(t[1..], s, stops, at.(paren := at.paren + 1));
      } else if t[0] == ')' {
        RawEndAfter(t[1..], s, stops, if at.paren > 0 then at.(paren := at.paren - 1) else at);
      } else if t[0] == '{' {
        RawEndAfter(t[1..], s, stops, at.(brace := at.brace + 1));
      } else if t[0] == '}' {
        RawEndAfter(t[1..], s, stops, at.(brace := at.brace - 1));
      } else if t[0] == '\'' {
        QuotedLonger(t[1..], '\'', s);
        RawEndAfter(QuotedTail(t[1..], '\'').value.rest, s, stops, at);
      } else {
        RawEndAfterItem(t, s, stops, at);
      }
    }
  }

  lemma {:induction false} RawEndAfterItem(t: string, s: string, stops: string, at: Depth)
    requires t != [] && t[0] !in "(){}\'" && !(at == Depth(0, 0) && t[0] in stops)
    requires Through(t, stops, at).Some? && Apart(s)
    ensures RawEnd(t + s, stops, at.paren, at.brace) ==
      RawEnd(s, stops, Through(t, stops, at).value.paren, Through(t, stops, at).value.brace)
    decreases |t|, 0
  {
    assert (t + s)[1..] == t[1..] + s;
    if StartsWithTwo(t, '-', '-') {
      assert (t + s)[2..] == t[2..] + s;
      SkipLineLonger(t[2..], s);
      RawEndAfter(SkipLine(t[2..]), s, stops, at);
    } else if StartsWithTwo(t, '/', '*') {
      assert (t + s)[2..] == t[2..] + s;
      SkipCommentLonger(t[2..], s);
      RawEndAfter(SkipComment(t[2..]), s, stops, at);
    } else {
      assert !StartsWithTwo(t + s, '-', '-') && !StartsWithTwo(t + s, '/', '*');
      RawEndAfter(t[1..], s, stops, at);
    }
  }

  /** Characters that raw text passes over one by one, whatever the depth. */
  predicate Plain(t: string) {
    forall i :: 0 <= i < |t| ==> t[i] !in "(){};\'-/"
  }

  lemma {:induction false} PlainThrough(t: string, stops: string, at: Depth)
    requires Plain(t) && forall c :: c in stops ==> c in "(){};"
    ensures Through(t, stops, at) == Some(at)
  {
    if t != [] {
      assert t[0] !in stops;
      PlainThrough(t[1..], stops, at);
    }
  }

  lemma PlainAfter(t: string, s: string, stops: string, paren: nat, brace: nat)
    requires Plain(t) && (forall c :: c in stops ==> c in "(){};") && Apart(s)
    ensures RawEnd(t + s, stops, paren, brace) == RawEnd(s, stops, paren, brace)
  {
    PlainThrough(t, stops, Depth(paren, brace));
    RawEndAfter(t, s, stops, Depth(paren, brace));
  }

  /** Raw text that has been read up to its end. */
  lemma RawRead(t: string, s: string, stops: string)
    requires RawEnd(t + s, stops, 0, 0) == Some(s)
    ensures RawUntil(t + s, stops) == Some(Read(t, s))
  {
    assert (t + s)[..|t + s| - |s|] == t;
  }

  lemma WordsArePlain(w: string)
    requires AllWord(w)
    ensures Plain(w)
  {
  }

  lemma {:induction false} ThroughThen(t: string, s: string, stops: string, at: Depth)
    requires Through(t, stops, at).Some? && Apart(s)
    ensures Through(t + s, stops, at) == Through(s, stops, Through(t, stops, at).value)
    decreases |t|
  {
    if t == [] {
      assert t + s == s;
    } else {
      assert (t + s)[1..] == t[1..] + s;
      if t[0] == '(' {
        ThroughThen(t[1..], s, stops, at.(paren := at.paren + 1));
      } else if t[0] == ')' {
        ThroughThen(t[1..], s, stops, if at.paren > 0 then at.(paren := at.paren - 1) else at);
      } else if t[0] == '{' {
        ThroughThen(t[1..], s, stops, at.(brace := at.brace + 1));
      } else if t[0] == '}' {
        ThroughThen(t[1..], s, stops, at.(brace := at.brace - 1));
      } else if t[0] == '\'' {
        QuotedLonger(t[1..], '\'', s);
        ThroughThen(QuotedTail(t[1..], '\'').value.rest, s, stops, at);
      } else {
        ThroughItem(t, s, stops, at);
      }
    }
  }

  lemma {:induction false} ThroughItem(t: string, s: string, stops: string, at: Depth)
    requires t != [] && t[0] !in "(){}\'" && !(at == Depth(0, 0) && t[0] in stops)
    requires Through(t, stops, at).Some? && Apart(s)
    ensures Through(t + s, stops, at) == Through(s, stops, Through(t, stops, at).value)
    decreases |t|, 0
  {
    assert (t + s)[1..] == t[1..] + s;
    if StartsWithTwo(t, '-', '-') {
      assert (t + s)[2..] == t[2..] + s;
      SkipLineLonger(t[2..], s);
      ThroughThen(SkipLine(t[2..]), s, stops, at);
    } else if StartsWithTwo(t, '/', '*') {
      assert (t + s)[2..] == t[2..] + s;
      SkipCommentLonger(t[2..], s);
      ClosesLonger(t[2..], s);
      ThroughThen(SkipComment(t[2..]), s, stops, at);
    } else {
      assert !StartsWithTwo(t + s, '-', '-') && !StartsWithTwo(t + s, '/', '*');
      ThroughThen(t[1..], s, stops, at);
    }
  }

  lemma {:induction false} ClosesLonger(t: string, s: string)
    requires ClosesComment(t)
    ensures ClosesComment(t + s)
  {
    if !StartsWithTwo(t, '*', '/') {
      assert (t + s)[1..] == t[1..] + s;
      ClosesLonger(t[1..], s);
    }
  }

  lemma {:induction false} WordLonger(t: string, s: string)
    requires NoWordAhead(s)
    ensures Word(t + s) == Word(t) && AfterWord(t + s) == AfterWord(t) + s
  {
    if t == [] || !IsWordChar(t[0]) {
      assert t == [] ==> t + s == s;
      assert t != [] ==> (t + s)[0] == t[0];
      assert (t + s)[0..] == t + s && t[0..] == t;
    } else {
      assert (t + s)[1..] == t[1..] + s;
      WordLonger(t[1..], s);
    }
  }

  /** The parenthesis depth after text in which a word is not found. */
  function Without(t: string, word: string, depth: nat): Option<nat>
    decreases |t|
  {
    if t == [] then Some(depth)
    else if t[0] == '(' then Without(t[1..], word, depth + 1)
    else if t[0] == ')' then Without(t[1..], word, if depth > 0 then depth - 1 else 0)
    else if t[0] == '\'' then
      var quoted :- QuotedTail(t[1..], '\'');
      Without(quoted.rest, word, depth)
    else if depth == 0 && IsWordStart(t[0]) then
      assert Word(t) != [];
      if SameFold(Word(t), word) then None else Without(AfterWord(t), word, depth)
    else Without(t[1..], word, depth)
  }

  lemma {:induction false} FindWordAfter(t: string, s: string, word: string, depth: nat)
    requires Without(t, word, depth).Some? && NoWordAhead(s) && !StartsWith(s, '\'')
    ensures FindWord(t + s, word, depth) == FindWord(s, word, Without(t, word, depth).value)
    decreases |t|
  {
    if t == [] {
      assert t + s == s;
    } else {
      assert (t + s)[1..] == t[1..] + s;
      if t[0] == '(' {
        FindWordAfter(t[1..], s, word, depth + 1);
      } else if t[0] == ')' {
        FindWordAfter(t[1..], s, word, if depth > 0 then depth - 1 else 0);
      } else if t[0] == '\'' {
        QuotedLonger(t[1..], '\'', s);
        FindWordAfter(QuotedTail(t[1..], '\'').value.rest, s, word, depth);
      } else if depth == 0 && IsWordStart(t[0]) {
        WordLonger(t, s);
        assert Word(t) != [];
        FindWordAfter(AfterWord(t), s, word, depth);
      } else {
        FindWordAfter(t[1..], s, word, depth);
      }
    }
  }
}

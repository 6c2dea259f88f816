/** The formatter's loops over the tokens of a block. */
module BlockSorter {
  import opened Text
  import opened Scanner
  import opened FormatLexer
  import opened FaithfulTokens
  import opened StableSort
  import opened BlockSort
  import opened BlockSortText

  /** A directive's text and its first word in capitals. */
  datatype TextChunk = TextChunk(text: string, firstWord: string)

  function TextOf(c: Chunk): TextChunk {
    TextChunk(Texts(c), FirstWord(c))
  }

  function TextsOf(cs: seq<Chunk>): seq<TextChunk> {
    seq(|cs|, i requires 0 <= i < |cs| => TextOf(cs[i]))
  }

  /** How the rest comes apart while a directive is, or is not yet, begun. */
  ghost function Onward(cur: seq<Lexeme>, inDirective: bool, depth: int, left: seq<Lexeme>): Split {
    if !inDirective then SplitBlock(cur + left)
    else
      match BodyLength(left, depth)
      case None => Split([cur + left], [])
      case Some(n) => Prepend(cur + left[..n], SplitBlock(left[n..]))
  }

  ghost predicate Splits(ts: seq<Lexeme>, done: seq<Chunk>, cur: seq<Lexeme>, inDirective: bool, depth: int,
                         left: seq<Lexeme>) {
    && SplitBlock(ts) == Split(done + Onward(cur, inDirective, depth, left).chunks, Onward(cur, inDirective, depth, left).trailing)
    && (!inDirective ==> AllTrivia(cur) && depth == 0)
  }

  lemma {:induction false} TriviaJoin(cur: seq<Lexeme>, t: Lexeme)
    requires AllTrivia(cur) && IsTrivia(t)
    ensures AllTrivia(cur + [t])
  {
    if cur != [] {
      assert (cur + [t])[1..] == cur[1..] + [t];
      TriviaJoin(cur[1..], t);
    }
  }

  lemma {:induction false} DirectiveAfter(cur: seq<Lexeme>, t: Lexeme, more: seq<Lexeme>)
    requires AllTrivia(cur) && !IsTrivia(t)
    ensures !AllTrivia(cur + ([t] + more))
    ensures DirectiveLength(cur + ([t] + more)) ==
      if BodyLength(more, 0).None? then None else Some(|cur| + 1 + BodyLength(more, 0).value)
  {
    if cur == [] {
      assert cur + ([t] + more) == [t] + more;
      assert ([t] + more)[1..] == more;
    } else {
      assert (cur + ([t] + more))[1..] == cur[1..] + ([t] + more);
      DirectiveAfter(cur[1..], t, more);
    }
  }

  lemma MoreTrivia(cur: seq<Lexeme>, t: Lexeme, more: seq<Lexeme>)
    requires AllTrivia(cur) && IsTrivia(t)
    ensures Onward(cur + [t], false, 0, more) == Onward(cur, false, 0, [t] + more) && AllTrivia(cur + [t])
  {
    TriviaJoin(cur, t);
    assert cur + [t] + more == cur + ([t] + more);
  }

  lemma CutAfter(cur: seq<Lexeme>, t: Lexeme, more: seq<Lexeme>, n: nat)
    requires n <= |more|
    ensures cur + ([t] + more) == cur + [t] + more
    ensures (cur + ([t] + more))[..|cur| + 1 + n] == cur + [t] + more[..n]
    ensures (cur + ([t] + more))[|cur| + 1 + n..] == more[n..]
  {
  }

  lemma Begins(cur: seq<Lexeme>, t: Lexeme, more: seq<Lexeme>)
    requires AllTrivia(cur) && !IsTrivia(t)
    ensures Onward(cur + [t], true, 0, more) == Onward(cur, false, 0, [t] + more)
  {
    DirectiveAfter(cur, t, more);
    if BodyLength(more, 0).Some? {
      CutAfter(cur, t, more, BodyLength(more, 0).value);
    } else {
      Assoc(cur, [t], more);
    }
  }

  /** The depth after a token. */
  function Deeper(t: Lexeme, depth: int): int {
    if t.typ == LBrace then depth + 1 else if t.typ == RBrace then depth - 1 else depth
  }

  /** Whether a token ends the directive. */
  predicate Ends(t: Lexeme, depth: int) {
    (t.typ == RBrace && depth == 1) || (t.typ == Semicolon && depth == 0)
  }

  lemma Continues(cur: seq<Lexeme>, t: Lexeme, more: seq<Lexeme>, depth: int)
    requires !Ends(t, depth)
    ensures Onward(cur + [t], true, Deeper(t, depth), more) == Onward(cur, true, depth, [t] + more)
  {
    var left := [t] + more;
    assert left[1..] == more && cur + [t] + more == cur + left;
    if BodyLength(more, Deeper(t, depth)).Some? {
      var n := BodyLength(more, Deeper(t, depth)).value;
      assert cur + left[..n + 1] == cur + [t] + more[..n] && left[n + 1..] == more[n..];
    }
  }

  lemma Flushes(cur: seq<Lexeme>, t: Lexeme, more: seq<Lexeme>, depth: int, done: seq<Chunk>)
    requires Ends(t, depth)
    ensures var o := Onward(cur, true, depth, [t] + more);
      && o.trailing == Onward([], false, 0, more).trailing
      && done + o.chunks == done + [cur + [t]] + Onward([], false, 0, more).chunks
  {
    var left := [t] + more;
    assert left[1..] == more && left[..1] == [t] && [] + more == more;
  }

  /** One token further. */
  lemma StepSplits(ts: seq<Lexeme>, done: seq<Chunk>, cur: seq<Lexeme>, inDirective: bool, depth: int, t: Lexeme,
                   more: seq<Lexeme>)
    requires Splits(ts, done, cur, inDirective, depth, [t] + more)
    ensures !inDirective && IsTrivia(t) ==> Splits(ts, done, cur + [t], false, 0, more)
    ensures !inDirective && !IsTrivia(t) ==> Splits(ts, done, cur + [t], true, 0, more)
    ensures inDirective && !Ends(t, depth) ==> Splits(ts, done, cur + [t], true, Deeper(t, depth), more)
    ensures inDirective && Ends(t, depth) ==> Splits(ts, done + [cur + [t]], [], false, 0, more)
  {
    if inDirective {
      if Ends(t, depth) {
        Flushes(cur, t, more, depth, done);
      } else {
        Continues(cur, t, more, depth);
      }
    } else if IsTrivia(t) {
      MoreTrivia(cur, t, more);
    } else {
      Begins(cur, t, more);
    }
  }

  lemma EndSplits(ts: seq<Lexeme>, done: seq<Chunk>, cur: seq<Lexeme>, inDirective: bool, depth: int)
    requires Splits(ts, done, cur, inDirective, depth, [])
    ensures SplitBlock(ts) == if inDirective then Split(done + [cur], []) else Split(done, cur)
  {
    assert cur + [] == cur && done + [] == done;
  }

  /** What the loop has written, of the directives that are done and of the next one. */
  ghost predicate Written(chunks: seq<TextChunk>, text: string, firstWord: string, inDirective: bool, done: seq<Chunk>,
                          cur: seq<Lexeme>) {
    chunks == TextsOf(done) && text == Texts(cur) && firstWord == FirstWord(cur) && (inDirective <==> !AllTrivia(cur))
  }

  function FirstWordWith(firstWord: string, inDirective: bool, t: Lexeme): string {
    if !inDirective && (t.typ == Keyword || t.typ == Ident) then ToUpper(t.text) else firstWord
  }

  lemma WrittenOn(chunks: seq<TextChunk>, text: string, firstWord: string, inDirective: bool, done: seq<Chunk>,
                  cur: seq<Lexeme>, t: Lexeme)
    requires Written(chunks, text, firstWord, inDirective, done, cur)
    ensures Written(chunks, text + t.text, FirstWordWith(firstWord, inDirective, t), inDirective || !IsTrivia(t), done, cur + [t])
  {
    GrowText(cur, t);
  }

  lemma WrittenOut(chunks: seq<TextChunk>, text: string, firstWord: string, done: seq<Chunk>, cur: seq<Lexeme>)
    requires Written(chunks, text, firstWord, true, done, cur)
    ensures Written(chunks + [TextChunk(text, firstWord)], "", "", false, done + [cur], [])
  {
  }

  lemma NothingWritten(tokens: seq<Lexeme>)
    ensures Written([], "", "", false, [], []) && Splits(tokens, [], [], false, 0, tokens)
  {
    OnEmpty(tokens);
    OnEmpty(SplitBlock(tokens).chunks);
  }

  lemma FirstLeft(tokens: seq<Lexeme>, i: nat)
    requires i < |tokens|
    ensures tokens[i..] == [tokens[i]] + tokens[i + 1..]
  {
  }

  /** Writes tokens into directives; what is left over is the trailing text. */
  method SplitBlockDirectives(tokens: seq<Lexeme>) returns (chunks: seq<TextChunk>, trailing: string)
    ensures chunks == TextsOf(SplitBlock(tokens).chunks) && trailing == Texts(SplitBlock(tokens).trailing)
  {
    chunks := [];
    var text, firstWord, inDirective, depth := "", "", false, 0;
    ghost var done: seq<Chunk>, cur: seq<Lexeme> := [], [];
    NothingWritten(tokens);
    for i := 0 to |tokens|
      invariant Splits(tokens, done, cur, inDirective, depth, tokens[i..])
      invariant Written(chunks, text, firstWord, inDirective, done, cur)
    {
      var t := tokens[i];
      FirstLeft(tokens, i);
      StepSplits(tokens, done, cur, inDirective, depth, t, tokens[i + 1..]);
      WrittenOn(chunks, text, firstWord, inDirective, done, cur, t);
      text := text + t.text;
      cur := cur + [t];
      if !inDirective {
        if !IsTrivia(t) {
          firstWord := FirstWordWith(firstWord, inDirective, t);
          inDirective := true;
        }
      } else {
        var ended := Ends(t, depth);
        depth := Deeper(t, depth);
        if ended {
          WrittenOut(chunks, text, firstWord, done, cur);
          chunks := chunks + [TextChunk(text, firstWord)];
          done := done + [cur];
          text, firstWord, inDirective, cur := "", "", false, [];
        }
      }
    }
    EndSplits(tokens, done, cur, inDirective, depth);
    if inDirective {
      WrittenOut(chunks, text, firstWord, done, cur);
      return chunks + [TextChunk(text, firstWord)], "";
    }
    return chunks, text;
  }

  lemma {:induction false} GrowText(cur: seq<Lexeme>, t: Lexeme)
    ensures Texts(cur + [t]) == Texts(cur) + t.text
    ensures AllTrivia(cur + [t]) <==> AllTrivia(cur) && IsTrivia(t)
    ensures AllTrivia(cur) ==> FirstWord(cur) == ""
    ensures FirstWord(cur + [t]) ==
      if !AllTrivia(cur) then FirstWord(cur)
      else if !IsTrivia(t) && (t.typ == Keyword || t.typ == Ident) then ToUpper(t.text) else ""
  {
    if cur == [] {
      assert cur + [t] == [t] && [t][1..] == [] && t.text + "" == t.text && "" + t.text == t.text;
    } else {
      assert (cur + [t])[1..] == cur[1..] + [t];
      GrowText(cur[1..], t);
      assert cur[0].text + (Texts(cur[1..]) + t.text) == cur[0].text + Texts(cur[1..]) + t.text;
    }
  }

  /** The inner text of a block with its directives in canonical order. The
      library's stable sort is the one of the model. */
  method SortBlock(rawPart2: string, keywords: set<string>) returns (out: string)
    ensures out == SortText(rawPart2, keywords)
  {
    if TrimSpace(rawPart2) == "" {
      return rawPart2;
    }
    ghost var sp := SplitBlock(Lex(rawPart2, keywords));
    var chunks, trailing := SplitBlockDirectives(Lex(rawPart2, keywords));
    if |chunks| == 0 {
      return rawPart2;
    }
    var ranked := SortBy(chunks, TextPriority);
    SortsAlike(sp.chunks);
    out := "";
    assert TextsOf(Sorted(sp.chunks)) == ranked;
    for i := 0 to |ranked|
      invariant out == Texts(Flat(Sorted(sp.chunks)[..i]))
    {
      FlatGrows(Sorted(sp.chunks), i);
      out := out + ranked[i].text;
    }
    assert Sorted(sp.chunks)[..|ranked|] == Sorted(sp.chunks);
    TextsJoin(Flat(Sorted(sp.chunks)), sp.trailing);
    out := out + trailing;
  }

  function TextPriority(c: TextChunk): int {
    WordPriority(c.firstWord)
  }

  lemma FlatGrows(cs: seq<Chunk>, i: nat)
    requires i < |cs|
    ensures Texts(Flat(cs[..i + 1])) == Texts(Flat(cs[..i])) + Texts(cs[i])
  {
    assert cs[..i + 1] == cs[..i] + [cs[i]];
    FlatJoin(cs[..i], [cs[i]]);
    assert Flat([cs[i]]) == cs[i] + [] == cs[i];
    TextsJoin(Flat(cs[..i]), cs[i]);
  }

  /** Sorting the texts is sorting the directives. */
  lemma {:induction false} SortsAlike(cs: seq<Chunk>)
    ensures SortBy(TextsOf(cs), TextPriority) == TextsOf(Sorted(cs))
  {
    if cs != [] {
      SortsAlike(cs[1..]);
      assert TextsOf(cs)[1..] == TextsOf(cs[1..]) && TextsOf(cs)[0] == TextOf(cs[0]);
      InsertsAlike(cs[0], Sorted(cs[1..]));
    }
  }

  lemma TextsOfCons(c: Chunk, cs: seq<Chunk>)
    ensures TextsOf([c] + cs) == [TextOf(c)] + TextsOf(cs)
  {
  }

  lemma {:induction false} InsertsAlike(c: Chunk, cs: seq<Chunk>)
    ensures Insert(TextOf(c), TextsOf(cs), TextPriority) == TextsOf(Insert(c, cs, Priority))
  {
    if cs == [] || Priority(c) <= Priority(cs[0]) {
      TextsOfCons(c, cs);
    } else {
      InsertsAlike(c, cs[1..]);
      assert TextsOf(cs)[1..] == TextsOf(cs[1..]);
      TextsOfCons(cs[0], Insert(c, cs[1..], Priority));
    }
  }
}

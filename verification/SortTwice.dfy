/** Blocks that sorting once does not settle: their last directive is not ended. */
module SortTwice {
  import opened Text
  import opened Scanner
  import opened ScannerFacts
  import opened FormatLexer
  import opened LexLocality
  import opened StableSort
  import opened FaithfulTokens
  import opened BlockSort
  import opened BlockSortText
  import opened SortFixed

  function WordToken(w: string, keywords: set<string>): Lexeme {
    Lexeme(if ToUpper(w) in keywords then Keyword else Ident, w)
  }

  function MarkToken(c: char): Lexeme {
    Lexeme(PunctuationType(c), [c])
  }

  predicate IsBraceOrSemi(c: char) {
    c == '{' || c == '}' || c == ';'
  }

  lemma LexWordThen(w: string, y: string, keywords: set<string>)
    requires w != [] && IsWordStart(w[0]) && AllWord(w) && NoWordAhead(y)
    ensures Lex(w + y, keywords) == [WordToken(w, keywords)] + Lex(y, keywords)
  {
    ReadsWord(w, y);
    assert (w + y)[|w|..] == y;
    LexStep(w, y, keywords);
  }

  lemma LexMarkThen(c: char, y: string, keywords: set<string>)
    requires IsBraceOrSemi(c)
    ensures Lex([c] + y, keywords) == [MarkToken(c)] + Lex(y, keywords)
  {
    assert ([c] + y)[1..] == y;
    LexStep([c], y, keywords);
  }

  // ----- a directive after a stray brace, and one that opens a block

  predicate IsDirectiveWord(w: string) {
    w != [] && IsWordStart(w[0]) && AllWord(w)
  }

  function Ended(v: string, keywords: set<string>): Chunk {
    [WordToken(v, keywords), MarkToken(';')]
  }

  function Opened(w: string, keywords: set<string>): Chunk {
    [WordToken(w, keywords), MarkToken('{')]
  }

  lemma LexEnded(v: string, y: string, keywords: set<string>)
    requires IsDirectiveWord(v)
    ensures Lex(v + (";" + y), keywords) == Ended(v, keywords) + Lex(y, keywords)
  {
    LexWordThen(v, ";" + y, keywords);
    LexMarkThen(';', y, keywords);
  }

  lemma LexOpened(w: string, y: string, keywords: set<string>)
    requires IsDirectiveWord(w)
    ensures Lex(w + ("{" + y), keywords) == Opened(w, keywords) + Lex(y, keywords)
  {
    LexWordThen(w, "{" + y, keywords);
    LexMarkThen('{', y, keywords);
  }

  lemma NothingAfter(a: seq<Lexeme>, keywords: set<string>)
    ensures Lex("", keywords) == [] && a + [] == a
  {
  }

  lemma BeforeSorting(v: string, w: string, keywords: set<string>)
    requires IsDirectiveWord(v) && IsDirectiveWord(w)
    ensures SplitBlock(Lex("}" + (v + (";" + (w + ("{" + "")))), keywords))
      == Split([[MarkToken('}')] + Ended(v, keywords), Opened(w, keywords)], [])
  {
    LexMarkThen('}', v + (";" + (w + ("{" + ""))), keywords);
    LexEnded(v, w + ("{" + ""), keywords);
    LexOpened(w, "", keywords);
    NothingAfter(Opened(w, keywords), keywords);
    EndedThenOpened([MarkToken('}')] + Ended(v, keywords), Opened(w, keywords));
    assert [MarkToken('}')] + (Ended(v, keywords) + Opened(w, keywords)) ==
      [MarkToken('}')] + Ended(v, keywords) + Opened(w, keywords);
  }

  lemma AfterSorting(v: string, w: string, keywords: set<string>)
    requires IsDirectiveWord(v) && IsDirectiveWord(w)
    ensures SplitBlock(Lex(w + ("{" + ("}" + (v + (";" + "")))), keywords))
      == Split([Opened(w, keywords) + [MarkToken('}')], Ended(v, keywords)], [])
  {
    LexOpened(w, "}" + (v + (";" + "")), keywords);
    LexMarkThen('}', v + (";" + ""), keywords);
    LexEnded(v, "", keywords);
    NothingAfter(Ended(v, keywords), keywords);
    BlockThenEnded(Opened(w, keywords) + [MarkToken('}')], Ended(v, keywords));
    assert Opened(w, keywords) + ([MarkToken('}')] + Ended(v, keywords)) ==
      Opened(w, keywords) + [MarkToken('}')] + Ended(v, keywords);
  }

  lemma {:induction false} BodyOfThree(x: Lexeme, y: Lexeme, depth: int)
    requires x.typ != LBrace && x.typ != RBrace && x.typ != Semicolon
    ensures y.typ == Semicolon && depth == 0 ==> BodyLength([x, y], depth) == Some(2)
  {
    assert [x, y][1..] == [y];
  }

  /** A directive of three tokens that a semicolon ends, and one that opens a block. */
  lemma EndedThenOpened(a: Chunk, b: Chunk)
    requires |a| == 3 && a[0].typ == RBrace && a[2].typ == Semicolon && (a[1].typ == Keyword || a[1].typ == Ident)
    requires |b| == 2 && (b[0].typ == Keyword || b[0].typ == Ident) && b[1].typ == LBrace
    ensures SplitBlock(a + b) == Split([a, b], [])
  {
    BodyOfThree(a[1], a[2], 0);
    assert a[1..] == [a[1], a[2]];
    DirectiveOf(a, b);
    assert (a + b)[..3] == a && (a + b)[3..] == b;
    assert b[1..] == [b[1]] && [b[1]][1..] == [] && BodyLength([b[1]], 0) == None;
    assert SplitBlock(b) == Split([b], []);
  }

  /** A directive that is a block, and one that a semicolon ends. */
  lemma BlockThenEnded(a: Chunk, b: Chunk)
    requires |a| == 3 && (a[0].typ == Keyword || a[0].typ == Ident) && a[1].typ == LBrace && a[2].typ == RBrace
    requires |b| == 2 && (b[0].typ == Keyword || b[0].typ == Ident) && b[1].typ == Semicolon
    ensures SplitBlock(a + b) == Split([a, b], [])
  {
    assert a[1..] == [a[1], a[2]] && [a[1], a[2]][1..] == [a[2]] && BodyLength([a[2]], 1) == Some(1);
    DirectiveOf(a, b);
    assert (a + b)[..3] == a && (a + b)[3..] == b;
    assert b[1..] == [b[1]] && BodyLength([b[1]], 0) == Some(1);
    assert b[..2] == b && b[2..] == [] && SplitBlock([]) == Split([], []);
    assert SplitBlock(b) == Split([b], []);
  }

  // ----- what sorting does

  lemma Swapped(a: Chunk, b: Chunk)
    requires Priority(b) < Priority(a)
    ensures Sorted([a, b]) == [b, a]
  {
    assert [a, b][1..] == [b] && [b][1..] == [];
    assert SortBy([b], Priority) == [b] && Insert(a, [b], Priority) == [b] + [a];
  }

  lemma FlatTexts(a: Chunk, b: Chunk)
    ensures Texts(Flat([a, b]) + []) == Texts(a) + Texts(b)
  {
    assert [a, b][1..] == [b] && [b][1..] == [] && Flat([]) == [];
    assert Flat([b]) == b && Flat([a, b]) == a + b && a + b + [] == a + b;
    TextsJoin(a, b);
  }

  lemma TwoTexts(x: Lexeme, y: Lexeme)
    ensures Texts([x, y]) == x.text + y.text && Texts([x]) == x.text
  {
    assert [x, y][1..] == [y] && [y][1..] == [] && [x][1..] == [];
    assert Texts([y]) == y.text && Texts([x]) == x.text;
  }

  lemma SortsTo(s: string, a: Chunk, b: Chunk, t: string, keywords: set<string>)
    requires SplitBlock(Lex(s, keywords)) == Split([a, b], []) && Priority(b) < Priority(a)
    requires s != [] && Trimmed(s) && t == Texts(b) + Texts(a)
    ensures SortText(s, keywords) == t
  {
    Swapped(a, b);
    FlatTexts(b, a);
    TrimSpaceAround("", s, "");
    OnEmpty(s);
  }

  lemma Ranks(v: string, w: string, keywords: set<string>)
    ensures Priority([MarkToken('}')] + Ended(v, keywords)) == 99
    ensures Priority(Opened(w, keywords)) ==
      Priority(Opened(w, keywords) + [MarkToken('}')]) == WordPriority(ToUpper(w))
    ensures Priority(Ended(v, keywords)) == WordPriority(ToUpper(v))
  {
  }

  lemma ChunkTexts(v: string, w: string, keywords: set<string>)
    ensures Texts(Opened(w, keywords)) + Texts([MarkToken('}')] + Ended(v, keywords)) ==
      w + ("{" + ("}" + (v + (";" + ""))))
    ensures Texts(Ended(v, keywords)) + Texts(Opened(w, keywords) + [MarkToken('}')]) == v + (";" + (w + ("{" + "}")))
  {
    TwoTexts(Opened(w, keywords)[0], Opened(w, keywords)[1]);
    TwoTexts(Ended(v, keywords)[0], Ended(v, keywords)[1]);
    TwoTexts(MarkToken('}'), MarkToken('}'));
    TextsJoin([MarkToken('}')], Ended(v, keywords));
    TextsJoin(Opened(w, keywords), [MarkToken('}')]);
  }

  /** When the brace left open belongs to a directive that sorting moves in front
      of one that began with a stray brace, the two meet: sorting the result again
      gives another text, so sorting is not idempotent. */
  lemma SortedTwiceDiffers(v: string, w: string, keywords: set<string>)
    requires IsDirectiveWord(v) && IsDirectiveWord(w) && WordPriority(ToUpper(v)) < WordPriority(ToUpper(w)) < 99
    ensures var s := "}" + (v + (";" + (w + ("{" + ""))));
      && SortText(s, keywords) == w + ("{" + ("}" + (v + (";" + ""))))
      && SortText(SortText(s, keywords), keywords) == v + (";" + (w + ("{" + "}")))
      && SortText(SortText(s, keywords), keywords) != SortText(s, keywords)
      && !LastIsSafe(SplitBlock(Lex(s, keywords)).chunks)
  {
    var s, t, u := "}" + (v + (";" + (w + ("{" + "")))), w + ("{" + ("}" + (v + (";" + "")))), v + (";" + (w + ("{" + "}")));
    BeforeSorting(v, w, keywords);
    AfterSorting(v, w, keywords);
    Ranks(v, w, keywords);
    ChunkTexts(v, w, keywords);
    TrimmedEnds(s, v, w, t);
    SortsTo(s, [MarkToken('}')] + Ended(v, keywords), Opened(w, keywords), t, keywords);
    SortsTo(t, Opened(w, keywords) + [MarkToken('}')], Ended(v, keywords), u, keywords);
    NotSafe(v, w, keywords);
    TextsDiffer(v, w, w + ("{" + "}"), "}" + (v + (";" + "")));
  }

  lemma TrimmedEnds(s: string, v: string, w: string, t: string)
    requires IsDirectiveWord(v) && IsDirectiveWord(w)
    requires s == "}" + (v + (";" + (w + ("{" + "")))) && t == w + ("{" + ("}" + (v + (";" + ""))))
    ensures s != [] && t != [] && Trimmed(s) && Trimmed(t)
  {
    assert s[0] == '}' && s[|s| - 1] == '{' && t[0] == w[0] && t[|t| - 1] == ';';
  }

  lemma TextsDiffer(v: string, w: string, x: string, y: string)
    requires AllWord(v) && AllWord(w) && WordPriority(ToUpper(v)) != WordPriority(ToUpper(w))
    ensures v + (";" + x) != w + ("{" + y)
  {
    ReadsWord(v, ";" + x);
    ReadsWord(w, "{" + y);
  }

  lemma NotSafe(v: string, w: string, keywords: set<string>)
    requires WordPriority(ToUpper(w)) < 99
    ensures !LastIsSafe([[MarkToken('}')] + Ended(v, keywords), Opened(w, keywords)])
  {
    var a, b := [MarkToken('}')] + Ended(v, keywords), Opened(w, keywords);
    Ranks(v, w, keywords);
    assert [a, b][0] == a && [a, b][1] == b;
    assert b[1..] == [b[1]] && [b[1]][1..] == [] && BodyLength([b[1]], 0) == None;
  }

  // ----- an unended directive that sorting does settle

  function SpaceToken(): Lexeme {
    Lexeme(Whitespace, " ")
  }

  /** A word and a space, not ended by anything. */
  function Spaced(v: string, keywords: set<string>): Chunk {
    [WordToken(v, keywords), SpaceToken()]
  }

  lemma LexSpaced(v: string, y: string, keywords: set<string>)
    requires IsDirectiveWord(v) && (y != [] ==> !IsRunBlank(y[0]))
    ensures Lex(v + (" " + y), keywords) == Spaced(v, keywords) + Lex(y, keywords)
  {
    LexWordThen(v, " " + y, keywords);
    LexSpaceThen(y, keywords);
    Assoc([WordToken(v, keywords)], [SpaceToken()], Lex(y, keywords));
  }

  lemma LexSpaceThen(y: string, keywords: set<string>)
    requires y != [] ==> !IsRunBlank(y[0])
    ensures Lex(" " + y, keywords) == [SpaceToken()] + Lex(y, keywords)
  {
    assert (" " + y)[1..] == y && SkipRunBlank(y) == y;
    LexStep(" ", y, keywords);
  }

  lemma BodyPast(t: Lexeme, ts: seq<Lexeme>)
    requires t.typ != LBrace && t.typ != RBrace && t.typ != Semicolon
    ensures BodyLength([t] + ts, 0) == Longer(BodyLength(ts, 0))
  {
    assert ([t] + ts)[1..] == ts;
  }

  lemma DirectiveFrom(t: Lexeme, ts: seq<Lexeme>)
    requires !IsTrivia(t)
    ensures DirectiveLength([t] + ts) == Longer(BodyLength(ts, 0)) && !AllTrivia([t] + ts)
  {
    assert ([t] + ts)[1..] == ts;
  }

  lemma OneSemicolon(t: Lexeme)
    requires t.typ == Semicolon
    ensures BodyLength([t], 0) == Some(1)
  {
  }

  lemma OneClosed(c: Chunk)
    requires Closed(c)
    ensures SplitBlock(c) == Split([c], [])
  {
    assert SplitBlock([]) == Split([], []);
    SplitFirst(c, [], Split([], []));
    OnEmpty(c);
  }

  lemma SpacedUnended(a: Chunk)
    requires |a| == 2 && (a[0].typ == Keyword || a[0].typ == Ident) && a[1].typ == Whitespace
    ensures SplitBlock(a) == Split([a], []) && !Closed(a)
  {
    assert a == [a[0]] + ([a[1]] + []);
    BodyPast(a[1], []);
    DirectiveFrom(a[0], [a[1]] + []);
  }

  lemma EndedClosed(a: Chunk, b: Chunk)
    requires |a| == 2 && (a[0].typ == Keyword || a[0].typ == Ident) && a[1].typ == Whitespace
    requires |b| == 2 && (b[0].typ == Keyword || b[0].typ == Ident) && b[1].typ == Semicolon
    ensures Closed(b) && Closed(a + b)
  {
    assert b == [b[0]] + [b[1]] && a + b == [a[0]] + ([a[1]] + b);
    OneSemicolon(b[1]);
    DirectiveFrom(b[0], [b[1]]);
    BodyPast(b[0], [b[1]]);
    BodyPast(a[1], b);
    DirectiveFrom(a[0], [a[1]] + b);
  }

  /** It is one directive with an ended one behind it, and the last one behind an ended one. */
  lemma SpacedSplits(a: Chunk, b: Chunk)
    requires |a| == 2 && (a[0].typ == Keyword || a[0].typ == Ident) && a[1].typ == Whitespace
    requires |b| == 2 && (b[0].typ == Keyword || b[0].typ == Ident) && b[1].typ == Semicolon
    ensures SplitBlock(b + a) == Split([b, a], []) && SplitBlock(a + b) == Split([a + b], []) && !Closed(a)
  {
    SpacedUnended(a);
    EndedClosed(a, b);
    SplitFirst(b, a, Split([a], []));
    OneClosed(a + b);
  }

  lemma SpacedTexts(v: string, w: string, keywords: set<string>)
    ensures Texts(Spaced(v, keywords)) + Texts(Ended(w, keywords)) == v + (" " + (w + (";" + "")))
  {
    TwoTexts(Spaced(v, keywords)[0], Spaced(v, keywords)[1]);
    TwoTexts(Ended(w, keywords)[0], Ended(w, keywords)[1]);
  }

  /** A last directive that nothing ends, with white space after its word, takes
      up the directive it is moved in front of, and the two stay where they are:
      the block is not safe, and sorting it twice is sorting it once. */
  lemma UnsafeButSettled(v: string, w: string, keywords: set<string>)
    requires IsDirectiveWord(v) && IsDirectiveWord(w) && WordPriority(ToUpper(v)) < WordPriority(ToUpper(w))
    ensures var s := w + (";" + (v + (" " + "")));
      && !LastIsSafe(SplitBlock(Lex(s, keywords)).chunks)
      && SortText(s, keywords) == v + (" " + (w + (";" + ""))) != s
      && SortText(SortText(s, keywords), keywords) == SortText(s, keywords)
  {
    var s, t := w + (";" + (v + (" " + ""))), v + (" " + (w + (";" + "")));
    var a, b := Spaced(v, keywords), Ended(w, keywords);
    LexEnded(w, v + (" " + ""), keywords);
    LexSpaced(v, "", keywords);
    NothingAfter(a, keywords);
    SpacedSplits(a, b);
    SortsToSpaced(s, a, b, t, v, w, keywords);
    LexSpaced(v, w + (";" + ""), keywords);
    LexEnded(w, "", keywords);
    NothingAfter(b, keywords);
    IdempotentIff(s, keywords);
  }

  lemma SortsToSpaced(s: string, a: Chunk, b: Chunk, t: string, v: string, w: string, keywords: set<string>)
    requires IsDirectiveWord(w) && WordPriority(ToUpper(v)) < WordPriority(ToUpper(w)) && !Closed(a)
    requires a == Spaced(v, keywords) && b == Ended(w, keywords) && s != [] && s[0] == w[0]
    requires SplitBlock(Lex(s, keywords)) == Split([b, a], []) && t == v + (" " + (w + (";" + "")))
    ensures SortText(s, keywords) == t && !LastIsSafe([b, a])
  {
    Swapped(b, a);
    FlatTexts(a, b);
    SpacedTexts(v, w, keywords);
    NotBlank(s);
    assert [b, a][0] == b && [b, a][1] == a;
  }

  lemma NotBlank(s: string)
    requires s != [] && !IsSpace(s[0])
    ensures TrimSpace(s) != ""
  {
    assert TrimLeft(s) == s;
    TrimRightKeepsFirst(s);
  }
}

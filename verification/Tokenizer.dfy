/** The formatter's tokenizer: a cursor that reads token after token, keeping
    line and column. */
module Tokenizer {
  import opened Text
  import opened Scanner
  import opened BlockCursor
  import opened FormatLexer

  datatype Token = Token(lexeme: Lexeme, place: Place)

  /** Lexemes with the places where they start, and the end of the file. */
  function Placed(ls: seq<Lexeme>, at: Place): seq<Token> {
    if ls == [] then [Token(Lexeme(EOF, ""), at)] else [Token(ls[0], at)] + Placed(ls[1..], Moved(at, ls[0].text))
  }

  lemma {:induction false} MovedTwice(at: Place, a: string, b: string)
    ensures Moved(Moved(at, a), b) == Moved(at, a + b)
  {
    if b == [] {
      assert a + b == a;
    } else {
      assert (a + b)[..|a + b| - 1] == a + b[..|b| - 1];
      MovedTwice(at, a, b[..|b| - 1]);
    }
  }

  /** Each token stands where the text before it leads, from line 1, column 1. */
  lemma {:induction false} PlacesAreRight(ls: seq<Lexeme>, at: Place, i: nat)
    requires i < |ls|
    ensures |Placed(ls, at)| == |ls| + 1
    ensures Placed(ls, at)[i].lexeme == ls[i]
    ensures Placed(ls, at)[i].place == Moved(at, Texts(ls[..i]))
  {
    PlacedLength(ls, at);
    if i > 0 {
      PlacesAreRight(ls[1..], Moved(at, ls[0].text), i - 1);
      assert ls[..i][1..] == ls[1..][..i - 1];
      MovedTwice(at, ls[0].text, Texts(ls[1..][..i - 1]));
    }
  }

  lemma {:induction false} PlacedLength(ls: seq<Lexeme>, at: Place)
    ensures |Placed(ls, at)| == |ls| + 1
  {
    if ls != [] {
      PlacedLength(ls[1..], Moved(at, ls[0].text));
    }
  }

  // ----- scanning by position

  method SkipSingleQuoted(src: string, pos: nat) returns (end: nat)
    requires pos < |src|
    ensures pos < end <= |src| && src[end..] == QuotedRest(src[pos + 1..], '\'')
  {
    end := pos + 1;
    while end < |src|
      invariant pos < end <= |src| && QuotedRest(src[end..], '\'') == QuotedRest(src[pos + 1..], '\'')
    {
      assert src[end..][1..] == src[end + 1..];
      if src[end] == '\'' {
        if end + 1 < |src| && src[end + 1] == '\'' {
          assert src[end..][2..] == src[end + 2..];
          end := end + 2;
          continue;
        }
        end := end + 1;
        return;
      }
      end := end + 1;
    }
  }

  method PeekDollarTag(src: string, pos: nat) returns (tag: Option<string>)
    requires pos < |src| && src[pos] == '$'
    ensures tag == DollarTag(src[pos..])
  {
    ghost var s := src[pos..];
    if pos + 1 < |src| && src[pos + 1] == '$' {
      return Some("$$");
    }
    if pos + 1 >= |src| || !IsWordStart(src[pos + 1]) {
      return None;
    }
    var i := SkipWordFrom(src, pos + 1);
    assert s[1..] == src[pos + 1..];
    if i < |src| && src[i] == '$' {
      assert src[pos..i + 1] == s[..i + 1 - pos];
      return Some(src[pos..i + 1]);
    }
    return None;
  }

  method SkipWordFrom(src: string, from: nat) returns (end: nat)
    requires from <= |src|
    ensures from <= end <= |src| && src[from..end] == Word(src[from..]) && src[end..] == AfterWord(src[from..])
  {
    end := from;
    while end < |src| && IsWordChar(src[end])
      invariant from <= end <= |src| && AfterWord(src[end..]) == AfterWord(src[from..])
    {
      AfterWordStep(src, end);
      end := end + 1;
    }
    WordUpTo(src, from, end);
  }

  lemma AfterWordStep(src: string, at: nat)
    requires at < |src| && IsWordChar(src[at])
    ensures AfterWord(src[at..]) == AfterWord(src[at + 1..])
  {
    assert src[at..][1..] == src[at + 1..];
  }

  lemma WordUpTo(src: string, from: nat, end: nat)
    requires from <= end <= |src| && AfterWord(src[end..]) == AfterWord(src[from..])
    requires end < |src| ==> !IsWordChar(src[end])
    ensures src[from..end] == Word(src[from..]) && src[end..] == AfterWord(src[from..])
  {
    var name := src[from..];
    assert Word(src[end..]) == [] && AfterWord(src[end..]) == src[end..];
    assert |Word(name)| == end - from;
    assert name[..end - from] == src[from..end];
  }

  method SkipDollarQuoted(src: string, pos: nat, tag: string) returns (end: nat)
    requires tag != [] && pos + |tag| <= |src|
    ensures pos < end <= |src| && src[end..] == TagRest(src[pos + |tag|..], tag)
  {
    end := pos + |tag|;
    while end < |src|
      invariant pos + |tag| <= end <= |src| && TagRest(src[end..], tag) == TagRest(src[pos + |tag|..], tag)
    {
      assert src[end..][1..] == src[end + 1..];
      PrefixAt(src, end, tag);
      if end + |tag| <= |src| && src[end..end + |tag|] == tag {
        end := end + |tag|;
        return;
      }
      end := end + 1;
    }
  }

  lemma PrefixAt(src: string, at: nat, tag: string)
    requires at <= |src|
    ensures tag <= src[at..] <==> at + |tag| <= |src| && src[at..at + |tag|] == tag
    ensures at + |tag| <= |src| ==> src[at..][|tag|..] == src[at + |tag|..]
  {
    assert at + |tag| <= |src| ==> src[at..][..|tag|] == src[at..at + |tag|];
  }

  method SkipLineComment(src: string, pos: nat) returns (end: nat)
    requires pos <= |src|
    ensures pos <= end <= |src| && src[end..] == SkipLine(src[pos..])
  {
    end := pos;
    while end < |src| && src[end] != '\n'
      invariant pos <= end <= |src| && SkipLine(src[end..]) == SkipLine(src[pos..])
    {
      assert src[end..][1..] == src[end + 1..];
      end := end + 1;
    }
  }

  method SkipBlockComment(src: string, pos: nat) returns (end: nat)
    requires pos + 2 <= |src|
    ensures pos + 2 <= end <= |src| && src[end..] == BlockRest(src[pos + 2..], 1)
  {
    end := pos + 2;
    var depth: nat := 1;
    while end < |src|
      invariant pos + 2 <= end <= |src| && depth >= 1 && BlockRest(src[end..], depth) == BlockRest(src[pos + 2..], 1)
    {
      assert src[end..][1..] == src[end + 1..];
      if src[end] == '/' && end + 1 < |src| && src[end + 1] == '*' {
        assert src[end..][2..] == src[end + 2..];
        depth, end := depth + 1, end + 2;
      } else if src[end] == '*' && end + 1 < |src| && src[end + 1] == '/' {
        assert src[end..][2..] == src[end + 2..];
        depth, end := depth - 1, end + 2;
        if depth == 0 {
          return;
        }
      } else {
        end := end + 1;
      }
    }
  }

  // ----- the cursor

  lemma DollarRest(s: string)
    requires s != [] && s[0] == '$'
    ensures FirstRest(s) == if DollarTag(s).Some? then TagRest(s[|DollarTag(s).value|..], DollarTag(s).value) else s[1..]
  {
  }

  class Lexer {
    const src: string
    var pos: nat
    var line: int
    var col: int

    constructor (src: string)
      ensures this.src == src && pos == 0 && Here() == Place(1, 1)
    {
      this.src, pos, line, col := src, 0, 1, 1;
    }

    function Here(): Place
      reads this
    {
      Place(line, col)
    }

    /** Reading has gone from a position and place to this one. */
    ghost predicate CameFrom(start: nat, at: Place)
      reads this
    {
      start <= pos <= |src| && Here() == Moved(at, src[start..pos])
    }

    function Peek(): char
      reads this
      requires pos < |src|
    {
      src[pos]
    }

    method Advance(ghost start: nat, ghost at: Place)
      requires CameFrom(start, at) && pos < |src|
      modifies this
      ensures CameFrom(start, at) && pos == old(pos) + 1
    {
      var c := src[pos];
      assert src[start..pos + 1][..pos - start] == src[start..pos];
      pos := pos + 1;
      if c == '\n' {
        line, col := line + 1, 1;
      } else {
        col := col + 1;
      }
    }

    method AdvanceTo(newPos: nat, ghost start: nat, ghost at: Place)
      requires CameFrom(start, at) && pos <= newPos <= |src|
      modifies this
      ensures CameFrom(start, at) && pos == newPos
    {
      while pos < newPos
        invariant CameFrom(start, at) && pos <= newPos
      {
        Advance(start, at);
      }
    }

    method SkipBlanks(ghost start: nat, ghost at: Place)
      requires CameFrom(start, at)
      modifies this
      ensures CameFrom(start, at) && src[pos..] == SkipRunBlank(old(src[pos..]))
    {
      while pos < |src| && IsRunBlank(Peek())
        invariant CameFrom(start, at) && SkipRunBlank(src[pos..]) == SkipRunBlank(old(src[pos..]))
      {
        assert src[pos..][1..] == src[pos + 1..];
        Advance(start, at);
      }
    }

    method SkipDigits(ghost start: nat, ghost at: Place)
      requires CameFrom(start, at)
      modifies this
      ensures CameFrom(start, at) && src[pos..] == SkipNumber(old(src[pos..]))
    {
      while pos < |src| && (IsDigit(Peek()) || Peek() == '.')
        invariant CameFrom(start, at) && SkipNumber(src[pos..]) == SkipNumber(old(src[pos..]))
      {
        assert src[pos..][1..] == src[pos + 1..];
        Advance(start, at);
      }
    }

    method SkipWord(ghost start: nat, ghost at: Place)
      requires CameFrom(start, at)
      modifies this
      ensures CameFrom(start, at) &&
        src[pos..] == AfterWord(old(src[pos..])) && src[old(pos)..pos] == Word(old(src[pos..]))
    {
      var end := SkipWordFrom(src, pos);
      AdvanceTo(end, start, at);
    }

    method SkipQuotedIdent(ghost start: nat, ghost at: Place)
      requires CameFrom(start, at)
      modifies this
      ensures CameFrom(start, at) && src[pos..] == QuotedRest(old(src[pos..]), '"')
    {
      while pos < |src|
        invariant CameFrom(start, at) && QuotedRest(src[pos..], '"') == QuotedRest(old(src[pos..]), '"')
      {
        assert src[pos..][1..] == src[pos + 1..];
        var c := Peek();
        Advance(start, at);
        if c == '"' {
          if pos < |src| && Peek() == '"' {
            assert src[pos - 1..][2..] == src[pos + 1..];
            Advance(start, at);
          } else {
            return;
          }
        }
      }
    }

    /** Reads one token. */
    method ReadToken(keywords: set<string>) returns (lexeme: Lexeme)
      requires pos < |src|
      modifies this
      ensures pos <= |src| && src[pos..] == FirstRest(old(src[pos..]))
      ensures lexeme == Lexeme(FirstType(old(src[pos..]), keywords), FirstText(old(src[pos..])))
      ensures Here() == Moved(old(Here()), lexeme.text)
    {
      ghost var s := src[pos..];
      var start := pos;
      ghost var at := Here();
      assert src[start..start] == [];
      var typ := SkipToken(keywords, start, at);
      lexeme := Lexeme(typ, src[start..pos]);
      assert FirstText(s) == src[start..pos];
    }

    method SkipToken(keywords: set<string>, ghost start: nat, ghost at: Place) returns (typ: TokType)
      requires start == pos < |src| && at == Here() && src[start..start] == []
      modifies this
      ensures CameFrom(start, at) && src[pos..] == FirstRest(old(src[pos..]))
      ensures typ == FirstType(old(src[pos..]), keywords)
    {
      ghost var s := src[pos..];
      var c := Peek();
      var two := if pos + 1 < |src| then src[pos + 1] else 0 as char;
      assert s[1..] == src[pos + 1..];
      if c == '\n' {
        Advance(start, at);
        typ := Newline;
      } else if IsRunBlank(c) {
        Advance(start, at);
        SkipBlanks(start, at);
        typ := Whitespace;
      } else if c == '-' && two == '-' {
        var end := SkipLineComment(src, pos);
        assert s[2..] == s[1..][1..];
        AdvanceTo(end, start, at);
        typ := LineComment;
      } else if c == '/' && two == '*' {
        assert s[2..] == src[pos + 2..];
        var end := SkipBlockComment(src, pos);
        AdvanceTo(end, start, at);
        typ := BlockComment;
      } else if c == '\'' {
        var end := SkipSingleQuoted(src, pos);
        AdvanceTo(end, start, at);
        typ := StringLit;
      } else if c == '"' {
        Advance(start, at);
        SkipQuotedIdent(start, at);
        typ := QuotedIdent;
      } else if c == '$' {
        typ := SkipDollar(start, at);
      } else if IsDigit(c) {
        Advance(start, at);
        SkipDigits(start, at);
        typ := Number;
      } else if IsWordStart(c) {
        var begin := pos;
        SkipWord(start, at);
        typ := if ToUpper(src[begin..pos]) in keywords then Keyword else Ident;
      } else {
        Advance(start, at);
        typ := PunctuationType(c);
      }
    }

    method SkipDollar(ghost start: nat, ghost at: Place) returns (typ: TokType)
      requires CameFrom(start, at) && pos < |src| && src[pos] == '$'
      modifies this
      ensures CameFrom(start, at) && src[pos..] == FirstRest(old(src[pos..]))
      ensures typ == if DollarTag(old(src[pos..])).Some? then DollarQuote else Operator
    {
      ghost var s := src[pos..];
      DollarRest(s);
      FurtherOn(src, pos, 1);
      var tag := PeekDollarTag(src, pos);
      if tag.Some? {
        FurtherOn(src, pos, |tag.value|);
        var end := SkipDollarQuoted(src, pos, tag.value);
        AdvanceTo(end, start, at);
        typ := DollarQuote;
      } else {
        Advance(start, at);
        typ := Operator;
      }
    }

    /** All tokens, and the end of the file. */
    method Tokenize(keywords: set<string>) returns (tokens: seq<Token>)
      requires pos == 0 && Here() == Place(1, 1)
      modifies this
      ensures tokens == Placed(Lex(src, keywords), Place(1, 1))
    {
      tokens := [];
      ghost var all := Placed(Lex(src, keywords), Place(1, 1));
      assert src[0..] == src;
      while pos < |src|
        invariant pos <= |src| && tokens + Placed(Lex(src[pos..], keywords), Here()) == all
        decreases |src| - pos
      {
        var at := Here();
        ghost var s := src[pos..];
        var lexeme := ReadToken(keywords);
        PlacedNext(s, keywords, at, tokens);
        tokens := tokens + [Token(lexeme, at)];
      }
      tokens := tokens + [Token(Lexeme(EOF, ""), Here())];
    }
  }

  lemma PlacedNext(s: string, keywords: set<string>, at: Place, tokens: seq<Token>)
    requires s != []
    ensures var l := Lexeme(FirstType(s, keywords), FirstText(s));
      tokens + [Token(l, at)] + Placed(Lex(FirstRest(s), keywords), Moved(at, l.text)) ==
        tokens + Placed(Lex(s, keywords), at)
  {
    var l := Lexeme(FirstType(s, keywords), FirstText(s));
    assert Lex(s, keywords) == [l] + Lex(FirstRest(s), keywords);
    assert Lex(s, keywords)[1..] == Lex(FirstRest(s), keywords);
  }
}

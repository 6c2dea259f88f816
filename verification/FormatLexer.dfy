/** The formatter's tokens: where the first token of a text ends, what it is,
    and the tokens of a whole text. */
module FormatLexer {
  import opened Text
  import opened Scanner

  datatype TokType =
    | Keyword | Ident | QuotedIdent | StringLit | DollarQuote | Number
    | LineComment | BlockComment | Newline | Whitespace
    | LParen | RParen | LBrace | RBrace | Semicolon | Comma | Dot | Operator | EOF

  datatype Lexeme = Lexeme(typ: TokType, text: string)

  predicate IsRunBlank(c: char) {
    c == ' ' || c == '\t' || c == '\r'
  }

  predicate IsDigit(c: char) {
    '0' <= c <= '9'
  }

  function SkipRunBlank(s: string): (r: string)
    ensures |r| <= |s|
  {
    if s != [] && IsRunBlank(s[0]) then SkipRunBlank(s[1..]) else s
  }

  function SkipNumber(s: string): (r: string)
    ensures |r| <= |s|
  {
    if s != [] && (IsDigit(s[0]) || s[0] == '.') then SkipNumber(s[1..]) else s
  }

  /** The text after a block comment that is depth levels deep; comments nest. */
  function BlockRest(s: string, depth: nat): (r: string)
    ensures |r| <= |s| && (s != [] ==> |r| < |s|)
    decreases |s|
  {
    if s == [] then s
    else if StartsWithTwo(s, '/', '*') then BlockRest(s[2..], depth + 1)
    else if StartsWithTwo(s, '*', '/') then if depth <= 1 then s[2..] else BlockRest(s[2..], depth - 1)
    else BlockRest(s[1..], depth)
  }

  /** The text after a quoted text whose opening quote has been read; nothing if
      it is not closed. */
  function QuotedRest(s: string, q: char): (r: string)
    ensures |r| <= |s| && (s != [] ==> |r| < |s|)
    decreases |s|
  {
    if s == [] then s
    else if s[0] != q then QuotedRest(s[1..], q)
    else if StartsWithTwo(s, q, q) then QuotedRest(s[2..], q)
    else s[1..]
  }

  /** The opening tag of a dollar-quoted text. */
  function DollarTag(s: string): (tag: Option<string>)
    requires StartsWith(s, '$')
    ensures tag.Some? ==> tag.value <= s && |tag.value| >= 2
  {
    if StartsWithTwo(s, '$', '$') then Some("$$")
    else if |s| > 1 && IsWordStart(s[1]) && StartsWith(AfterWord(s[1..]), '$') then
      assert AfterWord(s[1..])[0] == s[1 + |Word(s[1..])|];
      Some(s[..|Word(s[1..])| + 2])
    else None
  }

  /** The text after the first occurrence of a tag; nothing if there is none. */
  function TagRest(s: string, tag: string): (r: string)
    requires tag != []
    ensures r == [] || |r| <= |s| - |tag|
    ensures |r| <= |s|
  {
    if s == [] then s
    else if tag <= s then s[|tag|..]
    else TagRest(s[1..], tag)
  }

  /** The text after the first token. */
  function FirstRest(s: string): (r: string)
    requires s != []
    ensures |r| < |s|
  {
    if s[0] == '\n' then s[1..]
    else if IsRunBlank(s[0]) then SkipRunBlank(s[1..])
    else if StartsWithTwo(s, '-', '-') then SkipLine(s[2..])
    else if StartsWithTwo(s, '/', '*') then BlockRest(s[2..], 1)
    else if s[0] == '\'' then QuotedRest(s[1..], '\'')
    else if s[0] == '"' then QuotedRest(s[1..], '"')
    else if s[0] == '$' then if DollarTag(s).Some? then TagRest(s[|DollarTag(s).value|..], DollarTag(s).value) else s[1..]
    else if IsDigit(s[0]) then SkipNumber(s[1..])
    else if IsWordStart(s[0]) then
      assert Word(s) != [];
      AfterWord(s)
    else s[1..]
  }

  function FirstText(s: string): string
    requires s != []
  {
    s[..|s| - |FirstRest(s)|]
  }

  function FirstType(s: string, keywords: set<string>): TokType
    requires s != []
  {
    if s[0] == '\n' then Newline
    else if IsRunBlank(s[0]) then Whitespace
    else if StartsWithTwo(s, '-', '-') then LineComment
    else if StartsWithTwo(s, '/', '*') then BlockComment
    else if s[0] == '\'' then StringLit
    else if s[0] == '"' then QuotedIdent
    else if s[0] == '$' then if DollarTag(s).Some? then DollarQuote else Operator
    else if IsDigit(s[0]) then Number
    else if IsWordStart(s[0]) then if ToUpper(Word(s)) in keywords then Keyword else Ident
    else PunctuationType(s[0])
  }

  function PunctuationType(c: char): TokType {
    match c
    case '(' => LParen
    case ')' => RParen
    case '{' => LBrace
    case '}' => RBrace
    case ';' => Semicolon
    case ',' => Comma
    case '.' => Dot
    case _ => Operator
  }

  function Lex(s: string, keywords: set<string>): seq<Lexeme>
    decreases |s|
  {
    if s == [] then []
    else [Lexeme(FirstType(s, keywords), FirstText(s))] + Lex(FirstRest(s), keywords)
  }

  function Texts(ts: seq<Lexeme>): string {
    if ts == [] then [] else ts[0].text + Texts(ts[1..])
  }

  // ----- nothing is lost

  /** r is the end of s. */
  predicate IsSuffix(r: string, s: string) {
    |r| <= |s| && s[|s| - |r|..] == r
  }

  lemma SuffixAfter(r: string, s: string, n: nat)
    requires n <= |s| && IsSuffix(r, s[n..])
    ensures IsSuffix(r, s)
  {
    assert s[n..][|s[n..]| - |r|..] == s[|s| - |r|..];
  }

  lemma {:induction false} RunBlankSuffix(s: string)
    ensures IsSuffix(SkipRunBlank(s), s)
  {
    if s != [] && IsRunBlank(s[0]) {
      RunBlankSuffix(s[1..]);
      SuffixAfter(SkipRunBlank(s), s, 1);
    }
  }

  lemma {:induction false} NumberSuffix(s: string)
    ensures IsSuffix(SkipNumber(s), s)
  {
    if s != [] && (IsDigit(s[0]) || s[0] == '.') {
      NumberSuffix(s[1..]);
      SuffixAfter(SkipNumber(s), s, 1);
    }
  }

  lemma {:induction false} LineSuffix(s: string)
    ensures IsSuffix(SkipLine(s), s)
  {
    if s != [] && s[0] != '\n' {
      LineSuffix(s[1..]);
      SuffixAfter(SkipLine(s), s, 1);
    }
  }

  lemma {:induction false} BlockSuffix(s: string, depth: nat)
    ensures IsSuffix(BlockRest(s, depth), s)
    decreases |s|
  {
    if s != [] {
      if StartsWithTwo(s, '/', '*') {
        BlockSuffix(s[2..], depth + 1);
        SuffixAfter(BlockRest(s, depth), s, 2);
      } else if StartsWithTwo(s, '*', '/') {
        if depth > 1 {
          BlockSuffix(s[2..], depth - 1);
        }
        SuffixAfter(BlockRest(s, depth), s, 2);
      } else {
        BlockSuffix(s[1..], depth);
        SuffixAfter(BlockRest(s, depth), s, 1);
      }
    }
  }

  lemma {:induction false} QuotedSuffix(s: string, q: char)
    ensures IsSuffix(QuotedRest(s, q), s)
    decreases |s|
  {
    if s != [] {
      if s[0] != q {
        QuotedSuffix(s[1..], q);
        SuffixAfter(QuotedRest(s, q), s, 1);
      } else if StartsWithTwo(s, q, q) {
        QuotedSuffix(s[2..], q);
        SuffixAfter(QuotedRest(s, q), s, 2);
      }
    }
  }

  lemma {:induction false} TagSuffix(s: string, tag: string)
    requires tag != []
    ensures IsSuffix(TagRest(s, tag), s)
  {
    if s != [] && !(tag <= s) {
      TagSuffix(s[1..], tag);
      SuffixAfter(TagRest(s, tag), s, 1);
    }
  }

  lemma FirstSuffix(s: string)
    requires s != []
    ensures IsSuffix(FirstRest(s), s)
    ensures FirstText(s) + FirstRest(s) == s && FirstText(s) != []
  {
    var n := FirstSkips(s);
    SuffixAfter(FirstRest(s), s, n);
    assert s == s[..|s| - |FirstRest(s)|] + s[|s| - |FirstRest(s)|..];
  }

  /** A part of the first token after which the rest is scanned for its end. */
  lemma FirstSkips(s: string) returns (n: nat)
    requires s != []
    ensures n <= |s| && IsSuffix(FirstRest(s), s[n..])
  {
    n := 1;
    if s[0] == '\n' {
    } else if IsRunBlank(s[0]) {
      RunBlankSuffix(s[1..]);
    } else if StartsWithTwo(s, '-', '-') {
      n := 2;
      LineSuffix(s[2..]);
    } else if StartsWithTwo(s, '/', '*') {
      n := 2;
      BlockSuffix(s[2..], 1);
    } else if s[0] == '\'' || s[0] == '"' {
      QuotedSuffix(s[1..], s[0]);
    } else if s[0] == '$' {
      if DollarTag(s).Some? {
        n := |DollarTag(s).value|;
        TagSuffix(s[n..], DollarTag(s).value);
      }
    } else if IsDigit(s[0]) {
      NumberSuffix(s[1..]);
    } else if IsWordStart(s[0]) {
      n := |Word(s)|;
      assert IsSuffix(AfterWord(s), s[n..]);
    }
  }

  /** Every character of the text is in exactly one token, in order. */
  lemma {:induction false} LexIsLossless(s: string, keywords: set<string>)
    ensures Texts(Lex(s, keywords)) == s
    decreases |s|
  {
    if s != [] {
      LexIsLossless(FirstRest(s), keywords);
      FirstSuffix(s);
      var ts := Lex(s, keywords);
      assert ts[0].text == FirstText(s) && ts[1..] == Lex(FirstRest(s), keywords);
    }
  }
}

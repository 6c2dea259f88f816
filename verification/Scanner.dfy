/** What the block parser's cursor reads next, as functions of the text that is
    left. Text is ASCII; a character stands for a byte. */
module Scanner {
  import opened Text

  /** What was read, and the text left after it. */
  datatype Read<+T> = Read(value: T, rest: string)

  predicate IsBlank(c: char) {
    c == ' ' || c == '\t' || c == '\r' || c == '\n'
  }

  predicate IsWordStart(c: char) {
    'a' <= c <= 'z' || 'A' <= c <= 'Z' || c == '_'
  }

  predicate IsWordChar(c: char) {
    IsWordStart(c) || '0' <= c <= '9'
  }

  predicate StartsWith(s: string, c: char) {
    s != [] && s[0] == c
  }

  predicate StartsWithTwo(s: string, c: char, d: char) {
    |s| > 1 && s[0] == c && s[1] == d
  }

  // ----- what the cursor methods read

  function SkipLine(s: string): (r: string)
    ensures |r| <= |s|
  {
    if s == [] || s[0] == '\n' then s else SkipLine(s[1..])
  }

  function SkipComment(s: string): (r: string)
    ensures |r| <= |s|
  {
    if s == [] then s
    else if StartsWithTwo(s, '*', '/') then s[2..]
    else SkipComment(s[1..])
  }

  function SkipBlank(s: string): (r: string)
    ensures |r| <= |s|
    decreases |s|
  {
    if s == [] then s
    else if IsBlank(s[0]) then SkipBlank(s[1..])
    else if StartsWithTwo(s, '-', '-') then SkipBlank(SkipLine(s[2..]))
    else if StartsWithTwo(s, '/', '*') then SkipBlank(SkipComment(s[2..]))
    else s
  }

  function Word(s: string): (w: string)
    ensures w <= s
  {
    if s == [] || !IsWordChar(s[0]) then [] else [s[0]] + Word(s[1..])
  }

  function AfterWord(s: string): string {
    s[|Word(s)|..]
  }

  /** The rest of a quoted text whose opening quote has been read; a doubled
      quote stands for one. */
  function QuotedTail(s: string, q: char): (r: Option<Read<string>>)
    ensures r.Some? ==> |r.value.rest| < |s|
    decreases |s|
  {
    if s == [] then None
    else if s[0] != q then
      var tail :- QuotedTail(s[1..], q);
      Some(Read([s[0]] + tail.value, tail.rest))
    else if StartsWithTwo(s, q, q) then
      var tail :- QuotedTail(s[2..], q);
      Some(Read([q] + tail.value, tail.rest))
    else Some(Read([], s[1..]))
  }

  function Quoted(s: string, q: char): (r: Option<Read<string>>)
    ensures r.Some? ==> |r.value.rest| < |s|
  {
    if StartsWith(s, q) then QuotedTail(s[1..], q) else None
  }

  /** The text left when raw text ends: at a stop character outside parentheses
      and braces, at a brace that closes the block around, or at the end. */
  function RawEnd(s: string, stops: string, paren: nat, brace: nat): (r: Option<string>)
    ensures r.Some? ==> |r.value| <= |s|
    decreases |s|
  {
    if s == [] || (paren == 0 && brace == 0 && s[0] in stops) then Some(s)
    else if s[0] == '(' then RawEnd(s[1..], stops, paren + 1, brace)
    else if s[0] == ')' then RawEnd(s[1..], stops, if paren > 0 then paren - 1 else 0, brace)
    else if s[0] == '{' then RawEnd(s[1..], stops, paren, brace + 1)
    else if s[0] == '}' then if brace > 0 then RawEnd(s[1..], stops, paren, brace - 1) else Some(s)
    else if s[0] == '\'' then
      var quoted :- QuotedTail(s[1..], '\'');
      RawEnd(quoted.rest, stops, paren, brace)
    else if StartsWithTwo(s, '-', '-') then RawEnd(SkipLine(s[2..]), stops, paren, brace)
    else if StartsWithTwo(s, '/', '*') then RawEnd(SkipComment(s[2..]), stops, paren, brace)
    else RawEnd(s[1..], stops, paren, brace)
  }

  function RawUntil(s: string, stops: string): (r: Option<Read<string>>)
    ensures r.Some? ==> |r.value.rest| <= |s|
  {
    var end :- RawEnd(s, stops, 0, 0);
    Some(Read(s[..|s| - |end|], end))
  }

  datatype Identifier = Identifier(schema: string, name: string)

  /** One part of a name: quoted, or a word. */
  function NamePart(s: string): (r: Option<Read<string>>)
    ensures r.Some? ==> |r.value.rest| <= |s|
  {
    if StartsWith(s, '"') then Quoted(s, '"') else Some(Read(Word(s), AfterWord(s)))
  }

  function Ident(s: string): (r: Option<Read<Identifier>>)
    ensures r.Some? ==> |r.value.rest| < |s|
  {
    var s1 := SkipBlank(s);
    var first :- NamePart(s1);
    if !StartsWith(s1, '"') && first.value == [] then None
    else if StartsWith(first.rest, '.') then
      var second :- NamePart(SkipBlank(first.rest[1..]));
      Some(Read(Identifier(first.value, second.value), second.rest))
    else Some(Read(Identifier([], first.value), first.rest))
  }

  /** Where a word stands at parenthesis depth 0, outside quoted text: the text
      from there on. */
  function FindWord(s: string, word: string, depth: nat): (r: Option<string>)
    ensures r.Some? ==> |r.value| <= |s|
    decreases |s|
  {
    if s == [] then None
    else if s[0] == '(' then FindWord(s[1..], word, depth + 1)
    else if s[0] == ')' then FindWord(s[1..], word, if depth > 0 then depth - 1 else 0)
    else if s[0] == '\'' then
      var quoted :- QuotedTail(s[1..], '\'');
      FindWord(quoted.rest, word, depth)
    else if depth == 0 && IsWordStart(s[0]) then
      assert Word(s) != [];
      if SameFold(Word(s), word) then Some(s) else FindWord(AfterWord(s), word, depth)
    else FindWord(s[1..], word, depth)
  }

  predicate SameFold(a: string, b: string) {
    ToUpper(a) == ToUpper(b)
  }
}

/** The cursor of the block parser: reading moves it forward, and its line and
    column stay those of the text consumed so far. */
module BlockCursor {
  import opened Text
  import opened Scanner

  /** A line and a column, both counted from 1. */
  datatype Place = Place(line: int, col: int)

  function Step(at: Place, c: char): Place {
    if c == '\n' then Place(at.line + 1, 1) else Place(at.line, at.col + 1)
  }

  /** Where reading s takes a cursor. */
  function Moved(at: Place, s: string): Place {
    if s == [] then at else Step(Moved(at, s[..|s| - 1]), s[|s| - 1])
  }

  function Newlines(s: string): nat {
    if s == [] then 0 else Newlines(s[..|s| - 1]) + if s[|s| - 1] == '\n' then 1 else 0
  }

  /** How much of s stands after its last line break. */
  function LastLine(s: string): nat {
    if s == [] || s[|s| - 1] == '\n' then 0 else LastLine(s[..|s| - 1]) + 1
  }

  /** The line counts the line breaks read, and the column the characters since
      the last of them. */
  lemma {:induction false} MovedMeans(at: Place, s: string)
    ensures Moved(at, s).line == at.line + Newlines(s)
    ensures Moved(at, s).col == (if Newlines(s) == 0 then at.col else 1) + LastLine(s)
  {
    if s != [] {
      MovedMeans(at, s[..|s| - 1]);
    }
  }

  class BlockParser {
    const src: string
    ghost const origin: Place
    var pos: nat
    var line: int
    var col: int

    /** Set when the position has been moved without its line and column. */
    ghost var drifted: bool

    ghost predicate Valid()
      reads this
    {
      pos <= |src| && (!drifted ==> Place(line, col) == Moved(origin, src[..pos]))
    }

    /** The text still to be read. */
    ghost function Left(): string
      reads this
      requires pos <= |src|
    {
      src[pos..]
    }

    constructor (src: string, line: int, col: int)
      ensures Valid() && this.src == src && pos == 0 && origin == Place(line, col) && Left() == src && !drifted
    {
      this.src, this.pos, this.line, this.col := src, 0, line, col;
      origin, drifted := Place(line, col), false;
      new;
      assert src[..0] == [];
    }

    predicate Eof()
      reads this
    {
      pos >= |src|
    }

    function Peek(): (c: char)
      reads this
      requires pos <= |src|
      ensures c == if Left() == [] then 0 as char else Left()[0]
    {
      if pos >= |src| then 0 as char else src[pos]
    }

    function PeekAt(n: nat): (c: char)
      reads this
      requires pos <= |src|
      ensures c == if n >= |Left()| then 0 as char else Left()[n]
    {
      if pos + n >= |src| then 0 as char else src[pos + n]
    }

    /** Reads one character, if there is one. */
    method Advance() returns (c: char)
      requires Valid()
      modifies this
      ensures Valid() && drifted == old(drifted)
      ensures old(Left()) == [] ==> c == 0 as char && pos == old(pos) && Left() == []
      ensures old(Left()) != [] ==> c == old(Left())[0] && pos == old(pos) + 1 && Left() == old(Left())[1..]
    {
      if Eof() {
        return 0 as char;
      }
      c := src[pos];
      pos := pos + 1;
      assert src[..pos][..pos - 1] == src[..pos - 1];
      if c == '\n' {
        line, col := line + 1, 1;
      } else {
        col := col + 1;
      }
    }

    method Restore(pos: nat, line: int, col: int)
      requires pos <= |src| && (!drifted ==> Place(line, col) == Moved(origin, src[..pos]))
      modifies this
      ensures Valid() && drifted == old(drifted) &&
        this.pos == pos && this.line == line && this.col == col && Left() == src[pos..]
    {
      this.pos, this.line, this.col := pos, line, col;
    }

    /** Moves the position alone. */
    method JumpTo(pos: nat)
      requires pos <= |src|
      modifies this
      ensures Valid() && drifted && this.pos == pos && Left() == src[pos..]
    {
      this.pos, drifted := pos, true;
    }

    method SkipToLineEnd()
      requires Valid()
      modifies this
      ensures Valid() && drifted == old(drifted) && Left() == SkipLine(old(Left()))
    {
      while !Eof() && Peek() != '\n'
        invariant Valid() && drifted == old(drifted) && SkipLine(Left()) == SkipLine(old(Left()))
        decreases |src| - pos
      {
        var _ := Advance();
      }
    }

    /** Reads on past the end of a comment. */
    method SkipToCommentEnd()
      requires Valid()
      modifies this
      ensures Valid() && drifted == old(drifted) && Left() == SkipComment(old(Left()))
    {
      while !Eof()
        invariant Valid() && drifted == old(drifted) && SkipComment(Left()) == SkipComment(old(Left()))
        decreases |src| - pos
      {
        if Peek() == '*' && PeekAt(1) == '/' {
          ghost var rest := Left();
          var _ := Advance();
          var _ := Advance();
          assert rest[1..][1..] == rest[2..];
          return;
        }
        var _ := Advance();
      }
    }

    method SkipWS()
      requires Valid()
      modifies this
      ensures Valid() && drifted == old(drifted) && Left() == SkipBlank(old(Left())) && pos >= old(pos)
    {
      while !Eof()
        invariant Valid() && drifted == old(drifted) && SkipBlank(Left()) == SkipBlank(old(Left())) && pos >= old(pos)
        decreases |src| - pos
      {
        ghost var rest := Left();
        if IsBlank(Peek()) {
          var _ := Advance();
        } else if Peek() == '-' && PeekAt(1) == '-' {
          SkipDashes();
          assert |Left()| < |rest|;
        } else if Peek() == '/' && PeekAt(1) == '*' {
          var _ := Advance();
          var _ := Advance();
          assert rest[1..][1..] == rest[2..];
          SkipToCommentEnd();
          assert |Left()| < |rest|;
        } else {
          return;
        }
      }
    }

    method SkipDashes()
      requires Valid() && StartsWithTwo(Left(), '-', '-')
      modifies this
      ensures Valid() && drifted == old(drifted) && Left() == SkipLine(old(Left())[2..]) && pos > old(pos)
    {
      ghost var rest := Left();
      SkipToLineEnd();
      assert rest[1..][1..] == rest[2..];
      assert |Left()| < |rest|;
    }

    method ReadWord() returns (w: string)
      requires Valid()
      modifies this
      ensures Valid() && drifted == old(drifted) && w == Word(old(Left())) && Left() == AfterWord(old(Left()))
      ensures pos == old(pos) + |w|
    {
      w := [];
      ghost var whole := Word(Left());
      while !Eof() && IsWordChar(Peek())
        invariant Valid() && drifted == old(drifted) && whole == w + Word(Left()) && pos == old(pos) + |w|
        decreases |src| - pos
      {
        WordGoesOn(whole, w, Left());
        var c := Advance();
        w := w + [c];
      }
      WordEnds(whole, w, Left());
    }

    /** Looks at the next word without reading it. */
    method PeekWord() returns (w: string)
      requires Valid()
      modifies this
      ensures Valid() && drifted == old(drifted) &&
        w == Word(Left()) && pos == old(pos) && line == old(line) && col == old(col)
    {
      var pos0, line0, col0 := pos, line, col;
      w := ReadWord();
      Restore(pos0, line0, col0);
    }

    /** The quoted texts of SQL and of DPG differ in the quote only. */
    method ReadQuoted(q: char) returns (r: Option<string>)
      requires Valid() && q != 0 as char
      modifies this
      ensures Valid() && drifted == old(drifted) && pos >= old(pos) && (StartsWith(old(Left()), q) ==> pos > old(pos))
      ensures r.None? <==> Quoted(old(Left()), q).None?
      ensures r.Some? ==> Quoted(old(Left()), q) == Some(Read(r.value, Left()))
    {
      if Peek() != q {
        return None;
      }
      ghost var start := Left()[1..];
      var _ := Advance();
      var buf := [];
      QuotedStarts(start, q);
      while !Eof()
        invariant Valid() && drifted == old(drifted) && pos > old(pos)
        invariant QuotedOnward(start, q, buf, Left())
        decreases |src| - pos
      {
        ghost var rest := Left();
        var c := Advance();
        if c == q {
          if Peek() == q {
            QuotedDoubled(start, q, buf, rest);
            buf := buf + [q];
            var _ := Advance();
            assert rest[1..][1..] == rest[2..];
          } else {
            QuotedEnds(start, q, buf, rest);
            return Some(buf);
          }
        } else {
          QuotedPlain(start, q, buf, rest);
          buf := buf + [c];
        }
      }
      return None;
    }

    method ReadIdentifier() returns (r: Option<Identifier>)
      requires Valid()
      modifies this
      ensures Valid() && drifted == old(drifted) && pos >= old(pos)
      ensures r.None? <==> Ident(old(Left())).None?
      ensures r.Some? ==> Ident(old(Left())) == Some(Read(r.value, Left()))
    {
      SkipWS();
      var quoted := Peek() == '"';
      var name;
      name := ReadNamePart();
      if name.None? || (!quoted && name.value == []) {
        return None;
      }
      if Peek() == '.' {
        var _ := Advance();
        SkipWS();
        var second := ReadNamePart();
        if second.None? {
          return None;
        }
        return Some(Identifier(name.value, second.value));
      }
      return Some(Identifier([], name.value));
    }

    method ReadNamePart() returns (r: Option<string>)
      requires Valid()
      modifies this
      ensures Valid() && drifted == old(drifted) && pos >= old(pos)
      ensures r.None? <==> NamePart(old(Left())).None?
      ensures r.Some? ==> NamePart(old(Left())) == Some(Read(r.value, Left()))
    {
      if Peek() == '"' {
        r := ReadQuoted('"');
      } else {
        var w := ReadWord();
        r := Some(w);
      }
    }

    /** Reads raw text up to a stop character at depth 0, outside quoted text and comments. */
    method ReadRawUntil(stops: string) returns (r: Option<string>)
      requires Valid()
      modifies this
      ensures Valid() && drifted == old(drifted) && pos >= old(pos)
      ensures r.None? <==> RawUntil(old(Left()), stops).None?
      ensures r.Some? ==> RawUntil(old(Left()), stops) == Some(Read(r.value, Left()))
    {
      var start := pos;
      var paren: nat, brace: nat := 0, 0;
      while !Eof()
        invariant Valid() && drifted == old(drifted) && pos >= start
        invariant RawEnd(Left(), stops, paren, brace) == RawEnd(old(Left()), stops, 0, 0)
        decreases |src| - pos
      {
        var c := Peek();
        ghost var rest := Left();
        if paren == 0 && brace == 0 && c in stops {
          assert src[start..pos] == old(Left())[..|old(Left())| - |Left()|];
          return Some(src[start..pos]);
        }
        if c == '(' {
          paren := paren + 1;
          var _ := Advance();
        } else if c == ')' {
          paren := if paren > 0 then paren - 1 else 0;
          var _ := Advance();
        } else if c == '{' {
          brace := brace + 1;
          var _ := Advance();
        } else if c == '}' {
          if brace == 0 {
            assert src[start..pos] == old(Left())[..|old(Left())| - |Left()|];
            return Some(src[start..pos]);
          }
          brace := brace - 1;
          var _ := Advance();
        } else {
          var ok := SkipRawItem(c);
          if !ok {
            return None;
          }
        }
      }
      assert src[start..pos] == old(Left())[..|old(Left())| - |Left()|];
      return Some(src[start..pos]);
    }

    /** A quoted text, a comment or one other character of raw text. */
    method SkipRawItem(c: char) returns (ok: bool)
      requires Valid() && Left() != [] && c == Left()[0] && c !in "(){}"
      modifies this
      ensures Valid() && drifted == old(drifted) && pos > old(pos)
      ensures c == '\'' ==> (ok <==> QuotedTail(old(Left())[1..], '\'').Some?)
      ensures c == '\'' && ok ==> Left() == QuotedTail(old(Left())[1..], '\'').value.rest
      ensures c != '\'' ==> ok
      ensures StartsWithTwo(old(Left()), '-', '-') ==> Left() == SkipLine(old(Left())[2..])
      ensures StartsWithTwo(old(Left()), '/', '*') ==> Left() == SkipComment(old(Left())[2..])
      ensures c != '\'' && !StartsWithTwo(old(Left()), '-', '-') && !StartsWithTwo(old(Left()), '/', '*') ==>
        Left() == old(Left())[1..]
    {
      ok := true;
      ghost var rest := Left();
      if c == '\'' {
        var quoted := ReadQuoted('\'');
        ok := quoted.Some?;
      } else if c == '-' && PeekAt(1) == '-' {
        SkipDashes();
      } else if c == '/' && PeekAt(1) == '*' {
        var _ := Advance();
        var _ := Advance();
        assert rest[1..][1..] == rest[2..];
        SkipToCommentEnd();
        assert |Left()| < |rest|;
      } else {
        var _ := Advance();
      }
    }

    method Expect(word: string) returns (ok: bool)
      requires Valid()
      modifies this
      ensures Valid() && drifted == old(drifted) && pos >= old(pos)
      ensures ok <==> SameFold(Word(SkipBlank(old(Left()))), word)
      ensures Left() == AfterWord(SkipBlank(old(Left())))
    {
      SkipWS();
      var got := ReadWord();
      ok := SameFold(got, word);
    }

    /** Reads the given punctuation mark, after white space. */
    method ExpectMark(c: char) returns (ok: bool)
      requires Valid() && c != 0 as char
      modifies this
      ensures Valid() && drifted == old(drifted) && pos >= old(pos)
      ensures ok <==> StartsWith(SkipBlank(old(Left())), c)
      ensures ok ==> Left() == SkipBlank(old(Left()))[1..]
    {
      SkipWS();
      ok := Peek() == c;
      if ok {
        var _ := Advance();
      }
    }
  }

  /** The quoted text starting at start reads as buf followed by what is left. */
  ghost predicate QuotedOnward(start: string, q: char, buf: string, left: string) {
    match QuotedTail(left, q)
    case None => QuotedTail(start, q).None?
    case Some(tail) => QuotedTail(start, q) == Some(Read(buf + tail.value, tail.rest))
  }

  lemma WordGoesOn(whole: string, w: string, left: string)
    requires whole == w + Word(left) && left != [] && IsWordChar(left[0])
    ensures whole == w + [left[0]] + Word(left[1..])
  {
  }

  lemma WordEnds(whole: string, w: string, left: string)
    requires whole == w + Word(left) && (left != [] ==> !IsWordChar(left[0]))
    ensures whole == w
  {
  }

  lemma QuotedStarts(start: string, q: char)
    ensures QuotedOnward(start, q, [], start)
  {
    if QuotedTail(start, q).Some? {
      assert [] + QuotedTail(start, q).value.value == QuotedTail(start, q).value.value;
    }
  }

  lemma QuotedPlain(start: string, q: char, buf: string, left: string)
    requires QuotedOnward(start, q, buf, left) && left != [] && left[0] != q
    ensures QuotedOnward(start, q, buf + [left[0]], left[1..])
  {
    if QuotedTail(left, q).Some? {
      var tail := QuotedTail(left[1..], q).value;
      assert buf + ([left[0]] + tail.value) == buf + [left[0]] + tail.value;
    }
  }

  lemma QuotedDoubled(start: string, q: char, buf: string, left: string)
    requires QuotedOnward(start, q, buf, left) && StartsWithTwo(left, q, q)
    ensures QuotedOnward(start, q, buf + [q], left[2..])
  {
    if QuotedTail(left, q).Some? {
      var tail := QuotedTail(left[2..], q).value;
      assert buf + ([q] + tail.value) == buf + [q] + tail.value;
    }
  }

  lemma QuotedEnds(start: string, q: char, buf: string, left: string)
    requires QuotedOnward(start, q, buf, left) && StartsWith(left, q) && !StartsWithTwo(left, q, q)
    ensures QuotedTail(start, q) == Some(Read(buf, left[1..]))
  {
    assert buf + [] == buf;
  }
}

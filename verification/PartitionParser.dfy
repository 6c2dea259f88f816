/** The block parser's methods for partition entries. Each reads what the
    grammar says from the text that is left, and leaves the rest. */
module PartitionParser {
  import opened Text
  import opened Scanner
  import opened BlockCursor
  import opened PartitionGrammar

  /** A result and the text left, against what the grammar reads. */
  ghost predicate Gives<T>(spec: Option<Read<T>>, r: Option<T>, left: string) {
    if r.None? then spec.None? else spec == Some(Read(r.value, left))
  }

  // ----- constraints

  method ParseTrailingComment(b: BlockParser) returns (r: Option<Option<string>>)
    requires b.Valid()
    modifies b
    ensures b.Valid() && b.drifted == old(b.drifted) &&
      b.pos >= old(b.pos) && Gives(CommentBlock(old(b.Left())), r, b.Left())
  {
    b.SkipWS();
    if b.Peek() == '{' {
      var _ := b.Advance();
      b.SkipWS();
      var word := b.ReadWord();
      if !SameFold(word, "COMMENT") {
        return None;
      }
      b.SkipWS();
      var text := b.ReadQuoted('\'');
      if text.None? {
        return None;
      }
      var semi := b.ExpectMark(';');
      if !semi {
        return None;
      }
      var brace := b.ExpectMark('}');
      if !brace {
        return None;
      }
      return Some(Some(text.value));
    }
    if b.Peek() == ';' {
      var _ := b.Advance();
    }
    return Some(None);
  }

  method ParseConstraint(b: BlockParser) returns (r: Option<ConstraintDef>)
    requires b.Valid()
    modifies b
    ensures b.Valid() && b.drifted == old(b.drifted) &&
      b.pos >= old(b.pos) && Gives(Constraint(old(b.Left())), r, b.Left())
  {
    var name := b.ReadIdentifier();
    if name.None? {
      return None;
    }
    var raw := b.ReadRawUntil(";{");
    if raw.None? {
      return None;
    }
    var comment := ParseTrailingComment(b);
    if comment.None? {
      return None;
    }
    return Some(SplitConstraint(name.value, raw.value, comment.value));
  }

  /** A list read so far, in front of what is read from the text that is left. */
  ghost predicate ListOnward<T>(whole: Option<Read<seq<T>>>, acc: seq<T>, onward: Option<Read<seq<T>>>) {
    match onward
    case None => whole.None?
    case Some(more) => whole == Some(Read(acc + more.value, more.rest))
  }

  lemma ListStarts<T>(whole: Option<Read<seq<T>>>)
    ensures ListOnward(whole, [], whole)
  {
    if whole.Some? {
      assert [] + whole.value.value == whole.value.value;
    }
  }

  lemma ListNext<T>(whole: Option<Read<seq<T>>>, acc: seq<T>, x: T, onward: Option<Read<seq<T>>>,
                    later: Option<Read<seq<T>>>)
    requires ListOnward(whole, acc, onward)
    requires onward == if later.None? then None else Some(Read([x] + later.value.value, later.value.rest))
    ensures ListOnward(whole, acc + [x], later)
  {
    if later.Some? {
      assert acc + ([x] + later.value.value) == acc + [x] + later.value.value;
    }
  }

  lemma ListEnds<T>(whole: Option<Read<seq<T>>>, acc: seq<T>, rest: string)
    requires ListOnward(whole, acc, Some(Read([], rest)))
    ensures whole == Some(Read(acc, rest))
  {
    assert acc + [] == acc;
  }

  method ParseConstraintsBlock(b: BlockParser) returns (r: Option<seq<ConstraintDef>>)
    requires b.Valid()
    modifies b
    ensures b.Valid() && b.drifted == old(b.drifted) &&
      b.pos >= old(b.pos) && Gives(ConstraintsBlock(old(b.Left())), r, b.Left())
  {
    var brace := b.ExpectMark('{');
    if !brace {
      return None;
    }
    var list := [];
    ghost var whole := ConstraintList(b.Left());
    ListStarts(whole);
    while true
      invariant b.Valid() && b.drifted == old(b.drifted) && b.pos >= old(b.pos)
      invariant ListOnward(whole, list, ConstraintList(b.Left()))
      decreases |b.Left()|
    {
      ghost var before := b.Left();
      b.SkipWS();
      if b.Eof() || b.Peek() == '}' {
        ListEnds(whole, list, b.Left());
        break;
      }
      ghost var s1 := b.Left();
      var c := ParseConstraint(b);
      if c.None? {
        return None;
      }
      ListNext(whole, list, c.value, ConstraintList(before), ConstraintList(b.Left()));
      list := list + [c.value];
    }
    if b.Peek() != '}' {
      return None;
    }
    var _ := b.Advance();
    return Some(list);
  }

  // ----- the clauses of an entry

  method FindTopLevelWord(b: BlockParser, word: string) returns (at: int)
    requires b.Valid()
    modifies b
    ensures b.Valid()
    ensures at < 0 <==> FindWord(old(b.Left()), word, 0).None?
    ensures at >= 0 ==> at <= |b.src| && FindWord(old(b.Left()), word, 0) == Some(b.src[at..])
  {
    var depth: nat := 0;
    while !b.Eof()
      invariant b.Valid() && FindWord(b.Left(), word, depth) == FindWord(old(b.Left()), word, 0)
      decreases |b.Left()|
    {
      var c := b.Peek();
      if c == '(' {
        depth := depth + 1;
        var _ := b.Advance();
      } else if c == ')' {
        depth := if depth > 0 then depth - 1 else 0;
        var _ := b.Advance();
      } else if c == '\'' {
        var quoted := b.ReadQuoted('\'');
        if quoted.None? {
          return -1;
        }
      } else if depth == 0 && IsWordStart(c) {
        var start := b.pos;
        var w := b.ReadWord();
        assert w != [];
        if SameFold(w, word) {
          return start;
        }
      } else {
        var _ := b.Advance();
      }
    }
    return -1;
  }

  /** The pairs of an OPTIONS list, after its opening parenthesis. */
  method ParseOptionList(b: BlockParser) returns (r: Option<seq<StorageParam>>)
    requires b.Valid()
    modifies b
    ensures b.Valid() && Gives(OptionList(SkipBlank(old(b.Left()))), r, b.Left())
  {
    b.SkipWS();
    var list := [];
    ghost var whole := OptionList(b.Left());
    ListStarts(whole);
    while b.Peek() != ')'
      invariant b.Valid() && ListOnward(whole, list, OptionList(b.Left()))
      decreases |b.Left()|
    {
      ghost var before := b.Left();
      var key := b.ReadIdentifier();
      if key.None? {
        return None;
      }
      b.SkipWS();
      var value := b.ReadQuoted('\'');
      if value.None? {
        return None;
      }
      var param := StorageParam(key.value.name, value.value);
      b.SkipWS();
      if b.Peek() == ',' {
        var _ := b.Advance();
        b.SkipWS();
      } else if b.Peek() != ')' {
        return None;
      } else {
        assert [param] + [] == [param];
      }
      ListNext(whole, list, param, OptionList(before), OptionList(b.Left()));
      list := list + [param];
    }
    ListEnds(whole, list, b.Left()[1..]);
    var _ := b.Advance();
    return Some(list);
  }

  /** A foreign partition's server and options, read by a parser of their own
      over the captured text. Its line and column are let drift. */
  method ParseForeignServerClause(raw: string, line: int, col: int) returns (r: Option<ServerClause>)
    ensures r == SplitServer(raw)
  {
    var fp := new BlockParser(raw, line, col);
    var at := FindTopLevelWord(fp, "SERVER");
    if at < 0 {
      return None;
    }
    fp.JumpTo(at);
    var tail := ParseServerTail(fp);
    if tail.None? {
      return None;
    }
    assert raw[..at] == raw[..|raw| - |raw[at..]|];
    return Some(ServerClause(raw[..at], tail.value.0, tail.value.1));
  }

  method ParseServerTail(b: BlockParser) returns (r: Option<(Identifier, seq<StorageParam>)>)
    requires b.Valid()
    modifies b
    ensures r == ServerTail(old(b.Left()))
  {
    var expected := b.Expect("SERVER");
    if !expected {
      return None;
    }
    var server := b.ReadIdentifier();
    if server.None? {
      return None;
    }
    var options := ParseOptionsClause(b);
    if options.None? {
      return None;
    }
    b.SkipWS();
    if !b.Eof() {
      return None;
    }
    return Some((server.value, options.value));
  }

  method ParseOptionsClause(b: BlockParser) returns (r: Option<seq<StorageParam>>)
    requires b.Valid()
    modifies b
    ensures b.Valid() && Gives(OptionsClause(old(b.Left())), r, b.Left())
  {
    b.SkipWS();
    var word := b.PeekWord();
    if !SameFold(word, "OPTIONS") {
      return Some([]);
    }
    var _ := b.ReadWord();
    var paren := b.ExpectMark('(');
    if !paren {
      return None;
    }
    r := ParseOptionList(b);
  }

  method SplitAtTopLevel(s: string, sep: char) returns (parts: seq<string>)
    ensures parts == SplitTopLevel(s, sep, 0, [])
  {
    parts := [];
    var cur := [];
    var depth: int := 0;
    for i := 0 to |s|
      invariant parts + SplitTopLevel(s[i..], sep, depth, cur) == SplitTopLevel(s, sep, 0, [])
    {
      assert s[i..][1..] == s[i + 1..];
      var c := s[i];
      if c == '(' {
        depth, cur := depth + 1, cur + [c];
      } else if c == ')' {
        depth, cur := depth - 1, cur + [c];
      } else if c == sep && depth == 0 {
        assert parts + ([cur] + SplitTopLevel(s[i + 1..], sep, depth, [])) ==
          parts + [cur] + SplitTopLevel(s[i + 1..], sep, depth, []);
        parts, cur := parts + [cur], [];
      } else {
        cur := cur + [c];
      }
    }
    assert s[|s|..] == [];
    parts := parts + [cur];
  }

  method TrimmedColumns(pieces: seq<string>) returns (cols: seq<string>)
    ensures cols == NonBlank(pieces)
  {
    cols := [];
    for i := 0 to |pieces|
      invariant cols + NonBlank(pieces[i..]) == NonBlank(pieces)
    {
      var c := TrimSpace(pieces[i]);
      NonBlankNext(pieces, i);
      if c != [] {
        assert cols + ([c] + NonBlank(pieces[i + 1..])) == cols + [c] + NonBlank(pieces[i + 1..]);
        cols := cols + [c];
      }
    }
    assert pieces[|pieces|..] == [];
  }

  lemma NonBlankNext(pieces: seq<string>, i: nat)
    requires i < |pieces|
    ensures var c := TrimSpace(pieces[i]);
      NonBlank(pieces[i..]) == if c == [] then NonBlank(pieces[i + 1..]) else [c] + NonBlank(pieces[i + 1..])
  {
    assert pieces[i..][1..] == pieces[i + 1..];
    assert [] + NonBlank(pieces[i + 1..]) == NonBlank(pieces[i + 1..]);
  }

  /** What the raw text after a partition's name says. */
  method ParseBound(name: Identifier, raw: string, foreign: bool, line: int, col: int) returns (r: Option<Bound>)
    ensures r == BoundOf(name, raw, foreign)
  {
    var boundsText, renamedFrom := raw, None;
    var strategy, columns := [], [];
    var sub := FindSubClause(raw, false);
    if sub.Some? {
      boundsText := sub.value.before;
      strategy := sub.value.clause.strategy;
      var pieces := SplitAtTopLevel(sub.value.clause.columns, ',');
      columns := TrimmedColumns(pieces);
    }
    var renamed := FindRename(boundsText, false);
    if renamed.Some? {
      renamedFrom, boundsText := Some(renamed.value.clause), renamed.value.before;
    }
    if foreign {
      if sub.Some? {
        return None;
      }
      var clause := ParseForeignServerClause(boundsText, line, col);
      if clause.None? {
        return None;
      }
      return Some(Bound(name, None, TrimSpace(clause.value.bounds), renamedFrom, Some(clause.value.server),
                        clause.value.options, [], [], [], []));
    }
    return Some(Bound(name, None, TrimSpace(boundsText), renamedFrom, None, [], strategy, columns, [], []));
  }

  // ----- entries and blocks

  method SkipSemi(b: BlockParser)
    requires b.Valid()
    modifies b
    ensures b.Valid() && b.drifted == old(b.drifted) && b.pos >= old(b.pos) && b.Left() == AfterSemi(old(b.Left()))
  {
    b.SkipWS();
    if b.Peek() == ';' {
      var _ := b.Advance();
    }
  }

  method ParseAttached(b: BlockParser) returns (r: Option<Bound>)
    requires b.Valid()
    modifies b
    ensures b.Valid() && b.drifted == old(b.drifted) &&
      b.pos >= old(b.pos) && Gives(Attached(old(b.Left())), r, b.Left())
  {
    var from := b.Expect("FROM");
    if !from {
      return None;
    }
    var name := b.ReadIdentifier();
    if name.None? {
      return None;
    }
    var raw := b.ReadRawUntil(";{}");
    if raw.None? {
      return None;
    }
    SkipSemi(b);
    return Some(Bound(name.value, Some(name.value), TrimSpace(raw.value), None, None, [], [], [], [], []));
  }

  /** The keywords before the name; without ATTACHED, reading goes back to the name. */
  method ParseOpening(b: BlockParser) returns (foreign: bool, attached: bool)
    requires b.Valid()
    modifies b
    ensures b.Valid() && b.drifted == old(b.drifted) && b.pos >= old(b.pos)
    ensures Open(old(b.Left())) == Opening(foreign, attached, b.Left())
  {
    b.SkipWS();
    var pos0, line0, col0 := b.pos, b.line, b.col;
    var firstWord := b.ReadWord();
    foreign := SameFold(firstWord, "FOREIGN");
    if foreign {
      b.SkipWS();
      pos0, line0, col0 := b.pos, b.line, b.col;
      firstWord := b.ReadWord();
    }
    attached := SameFold(firstWord, "ATTACHED");
    if !attached {
      b.Restore(pos0, line0, col0);
    }
  }

  method ParseOnePartitionBound(b: BlockParser) returns (r: Option<Bound>)
    requires b.Valid()
    modifies b
    ensures b.Valid() && b.drifted == old(b.drifted) && b.pos >= old(b.pos) && Gives(Entry(old(b.Left())), r, b.Left())
    decreases |b.Left()|, 0
  {
    var line, col := b.line, b.col;
    ghost var s := b.Left();
    var foreign, attached := ParseOpening(b);
    if attached {
      if foreign {
        return None;
      }
      r := ParseAttached(b);
      return;
    }
    var name := b.ReadIdentifier();
    if name.None? {
      return None;
    }
    var raw := b.ReadRawUntil(";{}");
    if raw.None? {
      return None;
    }
    var bound := ParseBound(name.value, raw.value, foreign, line, col);
    if bound.None? {
      return None;
    }
    if b.Peek() != '{' {
      if bound.value.subStrategy != [] {
        return None;
      }
      SkipSemi(b);
      return bound;
    }
    var _ := b.Advance();
    var parts := ParsePartitionBlockBody(b, bound.value.subStrategy != []);
    if parts.None? {
      return None;
    }
    SkipSemi(b);
    return Some(bound.value.(subPartitions := parts.value.subs, constraints := parts.value.constraints));
  }

  /** The parts read so far, in front of those read from the text that is left. */
  ghost predicate PartsOnward(whole: Option<Read<Parts>>, acc: Parts, onward: Option<Read<Parts>>) {
    match onward
    case None => whole.None?
    case Some(more) =>
      whole == Some(Read(Parts(acc.subs + more.value.subs, acc.constraints + more.value.constraints), more.rest))
  }

  lemma PartsStart(whole: Option<Read<Parts>>)
    ensures PartsOnward(whole, Parts([], []), whole)
  {
    if whole.Some? {
      assert [] + whole.value.value.subs == whole.value.value.subs;
      assert [] + whole.value.value.constraints == whole.value.value.constraints;
    }
  }

  lemma PartsNext(whole: Option<Read<Parts>>, acc: Parts, subs: seq<Bound>, constraints: seq<ConstraintDef>,
                  onward: Option<Read<Parts>>, later: Option<Read<Parts>>)
    requires PartsOnward(whole, acc, onward)
    requires onward == Prepended(Parts(subs, constraints), later)
    ensures PartsOnward(whole, Parts(acc.subs + subs, acc.constraints + constraints), later)
  {
    if later.Some? {
      var more := later.value.value;
      assert acc.subs + (subs + more.subs) == acc.subs + subs + more.subs;
      assert acc.constraints + (constraints + more.constraints) == acc.constraints + constraints + more.constraints;
    }
  }

  lemma PartsEnd(whole: Option<Read<Parts>>, acc: Parts, rest: string)
    requires PartsOnward(whole, acc, Some(Read(Parts([], []), rest)))
    ensures whole == Some(Read(acc, rest))
  {
    assert acc.subs + [] == acc.subs && acc.constraints + [] == acc.constraints;
  }

  /** The block of an entry, after its opening brace. */
  method ParsePartitionBlockBody(b: BlockParser, allowSubs: bool) returns (r: Option<Parts>)
    requires b.Valid()
    modifies b
    ensures b.Valid() && b.drifted == old(b.drifted) &&
      b.pos >= old(b.pos) && Gives(Body(old(b.Left()), allowSubs), r, b.Left())
    decreases |b.Left()|, 1
  {
    var acc := Parts([], []);
    ghost var whole := Body(b.Left(), allowSubs);
    PartsStart(whole);
    while true
      invariant b.Valid() && b.drifted == old(b.drifted) && b.pos >= old(b.pos)
      invariant |b.Left()| <= |old(b.Left())| && PartsOnward(whole, acc, Body(b.Left(), allowSubs))
      decreases |b.Left()|
    {
      ghost var before := b.Left();
      b.SkipWS();
      if b.Eof() {
        return None;
      }
      if b.Peek() == '}' {
        var _ := b.Advance();
        PartsEnd(whole, acc, b.Left());
        return Some(acc);
      }
      var more := ParseDirective(b, allowSubs);
      if more.None? {
        return None;
      }
      PartsNext(whole, acc, more.value.subs, more.value.constraints, Body(before, allowSubs),
        Body(b.Left(), allowSubs));
      acc := Parts(acc.subs + more.value.subs, acc.constraints + more.value.constraints);
    }
  }

  method ParseDirective(b: BlockParser, allowSubs: bool) returns (r: Option<Parts>)
    requires b.Valid()
    modifies b
    ensures b.Valid() && b.drifted == old(b.drifted) &&
      b.pos >= old(b.pos) && Gives(Directive(old(b.Left()), allowSubs), r, b.Left())
    decreases |b.Left()|, 0
  {
    ghost var s := b.Left();
    var word := b.ReadWord();
    if SameFold(word, "PARTITIONS") {
      if !allowSubs {
        return None;
      }
      assert word != [];
      var subs := ParsePartitionsBlock(b);
      if subs.None? {
        return None;
      }
      return Some(Parts(subs.value, []));
    } else if SameFold(word, "CONSTRAINT") {
      var c := ParseConstraint(b);
      if c.None? {
        return None;
      }
      return Some(Parts([], [c.value]));
    } else if SameFold(word, "CONSTRAINTS") {
      var cs := ParseConstraintsBlock(b);
      if cs.None? {
        return None;
      }
      return Some(Parts([], cs.value));
    }
    return None;
  }

  method ParsePartitionsBlock(b: BlockParser) returns (r: Option<seq<Bound>>)
    requires b.Valid()
    modifies b
    ensures b.Valid() && b.drifted == old(b.drifted) &&
      b.pos >= old(b.pos) && Gives(PartitionsBlock(old(b.Left())), r, b.Left())
    decreases |b.Left()|, 1
  {
    var brace := b.ExpectMark('{');
    if !brace {
      return None;
    }
    var list := [];
    ghost var whole := Entries(b.Left());
    ListStarts(whole);
    while true
      invariant b.Valid() && b.drifted == old(b.drifted) && b.pos >= old(b.pos)
      invariant |b.Left()| < |old(b.Left())| && ListOnward(whole, list, Entries(b.Left()))
      decreases |b.Left()|
    {
      ghost var before := b.Left();
      b.SkipWS();
      if b.Eof() || b.Peek() == '}' {
        ListEnds(whole, list, b.Left());
        break;
      }
      var bound := ParseOnePartitionBound(b);
      if bound.None? {
        return None;
      }
      ListNext(whole, list, bound.value, Entries(before), Entries(b.Left()));
      list := list + [bound.value];
    }
    if b.Peek() != '}' {
      return None;
    }
    var _ := b.Advance();
    return Some(list);
  }
}

/** A foreign partition's server and options come back from what the dump prints. */
module ServerRoundTrip {
  import opened Text
  import opened Scanner
  import opened ScannerFacts
  import opened PartitionGrammar
  import opened PartitionPrinter
  import opened ConstraintRoundTrip
  import opened ClauseRoundTrip

  predicate OptionsOk(opts: seq<StorageParam>) {
    forall i :: 0 <= i < |opts| ==> opts[i].key != [] && AllWord(opts[i].key)
  }

  lemma WordReads(w: string, s: string)
    requires w != [] && AllWord(w) && NameEnds(s)
    ensures Ident(w + s) == Some(Read(Identifier([], w), s)) && Visible(w + s) && (w + s)[0] == w[0]
  {
    ReadsWord(w, s);
    assert (w + s)[0] == w[0];
    SkipsBlanks("", w + s);
    assert "" + (w + s) == w + s;
  }

  lemma ValueReads(v: string, s: string)
    requires !StartsWith(s, '\'')
    ensures Quoted(SkipBlank(" " + (InQuotes(v, '\'') + s)), '\'') == Some(Read(v, s))
  {
    InQuotesReads(v, '\'', s);
    SkipsOne(InQuotes(v, '\'') + s);
  }

  lemma OptionListStep(s: string, key: string, s1: string, value: string, s2: string)
    requires !StartsWith(s, ')') && Ident(s) == Some(Read(Identifier([], key), s1))
    requires Quoted(SkipBlank(s1), '\'') == Some(Read(value, s2))
    ensures StartsWith(SkipBlank(s2), ')') ==>
      OptionList(s) == Some(Read([StorageParam(key, value)], SkipBlank(s2)[1..]))
    ensures StartsWith(SkipBlank(s2), ',') && OptionList(SkipBlank(SkipBlank(s2)[1..])).Some? ==>
      var others := OptionList(SkipBlank(SkipBlank(s2)[1..])).value;
      OptionList(s) == Some(Read([StorageParam(key, value)] + others.value, others.rest))
  {
  }

  function OptionOn(o: StorageParam, s: string): string {
    o.key + (" " + (InQuotes(o.value, '\'') + s))
  }

  lemma OptionHead(o: StorageParam, s: string)
    requires o.key != [] && AllWord(o.key) && (StartsWith(s, ')') || StartsWith(s, ','))
    ensures Visible(OptionOn(o, s))
    ensures StartsWith(s, ')') ==> OptionList(OptionOn(o, s)) == Some(Read([o], s[1..]))
    ensures StartsWith(s, ',') && OptionList(SkipBlank(s[1..])).Some? ==>
      var others := OptionList(SkipBlank(s[1..])).value;
      OptionList(OptionOn(o, s)) == Some(Read([o] + others.value, others.rest))
  {
    var s1 := " " + (InQuotes(o.value, '\'') + s);
    WordReads(o.key, s1);
    ValueReads(o.value, s);
    SkipsBlanks("", s);
    assert "" + s == s;
    OptionListStep(o.key + s1, o.key, s1, o.value, s);
    assert StorageParam(o.key, o.value) == o;
  }

  lemma {:induction false} OptionsRead(opts: seq<StorageParam>, pad: string)
    requires opts != [] && OptionsOk(opts)
    ensures OptionList(OptionsOn(opts, ")" + pad)) == Some(Read(opts, pad))
    ensures Visible(OptionsOn(opts, ")" + pad))
    decreases |opts|
  {
    var end := ")" + pad;
    if |opts| == 1 {
      OptionHead(opts[0], end);
      assert end[1..] == pad && opts == [opts[0]];
    } else {
      OptionsRead(opts[1..], pad);
      var more := OptionsOn(opts[1..], end);
      OptionHead(opts[0], ", " + more);
      SkipsOne(more);
      assert (", " + more)[1..] == " " + more;
      assert opts == [opts[0]] + opts[1..];
    }
  }

  lemma {:induction false} DoubledThrough(v: string, s: string, at: Depth)
    requires Apart(s)
    ensures Through(InQuotes(v, '\'') + s, STOPS, at) == Through(s, STOPS, at)
  {
    var t := InQuotes(v, '\'') + s;
    assert t[1..] == Double(v, '\'') + (['\''] + s);
    DoubledReads(v, '\'', s);
  }

  lemma {:induction false} OptionsThrough(opts: seq<StorageParam>, s: string)
    requires opts != [] && OptionsOk(opts) && Apart(s)
    ensures Through(OptionsOn(opts, s), STOPS, INSIDE) == Through(s, STOPS, INSIDE)
    ensures Apart(OptionsOn(opts, s))
    decreases |opts|
  {
    var o := opts[0];
    var s2 := if |opts| == 1 then s else ", " + OptionsOn(opts[1..], s);
    if |opts| > 1 {
      OptionsThrough(opts[1..], s);
      PlainThen(", ", OptionsOn(opts[1..], s), INSIDE);
    }
    DoubledThrough(o.value, s2, INSIDE);
    PlainThen(" ", InQuotes(o.value, '\'') + s2, INSIDE, true);
    WordsArePlain(o.key);
    PlainThen(o.key, " " + (InQuotes(o.value, '\'') + s2), INSIDE);
    assert OptionsOn(opts, s)[0] == o.key[0];
  }

  /** Plain text changes no depth. */
  lemma PlainThen(t: string, s: string, at: Depth, blank: bool := false)
    requires Plain(t) && (Apart(s) || (blank && t == " "))
    ensures Through(t + s, STOPS, at) == Through(s, STOPS, at)
  {
    if blank && t == " " {
      assert (t + s)[1..] == s;
    } else {
      PlainThrough(t, STOPS, at);
      ThroughThen(t, s, STOPS, at);
    }
  }

  /** What follows the server's name. */
  function MoreOn(opts: seq<StorageParam>, st: Style, rest: string): string {
    if opts == [] then rest
    else " " + (Keyword("OPTIONS", st) + (" (" + OptionsOn(opts, ")" + rest)))
  }

  predicate IsPad(pad: string) {
    pad == "" || pad == " "
  }

  lemma OptionsClauseReads(opts: seq<StorageParam>, st: Style, pad: string)
    requires OptionsOk(opts) && IsPad(pad)
    ensures NameEnds(MoreOn(opts, st, pad))
    ensures OptionsClause(MoreOn(opts, st, pad)).Some?
    ensures OptionsClause(MoreOn(opts, st, pad)).value.value == opts
    ensures SkipBlank(OptionsClause(MoreOn(opts, st, pad)).value.rest) == []
  {
    assert " "[1..] == "";
    if opts == [] {
      assert SkipBlank(pad) == "" && Word("") == "";
    } else {
      OptionsRead(opts, pad);
      OptionsWordReads(OptionsOn(opts, ")" + pad), st);
    }
  }

  lemma OptionsWordReads(list: string, st: Style)
    requires Visible(list)
    ensures OptionsClause(" " + (Keyword("OPTIONS", st) + (" (" + list))) == OptionList(list)
  {
    var s2 := " (" + list;
    var s1 := Keyword("OPTIONS", st) + s2;
    KeywordSolid("OPTIONS", st, s2);
    KeywordReads("OPTIONS", st);
    SkipsOne(s1);
    ReadsWord(Keyword("OPTIONS", st), s2);
    assert s2 == " " + ("(" + list);
    SkipsOne("(" + list);
    assert ("(" + list)[1..] == list;
    SkipsBlanks("", list);
    assert "" + list == list;
    OptionsClauseSteps(" " + s1, s1, "(" + list, list);
  }

  lemma OptionsClauseSteps(s: string, s1: string, s2: string, list: string)
    requires SkipBlank(s) == s1 && SameFold(Word(s1), "OPTIONS") && SkipBlank(AfterWord(s1)) == s2
    requires StartsWith(s2, '(') && SkipBlank(s2[1..]) == list
    ensures OptionsClause(s) == OptionList(list)
  {
  }

  lemma SplitServerSteps(raw: string, before: string, at: string, s1: string, server: Identifier, more: string,
                         opts: seq<StorageParam>)
    requires raw == before + at && FindWord(raw, "SERVER", 0) == Some(at)
    requires SkipBlank(at) == at && SameFold(Word(at), "SERVER") && AfterWord(at) == s1
    requires Ident(s1) == Some(Read(server, more))
    requires OptionsClause(more).Some? &&
      OptionsClause(more).value.value == opts && SkipBlank(OptionsClause(more).value.rest) == []
    ensures SplitServer(raw) == Some(ServerClause(before, server, opts))
  {
    assert ServerTail(at) == Some((server, opts));
    assert raw[..|raw| - |at|] == before;
  }

  lemma ServerFound(bounds: string, at: string)
    requires Without(bounds, "SERVER", 0) == Some(0)
    requires at != [] && IsWordStart(at[0]) && SameFold(Word(at), "SERVER")
    ensures FindWord(" " + bounds + " " + at, "SERVER", 0) == Some(at)
  {
    var s := " " + at;
    assert " " + bounds + " " + at == " " + (bounds + s);
    assert (" " + (bounds + s))[1..] == bounds + s && s[1..] == at;
    FindWordAfter(bounds, s, "SERVER", 0);
    assert Word(at) != [];
  }

  /** The bounds, the server and the options come apart as they were printed. */
  lemma ServerReads(bounds: string, server: string, opts: seq<StorageParam>, st: Style, pad: string)
    requires Without(bounds, "SERVER", 0) == Some(0) && Readable(server, st) && OptionsOk(opts) && IsPad(pad)
    ensures SplitServer(" " + bounds + " " + (Keyword("SERVER", st) + (" " + (QuoteIdent(server, st) + MoreOn(opts, st, pad))))) ==
      Some(ServerClause(" " + bounds + " ", Identifier([], server), opts))
  {
    var more := MoreOn(opts, st, pad);
    var s1 := " " + (QuoteIdent(server, st) + more);
    ServerWordReads(st, s1);
    ServerFound(bounds, Keyword("SERVER", st) + s1);
    OptionsClauseReads(opts, st, pad);
    NameAfterBlank(server, st, more);
    SplitServerSteps(" " + bounds + " " + (Keyword("SERVER", st) + s1), " " + bounds + " ", Keyword("SERVER", st) + s1, s1,
                     Identifier([], server), more, opts);
  }

  lemma ServerWordReads(st: Style, s: string)
    requires NoWordAhead(s)
    ensures var at := Keyword("SERVER", st) + s;
      && SkipBlank(at) == at && SameFold(Word(at), "SERVER") && AfterWord(at) == s && at != [] && IsWordStart(at[0])
  {
    var at := Keyword("SERVER", st) + s;
    KeywordSolid("SERVER", st, s);
    KeywordReads("SERVER", st);
    ReadsWord(Keyword("SERVER", st), s);
    SkipsBlanks("", at);
    assert "" + at == at;
    assert IsWordStart(Keyword("SERVER", st)[0]);
  }
}

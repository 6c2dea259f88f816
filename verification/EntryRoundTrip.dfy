/** The text of a partition entry before its block comes apart as it was printed. */
module EntryRoundTrip {
  import opened Text
  import opened Scanner
  import opened ScannerFacts
  import opened PartitionGrammar
  import opened PartitionPrinter
  import opened ConstraintRoundTrip
  import opened ClauseRoundTrip
  import opened ServerRoundTrip

  // ----- what is read back, and from what

  function HeadBound(p: Partition): Bound {
    Bound(Identifier([], p.name), None, p.bounds, None,
          if p.foreign && p.foreignServer.Some? then Some(Identifier([], p.foreignServer.value)) else None,
          p.foreignOptions,
          if p.partitionBy.Some? then p.partitionBy.value.strategy else [],
          if p.partitionBy.Some? then p.partitionBy.value.columns else [], [], [])
  }

  function AsBound(p: Partition): Bound
    decreases p
  {
    HeadBound(p).(subPartitions := AsBounds(p.partitions), constraints := ConstraintDefsOf(p.constraints))
  }

  function AsBounds(ps: seq<Partition>): seq<Bound>
    decreases ps
  {
    if ps == [] then [] else [AsBound(ps[0])] + AsBounds(ps[1..])
  }

  function ConstraintDefsOf(cs: seq<TableConstraint>): seq<ConstraintDef> {
    if cs == [] then [] else [ConstraintDefOf(cs[0])] + ConstraintDefsOf(cs[1..])
  }

  predicate StyleOk(st: Style) {
    Blanks(st.indent) && "foreign" in st.reserved
  }

  /** The space printed before a block. */
  function Pad(p: Partition): string {
    if HasBody(p) then " " else ""
  }

  function TailText(p: Partition, st: Style): string {
    ServerOn(p, st, PartitionByOn(p, st, Pad(p)))
  }

  /** The text between an entry's name and its block or semicolon. */
  function RawText(p: Partition, st: Style): string {
    " " + (p.bounds + TailText(p, st))
  }

  predicate NoClauseIn(raw: string) {
    FindSubClause(raw, false).None? && FindRename(raw, false).None?
  }

  predicate WellFormedBy(p: Partition, st: Style)
    requires p.partitionBy.Some?
  {
    && IsStrategy(p.partitionBy.value.strategy) && ColumnsOk(p.partitionBy.value.columns)
    && NoneBefore(" " + p.bounds + " ", SubClauseOn(p.partitionBy.value, st, " "), false)
    && FindRename(" " + p.bounds + " ", false).None?
  }

  predicate FitForeign(p: Partition, st: Style) {
    && p.partitionBy.None? && p.partitions == [] && NoClauseIn(RawText(p, st))
    && Without(p.bounds, "SERVER", 0) == Some(0) && p.foreignServer.Some?
    && Through(QuoteIdent(p.foreignServer.value, st), STOPS, TOP) == Some(TOP)
    && OptionsOk(p.foreignOptions)
  }

  /** A name that is printed bare is one word of the parser, and not its keyword. */
  predicate GoodName(n: string, st: Style) {
    Readable(n, st) && (PrintedBare(n, st) ==> n != "attached")
  }

  /** The names in front of an entry's block: its own and its server's. */
  predicate HeadNamed(p: Partition, st: Style) {
    GoodName(p.name, st) && (p.foreignServer.Some? ==> Readable(p.foreignServer.value, st))
  }

  predicate WellFormedHead(p: Partition, st: Style) {
    HeadNamed(p, st) && FitHead(p, st)
  }

  /** What is asked of an entry apart from these names. */
  predicate FitHead(p: Partition, st: Style) {
    && Trimmed(p.bounds) && Through(p.bounds, STOPS, TOP) == Some(TOP)
    && if p.foreign then FitForeign(p, st)
       else
         && p.foreignServer.None? && p.foreignOptions == []
         && if p.partitionBy.Some? then WellFormedBy(p, st) else p.partitions == [] && NoClauseIn(RawText(p, st))
  }

  predicate WellFormedConstraints(cs: seq<TableConstraint>, st: Style) {
    forall i :: 0 <= i < |cs| ==> WellFormedConstraint(cs[i], st)
  }

  predicate WellFormed(p: Partition, st: Style)
    decreases p
  {
    WellFormedHead(p, st) && WellFormedConstraints(p.constraints, st) && WellFormedAll(p.partitions, st)
  }

  predicate WellFormedAll(ps: seq<Partition>, st: Style)
    decreases ps
  {
    ps == [] || (WellFormed(ps[0], st) && WellFormedAll(ps[1..], st))
  }

  // ----- bounds that mention no clause

  /** A text that nowhere says PARTITION or RENAMED has neither clause. */
  lemma {:induction false} UnmentionedHasNoClause(s: string, afterWord: bool)
    ensures !Mentions(s, "PARTITION") ==> FindSubClause(s, afterWord).None?
    ensures !Mentions(s, "RENAMED") ==> FindRename(s, afterWord).None?
    decreases |s|
  {
    if s != [] {
      UnmentionedHasNoClause(s[1..], IsWordChar(s[0]));
      if Mentions(s[1..], "PARTITION") {
        MentionsLater(s, "PARTITION");
      }
      if Mentions(s[1..], "RENAMED") {
        MentionsLater(s, "RENAMED");
      }
    }
    assert TakeFold(s, "PARTITION").Some? ==> FoldAt(s, 0, "PARTITION") by { assert |s| >= 9 ==> s[0..9] == s[..9]; }
    assert TakeFold(s, "RENAMED").Some? ==> FoldAt(s, 0, "RENAMED") by { assert |s| >= 7 ==> s[0..7] == s[..7]; }
  }

  lemma InsideSlice(bounds: string, pad: string, i: nat, n: nat)
    requires 1 <= i && i + n <= 1 + |bounds|
    ensures (" " + bounds + pad)[i..i + n] == bounds[i - 1..i - 1 + n]
  {
  }

  /** Spaces around the bounds mention nothing new. */
  lemma PaddedUnmentioned(bounds: string, pad: string, word: string)
    requires word == "PARTITION" || word == "RENAMED"
    requires IsPad(pad) && !Mentions(bounds, word)
    ensures !Mentions(" " + bounds + pad, word)
  {
    var s := " " + bounds + pad;
    forall i: nat | i <= |s| ensures !FoldAt(s, i, word) {
      if i + |word| <= |s| {
        NotASpace(s, i, word);
        if 1 <= i && i + |word| <= 1 + |bounds| {
          InsideSlice(bounds, pad, i, |word|);
          assert !FoldAt(bounds, i - 1, word);
        }
      }
    }
  }

  lemma NotASpace(s: string, i: nat, word: string)
    requires i + |word| <= |s| && (word == "PARTITION" || word == "RENAMED")
    ensures (s[i] == ' ' || s[i + |word| - 1] == ' ') ==> !FoldAt(s, i, word)
  {
    var t := s[i..i + |word|];
    assert t[0] == s[i] && t[|word| - 1] == s[i + |word| - 1];
    assert ToUpper(t)[0] == UpperChar(t[0]) && ToUpper(t)[|word| - 1] == UpperChar(t[|word| - 1]);
    assert ToUpper(word) == word;
  }

  /** It is enough that the bounds nowhere say PARTITION or RENAMED, besides
      being closed and trimmed. */
  lemma UnmentionedIsFit(p: Partition, st: Style)
    requires !p.foreign && p.foreignServer.None? && p.foreignOptions == []
    requires Trimmed(p.bounds) && Through(p.bounds, STOPS, TOP) == Some(TOP)
    requires !Mentions(p.bounds, "PARTITION") && !Mentions(p.bounds, "RENAMED")
    requires if p.partitionBy.None? then p.partitions == []
             else IsStrategy(p.partitionBy.value.strategy) && ColumnsOk(p.partitionBy.value.columns)
    ensures FitHead(p, st)
  {
    var pad := if p.partitionBy.None? then Pad(p) else " ";
    PaddedUnmentioned(p.bounds, pad, "PARTITION");
    PaddedUnmentioned(p.bounds, pad, "RENAMED");
    UnmentionedHasNoClause(" " + p.bounds + pad, false);
    if p.partitionBy.None? {
      assert RawText(p, st) == " " + p.bounds + pad;
    } else {
      UnmentionedMeansNone(" " + p.bounds + " ", SubClauseOn(p.partitionBy.value, st, " "), false);
    }
  }

  // ----- the raw text of an entry

  lemma {:induction false} OptionsConcat(opts: seq<StorageParam>, a: string, b: string)
    requires opts != []
    ensures OptionsOn(opts, a + b) == OptionsOn(opts, a) + b
    decreases |opts|
  {
    var head := opts[0].key + (" " + InQuotes(opts[0].value, '\''));
    if |opts| == 1 {
      Assoc(head, a, b);
    } else {
      OptionsConcat(opts[1..], a, b);
      Assoc(", ", OptionsOn(opts[1..], a), b);
      Assoc(head, ", " + OptionsOn(opts[1..], a), b);
    }
  }

  lemma MoreConcat(opts: seq<StorageParam>, st: Style, a: string, b: string)
    ensures MoreOn(opts, st, a + b) == MoreOn(opts, st, a) + b
  {
    if opts != [] {
      OptionsConcat(opts, ")" + a, b);
      assert ")" + (a + b) == ")" + a + b;
      var k, list := Keyword("OPTIONS", st), OptionsOn(opts, ")" + a);
      assert " " + (k + (" (" + (list + b))) == " " + (k + (" (" + list)) + b;
    }
  }

  lemma SubClauseConcat(spec: PartitionSpec, st: Style, a: string, b: string)
    ensures SubClauseOn(spec, st, a + b) == SubClauseOn(spec, st, a) + b
  {
    var head := Keyword("PARTITION", st) + " " + Keyword("BY", st) + " " + Keyword(spec.strategy, st)
      + " (" + Join(spec.columns, ", ") + ")";
    assert SubClauseOn(spec, st, a + b) == head + (a + b);
    assert SubClauseOn(spec, st, a) == head + a;
  }

  lemma TailConcat(p: Partition, st: Style, k: string)
    requires !p.foreign || (p.partitionBy.None? && p.foreignServer.Some?)
    ensures ServerOn(p, st, PartitionByOn(p, st, Pad(p) + k)) == TailText(p, st) + k
  {
    if p.foreign {
      var name, server := QuoteIdent(p.foreignServer.value, st), Keyword("SERVER", st);
      MoreConcat(p.foreignOptions, st, Pad(p), k);
      var more := MoreOn(p.foreignOptions, st, Pad(p));
      assert " " + (server + (" " + (name + (more + k)))) == " " + (server + (" " + (name + more))) + k;
    } else if p.partitionBy.Some? {
      SubClauseConcat(p.partitionBy.value, st, Pad(p), k);
      var clause := SubClauseOn(p.partitionBy.value, st, Pad(p));
      assert " " + (clause + k) == " " + clause + k;
    }
  }

  lemma PadThrough(pad: string)
    requires IsPad(pad)
    ensures Through(pad, STOPS, TOP) == Some(TOP) && Apart(pad) && Through(")" + pad, STOPS, INSIDE) == Some(TOP)
  {
    assert (")" + pad)[1..] == pad;
    assert " "[1..] == "";
  }

  lemma OpenParen(s: string)
    ensures Through(" (" + s, STOPS, TOP) == Through(s, STOPS, INSIDE)
  {
    assert (" (" + s)[1..] == "(" + s && ("(" + s)[1..] == s;
  }

  lemma KeywordThrough(k: string, st: Style, s: string)
    requires AllWord(k) && k != [] && Apart(s)
    ensures Through(Keyword(k, st) + s, STOPS, TOP) == Through(s, STOPS, TOP)
    ensures Through(" " + (Keyword(k, st) + s), STOPS, TOP) == Through(s, STOPS, TOP)
    ensures Apart(Keyword(k, st) + s)
  {
    KeywordReads(k, st);
    KeywordSolid(k, st, s);
    WordsArePlain(Keyword(k, st));
    PlainThen(Keyword(k, st), s, TOP);
    PlainThen(" ", Keyword(k, st) + s, TOP);
  }

  lemma ByThrough(spec: PartitionSpec, st: Style, pad: string)
    requires IsStrategy(spec.strategy) && ColumnsOk(spec.columns) && IsPad(pad)
    ensures Through(" " + SubClauseOn(spec, st, pad), STOPS, TOP) == Some(TOP)
  {
    var cols := Join(spec.columns, ", ");
    JoinThrough(spec.columns);
    PadThrough(pad);
    ThroughThen(cols, ")" + pad, STOPS, INSIDE);
    var s5 := cols + (")" + pad);
    OpenParen(s5);
    KeywordThrough(spec.strategy, st, " (" + s5);
    KeywordThrough("BY", st, " " + (Keyword(spec.strategy, st) + (" (" + s5)));
    KeywordThrough("PARTITION", st, " " + (Keyword("BY", st) + (" " + (Keyword(spec.strategy, st) + (" (" + s5)))));
  }

  lemma MoreThrough(opts: seq<StorageParam>, st: Style, pad: string)
    requires OptionsOk(opts) && IsPad(pad)
    ensures Through(MoreOn(opts, st, pad), STOPS, TOP) == Some(TOP) && Apart(MoreOn(opts, st, pad))
  {
    PadThrough(pad);
    if opts != [] {
      OptionsThrough(opts, ")" + pad);
      OpenParen(OptionsOn(opts, ")" + pad));
      KeywordThrough("OPTIONS", st, " (" + OptionsOn(opts, ")" + pad));
    }
  }

  lemma ServerThrough(n: string, st: Style, more: string)
    requires Through(QuoteIdent(n, st), STOPS, TOP) == Some(TOP) &&
      Through(more, STOPS, TOP) == Some(TOP) && Apart(more)
    ensures Through(" " + (Keyword("SERVER", st) + (" " + (QuoteIdent(n, st) + more))), STOPS, TOP) == Some(TOP)
  {
    var name := QuoteIdent(n, st);
    NameVisible(n, st, more);
    ThroughThen(name, more, STOPS, TOP);
    PlainThen(" ", name + more, TOP);
    KeywordThrough("SERVER", st, " " + (name + more));
  }

  lemma TailThrough(p: Partition, st: Style)
    requires FitHead(p, st)
    ensures Through(TailText(p, st), STOPS, TOP) == Some(TOP) && Apart(TailText(p, st))
  {
    PadThrough(Pad(p));
    if p.foreign {
      MoreThrough(p.foreignOptions, st, Pad(p));
      ServerThrough(p.foreignServer.value, st, MoreOn(p.foreignOptions, st, Pad(p)));
    } else if p.partitionBy.Some? {
      ByThrough(p.partitionBy.value, st, Pad(p));
    }
  }

  lemma RawOfThrough(text: string, end: string)
    requires Through(text, STOPS, TOP) == Some(TOP) && end != [] && end[0] in STOPS
    ensures RawUntil(" " + (text + end), STOPS) == Some(Read(" " + text, end))
  {
    RawEndAfter(text, end, STOPS, TOP);
    FrontAndRest(" ", text + end);
    Assoc(" ", text, end);
    RawRead(" " + text, end, STOPS);
  }

  lemma RawReads(p: Partition, st: Style, end: string)
    requires FitHead(p, st) && end != [] && end[0] in STOPS
    ensures RawUntil(" " + (p.bounds + ServerOn(p, st, PartitionByOn(p, st, Pad(p) + end))), STOPS) ==
      Some(Read(RawText(p, st), end))
  {
    TailThrough(p, st);
    ThroughThen(p.bounds, TailText(p, st), STOPS, TOP);
    TailConcat(p, st, end);
    assert p.bounds + (TailText(p, st) + end) == p.bounds + TailText(p, st) + end;
    RawOfThrough(p.bounds + TailText(p, st), end);
  }

  // ----- the clauses of an entry

  lemma BoundsTrimmed(bounds: string, pad: string)
    requires Trimmed(bounds) && IsPad(pad)
    ensures TrimSpace(" " + bounds + pad) == bounds
  {
    if bounds == [] {
      assert " " + bounds + pad == " " + pad;
      TrimLeftSkips(" " + pad, "");
      assert " " + pad + "" == " " + pad;
    } else {
      TrimSpaceAround(" ", bounds, pad);
    }
  }

  lemma PlainBound(name: Identifier, raw: string, bounds: string)
    requires NoClauseIn(raw) && TrimSpace(raw) == bounds
    ensures BoundOf(name, raw, false) == Some(Bound(name, None, bounds, None, None, [], [], [], [], []))
  {
  }

  lemma ForeignBound(name: Identifier, raw: string, bounds: string, text: string, server: Identifier,
                     opts: seq<StorageParam>)
    requires NoClauseIn(raw) && SplitServer(raw) == Some(ServerClause(text, server, opts)) && TrimSpace(text) == bounds
    ensures BoundOf(name, raw, true) == Some(Bound(name, None, bounds, None, Some(server), opts, [], [], [], []))
  {
  }

  lemma ByBound(name: Identifier, raw: string, bounds: string, text: string, strategy: string, columns: string,
                cols: seq<string>)
    requires FindSubClause(raw, false) == Some(Found(text, SubClause(strategy, columns))) &&
      FindRename(text, false).None?
    requires TrimSpace(text) == bounds && NonBlank(SplitTopLevel(columns, ',', 0, [])) == cols
    ensures BoundOf(name, raw, false) == Some(Bound(name, None, bounds, None, None, [], strategy, cols, [], []))
  {
  }

  lemma BoundReads(p: Partition, st: Style)
    requires WellFormedHead(p, st)
    ensures BoundOf(Identifier([], p.name), RawText(p, st), p.foreign) == Some(HeadBound(p))
  {
    var name, raw := Identifier([], p.name), RawText(p, st);
    if p.foreign {
      ForeignReads(p, st);
    } else if p.partitionBy.Some? {
      ByReads(p, st);
    } else {
      BoundsTrimmed(p.bounds, Pad(p));
      assert raw == " " + p.bounds + Pad(p);
      PlainBound(name, raw, p.bounds);
    }
  }

  lemma ForeignReads(p: Partition, st: Style)
    requires p.foreign && FitForeign(p, st) && Trimmed(p.bounds) && Readable(p.foreignServer.value, st)
    ensures BoundOf(Identifier([], p.name), RawText(p, st), true) == Some(HeadBound(p))
  {
    var server, opts := p.foreignServer.value, p.foreignOptions;
    var at := Keyword("SERVER", st) + (" " + (QuoteIdent(server, st) + MoreOn(opts, st, Pad(p))));
    Assoc4(" ", p.bounds, " ", at);
    BoundsTrimmed(p.bounds, " ");
    ServerReads(p.bounds, server, opts, st, Pad(p));
    ForeignBound(Identifier([], p.name), RawText(p, st), p.bounds, " " + p.bounds + " ", Identifier([], server), opts);
  }

  lemma ByReads(p: Partition, st: Style)
    requires !p.foreign && p.partitionBy.Some? && WellFormedHead(p, st)
    ensures BoundOf(Identifier([], p.name), RawText(p, st), false) == Some(HeadBound(p))
  {
    var spec, raw, text := p.partitionBy.value, RawText(p, st), " " + p.bounds + " ";
    var clause := SubClauseOn(spec, st, " ");
    Assoc4(" ", p.bounds, " ", clause);
    JoinThrough(spec.columns);
    assert SkipRegexSpace(" ") == [] by { assert " "[1..] == ""; }
    SubClauseReads(spec, st, " ");
    FoundThere(text, clause, false);
    BoundsTrimmed(p.bounds, " ");
    ColumnsBack(spec.columns);
    ByBound(Identifier([], p.name), raw, p.bounds, text, spec.strategy, Join(spec.columns, ", "), spec.columns);
  }

  // ----- the words before the name

  lemma BareIsNoKeyword(n: string, st: Style, k: string)
    requires PrintedBare(n, st) && n != ToLower(k)
    ensures !SameFold(n, k)
  {
    if SameFold(n, k) {
      assert |n| == |k|;
      forall i | 0 <= i < |n| ensures n[i] == ToLower(k)[i] {
        assert ToUpper(n)[i] == ToUpper(k)[i];
      }
    }
  }

  lemma NameNoKeyword(p: Partition, st: Style, s: string)
    requires GoodName(p.name, st) && StyleOk(st)
    ensures var t := QuoteIdent(p.name, st) + (" " + s);
      !SameFold(Word(t), "FOREIGN") && !SameFold(Word(t), "ATTACHED") && Visible(t)
  {
    NameVisible(p.name, st, " " + s);
    if PrintedBare(p.name, st) {
      BareWord(p.name, st, s);
    } else {
      NotFold("FOREIGN");
      NotFold("ATTACHED");
      assert Word(QuoteIdent(p.name, st) + (" " + s)) == "";
    }
  }

  lemma BareWord(n: string, st: Style, s: string)
    requires PrintedBare(n, st) && GoodName(n, st) && StyleOk(st)
    ensures !SameFold(Word(n + (" " + s)), "FOREIGN") && !SameFold(Word(n + (" " + s)), "ATTACHED")
  {
    assert ToLower("FOREIGN") == "foreign" && ToLower("ATTACHED") == "attached";
    BareIsWord(n, st);
    ReadsWord(n, " " + s);
    BareIsNoKeyword(n, st, "FOREIGN");
    BareIsNoKeyword(n, st, "ATTACHED");
  }

  lemma NotFold(k: string)
    requires k != []
    ensures !SameFold("", k)
  {
    assert |ToUpper(k)| == |k|;
  }

  lemma ForeignWord(st: Style, s: string)
    ensures var w := Keyword("FOREIGN", st);
      && Visible(w + (" " + s)) &&
        SameFold(w, "FOREIGN") && Word(w + (" " + s)) == w && AfterWord(w + (" " + s)) == " " + s
      && w != [] && (w + (" " + s))[0] != '}'
  {
    assert AllWord("FOREIGN");
    KeywordSolid("FOREIGN", st, " " + s);
    KeywordReads("FOREIGN", st);
    ReadsWord(Keyword("FOREIGN", st), " " + s);
  }

  lemma OpenReads(p: Partition, ind: string, st: Style, s: string)
    requires GoodName(p.name, st) && StyleOk(st) && Blanks(ind)
    ensures Open(ind + NameOn(p, st, s)) == Opening(p.foreign, false, QuoteIdent(p.name, st) + (" " + (p.bounds + s)))
    ensures Visible(NameOn(p, st, s)) && NameOn(p, st, s) != [] && NameOn(p, st, s)[0] != '}'
  {
    var t := QuoteIdent(p.name, st) + (" " + (p.bounds + s));
    NameNoKeyword(p, st, p.bounds + s);
    NameVisible(p.name, st, " " + (p.bounds + s));
    if p.foreign {
      var w := Keyword("FOREIGN", st);
      ForeignWord(st, t);
      assert NameOn(p, st, s) == w + (" " + t);
      SkipsBlanks(ind, w + (" " + t));
      SkipsOne(t);
    } else {
      assert NameOn(p, st, s) == t;
      SkipsBlanks(ind, t);
      assert t[0] == QuoteIdent(p.name, st)[0];
    }
  }
}

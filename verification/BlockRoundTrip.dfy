/** Partition entries of any depth are read back as they were printed. */
module BlockRoundTrip {
  import opened Text
  import opened Scanner
  import opened ScannerFacts
  import opened PartitionGrammar
  import opened PartitionPrinter
  import opened ConstraintRoundTrip
  import opened ClauseRoundTrip
  import opened EntryRoundTrip

  // ----- one step of each reading function

  lemma ConstraintStep(s: string, s1: string, allowSubs: bool, c: ConstraintDef, rest: string, more: Parts,
                       tail: string)
    requires SkipBlank(s) == s1 && s1 != [] && s1[0] != '}' && SameFold(Word(s1), "CONSTRAINT")
    requires Constraint(AfterWord(s1)) == Some(Read(c, rest)) && Body(rest, allowSubs) == Some(Read(more, tail))
    ensures Body(s, allowSubs) == Some(Read(Parts(more.subs, [c] + more.constraints), tail))
  {
    assert ToUpper("CONSTRAINT")[0] == 'C' && ToUpper("PARTITIONS")[0] == 'P';
    assert Directive(s1, allowSubs) == Some(Read(Parts([], [c]), rest));
    assert [] + more.subs == more.subs;
  }

  lemma PartitionsStep(s: string, s1: string, subs: seq<Bound>, rest: string, more: Parts, tail: string)
    requires SkipBlank(s) == s1 && s1 != [] && s1[0] != '}' && SameFold(Word(s1), "PARTITIONS")
    requires PartitionsBlock(AfterWord(s1)) == Some(Read(subs, rest)) && Body(rest, true) == Some(Read(more, tail))
    ensures Body(s, true) == Some(Read(Parts(subs + more.subs, more.constraints), tail))
  {
    assert Directive(s1, true) == Some(Read(Parts(subs, []), rest));
    assert [] + more.constraints == more.constraints;
  }

  lemma ClosingStep(s: string, tail: string, allowSubs: bool)
    requires SkipBlank(s) == "}" + tail
    ensures Body(s, allowSubs) == Some(Read(Parts([], []), tail)) && Entries(s) == Some(Read([], "}" + tail))
  {
    assert ("}" + tail)[1..] == tail;
  }

  lemma BraceLine(s: string)
    ensures "}" + ("\n" + s) == "}\n" + s && " {\n" + s == " " + ("{\n" + s) && ("{\n" + s)[1..] == "\n" + s
  {
  }

  lemma BlockStep(s: string, list: seq<Bound>, rest: string)
    requires Entries("\n" + s) == Some(Read(list, "}" + rest))
    ensures PartitionsBlock(" {\n" + s) == Some(Read(list, rest))
  {
    var inside := "{\n" + s;
    BraceLine(s);
    SkipsOne(inside);
    BlockSteps(" {\n" + s, inside, list, rest);
  }

  lemma BlockSteps(s: string, s1: string, list: seq<Bound>, rest: string)
    requires SkipBlank(s) == s1 && StartsWith(s1, '{') && Entries(s1[1..]) == Some(Read(list, "}" + rest))
    ensures PartitionsBlock(s) == Some(Read(list, rest))
  {
    assert ("}" + rest)[1..] == rest;
  }

  lemma EntriesStep(s: string, s1: string, b: Bound, rest: string, more: seq<Bound>, tail: string)
    requires SkipBlank(s) == s1 && s1 != [] && s1[0] != '}' && Entry(s1) == Some(Read(b, rest))
    requires Entries(rest) == Some(Read(more, tail))
    ensures Entries(s) == Some(Read([b] + more, tail))
  {
  }

  lemma PlainEntry(s: string, foreign: bool, rest: string, name: Identifier, s1: string, raw: string, k: string,
                   b: Bound)
    requires Open(s) == Opening(foreign, false, rest) && Ident(rest) == Some(Read(name, s1))
    requires RawUntil(s1, STOPS) == Some(Read(raw, k)) && BoundOf(name, raw, foreign) == Some(b)
    requires !StartsWith(k, '{') && b.subStrategy == []
    ensures Entry(s) == Some(Read(b, AfterSemi(k)))
  {
  }

  lemma BlockEntry(s: string, foreign: bool, rest: string, name: Identifier, s1: string, raw: string, k: string,
                   b: Bound,
                   parts: Parts, tail: string)
    requires Open(s) == Opening(foreign, false, rest) && Ident(rest) == Some(Read(name, s1))
    requires RawUntil(s1, STOPS) == Some(Read(raw, k)) && BoundOf(name, raw, foreign) == Some(b)
    requires StartsWith(k, '{') && Body(k[1..], b.subStrategy != []) == Some(Read(parts, tail))
    ensures Entry(s) == Some(Read(b.(subPartitions := parts.subs, constraints := parts.constraints), AfterSemi(tail)))
  {
  }

  lemma SemiRead(rest: string)
    ensures AfterSemi(";" + rest) == rest
  {
    SkipsBlanks("", ";" + rest);
    assert "" + (";" + rest) == ";" + rest && (";" + rest)[1..] == rest;
  }

  /** A keyword on a line of its own, after the line break that is still to be read. */
  lemma KeywordLine(k: string, ind: string, st: Style, s: string)
    requires (k == "CONSTRAINT" || k == "PARTITIONS") && Blanks(ind) && NoWordAhead(s)
    ensures SkipBlank("\n" + (ind + (Keyword(k, st) + s))) == Keyword(k, st) + s
    ensures Keyword(k, st) + s != [] && (Keyword(k, st) + s)[0] != '}'
    ensures SameFold(Word(Keyword(k, st) + s), k) && AfterWord(Keyword(k, st) + s) == s
  {
    assert AllWord("CONSTRAINT") && AllWord("PARTITIONS");
    KeywordSolid(k, st, s);
    KeywordReads(k, st);
    SkipsLine(ind, Keyword(k, st) + s);
    ReadsWord(Keyword(k, st), s);
  }

  lemma SkipsLine(ind: string, s: string)
    requires Blanks(ind) && Visible(s)
    ensures SkipBlank("\n" + (ind + s)) == s
  {
    assert "\n" + ind + s == "\n" + (ind + s);
    SkipsBlanks("\n" + ind, s);
  }

  // ----- the parts of an entry

  lemma {:induction false} ConstraintsRead(cs: seq<TableConstraint>, ind: string, st: Style, end: string, tail: string,
      allowSubs: bool)
    requires WellFormedConstraints(cs, st) && Blanks(ind) && Blanks(end)
    ensures Body("\n" + ConstraintsOn(cs, ind, st, end + ("}" + tail)), allowSubs) ==
      Some(Read(Parts([], ConstraintDefsOf(cs)), tail))
    decreases |cs|
  {
    if cs == [] {
      SkipsLine(end, "}" + tail);
      ClosingStep("\n" + (end + ("}" + tail)), tail, allowSubs);
    } else {
      ConstraintsRead(cs[1..], ind, st, end, tail, allowSubs);
      OneConstraintRead(cs[0], ind, st, ConstraintsOn(cs[1..], ind, st, end + ("}" + tail)), allowSubs,
                        Parts([], ConstraintDefsOf(cs[1..])), tail);
    }
  }

  lemma OneConstraintRead(c: TableConstraint, ind: string, st: Style, more: string, allowSubs: bool, parts: Parts,
                          tail: string)
    requires WellFormedConstraint(c, st) && Blanks(ind) && Body("\n" + more, allowSubs) == Some(Read(parts, tail))
    ensures Body("\n" + ConstraintOn(c, ind, st, more), allowSubs) ==
      Some(Read(Parts(parts.subs, [ConstraintDefOf(c)] + parts.constraints), tail))
  {
    ConstraintReads(c, st, more);
    ConstraintLine(" " + (QuoteIdent(c.name, st) + (" " + (c.expr + FlagsOn(c, st, ";\n" + more)))), ind, st, allowSubs,
                   ConstraintDefOf(c), "\n" + more, parts, tail);
  }

  lemma ConstraintLine(after: string, ind: string, st: Style, allowSubs: bool, c: ConstraintDef, rest: string,
                       more: Parts, tail: string)
    requires NoWordAhead(after) && Blanks(ind)
    requires Constraint(after) == Some(Read(c, rest)) && Body(rest, allowSubs) == Some(Read(more, tail))
    ensures Body("\n" + (ind + (Keyword("CONSTRAINT", st) + after)), allowSubs) ==
      Some(Read(Parts(more.subs, [c] + more.constraints), tail))
  {
    KeywordLine("CONSTRAINT", ind, st, after);
    ConstraintStep("\n" + (ind + (Keyword("CONSTRAINT", st) + after)), Keyword("CONSTRAINT", st) + after, allowSubs, c,
      rest, more, tail);
  }

  lemma PlainReads(p: Partition, lead: string, st: Style, rest: string)
    requires WellFormedHead(p, st) && StyleOk(st) && Blanks(lead) && !HasBody(p)
    ensures Entry(lead + NameOn(p, st, ServerOn(p, st, PartitionByOn(p, st, ";" + rest)))) ==
      Some(Read(HeadBound(p), rest))
  {
    var end := ";" + rest;
    assert Pad(p) + end == end;
    SemiRead(rest);
    var tail := ServerOn(p, st, PartitionByOn(p, st, end));
    var s1 := " " + (p.bounds + tail);
    OpenReads(p, lead, st, tail);
    NameReads(p.name, st, s1);
    RawReads(p, st, end);
    BoundReads(p, st);
    PlainEntry(lead + NameOn(p, st, tail), p.foreign, QuoteIdent(p.name, st) + s1, Identifier([], p.name), s1,
               RawText(p, st), end, HeadBound(p));
  }

  lemma BlockReads(p: Partition, lead: string, st: Style, inner: string, parts: Parts, rest: string)
    requires WellFormedHead(p, st) && StyleOk(st) && Blanks(lead) && HasBody(p)
    requires Body("\n" + inner, p.partitionBy.Some?) == Some(Read(parts, ";" + rest))
    ensures Entry(lead + NameOn(p, st, ServerOn(p, st, PartitionByOn(p, st, " {\n" + inner)))) ==
      Some(Read(HeadBound(p).(subPartitions := parts.subs, constraints := parts.constraints), rest))
  {
    var end := "{\n" + inner;
    assert Pad(p) + end == " {\n" + inner && end[1..] == "\n" + inner;
    SemiRead(rest);
    var tail := ServerOn(p, st, PartitionByOn(p, st, Pad(p) + end));
    var s1 := " " + (p.bounds + tail);
    OpenReads(p, lead, st, tail);
    NameReads(p.name, st, s1);
    RawReads(p, st, end);
    BoundReads(p, st);
    StrategyMarks(p, st);
    BlockEntry(lead + NameOn(p, st, tail), p.foreign, QuoteIdent(p.name, st) + s1, Identifier([], p.name), s1,
               RawText(p, st), end, HeadBound(p), parts, ";" + rest);
  }

  lemma StrategyMarks(p: Partition, st: Style)
    requires FitHead(p, st)
    ensures HeadBound(p).subStrategy != [] <==> p.partitionBy.Some?
  {
  }

  // ----- entries of any depth

  /** Every well-formed partition, of any depth, is read back as it was printed. */
  lemma EntryBack(p: Partition, ind: string, st: Style, rest: string)
    requires WellFormed(p, st) && StyleOk(st) && Blanks(ind)
    ensures Entry(EntryOn(p, ind, st, rest)) == Some(Read(AsBound(p), "\n" + rest))
  {
    UnindentedBack(p, ind, ind, st, rest);
  }

  lemma {:induction false} UnindentedBack(p: Partition, lead: string, ind: string, st: Style, rest: string)
    requires WellFormed(p, st) && StyleOk(st) && Blanks(ind) && Blanks(lead)
    ensures Entry(lead + UnindentedOn(p, ind, st, rest)) == Some(Read(AsBound(p), "\n" + rest))
    decreases p, 2
  {
    assert ";\n" + rest == ";" + ("\n" + rest);
    if HasBody(p) {
      var end := ind + ("}" + (";\n" + rest));
      BodyBack(p, ind, st, ";\n" + rest);
      BlockReads(p, lead, st, InnerOn(p, ind, st, end), Parts(AsBounds(p.partitions), ConstraintDefsOf(p.constraints)),
        "\n" + rest);
    } else {
      PlainReads(p, lead, st, "\n" + rest);
      NothingInside(p, st);
    }
  }

  lemma NothingInside(p: Partition, st: Style)
    requires WellFormedHead(p, st)
    ensures p.partitionBy.None? ==> AsBounds(p.partitions) == []
    ensures !HasBody(p) ==> HeadBound(p) == AsBound(p)
  {
  }

  lemma {:induction false} BodyBack(p: Partition, ind: string, st: Style, tail: string)
    requires WellFormed(p, st) && StyleOk(st) && Blanks(ind) && HasBody(p)
    ensures Body("\n" + InnerOn(p, ind, st, ind + ("}" + tail)), p.partitionBy.Some?) ==
      Some(Read(Parts(AsBounds(p.partitions), ConstraintDefsOf(p.constraints)), tail))
    decreases p, 1
  {
    var inner := ind + st.indent;
    var after := ConstraintsOn(p.constraints, inner, st, ind + ("}" + tail));
    ConstraintsRead(p.constraints, inner, st, ind, tail, p.partitionBy.Some?);
    if p.partitionBy.Some? {
      EntriesBack(p.partitions, inner + st.indent, st, inner, "\n" + after);
      PartitionsRead(p, inner, st, after, ConstraintDefsOf(p.constraints), tail);
    } else {
      NothingInside(p, st);
    }
  }

  lemma PartitionsRead(p: Partition, inner: string, st: Style, after: string, constraints: seq<ConstraintDef>,
                       tail: string)
    requires Blanks(inner) && Body("\n" + after, true) == Some(Read(Parts([], constraints), tail))
    requires Entries("\n" + EntriesOn(p.partitions, inner + st.indent, st, inner + ("}" + ("\n" + after)))) ==
      Some(Read(AsBounds(p.partitions), "}" + ("\n" + after)))
    ensures Body("\n" + (inner + (Keyword("PARTITIONS", st) +
                  (" {\n" + EntriesOn(p.partitions, inner + st.indent, st, inner + ("}\n" + after))))), true) ==
      Some(Read(Parts(AsBounds(p.partitions), constraints), tail))
  {
    BraceLine(after);
    var list := EntriesOn(p.partitions, inner + st.indent, st, inner + ("}\n" + after));
    BlockStep(list, AsBounds(p.partitions), "\n" + after);
    KeywordLine("PARTITIONS", inner, st, " {\n" + list);
    PartitionsStep("\n" + (inner + (Keyword("PARTITIONS", st) + (" {\n" + list))), Keyword("PARTITIONS", st) + (" {\n" + list),
                   AsBounds(p.partitions), "\n" + after, Parts([], constraints), tail);
    assert AsBounds(p.partitions) + [] == AsBounds(p.partitions);
  }

  lemma {:induction false} EntriesBack(ps: seq<Partition>, ind: string, st: Style, end: string, tail: string)
    requires WellFormedAll(ps, st) && StyleOk(st) && Blanks(ind) && Blanks(end)
    ensures Entries("\n" + EntriesOn(ps, ind, st, end + ("}" + tail))) == Some(Read(AsBounds(ps), "}" + tail))
    decreases ps
  {
    if ps == [] {
      SkipsLine(end, "}" + tail);
      ClosingStep("\n" + (end + ("}" + tail)), tail, true);
    } else {
      EntriesBack(ps[1..], ind, st, end, tail);
      var more := EntriesOn(ps[1..], ind, st, end + ("}" + tail));
      UnindentedBack(ps[0], "", ind, st, more);
      OneEntryRead(ps[0], ind, st, more, AsBound(ps[0]), AsBounds(ps[1..]), "}" + tail);
    }
  }

  lemma OneEntryRead(p: Partition, ind: string, st: Style, more: string, b: Bound, others: seq<Bound>, tail: string)
    requires WellFormedHead(p, st) && StyleOk(st) && Blanks(ind)
    requires Entry("" + UnindentedOn(p, ind, st, more)) == Some(Read(b, "\n" + more))
    requires Entries("\n" + more) == Some(Read(others, tail))
    ensures Entries("\n" + EntryOn(p, ind, st, more)) == Some(Read([b] + others, tail))
  {
    var s1 := UnindentedOn(p, ind, st, more);
    assert "" + s1 == s1;
    EntryStarts(p, ind, st, more);
    SkipsLine(ind, s1);
    EntriesStep("\n" + (ind + s1), s1, b, "\n" + more, others, tail);
  }

  lemma EntryStarts(p: Partition, ind: string, st: Style, rest: string)
    requires WellFormedHead(p, st) && StyleOk(st)
    ensures var s := UnindentedOn(p, ind, st, rest); Visible(s) && s != [] && s[0] != '}'
  {
    OpenReads(p, "", st, ServerOn(p, st, PartitionByOn(p, st, BodyOn(p, ind, st, ";\n" + rest))));
  }
}

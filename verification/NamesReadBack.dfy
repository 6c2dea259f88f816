/** When printed partitions come back: exactly when no bare name among them, at
    any depth, be it of a partition, a server or a constraint, holds a dollar
    sign, and no partition's bare name reads "attached". */
module NamesReadBack {
  import opened Text
  import opened Scanner
  import opened ScannerFacts
  import opened PartitionGrammar
  import opened PartitionPrinter
  import opened ConstraintRoundTrip
  import opened ClauseRoundTrip
  import opened ServerRoundTrip
  import opened EntryRoundTrip
  import opened BlockRoundTrip

  /** Well-formed apart from the names of partitions, servers and constraints. */
  predicate Fit(p: Partition, st: Style)
    decreases p
  {
    FitHead(p, st) && FitConstraints(p.constraints, st) && FitAll(p.partitions, st)
  }

  predicate FitConstraints(cs: seq<TableConstraint>, st: Style) {
    forall i :: 0 <= i < |cs| ==> FitConstraint(cs[i], st)
  }

  predicate ConstraintsNamed(cs: seq<TableConstraint>, st: Style) {
    forall i :: 0 <= i < |cs| ==> Readable(cs[i].name, st)
  }

  predicate FitAll(ps: seq<Partition>, st: Style)
    decreases ps
  {
    ps == [] || (Fit(ps[0], st) && FitAll(ps[1..], st))
  }

  predicate NamesGood(p: Partition, st: Style)
    decreases p
  {
    HeadNamed(p, st) && ConstraintsNamed(p.constraints, st) && NamesGoodAll(p.partitions, st)
  }

  predicate NamesGoodAll(ps: seq<Partition>, st: Style)
    decreases ps
  {
    ps == [] || (NamesGood(ps[0], st) && NamesGoodAll(ps[1..], st))
  }

  lemma {:induction false} FitAndNamed(p: Partition, st: Style)
    requires Fit(p, st) && NamesGood(p, st)
    ensures WellFormed(p, st)
    decreases p
  {
    FitAndNamedAll(p.partitions, st);
  }

  lemma {:induction false} FitAndNamedAll(ps: seq<Partition>, st: Style)
    requires FitAll(ps, st) && NamesGoodAll(ps, st)
    ensures WellFormedAll(ps, st)
    decreases ps
  {
    if ps != [] {
      FitAndNamed(ps[0], st);
      FitAndNamedAll(ps[1..], st);
    }
  }

  /** The printed text of a fit partition reads back as that partition if and
      only if all its names are good. */
  lemma EntryBackIff(p: Partition, ind: string, st: Style, rest: string)
    requires Fit(p, st) && StyleOk(st) && Blanks(ind)
    ensures NamesGood(p, st) <==> Entry(EntryOn(p, ind, st, rest)) == Some(Read(AsBound(p), "\n" + rest))
  {
    if NamesGood(p, st) {
      FitAndNamed(p, st);
      EntryBack(p, ind, st, rest);
    } else {
      BadNotBack(p, ind, ind, st, rest);
    }
  }

  // ----- what any reading of an entry tells

  lemma AttachedTells(s: string)
    requires Entry(s).Some? && Open(s).attached
    ensures Entry(s).value.value.attachedFrom.Some?
  {
  }

  lemma BoundTells(name: Identifier, raw: string, foreign: bool)
    requires BoundOf(name, raw, foreign).Some?
    ensures BoundOf(name, raw, foreign).value.name == name &&
      (BoundOf(name, raw, foreign).value.server.Some? <==> foreign)
  {
  }

  lemma EntryTells(s: string)
    requires Entry(s).Some? && !Open(s).attached
    ensures Ident(Open(s).rest).Some? && Entry(s).value.value.name == Ident(Open(s).rest).value.value
    ensures Entry(s).value.value.server.Some? <==> Open(s).foreign
  {
    var name := Ident(Open(s).rest).value;
    BoundTells(name.value, RawUntil(name.rest, ";{}").value.value, Open(s).foreign);
  }

  lemma BlockTells(s: string, foreign: bool, rest: string, name: Identifier, s1: string, raw: string, k: string,
                   b: Bound)
    requires Open(s) == Opening(foreign, false, rest) && Ident(rest) == Some(Read(name, s1))
    requires RawUntil(s1, STOPS) == Some(Read(raw, k)) && BoundOf(name, raw, foreign) == Some(b) && StartsWith(k, '{')
    requires Entry(s).Some?
    ensures Body(k[1..], b.subStrategy != []).Some?
    ensures Entry(s).value.value.subPartitions == Body(k[1..], b.subStrategy != []).value.value.subs
    ensures Entry(s).value.value.constraints == Body(k[1..], b.subStrategy != []).value.value.constraints
  {
  }

  lemma ServerTells(s: string, rest: string, name: Identifier, s1: string, raw: string, k: string)
    requires Open(s) == Opening(true, false, rest) && Ident(rest) == Some(Read(name, s1))
    requires RawUntil(s1, STOPS) == Some(Read(raw, k)) && NoClauseIn(raw) && Entry(s).Some?
    ensures SplitServer(raw).Some? && Entry(s).value.value.server == Some(SplitServer(raw).value.server)
  {
  }

  lemma SplitTells(raw: string, at: string, s1: string)
    requires FindWord(raw, "SERVER", 0) == Some(at) &&
      SkipBlank(at) == at && AfterWord(at) == s1 && SplitServer(raw).Some?
    ensures Ident(s1).Some? && SplitServer(raw).value.server == Ident(s1).value.value
  {
  }

  /** The body read after a constraint, and the constraint read first. */
  lemma ConstraintTells(s: string, s1: string, allowSubs: bool)
    requires SkipBlank(s) == s1 &&
      s1 != [] && s1[0] != '}' && SameFold(Word(s1), "CONSTRAINT") && Body(s, allowSubs).Some?
    ensures Constraint(AfterWord(s1)).Some? && Body(Constraint(AfterWord(s1)).value.rest, allowSubs).Some?
    ensures Body(s, allowSubs).value.value.constraints
      == [Constraint(AfterWord(s1)).value.value] + Body(Constraint(AfterWord(s1)).value.rest, allowSubs).value.value.constraints
  {
    assert ToUpper("CONSTRAINT")[0] == 'C' && ToUpper("PARTITIONS")[0] == 'P';
  }

  lemma NameTells(s: string)
    requires Constraint(s).Some?
    ensures Ident(s).Some? && Constraint(s).value.value.name == Ident(s).value.value
  {
  }

  /** The body read after a block of sub-partitions. */
  lemma SubsTell(s: string, s1: string, list: seq<Bound>, rest: string)
    requires SkipBlank(s) == s1 && s1 != [] && s1[0] != '}' && SameFold(Word(s1), "PARTITIONS") && Body(s, true).Some?
    requires PartitionsBlock(AfterWord(s1)) == Some(Read(list, rest))
    ensures Body(rest, true).Some? && Body(s, true).value.value.constraints == Body(rest, true).value.value.constraints
  {
    assert Directive(s1, true) == Some(Read(Parts(list, []), rest));
  }

  lemma BodyTells(s: string, s1: string)
    requires SkipBlank(s) == s1 && s1 != [] && s1[0] != '}' && SameFold(Word(s1), "PARTITIONS") && Body(s, true).Some?
    ensures PartitionsBlock(AfterWord(s1)).Some?
    ensures PartitionsBlock(AfterWord(s1)).value.value <= Body(s, true).value.value.subs
  {
  }

  lemma PartitionsTell(s: string)
    requires PartitionsBlock(" {\n" + s).Some?
    ensures Entries("\n" + s).Some? && Entries("\n" + s).value.value == PartitionsBlock(" {\n" + s).value.value
  {
    BraceLine(s);
    SkipsOne("{\n" + s);
  }

  lemma EntriesTell(s: string, s1: string)
    requires SkipBlank(s) == s1 && s1 != [] && s1[0] != '}' && Entries(s).Some?
    ensures Entry(s1).Some? && Entries(Entry(s1).value.rest).Some?
    ensures Entries(s).value.value == [Entry(s1).value.value] + Entries(Entry(s1).value.rest).value.value
  {
  }

  // ----- bad names

  lemma FirstWordOfBadName(n: string, st: Style, s: string)
    requires !GoodName(n, st)
    ensures n == "attached" ==> Word(n + (" " + s)) == n
    ensures Visible(n + (" " + s)) && QuoteIdent(n, st) == n && n != []
  {
    NameVisible(n, st, " " + s);
    if n == "attached" {
      ReadsWord(n, " " + s);
    }
  }

  lemma PlainOpens(lead: string, t: string)
    requires Blanks(lead) && Visible(t) && !Open(lead + t).foreign
    ensures Open(lead + t).attached <==> SameFold(Word(t), "ATTACHED")
    ensures !Open(lead + t).attached ==> Open(lead + t).rest == t
  {
    SkipsBlanks(lead, t);
  }

  lemma ForeignOpens(lead: string, st: Style, t: string)
    requires Blanks(lead) && Visible(t)
    ensures var o := Open(lead + (Keyword("FOREIGN", st) + (" " + t)));
      o.foreign && (o.attached <==> SameFold(Word(t), "ATTACHED")) && (!o.attached ==> o.rest == t)
  {
    var w := Keyword("FOREIGN", st);
    ForeignWord(st, t);
    SkipsBlanks(lead, w + (" " + t));
    SkipsOne(t);
  }

  /** An entry whose name stands first in t is not read as named n. */
  lemma NotNamed(s: string, t: string, n: string, foreign: bool)
    requires Entry(s).Some? && Open(s).foreign == foreign
    requires SameFold(Word(t), "ATTACHED") ==> Open(s).attached
    requires !Open(s).attached ==> Open(s).rest == t
    requires CutsName(n, t)
    ensures Entry(s).value.value.attachedFrom.Some? || Entry(s).value.value.name != Identifier([], n)
  {
    if Open(s).attached {
      AttachedTells(s);
    } else {
      EntryTells(s);
    }
  }

  lemma BadNameCut(n: string, st: Style, s: string)
    requires !GoodName(n, st)
    ensures CutsName(n, n + (" " + s))
  {
    FirstWordOfBadName(n, st, s);
    if !Readable(n, st) {
      DollarCutsName(n, st, " " + s);
    } else {
      assert ToUpper("attached") == "ATTACHED";
    }
  }

  lemma BadNameNotBack(p: Partition, lead: string, st: Style, s: string)
    requires !GoodName(p.name, st) && StyleOk(st) && Blanks(lead) && (!p.foreign || p.foreignServer.Some?)
    ensures var e := Entry(lead + NameOn(p, st, s)); e.Some? ==> e.value.value != AsBound(p)
  {
    var after := p.bounds + s;
    FirstWordOfBadName(p.name, st, after);
    BadNameCut(p.name, st, after);
    NamePrinted(p, st, s);
    HeadOfBound(p);
    if p.foreign {
      BadForeign(p.name, lead, st, p.name + (" " + after));
    } else {
      BadPlain(p.name, lead, p.name + (" " + after));
    }
  }

  lemma NamePrinted(p: Partition, st: Style, s: string)
    ensures var t := QuoteIdent(p.name, st) + (" " + (p.bounds + s));
      NameOn(p, st, s) == if p.foreign then Keyword("FOREIGN", st) + (" " + t) else t
  {
    var t := QuoteIdent(p.name, st) + (" " + (p.bounds + s));
    Assoc(Keyword("FOREIGN", st), " ", t);
    OnEmpty(t);
  }

  lemma HeadOfBound(p: Partition)
    ensures AsBound(p).name == Identifier([], p.name) && AsBound(p).attachedFrom.None?
    ensures AsBound(p).server == if p.foreign && p.foreignServer.Some? then Some(Identifier([], p.foreignServer.value)) else None
  {
  }

  /** No word or name in front of t reads as the keyword or as the name n in full. */
  predicate CutsName(n: string, t: string) {
    SameFold(Word(t), "ATTACHED") || (Ident(t).Some? ==> Ident(t).value.value != Identifier([], n))
  }

  lemma BadForeign(n: string, lead: string, st: Style, t: string)
    requires Blanks(lead) && Visible(t) && CutsName(n, t)
    ensures var e := Entry(lead + (Keyword("FOREIGN", st) + (" " + t)));
      e.Some? ==> e.value.value.attachedFrom.Some? || e.value.value.name != Identifier([], n)
  {
    var s := lead + (Keyword("FOREIGN", st) + (" " + t));
    ForeignOpens(lead, st, t);
    if Entry(s).Some? {
      NotNamed(s, t, n, true);
    }
  }

  lemma BadPlain(n: string, lead: string, t: string)
    requires Blanks(lead) && Visible(t) && CutsName(n, t)
    ensures var e := Entry(lead + t);
      e.Some? ==>
        e.value.value.attachedFrom.Some? || e.value.value.server.Some? || e.value.value.name != Identifier([], n)
  {
    if Entry(lead + t).Some? {
      if Open(lead + t).foreign {
        if Open(lead + t).attached {
          AttachedTells(lead + t);
        } else {
          EntryTells(lead + t);
        }
      } else {
        PlainOpens(lead, t);
        NotNamed(lead + t, t, n, false);
      }
    }
  }

  lemma EntryVisible(p: Partition, ind: string, st: Style, rest: string)
    ensures var s := UnindentedOn(p, ind, st, rest); Visible(s) && s != [] && s[0] != '}'
  {
    NameOnVisible(p, st, ServerOn(p, st, PartitionByOn(p, st, BodyOn(p, ind, st, ";\n" + rest))));
  }

  lemma NameOnVisible(p: Partition, st: Style, k: string)
    ensures var s := NameOn(p, st, k); Visible(s) && s != [] && s[0] != '}'
  {
    var after := " " + (p.bounds + k);
    NamePrinted(p, st, k);
    if p.foreign {
      ForeignWord(st, QuoteIdent(p.name, st) + after);
    } else {
      NameVisible(p.name, st, after);
      assert (QuoteIdent(p.name, st) + after)[0] == QuoteIdent(p.name, st)[0];
    }
  }

  /** A server's name that is cut is not the server read. */
  lemma BadServerNotBack(p: Partition, lead: string, st: Style, end: string)
    requires FitHead(p, st) && GoodName(p.name, st) && !HeadNamed(p, st) && StyleOk(st) && Blanks(lead)
    requires end != [] && end[0] in STOPS
    ensures var e := Entry(lead + NameOn(p, st, ServerOn(p, st, PartitionByOn(p, st, Pad(p) + end))));
      e.Some? ==> e.value.value.server != Some(Identifier([], p.foreignServer.value))
  {
    var tail := ServerOn(p, st, PartitionByOn(p, st, Pad(p) + end));
    var s, s1 := lead + NameOn(p, st, tail), " " + (p.bounds + tail);
    OpenReads(p, lead, st, tail);
    NameReads(p.name, st, s1);
    RawReads(p, st, end);
    if Entry(s).Some? {
      ServerTells(s, QuoteIdent(p.name, st) + s1, Identifier([], p.name), s1, RawText(p, st), end);
      ServerCut(p, st);
    }
  }

  lemma ServerCut(p: Partition, st: Style)
    requires p.foreign && FitForeign(p, st) && !Readable(p.foreignServer.value, st) && SplitServer(RawText(p, st)).Some?
    ensures SplitServer(RawText(p, st)).value.server != Identifier([], p.foreignServer.value)
  {
    var n, more := p.foreignServer.value, MoreOn(p.foreignOptions, st, Pad(p));
    var s1 := " " + (QuoteIdent(n, st) + more);
    var at := Keyword("SERVER", st) + s1;
    Assoc4(" ", p.bounds, " ", at);
    ServerWordReads(st, s1);
    ServerFound(p.bounds, at);
    SplitTells(RawText(p, st), at, s1);
    BadNameAfterBlank(n, st, more);
  }

  /** A cut name among the constraints shows among what is read, if anything is. */
  lemma {:induction false} BadConstraints(cs: seq<TableConstraint>, ind: string, st: Style, end: string,
      allowSubs: bool)
    requires FitConstraints(cs, st) && !ConstraintsNamed(cs, st) && Blanks(ind)
    ensures var b := Body("\n" + ConstraintsOn(cs, ind, st, end), allowSubs);
      b.Some? ==> b.value.value.constraints != ConstraintDefsOf(cs)
    decreases |cs|
  {
    var more := ConstraintsOn(cs[1..], ind, st, end);
    if Readable(cs[0].name, st) {
      BadConstraints(cs[1..], ind, st, end, allowSubs);
    }
    if Body("\n" + ConstraintOn(cs[0], ind, st, more), allowSubs).Some? {
      OneConstraintTells(cs[0], ind, st, more, allowSubs);
      FirstDiffers(Body("\n" + ConstraintOn(cs[0], ind, st, more), allowSubs).value.value.constraints, cs);
    }
  }

  lemma OneConstraintTells(c: TableConstraint, ind: string, st: Style, more: string, allowSubs: bool)
    requires FitConstraint(c, st) && Blanks(ind) && Body("\n" + ConstraintOn(c, ind, st, more), allowSubs).Some?
    ensures var cs := Body("\n" + ConstraintOn(c, ind, st, more), allowSubs).value.value.constraints;
      && cs != []
      && (if Readable(c.name, st)
          then Body("\n" + more, allowSubs).Some? && cs[1..] == Body("\n" + more, allowSubs).value.value.constraints
          else cs[0].name != Identifier([], c.name))
  {
    var body := " " + (c.expr + FlagsOn(c, st, ";\n" + more));
    var after := " " + (QuoteIdent(c.name, st) + body);
    KeywordLine("CONSTRAINT", ind, st, after);
    ConstraintTells("\n" + ConstraintOn(c, ind, st, more), Keyword("CONSTRAINT", st) + after, allowSubs);
    if Readable(c.name, st) {
      ConstraintReads(c, st, more);
    } else {
      NameTells(after);
      BadNameAfterBlank(c.name, st, body);
    }
  }

  lemma {:induction false} FirstDiffers(read: seq<ConstraintDef>, cs: seq<TableConstraint>)
    requires cs != [] && read != []
    requires read[0].name != Identifier([], cs[0].name) || read[1..] != ConstraintDefsOf(cs[1..])
    ensures read != ConstraintDefsOf(cs)
  {
    assert ConstraintDefsOf(cs)[1..] == ConstraintDefsOf(cs[1..]);
  }

  lemma {:induction false} BadNotBack(p: Partition, lead: string, ind: string, st: Style, rest: string)
    requires Fit(p, st) && !NamesGood(p, st) && StyleOk(st) && Blanks(ind) && Blanks(lead)
    ensures var e := Entry(lead + UnindentedOn(p, ind, st, rest)); e.Some? ==> e.value.value != AsBound(p)
    decreases p, 1
  {
    if !GoodName(p.name, st) {
      BadNameNotBack(p, lead, st, ServerOn(p, st, PartitionByOn(p, st, BodyOn(p, ind, st, ";\n" + rest))));
    } else if !HeadNamed(p, st) {
      BadHeadNotBack(p, lead, ind, st, rest);
    } else if Entry(lead + UnindentedOn(p, ind, st, rest)).Some? {
      if NamesGoodAll(p.partitions, st) {
        BadConstraintsNotBack(p, lead, ind, st, rest);
      } else {
        BadInside(p, lead, ind, st, rest);
      }
    }
  }

  lemma {:induction false} BadInside(p: Partition, lead: string, ind: string, st: Style, rest: string)
    requires Fit(p, st) && HeadNamed(p, st) &&
      !NamesGoodAll(p.partitions, st) && StyleOk(st) && Blanks(ind) && Blanks(lead)
    requires Entry(lead + UnindentedOn(p, ind, st, rest)).Some?
    ensures Entry(lead + UnindentedOn(p, ind, st, rest)).value.value != AsBound(p)
    decreases p, 0
  {
    var inner := ind + st.indent;
    var tail := inner + ("}\n" + ConstraintsOn(p.constraints, inner, st, ind + ("}" + (";\n" + rest))));
    BadEntries(p.partitions, inner + st.indent, st, tail);
    BadEntriesNotBack(p, lead, ind, st, rest, EntriesOn(p.partitions, inner + st.indent, st, tail));
  }

  lemma BadHeadNotBack(p: Partition, lead: string, ind: string, st: Style, rest: string)
    requires FitHead(p, st) && GoodName(p.name, st) && !HeadNamed(p, st) && StyleOk(st) && Blanks(lead)
    ensures var e := Entry(lead + UnindentedOn(p, ind, st, rest)); e.Some? ==> e.value.value != AsBound(p)
  {
    var end := BodyOn(p, ind, st, ";\n" + rest);
    PaddedEnd(p, ind, st, rest);
    BadServerNotBack(p, lead, st, end[|Pad(p)|..]);
    HeadOfBound(p);
  }

  lemma PaddedEnd(p: Partition, ind: string, st: Style, rest: string)
    ensures var end := BodyOn(p, ind, st, ";\n" + rest);
      |Pad(p)| < |end| && end == Pad(p) + end[|Pad(p)|..] && end[|Pad(p)|] in STOPS
  {
    if HasBody(p) {
      assert BodyOn(p, ind, st, ";\n" + rest) == " {\n" + InnerOn(p, ind, st, ind + ("}" + (";\n" + rest)));
    }
  }

  /** The constraints read are those of the block that was printed. */
  lemma BadConstraintsNotBack(p: Partition, lead: string, ind: string, st: Style, rest: string)
    requires Fit(p, st) && HeadNamed(p, st) && !ConstraintsNamed(p.constraints, st) && NamesGoodAll(p.partitions, st)
    requires StyleOk(st) && Blanks(ind) && Blanks(lead) && Entry(lead + UnindentedOn(p, ind, st, rest)).Some?
    ensures Entry(lead + UnindentedOn(p, ind, st, rest)).value.value != AsBound(p)
  {
    BlockTold(p, lead, ind, st, rest, InnerOn(p, ind, st, ind + ("}" + (";\n" + rest))));
    InsideOfBound(p);
    BadInner(p, ind, st, ind + ("}" + (";\n" + rest)));
  }

  lemma BadInner(p: Partition, ind: string, st: Style, end: string)
    requires Fit(p, st) && !ConstraintsNamed(p.constraints, st) &&
      NamesGoodAll(p.partitions, st) && StyleOk(st) && Blanks(ind)
    ensures var b := Body("\n" + InnerOn(p, ind, st, end), p.partitionBy.Some?);
      b.Some? ==> b.value.value.constraints != ConstraintDefsOf(p.constraints)
  {
    var inner := ind + st.indent;
    BadConstraints(p.constraints, inner, st, end, p.partitionBy.Some?);
    if p.partitionBy.Some? {
      AfterSubs(p.partitions, inner, st, ConstraintsOn(p.constraints, inner, st, end));
    }
  }

  lemma AfterSubs(ps: seq<Partition>, inner: string, st: Style, after: string)
    requires FitAll(ps, st) && NamesGoodAll(ps, st) && StyleOk(st) && Blanks(inner)
    ensures
      var list := EntriesOn(ps, inner + st.indent, st, inner + ("}\n" + after));
      var b := Body("\n" + (inner + (Keyword("PARTITIONS", st) + (" {\n" + list))), true);
      b.Some? ==>
        Body("\n" + after, true).Some? && b.value.value.constraints == Body("\n" + after, true).value.value.constraints
  {
    FitAndNamedAll(ps, st);
    EntriesBack(ps, inner + st.indent, st, inner, "\n" + after);
    BraceLine(after);
    AfterList(EntriesOn(ps, inner + st.indent, st, inner + ("}\n" + after)), AsBounds(ps), inner, st, "\n" + after);
  }

  lemma AfterList(list: string, subs: seq<Bound>, inner: string, st: Style, rest: string)
    requires Blanks(inner) && Entries("\n" + list) == Some(Read(subs, "}" + rest))
    ensures
      var b := Body("\n" + (inner + (Keyword("PARTITIONS", st) + (" {\n" + list))), true);
      b.Some? ==> Body(rest, true).Some? && b.value.value.constraints == Body(rest, true).value.value.constraints
  {
    var k := Keyword("PARTITIONS", st) + (" {\n" + list);
    BlockStep(list, subs, rest);
    KeywordLine("PARTITIONS", inner, st, " {\n" + list);
    if Body("\n" + (inner + k), true).Some? {
      SubsTell("\n" + (inner + k), k, subs, rest);
    }
  }

  /** What is read of an entry with a block is what is read of the block. */
  lemma BlockTold(p: Partition, lead: string, ind: string, st: Style, rest: string, text: string)
    requires WellFormedHead(p, st) && HasBody(p) && StyleOk(st) && Blanks(lead)
    requires text == InnerOn(p, ind, st, ind + ("}" + (";\n" + rest))) &&
      Entry(lead + UnindentedOn(p, ind, st, rest)).Some?
    ensures
      var b, e := Body("\n" + text, p.partitionBy.Some?), Entry(lead + UnindentedOn(p, ind, st, rest)).value.value;
      b.Some? && b.value.value.subs == e.subPartitions && b.value.value.constraints == e.constraints
  {
    BlockPrinted(p, ind, st, ";\n" + rest, text);
    BodyOfEntryTells(p, lead, st, text, ServerOn(p, st, PartitionByOn(p, st, Pad(p) + ("{\n" + text))));
  }

  /** The sub-partitions read start with those of the block that was printed. */
  lemma BadEntriesNotBack(p: Partition, lead: string, ind: string, st: Style, rest: string, list: string)
    requires WellFormedHead(p, st) && p.partitionBy.Some? && StyleOk(st) && Blanks(ind) && Blanks(lead)
    requires
      var inner := ind + st.indent;
      list == EntriesOn(p.partitions, inner + st.indent, st,
                        inner + ("}\n" + ConstraintsOn(p.constraints, inner, st, ind + ("}" + (";\n" + rest)))))
    requires Misread("\n" + list, AsBounds(p.partitions)) && Entry(lead + UnindentedOn(p, ind, st, rest)).Some?
    ensures Entry(lead + UnindentedOn(p, ind, st, rest)).value.value != AsBound(p)
  {
    var inner := ind + st.indent;
    BlockTold(p, lead, ind, st, rest, inner + (Keyword("PARTITIONS", st) + (" {\n" + list)));
    TextTells(inner, st, list);
    InsideOfBound(p);
  }

  lemma InsideOfBound(p: Partition)
    ensures AsBound(p).subPartitions == AsBounds(p.partitions) &&
      AsBound(p).constraints == ConstraintDefsOf(p.constraints)
  {
  }

  lemma TextTells(inner: string, st: Style, list: string)
    requires Blanks(inner) && Body("\n" + (inner + (Keyword("PARTITIONS", st) + (" {\n" + list))), true).Some?
    ensures Entries("\n" + list).Some?
    ensures Entries("\n" + list).value.value <=
      Body("\n" + (inner + (Keyword("PARTITIONS", st) + (" {\n" + list))), true).value.value.subs
  {
    KeywordLine("PARTITIONS", inner, st, " {\n" + list);
    BodyTells("\n" + (inner + (Keyword("PARTITIONS", st) + (" {\n" + list))),
      Keyword("PARTITIONS", st) + (" {\n" + list));
    PartitionsTell(list);
  }

  lemma BlockPrinted(p: Partition, ind: string, st: Style, rest: string, text: string)
    requires HasBody(p) && text == InnerOn(p, ind, st, ind + ("}" + rest))
    ensures BodyOn(p, ind, st, rest) == Pad(p) + ("{\n" + text)
  {
    BraceLine(text);
  }

  lemma BodyOfEntryTells(p: Partition, lead: string, st: Style, text: string, tail: string)
    requires WellFormedHead(p, st) && HasBody(p) && StyleOk(st) && Blanks(lead)
    requires tail == ServerOn(p, st, PartitionByOn(p, st, Pad(p) + ("{\n" + text))) &&
      Entry(lead + NameOn(p, st, tail)).Some?
    ensures Body("\n" + text, p.partitionBy.Some?).Some?
    ensures Body("\n" + text, p.partitionBy.Some?).value.value.subs ==
      Entry(lead + NameOn(p, st, tail)).value.value.subPartitions
    ensures Body("\n" + text, p.partitionBy.Some?).value.value.constraints ==
      Entry(lead + NameOn(p, st, tail)).value.value.constraints
  {
    var end := "{\n" + text;
    BraceLine(text);
    var s1 := " " + (p.bounds + tail);
    OpenReads(p, lead, st, tail);
    NameReads(p.name, st, s1);
    RawReads(p, st, end);
    BoundReads(p, st);
    StrategyMarks(p, st);
    BlockTells(lead + NameOn(p, st, tail), p.foreign, QuoteIdent(p.name, st) + s1, Identifier([], p.name), s1,
               RawText(p, st), end, HeadBound(p));
  }

  /** What is read, if anything, does not begin the given list. */
  predicate Misread(s: string, bounds: seq<Bound>) {
    Entries(s).Some? ==> !(Entries(s).value.value <= bounds)
  }

  lemma MisreadStep(s: string, s1: string, b: Bound, others: seq<Bound>)
    requires SkipBlank(s) == s1 && s1 != [] && s1[0] != '}'
    requires Entry(s1).Some? && Entry(s1).value.value == b ==> Misread(Entry(s1).value.rest, others)
    ensures Misread(s, [b] + others)
  {
    if Entries(s).Some? {
      EntriesTell(s, s1);
      NotPrefix(Entry(s1).value.value, Entries(Entry(s1).value.rest).value.value, b, others);
    }
  }

  lemma MisreadFirst(p: Partition, ind: string, st: Style, more: string, b: Bound, others: seq<Bound>)
    requires Blanks(ind)
    requires var e := Entry("" + UnindentedOn(p, ind, st, more));
      e.Some? && e.value.value == b ==> Misread(e.value.rest, others)
    ensures Misread("\n" + EntryOn(p, ind, st, more), [b] + others)
  {
    var s1 := UnindentedOn(p, ind, st, more);
    EntryVisible(p, ind, st, more);
    SkipsLine(ind, s1);
    assert "" + s1 == s1;
    MisreadStep("\n" + (ind + s1), s1, b, others);
  }

  /** A bad name among the entries shows among what is read, if anything is. */
  lemma {:induction false} BadEntries(ps: seq<Partition>, ind: string, st: Style, tail: string)
    requires FitAll(ps, st) && !NamesGoodAll(ps, st) && StyleOk(st) && Blanks(ind)
    ensures Misread("\n" + EntriesOn(ps, ind, st, tail), AsBounds(ps))
    decreases ps, 0
  {
    var more := EntriesOn(ps[1..], ind, st, tail);
    if NamesGood(ps[0], st) {
      FitAndNamed(ps[0], st);
      UnindentedBack(ps[0], "", ind, st, more);
      BadEntries(ps[1..], ind, st, tail);
    } else {
      BadNotBack(ps[0], "", ind, st, more);
    }
    MisreadFirst(ps[0], ind, st, more, AsBound(ps[0]), AsBounds(ps[1..]));
  }

  lemma NotPrefix<T>(x: T, a: seq<T>, y: T, b: seq<T>)
    requires x == y ==> !(a <= b)
    ensures !([x] + a <= [y] + b)
  {
    if [x] + a <= [y] + b {
      assert ([x] + a)[0] == ([y] + b)[0];
      assert forall i :: 0 <= i < |a| ==> a[i] == ([x] + a)[i + 1] == ([y] + b)[i + 1];
    }
  }
}

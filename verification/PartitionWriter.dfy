/** The dump's printer of partition entries, writing to a builder. */
module PartitionWriter {
  import opened Text
  import opened Scanner
  import opened PartitionGrammar
  import opened PartitionPrinter

  class Builder {
    var text: string

    constructor ()
      ensures text == ""
    {
      text := "";
    }

    /** Writes the first part of what is still to be written. */
    method Write(s: string, ghost rest: string)
      modifies this
      ensures text == old(text) + s && text + rest == old(text) + (s + rest)
    {
      text := text + s;
    }
  }

  /** Writes one entry, whatever is written after it. */
  method RenderPartitionEntry(b: Builder, p: Partition, ind: string, st: Style, ghost rest: string)
    modifies b
    ensures b.text + rest == old(b.text) + EntryOn(p, ind, st, rest)
    decreases p
  {
    ghost var end := ";\n" + rest;
    ghost var body := BodyOn(p, ind, st, end);
    ghost var clause := PartitionByOn(p, st, body);
    b.Write(ind, UnindentedOn(p, ind, st, rest));
    RenderName(b, p, st, ServerOn(p, st, clause));
    RenderServer(b, p, st, clause);
    RenderPartitionBy(b, p, st, body);
    if p.partitionBy.Some? || p.constraints != [] {
      ghost var close := ind + ("}" + end);
      b.Write(" {\n", InnerOn(p, ind, st, close));
      var inner := ind + st.indent;
      ghost var after := ConstraintsOn(p.constraints, inner, st, close);
      if p.partitionBy.Some? {
        RenderPartitions(b, p, inner, st, after);
      }
      RenderConstraints(b, p.constraints, inner, st, close);
      b.Write(ind, "}" + end);
      b.Write("}", end);
    }
    b.Write(";\n", rest);
  }

  method RenderPartitions(b: Builder, p: Partition, inner: string, st: Style, ghost rest: string)
    modifies b
    ensures b.text + rest == old(b.text) + (inner + (Keyword("PARTITIONS", st) +
      (" {\n" + EntriesOn(p.partitions, inner + st.indent, st, inner + ("}\n" + rest)))))
    decreases p, 0
  {
    var nested := inner + st.indent;
    ghost var end := inner + ("}\n" + rest);
    ghost var list := EntriesOn(p.partitions, nested, st, end);
    b.Write(inner, Keyword("PARTITIONS", st) + (" {\n" + list));
    b.Write(Keyword("PARTITIONS", st), " {\n" + list);
    b.Write(" {\n", list);
    ghost var total := b.text + list;
    for i := 0 to |p.partitions|
      invariant b.text + EntriesOn(p.partitions[i..], nested, st, end) == total
    {
      assert p.partitions[i..][0] == p.partitions[i] && p.partitions[i..][1..] == p.partitions[i + 1..];
      RenderPartitionEntry(b, p.partitions[i], nested, st, EntriesOn(p.partitions[i + 1..], nested, st, end));
    }
    assert p.partitions[|p.partitions|..] == [];
    b.Write(inner, "}\n" + rest);
    b.Write("}\n", rest);
  }

  method RenderName(b: Builder, p: Partition, st: Style, ghost rest: string)
    modifies b
    ensures b.text + rest == old(b.text) + NameOn(p, st, rest)
  {
    ghost var name := QuoteIdent(p.name, st) + (" " + (p.bounds + rest));
    if p.foreign {
      b.Write(Keyword("FOREIGN", st) + " ", name);
    } else {
      assert "" + name == name;
    }
    b.Write(QuoteIdent(p.name, st), " " + (p.bounds + rest));
    b.Write(" ", p.bounds + rest);
    b.Write(p.bounds, rest);
  }

  method RenderServer(b: Builder, p: Partition, st: Style, ghost rest: string)
    modifies b
    ensures b.text + rest == old(b.text) + ServerOn(p, st, rest)
  {
    if p.foreign {
      ghost var more :=
        if p.foreignOptions == [] then rest
        else " " + (Keyword("OPTIONS", st) + (" (" + OptionsOn(p.foreignOptions, ")" + rest)));
      if p.foreignServer.Some? {
        var name := QuoteIdent(p.foreignServer.value, st);
        b.Write(" ", Keyword("SERVER", st) + (" " + (name + more)));
        b.Write(Keyword("SERVER", st), " " + (name + more));
        b.Write(" ", name + more);
        b.Write(name, more);
      }
      if |p.foreignOptions| > 0 {
        ghost var list := OptionsOn(p.foreignOptions, ")" + rest);
        b.Write(" ", Keyword("OPTIONS", st) + (" (" + list));
        b.Write(Keyword("OPTIONS", st), " (" + list);
        b.Write(" (", list);
        var parts := OptionTexts(p.foreignOptions);
        OptionsJoined(p.foreignOptions, parts, ")" + rest);
        b.Write(Join(parts, ", "), ")" + rest);
        b.Write(")", rest);
      }
    }
  }

  method OptionTexts(opts: seq<StorageParam>) returns (parts: seq<string>)
    ensures |parts| == |opts| && forall i :: 0 <= i < |opts| ==> parts[i] == OptionText(opts[i])
  {
    parts := [];
    for i := 0 to |opts|
      invariant |parts| == i && forall j :: 0 <= j < i ==> parts[j] == OptionText(opts[j])
    {
      parts := parts + [OptionText(opts[i])];
    }
  }

  function OptionText(o: StorageParam): string {
    o.key + (" " + InQuotes(o.value, '\''))
  }

  /** Joined with commas, the options read as the list. */
  lemma {:induction false} OptionsJoined(opts: seq<StorageParam>, parts: seq<string>, rest: string)
    requires opts != [] && |parts| == |opts| && forall i :: 0 <= i < |opts| ==> parts[i] == OptionText(opts[i])
    ensures Join(parts, ", ") + rest == OptionsOn(opts, rest)
    decreases |opts|
  {
    var q := InQuotes(opts[0].value, '\'');
    if |opts| == 1 {
      OptionTextOn(opts[0].key, q, rest);
    } else {
      OptionsJoined(opts[1..], parts[1..], rest);
      var more := Join(parts[1..], ", ");
      OptionTextOn(opts[0].key, q, ", " + (more + rest));
      assert parts[0] + ", " + more + rest == parts[0] + (", " + (more + rest));
    }
  }

  lemma OptionTextOn(key: string, quoted: string, rest: string)
    ensures key + (" " + quoted) + rest == key + (" " + (quoted + rest))
  {
  }

  method RenderPartitionBy(b: Builder, p: Partition, st: Style, ghost rest: string)
    modifies b
    ensures b.text + rest == old(b.text) + PartitionByOn(p, st, rest)
  {
    if p.partitionBy.Some? {
      var spec := p.partitionBy.value;
      ghost var columns := " (" + (Join(spec.columns, ", ") + (")" + rest));
      ghost var strategy := " " + (Keyword(spec.strategy, st) + columns);
      b.Write(" ", SubClauseOn(spec, st, rest));
      b.Write(Keyword("PARTITION", st), " " + (Keyword("BY", st) + strategy));
      b.Write(" ", Keyword("BY", st) + strategy);
      b.Write(Keyword("BY", st), strategy);
      b.Write(" ", Keyword(spec.strategy, st) + columns);
      b.Write(Keyword(spec.strategy, st), columns);
      b.Write(" (", Join(spec.columns, ", ") + (")" + rest));
      b.Write(Join(spec.columns, ", "), ")" + rest);
      b.Write(")", rest);
    }
  }

  method RenderConstraints(b: Builder, cs: seq<TableConstraint>, ind: string, st: Style, ghost rest: string)
    modifies b
    ensures b.text + rest == old(b.text) + ConstraintsOn(cs, ind, st, rest)
  {
    ghost var total := b.text + ConstraintsOn(cs, ind, st, rest);
    for i := 0 to |cs|
      invariant b.text + ConstraintsOn(cs[i..], ind, st, rest) == total
    {
      assert cs[i..][0] == cs[i] && cs[i..][1..] == cs[i + 1..];
      RenderConstraint(b, cs[i], ind, st, ConstraintsOn(cs[i + 1..], ind, st, rest));
    }
    assert cs[|cs|..] == [];
  }

  method RenderConstraint(b: Builder, c: TableConstraint, ind: string, st: Style, ghost rest: string)
    modifies b
    ensures b.text + rest == old(b.text) + ConstraintOn(c, ind, st, rest)
  {
    ghost var end := ";\n" + rest;
    ghost var expr := c.expr + FlagsOn(c, st, end);
    var name := QuoteIdent(c.name, st);
    b.Write(ind, Keyword("CONSTRAINT", st) + (" " + (name + (" " + expr))));
    b.Write(Keyword("CONSTRAINT", st), " " + (name + (" " + expr)));
    b.Write(" ", name + (" " + expr));
    b.Write(name, " " + expr);
    b.Write(" ", expr);
    b.Write(c.expr, FlagsOn(c, st, end));
    RenderFlag(b, c.notValid, "VALID", st, FlagOn(c.notEnforced, "ENFORCED", st, end));
    RenderFlag(b, c.notEnforced, "ENFORCED", st, end);
    b.Write(";\n", rest);
  }

  method RenderFlag(b: Builder, on: bool, word: string, st: Style, ghost rest: string)
    modifies b
    ensures b.text + rest == old(b.text) + FlagOn(on, word, st, rest)
  {
    if on {
      b.Write(" ", Keyword("NOT", st) + (" " + (Keyword(word, st) + rest)));
      b.Write(Keyword("NOT", st), " " + (Keyword(word, st) + rest));
      b.Write(" ", Keyword(word, st) + rest);
      b.Write(Keyword(word, st), rest);
    }
  }
}

/** How the dump prints partition entries. */
module PartitionPrinter {
  import opened Text
  import opened Scanner
  import opened PartitionGrammar

  datatype PartitionSpec = PartitionSpec(strategy: string, columns: seq<string>)

  datatype TableConstraint = TableConstraint(name: string, expr: string, notValid: bool, notEnforced: bool)

  datatype Partition = Partition(
    name: string, bounds: string, foreign: bool, foreignServer: Option<string>, foreignOptions: seq<StorageParam>,
    partitionBy: Option<PartitionSpec>, partitions: seq<Partition>, constraints: seq<TableConstraint>)

  /** The formatting options, and the keywords that are never printed bare. */
  datatype Style = Style(lowerCase: bool, indent: string, reserved: set<string>)

  function Keyword(k: string, st: Style): string {
    if st.lowerCase then ToLower(k) else ToUpper(k)
  }

  predicate IsSafeBare(s: string) {
    s != [] && forall i :: 0 <= i < |s| ==>
      'a' <= s[i] <= 'z' || s[i] == '_' || (i > 0 && ('0' <= s[i] <= '9' || s[i] == '$'))
  }

  predicate PrintedBare(s: string, st: Style) {
    IsSafeBare(s) && s !in st.reserved
  }

  function QuoteIdent(s: string, st: Style): string {
    if PrintedBare(s, st) then s else InQuotes(s, '"')
  }

  function Join(parts: seq<string>, sep: string): string {
    if parts == [] then []
    else if |parts| == 1 then parts[0]
    else parts[0] + sep + Join(parts[1..], sep)
  }

  // ----- each piece in front of the text that follows it

  function OptionsOn(opts: seq<StorageParam>, rest: string): string
    requires opts != []
  {
    opts[0].key + (" " + (InQuotes(opts[0].value, '\'') +
                          if |opts| == 1 then rest else ", " + OptionsOn(opts[1..], rest)))
  }

  function ServerOn(p: Partition, st: Style, rest: string): string {
    if !p.foreign then rest
    else
      var more :=
        if p.foreignOptions == [] then rest
        else " " + (Keyword("OPTIONS", st) + (" (" + OptionsOn(p.foreignOptions, ")" + rest)));
      if p.foreignServer.None? then more
      else " " + (Keyword("SERVER", st) + (" " + (QuoteIdent(p.foreignServer.value, st) + more)))
  }

  function SubClauseOn(spec: PartitionSpec, st: Style, rest: string): string {
    Keyword("PARTITION", st) + (" " + (Keyword("BY", st) + (" " + (Keyword(spec.strategy, st) +
    (" (" + (Join(spec.columns, ", ") + (")" + rest)))))))
  }

  function PartitionByOn(p: Partition, st: Style, rest: string): string {
    if p.partitionBy.None? then rest else " " + SubClauseOn(p.partitionBy.value, st, rest)
  }

  function FlagOn(on: bool, word: string, st: Style, rest: string): string {
    if on then " " + (Keyword("NOT", st) + (" " + (Keyword(word, st) + rest))) else rest
  }

  function FlagsOn(c: TableConstraint, st: Style, rest: string): string {
    FlagOn(c.notValid, "VALID", st, FlagOn(c.notEnforced, "ENFORCED", st, rest))
  }

  function ConstraintOn(c: TableConstraint, ind: string, st: Style, rest: string): string {
    ind + (Keyword("CONSTRAINT", st) + (" " + (QuoteIdent(c.name, st) + (" " + (c.expr + FlagsOn(c, st, ";\n" + rest))))))
  }

  function ConstraintsOn(cs: seq<TableConstraint>, ind: string, st: Style, rest: string): string {
    if cs == [] then rest else ConstraintOn(cs[0], ind, st, ConstraintsOn(cs[1..], ind, st, rest))
  }

  predicate HasBody(p: Partition) {
    p.partitionBy.Some? || p.constraints != []
  }

  function NameOn(p: Partition, st: Style, rest: string): string {
    (if p.foreign then Keyword("FOREIGN", st) + " " else "") + (QuoteIdent(p.name, st) + (" " + (p.bounds + rest)))
  }

  function EntryOn(p: Partition, ind: string, st: Style, rest: string): string
    decreases p
  {
    ind + UnindentedOn(p, ind, st, rest)
  }

  function UnindentedOn(p: Partition, ind: string, st: Style, rest: string): string
    decreases p, 1
  {
    NameOn(p, st, ServerOn(p, st, PartitionByOn(p, st, BodyOn(p, ind, st, ";\n" + rest))))
  }

  function BodyOn(p: Partition, ind: string, st: Style, rest: string): string
    decreases p, 0
  {
    if HasBody(p) then " {\n" + InnerOn(p, ind, st, ind + ("}" + rest)) else rest
  }

  function InnerOn(p: Partition, ind: string, st: Style, rest: string): string
    decreases p, 0, 0
  {
    var inner := ind + st.indent;
    var after := ConstraintsOn(p.constraints, inner, st, rest);
    if p.partitionBy.None? then after
    else inner + (Keyword("PARTITIONS", st) + (" {\n" + EntriesOn(p.partitions, inner + st.indent, st, inner + ("}\n" + after))))
  }

  function EntriesOn(ps: seq<Partition>, ind: string, st: Style, rest: string): string
    decreases ps
  {
    if ps == [] then rest else EntryOn(ps[0], ind, st, EntriesOn(ps[1..], ind, st, rest))
  }
}

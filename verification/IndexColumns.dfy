/** The columns of an index: how the dump prints them and how the block parser
    reads them, as functions of the text. */
module IndexColumns {
  import opened Text
  import opened Scanner
  import opened PartitionGrammar
  import opened PartitionPrinter

  /** A column, or an expression, with its clauses; an empty order or place for nulls is not written. */
  datatype IndexColumn = IndexColumn(
    expr: Option<string>, name: string, collation: Option<string>,
    opClass: Option<string>, params: seq<StorageParam>, sortOrder: string, nulls: string)

  // ----- printing

  function ParamText(p: StorageParam): string {
    p.key + (" = " + p.value)
  }

  function ParamsText(ps: seq<StorageParam>): string {
    if ps == [] then ""
    else if |ps| == 1 then ParamText(ps[0])
    else ParamText(ps[0]) + (", " + ParamsText(ps[1..]))
  }

  function ParamsOn(ps: seq<StorageParam>, rest: string): string {
    if ps == [] then rest else "(" + (ParamsText(ps) + (")" + rest))
  }

  function NullsOn(col: IndexColumn, st: Style, rest: string): string {
    if col.nulls == "" then rest else " " + (Keyword("NULLS", st) + (" " + (col.nulls + rest)))
  }

  function SortOn(col: IndexColumn, st: Style, rest: string): string {
    var more := NullsOn(col, st, rest);
    if col.sortOrder == "" then more else " " + (col.sortOrder + more)
  }

  function OpClassOn(col: IndexColumn, st: Style, rest: string): string {
    var more := SortOn(col, st, rest);
    if col.opClass.None? then more else " " + (col.opClass.value + ParamsOn(col.params, more))
  }

  function CollateOn(col: IndexColumn, st: Style, rest: string): string {
    var more := OpClassOn(col, st, rest);
    if col.collation.None? then more
    else " " + (Keyword("COLLATE", st) + (" " + (QuoteIdent(col.collation.value, st) + more)))
  }

  function ColumnOn(col: IndexColumn, st: Style, rest: string): string {
    var more := CollateOn(col, st, rest);
    if col.expr.Some? then "(" + (col.expr.value + (")" + more)) else col.name + more
  }

  function ColumnsText(cols: seq<IndexColumn>, st: Style): string {
    if cols == [] then ""
    else ColumnOn(cols[0], st, if |cols| == 1 then "" else ", " + ColumnsText(cols[1..], st))
  }

  // ----- reading

  predicate IsBreak(c: char) {
    c == ' ' || c == '\t' || c == '\n' || c == '\r' || c == '('
  }

  /** The text before the first space or opening parenthesis. */
  function BareToken(s: string): (r: string)
    ensures r <= s
  {
    if s == [] || IsBreak(s[0]) then [] else [s[0]] + BareToken(s[1..])
  }

  /** How much of a text its closing quote ends; a doubled quote does not. */
  function QuoteEnd(s: string): (n: nat)
    ensures n <= |s|
  {
    if s == [] then 0
    else if StartsWithTwo(s, '"', '"') then 2 + QuoteEnd(s[2..])
    else if s[0] == '"' then 1
    else 1 + QuoteEnd(s[1..])
  }

  /** One token, with its quotes, and the text after it, both without the white space around. */
  function IdentToken(text: string): Read<string> {
    var s := TrimSpace(text);
    var n := if StartsWith(s, '"') then 1 + QuoteEnd(s[1..]) else |BareToken(s)|;
    Read(s[..n], TrimSpace(s[n..]))
  }

  /** Where the first parenthesis that is open closes. */
  function GroupEnd(s: string, depth: int): (r: Option<nat>)
    ensures r.Some? ==> r.value < |s| && s[r.value] == ')' && (depth <= 0 ==> r.value > 0)
  {
    if s == [] then None
    else if s[0] == ')' && depth == 1 then Some(0)
    else
      var later :- GroupEnd(s[1..], if s[0] == '(' then depth + 1 else if s[0] == ')' then depth - 1 else depth);
      Some(later + 1)
  }

  /** The text within the parentheses at the front, and the text after them. */
  function ParenGroup(s: string): Option<Read<string>> {
    var end :- GroupEnd(s, 0);
    Some(Read(s[1..end], TrimSpace(s[end + 1..])))
  }

  function TrimQuotesLeft(s: string): (r: string)
    ensures |r| <= |s|
  {
    if s != [] && s[0] == '"' then TrimQuotesLeft(s[1..]) else s
  }

  function TrimQuotesRight(s: string): (r: string)
    ensures |r| <= |s|
  {
    if s != [] && s[|s| - 1] == '"' then TrimQuotesRight(s[..|s| - 1]) else s
  }

  function TrimQuotes(s: string): string {
    TrimQuotesRight(TrimQuotesLeft(s))
  }

  /** A key and its value, if the piece has an equals sign. */
  function ParamOf(part: string): seq<StorageParam> {
    var kv := Cut(TrimSpace(part), '=');
    if kv.None? then [] else [StorageParam(TrimSpace(kv.value.0), TrimSpace(kv.value.1))]
  }

  function ParamsOf(parts: seq<string>): seq<StorageParam> {
    if parts == [] then [] else ParamOf(parts[0]) + ParamsOf(parts[1..])
  }

  function StorageParams(raw: string): seq<StorageParam> {
    ParamsOf(SplitOn(raw, ','))
  }

  /** The column or expression at the front. */
  datatype Head = Head(expr: Option<string>, name: string, rest: string)

  function ExprHead(s: string, called: nat): Head
    requires called <= |s|
  {
    var group := ParenGroup(s[called..]);
    if group.None? then Head(Some(s), "", "")
    else if called == 0 then Head(Some(group.value.value), "", group.value.rest)
    else Head(Some(s[..called] + "(" + group.value.value + ")"), "", group.value.rest)
  }

  function HeadOf(s: string): Head {
    var word := |BareToken(s)|;
    if word < |s| && s[word] == '(' then ExprHead(s, word)
    else
      var token := IdentToken(s);
      Head(None, TrimQuotes(token.value), token.rest)
  }

  function CollateOf(s: string): Read<Option<string>> {
    var token := IdentToken(s);
    if ToUpper(token.value) == "COLLATE" then
      var name := IdentToken(token.rest);
      Read(Some(TrimQuotes(name.value)), name.rest)
    else Read(None, s)
  }

  predicate IsTrailingKeyword(word: string) {
    var w := ToUpper(word);
    w == "ASC" || w == "DESC" || w == "NULLS"
  }

  datatype OpClass = OpClass(name: Option<string>, params: seq<StorageParam>)

  function OpClassOf(s: string): Read<OpClass> {
    var token := IdentToken(s);
    if s == "" || IsTrailingKeyword(token.value) then Read(OpClass(None, []), s)
    else
      var name := Some(TrimQuotes(token.value));
      var group := if StartsWith(token.rest, '(') then ParenGroup(token.rest) else None;
      if group.Some? then Read(OpClass(name, StorageParams(group.value.value)), group.value.rest)
      else Read(OpClass(name, []), token.rest)
  }

  function SortOf(s: string): Read<string> {
    var token := IdentToken(s);
    var w := ToUpper(token.value);
    if w == "DESC" || w == "ASC" then Read(w, token.rest) else Read("", s)
  }

  function NullsOf(s: string): string {
    var token := IdentToken(s);
    var place := ToUpper(IdentToken(token.rest).value);
    if ToUpper(token.value) == "NULLS" && (place == "FIRST" || place == "LAST") then place else ""
  }

  function ColumnEntry(text: string): IndexColumn {
    var head := HeadOf(TrimSpace(text));
    var collate := if head.expr.Some? then Read(None, head.rest) else CollateOf(head.rest);
    var opClass := if head.expr.Some? then Read(OpClass(None, []), collate.rest) else OpClassOf(collate.rest);
    var order := SortOf(opClass.rest);
    IndexColumn(head.expr, head.name, collate.value, opClass.value.name, opClass.value.params, order.value, NullsOf(order.rest))
  }

  function EntriesOf(parts: seq<string>): seq<IndexColumn> {
    if parts == [] then [] else [ColumnEntry(parts[0])] + EntriesOf(parts[1..])
  }

  function Columns(raw: string): seq<IndexColumn> {
    EntriesOf(NonBlank(SplitTopLevel(raw, ',', 0, [])))
  }
}

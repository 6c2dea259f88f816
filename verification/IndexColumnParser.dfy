/** The loops by which index columns are printed and read. */
module IndexColumnParser {
  import opened Text
  import opened Scanner
  import opened PartitionGrammar
  import opened PartitionPrinter
  import opened PartitionParser
  import opened PartitionWriter
  import opened IndexColumns

  // ----- reading

  method SplitIndexIdentToken(text: string) returns (token: string, rest: string)
    ensures Read(token, rest) == IdentToken(text)
  {
    var s := TrimSpace(text);
    if StartsWith(s, '"') {
      var i := 1;
      while i < |s|
        invariant 1 <= i <= |s| && i + QuoteEnd(s[i..]) == 1 + QuoteEnd(s[1..])
      {
        if s[i] == '"' {
          if i + 1 < |s| && s[i + 1] == '"' {
            assert s[i..][2..] == s[i + 2..];
            i := i + 2;
            continue;
          }
          assert QuoteEnd(s[i..]) == 1;
          return s[..i + 1], TrimSpace(s[i + 1..]);
        }
        assert s[i..][1..] == s[i + 1..];
        i := i + 1;
      }
      assert s[i..] == [];
      return s[..i], TrimSpace(s[i..]);
    }
    var word := |BareToken(s)|;
    return s[..word], TrimSpace(s[word..]);
  }

  lemma GroupEndStep(s: string, i: nat, depth: int)
    requires i < |s|
    ensures GroupEnd(s[i..], depth) ==
      if s[i] == ')' && depth == 1 then Some(0)
      else Further(1, GroupEnd(s[i + 1..], if s[i] == '(' then depth + 1 else if s[i] == ')' then depth - 1 else depth))
  {
    assert s[i..][0] == s[i] && s[i..][1..] == s[i + 1..];
  }

  /** A place in the text after its first characters. */
  function Further(i: nat, later: Option<nat>): Option<nat> {
    if later.None? then None else Some(i + later.value)
  }

  lemma GroupEndOn(s: string, i: nat, depth: int)
    requires i < |s|
    ensures Further(i, GroupEnd(s[i..], depth)) ==
      if s[i] == ')' && depth == 1 then Some(i)
      else
        Further(i + 1, GroupEnd(s[i + 1..], if s[i] == '(' then depth + 1 else if s[i] == ')' then depth - 1 else depth))
  {
    GroupEndStep(s, i, depth);
  }

  method SplitIndexParenGroup(s: string) returns (group: Option<Read<string>>)
    ensures group == ParenGroup(s)
  {
    var depth: int := 0;
    assert s[0..] == s;
    for i := 0 to |s|
      invariant GroupEnd(s, 0) == Further(i, GroupEnd(s[i..], depth))
    {
      GroupEndOn(s, i, depth);
      if s[i] == '(' {
        depth := depth + 1;
      } else if s[i] == ')' {
        depth := depth - 1;
        if depth == 0 {
          return Some(Read(s[1..i], TrimSpace(s[i + 1..])));
        }
      }
    }
    assert s[|s|..] == [];
    return None;
  }

  lemma {:induction false} ParamsOfNext(parts: seq<string>, i: nat)
    requires i < |parts|
    ensures ParamsOf(parts[..i + 1]) == ParamsOf(parts[..i]) + ParamOf(parts[i])
  {
    if i == 0 {
      assert parts[..1][1..] == [] && parts[..0] == [];
      assert ParamOf(parts[0]) + [] == [] + ParamOf(parts[0]);
    } else {
      ParamsOfNext(parts[1..], i - 1);
      assert parts[..i + 1][1..] == parts[1..][..i] && parts[..i][1..] == parts[1..][..i - 1];
      Assoc(ParamOf(parts[0]), ParamsOf(parts[1..][..i - 1]), ParamOf(parts[i]));
    }
  }

  method ParseStorageParams(raw: string) returns (params: seq<StorageParam>)
    ensures params == StorageParams(raw)
  {
    var parts := SplitOn(raw, ',');
    params := [];
    for i := 0 to |parts|
      invariant params == ParamsOf(parts[..i])
    {
      ParamsOfNext(parts, i);
      var kv := Cut(TrimSpace(parts[i]), '=');
      if kv.Some? {
        params := params + [StorageParam(TrimSpace(kv.value.0), TrimSpace(kv.value.1))];
      }
    }
    assert parts[..|parts|] == parts;
  }

  method ParseHead(s: string) returns (head: Head)
    ensures head == HeadOf(s)
  {
    var i := |BareToken(s)|;
    if i < |s| && s[i] == '(' {
      var group := SplitIndexParenGroup(s[i..]);
      if group.None? {
        return Head(Some(s), "", "");
      }
      if i == 0 {
        return Head(Some(group.value.value), "", group.value.rest);
      }
      return Head(Some(s[..i] + "(" + group.value.value + ")"), "", group.value.rest);
    }
    var name, rest := SplitIndexIdentToken(s);
    return Head(None, TrimQuotes(name), rest);
  }

  method ParseCollation(s: string) returns (collation: Option<string>, rest: string)
    ensures Read(collation, rest) == CollateOf(s)
  {
    var word, after := SplitIndexIdentToken(s);
    if ToUpper(word) == "COLLATE" {
      var name;
      name, rest := SplitIndexIdentToken(after);
      collation := Some(TrimQuotes(name));
    } else {
      collation, rest := None, s;
    }
  }

  method ParseOpClass(s: string) returns (opClass: OpClass, rest: string)
    ensures Read(opClass, rest) == OpClassOf(s)
  {
    opClass, rest := OpClass(None, []), s;
    if s != "" {
      var word, after := SplitIndexIdentToken(s);
      if !IsTrailingKeyword(word) {
        opClass, rest := OpClass(Some(TrimQuotes(word)), []), after;
        if StartsWith(after, '(') {
          var group := SplitIndexParenGroup(after);
          if group.Some? {
            var params := ParseStorageParams(group.value.value);
            opClass, rest := opClass.(params := params), group.value.rest;
          }
        }
      }
    }
  }

  method ParseOrder(s: string) returns (sortOrder: string, nulls: string)
    ensures sortOrder == SortOf(s).value && nulls == NullsOf(SortOf(s).rest)
  {
    sortOrder, nulls := "", "";
    var rest := s;
    var word, after := SplitIndexIdentToken(s);
    if ToUpper(word) == "DESC" {
      sortOrder, rest := "DESC", after;
    } else if ToUpper(word) == "ASC" {
      sortOrder, rest := "ASC", after;
    }
    word, after := SplitIndexIdentToken(rest);
    if ToUpper(word) == "NULLS" {
      word, after := SplitIndexIdentToken(after);
      if ToUpper(word) == "FIRST" {
        nulls := "FIRST";
      } else if ToUpper(word) == "LAST" {
        nulls := "LAST";
      }
    }
  }

  method ParseIndexColumnEntry(text: string) returns (col: IndexColumn)
    ensures col == ColumnEntry(text)
  {
    var head := ParseHead(TrimSpace(text));
    var rest := head.rest;
    var collation: Option<string> := None;
    var opClass := OpClass(None, []);
    if head.expr.None? {
      collation, rest := ParseCollation(rest);
      opClass, rest := ParseOpClass(rest);
    }
    var sortOrder, nulls := ParseOrder(rest);
    col := IndexColumn(head.expr, head.name, collation, opClass.name, opClass.params, sortOrder, nulls);
  }

  method ParseIndexColumns(raw: string) returns (cols: seq<IndexColumn>)
    ensures cols == Columns(raw)
  {
    var parts := SplitAtTopLevel(raw, ',');
    cols := [];
    for i := 0 to |parts|
      invariant cols + EntriesOf(NonBlank(parts[i..])) == Columns(raw)
    {
      assert parts[i..][0] == parts[i] && parts[i..][1..] == parts[i + 1..];
      var part := TrimSpace(parts[i]);
      if part == "" {
        assert [] + NonBlank(parts[i + 1..]) == NonBlank(parts[i + 1..]);
        continue;
      }
      var col := ParseIndexColumnEntry(part);
      NextPart(part, NonBlank(parts[i + 1..]));
      Assoc(cols, [col], EntriesOf(NonBlank(parts[i + 1..])));
      cols := cols + [col];
    }
    assert parts[|parts|..] == [] && cols + [] == cols;
  }

  lemma NextPart(part: string, more: seq<string>)
    ensures EntriesOf([part] + more) == [ColumnEntry(part)] + EntriesOf(more)
  {
    assert ([part] + more)[1..] == more;
  }

  // ----- printing

  method RenderParams(b: Builder, params: seq<StorageParam>, ghost rest: string)
    modifies b
    ensures b.text + rest == old(b.text) + ParamsOn(params, rest)
  {
    if |params| > 0 {
      var text := JoinParams(params);
      b.Write("(", text + (")" + rest));
      b.Write(text, ")" + rest);
      b.Write(")", rest);
    }
  }

  method JoinParams(params: seq<StorageParam>) returns (text: string)
    ensures text == ParamsText(params)
  {
    text := "";
    for i := 0 to |params|
      invariant text + FromParam(params, i) == ParamsText(params)
    {
      ghost var was := text;
      var sep := if i > 0 then ", " else "";
      var p := params[i].key + (" = " + params[i].value);
      FromParamNext(params, i, was);
      text := text + sep + p;
    }
    assert text + "" == text;
  }

  /** What is written from the i-th parameter on. */
  function FromParam(ps: seq<StorageParam>, i: nat): string
    requires i <= |ps|
  {
    if i == |ps| then "" else if i == 0 then ParamsText(ps) else ", " + ParamsText(ps[i..])
  }

  lemma FromParamNext(ps: seq<StorageParam>, i: nat, was: string)
    requires i < |ps|
    ensures was + FromParam(ps, i) == was + (if i > 0 then ", " else "") + ParamText(ps[i]) + FromParam(ps, i + 1)
  {
    FromParamStep(ps, i);
    Assoc(was, if i > 0 then ", " else "", ParamText(ps[i]));
    Assoc(was, (if i > 0 then ", " else "") + ParamText(ps[i]), FromParam(ps, i + 1));
  }

  lemma FromParamStep(ps: seq<StorageParam>, i: nat)
    requires i < |ps|
    ensures FromParam(ps, i) == (if i > 0 then ", " else "") + ParamText(ps[i]) + FromParam(ps, i + 1)
  {
    assert ps[i..][0] == ps[i] && ps[0..] == ps;
    FurtherOn(ps, i, 1);
  }

  /** Writes one column, whatever is written after it. */
  method RenderIndexColumn(b: Builder, col: IndexColumn, st: Style, ghost rest: string)
    modifies b
    ensures b.text + rest == old(b.text) + ColumnOn(col, st, rest)
  {
    ghost var sort := SortOn(col, st, rest);
    ghost var clauses := CollateOn(col, st, rest);
    if col.expr.Some? {
      b.Write("(", col.expr.value + (")" + clauses));
      b.Write(col.expr.value, ")" + clauses);
      b.Write(")", clauses);
    } else {
      b.Write(col.name, clauses);
    }
    if col.collation.Some? {
      RenderCollation(b, col.collation.value, st, OpClassOn(col, st, rest));
    }
    if col.opClass.Some? {
      b.Write(" ", col.opClass.value + ParamsOn(col.params, sort));
      b.Write(col.opClass.value, ParamsOn(col.params, sort));
      RenderParams(b, col.params, sort);
    }
    RenderOrder(b, col, st, rest);
  }

  method RenderCollation(b: Builder, name: string, st: Style, ghost after: string)
    modifies b
    ensures b.text + after == old(b.text) + (" " + (Keyword("COLLATE", st) + (" " + (QuoteIdent(name, st) + after))))
  {
    var k, quoted := Keyword("COLLATE", st), QuoteIdent(name, st);
    b.Write(" ", k + (" " + (quoted + after)));
    b.Write(k, " " + (quoted + after));
    b.Write(" ", quoted + after);
    b.Write(quoted, after);
  }

  method RenderOrder(b: Builder, col: IndexColumn, st: Style, ghost rest: string)
    modifies b
    ensures b.text + rest == old(b.text) + SortOn(col, st, rest)
  {
    ghost var more := NullsOn(col, st, rest);
    if col.sortOrder != "" {
      b.Write(" ", col.sortOrder + more);
      b.Write(col.sortOrder, more);
    }
    if col.nulls != "" {
      var k := Keyword("NULLS", st);
      b.Write(" ", k + (" " + (col.nulls + rest)));
      b.Write(k, " " + (col.nulls + rest));
      b.Write(" ", col.nulls + rest);
      b.Write(col.nulls, rest);
    }
  }

  /** What is written from the i-th column on. */
  function FromColumn(cols: seq<IndexColumn>, i: nat, st: Style): string
    requires i <= |cols|
  {
    if i == |cols| then "" else if i == 0 then ColumnsText(cols, st) else ", " + ColumnsText(cols[i..], st)
  }

  lemma FromColumnNext(cols: seq<IndexColumn>, i: nat, st: Style)
    requires i < |cols|
    ensures FromColumn(cols, i, st) == (if i > 0 then ", " else "") + ColumnOn(cols[i], st, FromColumn(cols, i + 1, st))
  {
    assert cols[i..][0] == cols[i] && cols[i..][1..] == cols[i + 1..] && cols[0..] == cols;
  }

  method RenderIndexColumns(b: Builder, cols: seq<IndexColumn>, st: Style)
    modifies b
    ensures b.text == old(b.text) + ColumnsText(cols, st)
  {
    for i := 0 to |cols|
      invariant b.text + FromColumn(cols, i, st) == old(b.text) + ColumnsText(cols, st)
    {
      FromColumnNext(cols, i, st);
      ghost var after := FromColumn(cols, i + 1, st);
      if i > 0 {
        b.Write(", ", ColumnOn(cols[i], st, after));
      }
      RenderIndexColumn(b, cols[i], st, after);
    }
  }
}

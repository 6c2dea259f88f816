/** Reads the target of a foreign key out of the constraint's text. */
module ForeignKeyText {
  import opened Text

  const REFERENCES := "REFERENCES"

  predicate EndsIdent(c: char) {
    c == ' ' || c == '\t' || c == '\n' || c == '('
  }

  /** The leading identifier, up to the first blank or parenthesis. */
  function FirstIdent(s: string): string {
    if s == [] || EndsIdent(s[0]) then [] else [s[0]] + FirstIdent(s[1..])
  }

  /** Every pair of double quotes becomes one, left to right. */
  function UnescapeQuotes(s: string): string {
    if |s| < 2 then s
    else if s[0] == '"' && s[1] == '"' then ['"'] + UnescapeQuotes(s[2..])
    else [s[0]] + UnescapeQuotes(s[1..])
  }

  function DropQuotes(s: string): string {
    if s == [] then [] else (if s[0] == '"' then [] else [s[0]]) + DropQuotes(s[1..])
  }

  function UnquoteIdent(s: string): string {
    DropQuotes(UnescapeQuotes(s))
  }

  /** Schema and name of a reference; the schema is "" when there is no dot. */
  function RefParts(ref: string): (string, string) {
    match Cut(ref, '.')
    case Some((schema, table)) => (schema, table)
    case None => ("", ref)
  }

  /** What is read as the target from the text after the keyword. */
  function ReadTarget(tail: string): (string, string) {
    RefParts(UnquoteIdent(FirstIdent(TrimSpace(tail))))
  }

  /** The target's schema ("" when the text has none) and name ("" when there is no target). */
  function ExtractRefParts(expr: string): (string, string) {
    match Index(ToUpper(expr), REFERENCES)
    case None => ("", "")
    case Some(i) => ReadTarget(expr[i + |REFERENCES|..])
  }

  /** The target as an index key, without falling back to any schema. */
  function ExtractRef(expr: string): string {
    var (schema, table) := ExtractRefParts(expr);
    if table == "" then "" else if schema != "" then schema + "." + table else table
  }

  // ----- what the text helpers compute

  /** Escaped or not, quotes never survive: unescaping first changes nothing. */
  lemma UnquoteDropsAllQuotes(s: string)
    ensures UnquoteIdent(s) == DropQuotes(s)
  {
    if |s| >= 2 {
      if s[0] == '"' && s[1] == '"' {
        UnquoteDropsAllQuotes(s[2..]);
        assert s[1..][1..] == s[2..];
      } else {
        UnquoteDropsAllQuotes(s[1..]);
      }
    }
  }

  lemma {:induction false} DropQuotesConcat(a: string, b: string)
    ensures DropQuotes(a + b) == DropQuotes(a) + DropQuotes(b)
  {
    if a == [] {
      assert a + b == b;
    } else {
      assert (a + b)[1..] == a[1..] + b;
      DropQuotesConcat(a[1..], b);
    }
  }

  lemma {:induction false} DropQuotesMembers(s: string)
    ensures |DropQuotes(s)| <= |s| && forall c :: c in DropQuotes(s) ==> c in s && c != '"'
    ensures DropQuotes(s) == s <==> '"' !in s
    ensures '.' in DropQuotes(s) <==> '.' in s
  {
    if s != [] {
      DropQuotesMembers(s[1..]);
      assert s == [s[0]] + s[1..];
    }
  }

  /** Dropping the quotes of a quoted name drops those within it too. */
  lemma {:induction false} DropQuotesDoubled(name: string)
    ensures DropQuotes(Double(name, '"')) == DropQuotes(name)
  {
    if name != [] {
      DropQuotesDoubled(name[1..]);
      DropQuotesConcat(if name[0] == '"' then "\"\"" else [name[0]], Double(name[1..], '"'));
    }
  }

  lemma DropQuotesQuoted(name: string)
    ensures DropQuotes(InQuotes(name, '"')) == DropQuotes(name)
  {
    DropQuotesDoubled(name);
    DropQuotesConcat("\"" + Double(name, '"'), "\"");
    DropQuotesConcat("\"", Double(name, '"'));
    assert DropQuotes(name) + [] == DropQuotes(name);
  }

  // ----- where an identifier ends

  predicate Unbroken(s: string) {
    forall i :: 0 <= i < |s| ==> !EndsIdent(s[i])
  }

  lemma {:induction false} FirstIdentUnbroken(s: string)
    ensures Unbroken(FirstIdent(s)) && (Unbroken(s) ==> FirstIdent(s) == s)
  {
    if s != [] && !EndsIdent(s[0]) {
      FirstIdentUnbroken(s[1..]);
      assert s == [s[0]] + s[1..];
    }
  }

  lemma {:induction false} FirstIdentStops(s: string, rest: string)
    requires rest != [] ==> EndsIdent(rest[0])
    ensures FirstIdent(s + rest) == FirstIdent(s)
  {
    if s == [] {
      assert s + rest == rest;
    } else {
      assert (s + rest)[1..] == s[1..] + rest;
      FirstIdentStops(s[1..], rest);
    }
  }

  /** Trimming on the right never eats into a head that ends in a visible character. */
  lemma {:induction false} TrimRightPrefix(head: string, tail: string)
    requires head != [] && !IsSpace(head[|head| - 1])
    ensures |head| <= |TrimRight(head + tail)| <= |head + tail|
    ensures TrimRight(head + tail) == (head + tail)[..|TrimRight(head + tail)|]
    decreases |tail|
  {
    if tail == [] {
      assert head + tail == head;
    } else if IsSpace(tail[|tail| - 1]) {
      assert (head + tail)[..|head + tail| - 1] == head + tail[..|tail| - 1];
      TrimRightPrefix(head, tail[..|tail| - 1]);
    }
  }

  /** The text of a reference that nothing but a blank or parenthesis follows. */
  lemma TargetInTail(lead: string, target: string, rest: string)
    requires AllSpace(lead) && target != [] && Trimmed(target) && (rest != [] ==> EndsIdent(rest[0]))
    ensures ReadTarget(lead + (target + rest)) == RefParts(DropQuotes(FirstIdent(target)))
  {
    TrimLeftSkips(lead, target + rest);
    TrimRightPrefix(target, rest);
    var suffix := TrimRight(target + rest)[|target|..];
    assert TrimRight(target + rest) == target + suffix;
    FirstIdentStops(target, suffix);
    UnquoteDropsAllQuotes(FirstIdent(target));
  }

  // ----- the parts of a reference

  lemma {:induction false} CutAtDot(a: string, b: string)
    requires '.' !in a
    ensures Cut(a + "." + b, '.') == Some((a, b))
  {
    if a == [] {
      assert a + "." + b == "." + b;
    } else {
      assert (a + "." + b)[1..] == a[1..] + "." + b;
      CutAtDot(a[1..], b);
      assert a == [a[0]] + a[1..];
    }
  }

  lemma {:induction false} CutParts(s: string)
    ensures Cut(s, '.').None? <==> '.' !in s
    ensures Cut(s, '.').Some? ==>
      var (a, b) := Cut(s, '.').value;
      s == a + "." + b && '.' !in a
  {
    if s != [] && s[0] != '.' {
      CutParts(s[1..]);
      assert s == [s[0]] + s[1..];
      if Cut(s[1..], '.').Some? {
        var (a, b) := Cut(s[1..], '.').value;
        assert [s[0]] + (a + "." + b) == [s[0]] + a + "." + b;
      }
    }
  }

  lemma RefPartsMembers(ref: string)
    ensures var (a, b) := RefParts(ref); '.' !in a && (Unbroken(ref) ==> Unbroken(a) && Unbroken(b))
  {
    CutParts(ref);
    if Cut(ref, '.').Some? {
      var (a, b) := Cut(ref, '.').value;
      assert forall i :: 0 <= i < |a| ==> ref[i] == a[i];
      assert forall i :: 0 <= i < |b| ==> ref[|a| + 1 + i] == b[i];
    }
  }

  // ----- the target of a built constraint

  /** The text the builder gives a reference: both names in quotes, the schema if there is one. */
  function Target(schema: string, table: string): string {
    (if schema == "" then "" else InQuotes(schema, '"') + ".") + InQuotes(table, '"')
  }

  lemma JoinUnbroken(a: string, b: string)
    ensures Unbroken(a + b) <==> Unbroken(a) && Unbroken(b)
  {
    assert forall i :: 0 <= i < |a| ==> (a + b)[i] == a[i];
    assert forall i :: 0 <= i < |b| ==> (a + b)[|a| + i] == b[i];
  }

  lemma {:induction false} DoubleKeeps(s: string)
    ensures Unbroken(Double(s, '"')) <==> Unbroken(s)
  {
    if s != [] {
      DoubleKeeps(s[1..]);
      var first := if s[0] == '"' then "\"\"" else [s[0]];
      JoinUnbroken(first, Double(s[1..], '"'));
      JoinUnbroken([s[0]], s[1..]);
      assert [s[0]] + s[1..] == s;
      assert first[0] == s[0];
    }
  }

  lemma QuotedUnbroken(name: string)
    ensures Unbroken(InQuotes(name, '"')) <==> Unbroken(name)
  {
    DoubleKeeps(name);
    JoinUnbroken("\"", Double(name, '"'));
    JoinUnbroken("\"" + Double(name, '"'), "\"");
  }

  lemma TargetUnbroken(schema: string, table: string)
    ensures Unbroken(Target(schema, table)) <==> Unbroken(schema) && Unbroken(table)
    ensures Target(schema, table) != [] && Trimmed(Target(schema, table))
  {
    QuotedUnbroken(schema);
    QuotedUnbroken(table);
    if schema != "" {
      JoinUnbroken(InQuotes(schema, '"'), ".");
      JoinUnbroken(InQuotes(schema, '"') + ".", InQuotes(table, '"'));
    } else {
      assert "" + InQuotes(table, '"') == InQuotes(table, '"');
    }
  }

  lemma TargetUnquoted(schema: string, table: string)
    ensures DropQuotes(Target(schema, table)) == (if schema == "" then "" else DropQuotes(schema) + ".") + DropQuotes(table)
  {
    DropQuotesQuoted(schema);
    DropQuotesQuoted(table);
    if schema != "" {
      DropQuotesConcat(InQuotes(schema, '"') + ".", InQuotes(table, '"'));
      DropQuotesConcat(InQuotes(schema, '"'), ".");
    } else {
      assert "" + InQuotes(table, '"') == InQuotes(table, '"') && "" + DropQuotes(table) == DropQuotes(table);
    }
  }

  /** Names that come through: no blank, parenthesis or quote in either, and no
      dot in the first of them. */
  predicate Readable(schema: string, table: string) {
    && Unbroken(schema) && Unbroken(table) && '"' !in schema && '"' !in table
    && '.' !in (if schema == "" then table else schema)
  }

  lemma UnquotedPartsIff(schema: string, table: string)
    ensures RefParts((if schema == "" then "" else DropQuotes(schema) + ".") + DropQuotes(table)) == (schema, table) <==>
      '"' !in schema && '"' !in table && '.' !in (if schema == "" then table else schema)
  {
    DropQuotesMembers(schema);
    DropQuotesMembers(table);
    if schema == "" {
      var ref := DropQuotes(table);
      assert "" + ref == ref;
      CutParts(ref);
    } else if '.' !in schema {
      CutAtDot(DropQuotes(schema), DropQuotes(table));
    } else {
      RefPartsMembers(DropQuotes(schema) + "." + DropQuotes(table));
    }
  }

  lemma TargetReadsIff(schema: string, table: string)
    ensures RefParts(DropQuotes(FirstIdent(Target(schema, table)))) == (schema, table) <==> Readable(schema, table)
  {
    var target := Target(schema, table);
    TargetUnbroken(schema, table);
    FirstIdentUnbroken(target);
    if Unbroken(target) {
      TargetUnquoted(schema, table);
      UnquotedPartsIff(schema, table);
    } else {
      var ref := DropQuotes(FirstIdent(target));
      DropQuotesMembers(FirstIdent(target));
      forall i | 0 <= i < |ref| ensures !EndsIdent(ref[i]) {
        assert ref[i] in ref && ref[i] in FirstIdent(target);
      }
      RefPartsMembers(ref);
    }
  }

  // ----- the keyword

  lemma FirstMentionStays(head: string, tail: string)
    requires |REFERENCES| <= |head|
    requires Index(ToUpper(head), REFERENCES) == Some(|head| - |REFERENCES|)
    ensures Index(ToUpper(head + tail), REFERENCES) == Some(|head| - |REFERENCES|)
  {
    var short, long := ToUpper(head), ToUpper(head + tail);
    assert long[..|short|] == short;
    IndexFound(short, REFERENCES, 0);
    forall k: nat | k <= |head| - |REFERENCES| ensures HasPrefixAt(long, k, REFERENCES) == HasPrefixAt(short, k, REFERENCES) {
      PrefixAtExtends(short, long, k);
    }
    IndexIsFirst(long, REFERENCES, 0, |head| - |REFERENCES|);
  }

  lemma PrefixAtExtends(short: string, long: string, k: nat)
    requires short <= long && k + |REFERENCES| <= |short|
    ensures HasPrefixAt(long, k, REFERENCES) == HasPrefixAt(short, k, REFERENCES)
  {
    assert long[k..k + |REFERENCES|] == short[k..k + |REFERENCES|];
  }

  /** What is read depends only on the text after the first mention of the
      keyword, in whatever case that is written and whether or not it is a word
      of its own. */
  lemma OnlyFirstMentionCounts(head: string, tail: string)
    requires |REFERENCES| <= |head| && Index(ToUpper(head), REFERENCES) == Some(|head| - |REFERENCES|)
    ensures ExtractRefParts(head + tail) == ReadTarget(tail)
  {
    FirstMentionStays(head, tail);
    assert (head + tail)[|head|..] == tail;
  }

  const OPENING := "FOREIGN KEY ("

  /** A constraint as the builder writes it, from its list of columns, its target and what follows. */
  function KeyText(columns: string, schema: string, table: string, rest: string): string {
    OPENING + columns + ") REFERENCES " + Target(schema, table) + rest
  }

  /** The columns nowhere say the keyword, in any case. */
  predicate Silent(columns: string) {
    forall k: nat :: k + |REFERENCES| <= |columns| ==> !HasPrefixAt(ToUpper(columns), k, REFERENCES)
  }

  lemma NotAt(u: string, k: nat, i: nat)
    requires i < |REFERENCES| && k + i < |u| && u[k + i] != REFERENCES[i]
    ensures !HasPrefixAt(u, k, REFERENCES)
  {
    assert k + |REFERENCES| <= |u| ==> u[k..k + |REFERENCES|][i] == u[k + i];
  }

  lemma MarkWithin(u: string, k: nat, m: nat)
    requires k <= m < k + |REFERENCES| && m < |u| && (u[m] == '(' || u[m] == ')' || u[m] == ' ')
    ensures !HasPrefixAt(u, k, REFERENCES)
  {
    NotAt(u, k, m - k);
  }

  lemma SilentOpening(u: string, k: nat)
    requires k <= 12 < |u| && u[0] == 'F' && u[1] == 'O' && u[4] == 'I' && u[12] == '('
    ensures !HasPrefixAt(u, k, REFERENCES)
  {
    if k < 2 {
      NotAt(u, k, 0);
    } else if k == 2 {
      NotAt(u, 2, 2);
    } else {
      MarkWithin(u, k, 12);
    }
  }

  lemma SilentWithin(u: string, columns: string, k: nat)
    requires 13 <= k && k + |REFERENCES| <= 13 + |columns| <= |u| && u[13..13 + |columns|] == columns
    requires !HasPrefixAt(columns, k - 13, REFERENCES)
    ensures !HasPrefixAt(u, k, REFERENCES)
  {
    SliceOfSlice(u, 13, 13 + |columns|, k - 13, k - 13 + |REFERENCES|);
  }

  /** Then the first mention is the keyword itself. */
  lemma SilentColumns(columns: string)
    requires Silent(columns)
    ensures Index(ToUpper(OPENING + columns + ") REFERENCES"), REFERENCES) == Some(|OPENING| + |columns| + 2)
  {
    var u, n := ToUpper(OPENING + columns + ") REFERENCES"), |columns|;
    assert |OPENING| == 13 && |u| == 13 + n + 12 && u[12] == '(' && u[13 + n] == ')' && u[14 + n] == ' ';
    assert u[13..13 + n] == ToUpper(columns);
    assert u[15 + n..] == REFERENCES && u[15 + n..15 + n + 10] == u[15 + n..];
    forall k: nat | k < 15 + n ensures !HasPrefixAt(u, k, REFERENCES) {
      if k <= 12 {
        assert u[0] == 'F' && u[1] == 'O' && u[4] == 'I';
        SilentOpening(u, k);
      } else if k + 10 <= 13 + n {
        SilentWithin(u, ToUpper(columns), k);
      } else {
        MarkWithin(u, k, if k <= 13 + n then 13 + n else 14 + n);
      }
    }
    IndexIsFirst(u, REFERENCES, 0, 15 + n);
  }

  /** If no column says the keyword, the target is read back exactly when its
      names hold no blank, parenthesis or quote, and the first no dot. */
  lemma KeyReadsIff(columns: string, schema: string, table: string, rest: string)
    requires Silent(columns) && (rest == "" || rest[0] == ' ')
    ensures ExtractRefParts(KeyText(columns, schema, table, rest)) == (schema, table) <==> Readable(schema, table)
  {
    var head := OPENING + columns + ") REFERENCES";
    SilentColumns(columns);
    OnlyFirstMentionCounts(head, " " + (Target(schema, table) + rest));
    assert KeyText(columns, schema, table, rest) == head + (" " + (Target(schema, table) + rest));
    TargetUnbroken(schema, table);
    TargetInTail(" ", Target(schema, table), rest);
    TargetReadsIff(schema, table);
  }

  /** Otherwise the columns decide what is read: whatever stands after the mention. */
  lemma ColumnsDecide(before: string, mention: string, after: string, schema: string, table: string, rest: string)
    requires ToUpper(mention) == REFERENCES
    requires Index(ToUpper(OPENING + before + mention), REFERENCES) == Some(|OPENING| + |before|)
    ensures ExtractRefParts(KeyText(before + mention + after, schema, table, rest))
      == ReadTarget(after + ") REFERENCES " + Target(schema, table) + rest)
  {
    var tail := after + ") REFERENCES " + Target(schema, table) + rest;
    OnlyFirstMentionCounts(OPENING + before + mention, tail);
    assert KeyText(before + mention + after, schema, table, rest) == OPENING + before + mention + tail;
  }

  /** So every target is missed when a column's name begins with the keyword. */
  lemma ColumnNameTakenForKeyword(suffix: string, schema: string, table: string, rest: string)
    requires Unbroken(suffix) && Trimmed(suffix) && '"' !in suffix && '.' !in suffix
    ensures ExtractRefParts(KeyText("\"" + "references" + (suffix + "\""), schema, table, rest)) == ("", suffix + ")")
  {
    KeywordInColumnName();
    ColumnsDecide("\"", "references", suffix + "\"", schema, table, rest);
    var more := " REFERENCES " + (Target(schema, table) + rest);
    assert suffix + "\"" + ") REFERENCES " + Target(schema, table) + rest == "" + (suffix + "\"" + ")" + more);
    JoinUnbroken(suffix, "\"");
    JoinUnbroken(suffix + "\"", ")");
    TargetInTail("", suffix + "\"" + ")", more);
    FirstIdentUnbroken(suffix + "\"" + ")");
    QuoteDropped(suffix);
  }

  lemma QuoteDropped(suffix: string)
    requires '"' !in suffix && '.' !in suffix
    ensures RefParts(DropQuotes(suffix + "\"" + ")")) == ("", suffix + ")")
  {
    DropQuotesConcat(suffix + "\"", ")");
    DropQuotesConcat(suffix, "\"");
    DropQuotesMembers(suffix);
    DropQuotesMembers(")");
    assert "\""[1..] == [] && DropQuotes("\"") == [];
    assert suffix + [] + ")" == suffix + ")";
    CutParts(suffix + ")");
  }

  lemma KeywordInColumnName()
    ensures ToUpper("references") == REFERENCES
    ensures Index(ToUpper(OPENING + "\"" + "references"), REFERENCES) == Some(|OPENING| + |"\""|)
  {
    var u := ToUpper(OPENING + "\"" + "references");
    assert ToUpper("references") == REFERENCES;
    assert |u| == 24 && u[0] == 'F' && u[1] == 'O' && u[4] == 'I' && u[12] == '(' && u[13] == '"';
    assert u[14..24] == REFERENCES;
    FirstAtFourteen(u);
  }

  lemma FirstAtFourteen(u: string)
    requires |u| == 24 && u[0] == 'F' && u[1] == 'O' && u[4] == 'I' && u[12] == '(' && u[13] == '"'
    requires u[14..24] == REFERENCES
    ensures Index(u, REFERENCES) == Some(14)
  {
    forall k: nat | k < 14 ensures !HasPrefixAt(u, k, REFERENCES) {
      if k <= 12 {
        SilentOpening(u, k);
      } else {
        NotAt(u, 13, 0);
      }
    }
    IndexIsFirst(u, REFERENCES, 0, 14);
  }
}

/** What the dump prints for index columns is read back as the same columns. */
module IndexColumnRoundTrip {
  import opened Text
  import opened Scanner
  import opened ScannerFacts
  import opened PartitionGrammar
  import opened PartitionPrinter
  import opened ConstraintRoundTrip
  import opened ClauseRoundTrip
  import opened IndexColumns

  // ----- the clauses from each one on, without the space in front

  /** A clause after a space, if there is one. */
  function Spaced(s: string): string {
    if s == "" then "" else " " + s
  }

  function NullsText(col: IndexColumn, st: Style): string {
    if col.nulls == "" then "" else Keyword("NULLS", st) + (" " + col.nulls)
  }

  function SortText(col: IndexColumn, st: Style): string {
    if col.sortOrder == "" then NullsText(col, st) else col.sortOrder + Spaced(NullsText(col, st))
  }

  function OpClassText(col: IndexColumn, st: Style): string {
    if col.opClass.None? then SortText(col, st)
    else col.opClass.value + ParamsOn(col.params, Spaced(SortText(col, st)))
  }

  function CollateText(col: IndexColumn, st: Style): string {
    if col.collation.None? then OpClassText(col, st)
    else Keyword("COLLATE", st) + (" " + (QuoteIdent(col.collation.value, st) + Spaced(OpClassText(col, st))))
  }

  function EntryText(col: IndexColumn, st: Style): string {
    if col.expr.Some? then "(" + (col.expr.value + (")" + Spaced(CollateText(col, st))))
    else col.name + Spaced(CollateText(col, st))
  }

  // ----- tokens

  /** A word that is one token, whatever follows it after a break. */
  predicate PlainWord(w: string) {
    w != [] && (forall i :: 0 <= i < |w| ==> !IsBreak(w[i])) && Trimmed(w) && w[0] != '"'
  }

  lemma {:induction false} BareTokenOf(w: string, rest: string)
    requires (forall i :: 0 <= i < |w| ==> !IsBreak(w[i])) && (rest != [] ==> IsBreak(rest[0]))
    ensures BareToken(w + rest) == w
  {
    if w == [] {
      assert w + rest == rest;
    } else {
      assert (w + rest)[1..] == w[1..] + rest;
      BareTokenOf(w[1..], rest);
    }
  }

  lemma TrimsAway(s: string)
    requires Trimmed(s)
    ensures TrimSpace(Spaced(s)) == s && TrimSpace(s) == s
  {
    if s == "" {
      assert TrimSpace("") == "";
    } else {
      TrimSpaceAround(" ", s, "");
      assert " " + s + "" == " " + s;
      TrimSpaceAround("", s, "");
      assert "" + s + "" == s;
    }
  }

  lemma TrimmedJoin(a: string, s: string)
    requires a != [] && !IsSpace(a[0]) && !IsSpace(a[|a| - 1]) && Trimmed(s)
    ensures Trimmed(a + Spaced(s)) && Trimmed(a + s)
  {
  }

  lemma TokenStep(s: string, w: string, rest: string, after: string)
    requires s == w + rest && Trimmed(s) && TrimSpace(rest) == after
    requires |w| == if StartsWith(s, '"') then 1 + QuoteEnd(s[1..]) else |BareToken(s)|
    ensures IdentToken(s) == Read(w, after)
  {
    TrimsAway(s);
    assert s[..|w|] == w && s[|w|..] == rest;
  }

  lemma WordToken(w: string, s: string)
    requires PlainWord(w) && Trimmed(s)
    ensures IdentToken(w + Spaced(s)) == Read(w, s) && Trimmed(w + Spaced(s))
  {
    BareTokenOf(w, Spaced(s));
    TrimmedJoin(w, s);
    TrimsAway(s);
    TokenStep(w + Spaced(s), w, Spaced(s), s);
  }

  /** A word with a parenthesis right after it. */
  lemma CallToken(w: string, s: string)
    requires PlainWord(w) && Trimmed(s) && StartsWith(s, '(')
    ensures IdentToken(w + s) == Read(w, s) && Trimmed(w + s)
  {
    BareTokenOf(w, s);
    TrimmedJoin(w, s);
    TrimsAway(s);
    TokenStep(w + s, w, s, s);
  }

  lemma {:induction false} QuoteEndOf(n: string, rest: string)
    requires rest != [] ==> rest[0] != '"'
    ensures QuoteEnd(Double(n, '"') + ("\"" + rest)) == |Double(n, '"')| + 1
  {
    if n == [] {
      assert Double(n, '"') + ("\"" + rest) == "\"" + rest;
    } else {
      var tail := Double(n[1..], '"') + ("\"" + rest);
      var front := if n[0] == '"' then "\"\"" else [n[0]];
      assert Double(n, '"') + ("\"" + rest) == front + tail;
      QuoteEndOf(n[1..], rest);
      assert (front + tail)[|front|..] == tail;
    }
  }

  lemma QuotedToken(n: string, s: string)
    requires Trimmed(s)
    ensures IdentToken(InQuotes(n, '"') + Spaced(s)) == Read(InQuotes(n, '"'), s)
    ensures Trimmed(InQuotes(n, '"') + Spaced(s))
  {
    var w, rest := InQuotes(n, '"'), Spaced(s);
    QuoteEndOf(n, rest);
    assert (w + rest)[1..] == Double(n, '"') + ("\"" + rest);
    TrimmedJoin(w, s);
    TrimsAway(s);
    TokenStep(w + rest, w, rest, s);
  }

  lemma NoToken()
    ensures IdentToken("") == Read("", "")
  {
    assert TrimSpace("") == "";
  }

  // ----- quotes

  lemma QuotesStay(s: string)
    requires s != [] ==> s[0] != '"' && s[|s| - 1] != '"'
    ensures TrimQuotes(s) == s
  {
  }

  lemma {:induction false} TrimQuotesRightEnds(s: string)
    ensures TrimQuotesRight(s) != [] ==> TrimQuotesRight(s)[|TrimQuotesRight(s)| - 1] != '"'
    ensures TrimQuotesRight(s) <= s
  {
    if s != [] && s[|s| - 1] == '"' {
      TrimQuotesRightEnds(s[..|s| - 1]);
    }
  }

  lemma {:induction false} TrimQuotesLeftEnds(s: string)
    ensures TrimQuotesLeft(s) != [] ==> TrimQuotesLeft(s)[0] != '"'
  {
    if s != [] && s[0] == '"' {
      TrimQuotesLeftEnds(s[1..]);
    }
  }

  lemma TrimQuotesEnds(s: string)
    ensures var r := TrimQuotes(s); r != [] ==> r[0] != '"' && r[|r| - 1] != '"'
  {
    TrimQuotesLeftEnds(s);
    TrimQuotesRightEnds(TrimQuotesLeft(s));
  }

  lemma {:induction false} DoubleLonger(n: string)
    ensures |Double(n, '"')| >= |n| && (|Double(n, '"')| == |n| <==> '"' !in n)
    ensures '"' !in n ==> Double(n, '"') == n
  {
    if n != [] {
      DoubleLonger(n[1..]);
      assert n == [n[0]] + n[1..];
      assert '"' in n <==> n[0] == '"' || '"' in n[1..];
    }
  }

  lemma {:induction false} DoubleEnds(n: string)
    requires n != [] && n[0] != '"' && n[|n| - 1] != '"'
    ensures var d := Double(n, '"'); d != [] && d[0] == n[0] && d[|d| - 1] == n[|n| - 1]
  {
    DoubleLast(n);
  }

  lemma {:induction false} DoubleLast(n: string)
    requires n != [] && n[|n| - 1] != '"'
    ensures var d := Double(n, '"'); d != [] && d[|d| - 1] == n[|n| - 1]
  {
    if |n| > 1 {
      DoubleLast(n[1..]);
    }
  }

  lemma TrimInQuotes(d: string)
    requires d != [] ==> d[0] != '"' && d[|d| - 1] != '"'
    ensures TrimQuotes("\"" + d + "\"") == d
  {
    var s := "\"" + d + "\"";
    assert s[0] == '"' && s[1..] == d + "\"";
    assert TrimQuotesLeft(s) == TrimQuotesLeft(d + "\"");
    assert (d + "\"")[..|d|] == d && (d + "\"")[|d|] == '"';
    if d == [] {
      assert (d + "\"")[1..] == [] && TrimQuotesLeft(d + "\"") == TrimQuotesLeft("");
    } else {
      assert (d + "\"")[0] == d[0] && TrimQuotesLeft(d + "\"") == d + "\"";
      assert TrimQuotesRight(d + "\"") == TrimQuotesRight(d);
    }
  }

  /** A name in quotes is read back by taking quotes off its ends exactly when it holds none. */
  lemma InQuotesReadsIff(n: string)
    ensures TrimQuotes(InQuotes(n, '"')) == n <==> '"' !in n
  {
    DoubleLonger(n);
    TrimQuotesEnds(InQuotes(n, '"'));
    if n == [] || (n[0] != '"' && n[|n| - 1] != '"') {
      if n != [] {
        DoubleEnds(n);
      }
      TrimInQuotes(Double(n, '"'));
    }
  }

  lemma CollationReads(n: string, st: Style, s: string)
    requires Trimmed(s)
    ensures IdentToken(QuoteIdent(n, st) + Spaced(s)) == Read(QuoteIdent(n, st), s)
    ensures Trimmed(QuoteIdent(n, st) + Spaced(s))
    ensures TrimQuotes(QuoteIdent(n, st)) == n <==> '"' !in n
  {
    if PrintedBare(n, st) {
      assert PlainWord(n);
      WordToken(n, s);
      QuotesStay(n);
    } else {
      QuotedToken(n, s);
      InQuotesReadsIff(n);
    }
  }

  // ----- parameters

  predicate KeyOk(k: string) {
    k != [] && Trimmed(k) && ',' !in k && '=' !in k
  }

  predicate ValueOk(v: string) {
    v != [] && Trimmed(v) && ',' !in v
  }

  predicate ParamOk(p: StorageParam) {
    KeyOk(p.key) && ValueOk(p.value)
  }

  predicate ParamsPlain(ps: seq<StorageParam>) {
    forall i :: 0 <= i < |ps| ==> ParamOk(ps[i])
  }

  lemma ParamReads(lead: string, p: StorageParam)
    requires AllSpace(lead) && ParamOk(p)
    ensures ParamOf(lead + ParamText(p)) == [p] && ',' !in ParamText(p)
  {
    var k, v := p.key, p.value;
    var x := k + " " + (['='] + (" " + v));
    assert ParamText(p) == x;
    OnEmpty(lead + x);
    TrimSpaceAround(lead, x, "");
    CutAt(k + " ", '=', " " + v);
    TrimSpaceAround("", k, " ");
    OnEmpty(k);
    TrimSpaceAround(" ", v, "");
    OnEmpty(" " + v);
  }

  lemma SplitOnce(a: string, b: string)
    requires ',' !in a
    ensures SplitOn(a + ("," + b), ',') == [a] + SplitOn(b, ',')
  {
    var s := a + ("," + b);
    assert s[..|a|] == a && s[|a| + 1..] == b;
    IndexByteAt(s, ',', |a|);
  }

  lemma CommaSpace(lead: string, a: string, b: string)
    ensures lead + (a + (", " + b)) == lead + a + ("," + (" " + b))
  {
  }

  lemma {:induction false} ParamsRead(lead: string, ps: seq<StorageParam>)
    requires AllSpace(lead) && ParamsPlain(ps) && ps != []
    ensures StorageParams(lead + ParamsText(ps)) == ps
    decreases |ps|
  {
    ParamReads(lead, ps[0]);
    var first := lead + ParamText(ps[0]);
    if |ps| == 1 {
      assert ',' !in first && SplitOn(first, ',') == [first] && [first] + [] == [first];
      OneParam(first, [], ps, []);
    } else {
      ParamsRead(" ", ps[1..]);
      CommaSpace(lead, ParamText(ps[0]), ParamsText(ps[1..]));
      SplitOnce(first, " " + ParamsText(ps[1..]));
      OneParam(first, SplitOn(" " + ParamsText(ps[1..]), ','), ps, ps[1..]);
    }
  }

  lemma OneParam(first: string, more: seq<string>, ps: seq<StorageParam>, others: seq<StorageParam>)
    requires ps != [] && ParamOf(first) == [ps[0]] && ParamsOf(more) == others && ps[1..] == others
    ensures ParamsOf([first] + more) == ps
  {
    assert ([first] + more)[1..] == more;
    assert [ps[0]] + ps[1..] == ps;
  }

  // ----- parentheses

  /** How many parentheses are open after a text, unless one closes that the text did not open. */
  function Within(t: string, depth: nat): Option<nat> {
    if t == [] then Some(depth)
    else if t[0] == '(' then Within(t[1..], depth + 1)
    else if t[0] == ')' then if depth == 0 then None else Within(t[1..], depth - 1)
    else Within(t[1..], depth)
  }

  predicate Balanced(t: string) {
    Within(t, 0) == Some(0)
  }

  lemma {:induction false} GroupThrough(t: string, rest: string, depth: nat)
    requires Within(t, depth) == Some(0)
    ensures GroupEnd(t + (")" + rest), depth + 1) == Some(|t|)
  {
    if t == [] {
      assert t + (")" + rest) == ")" + rest;
    } else {
      assert (t + (")" + rest))[1..] == t[1..] + (")" + rest);
      GroupThrough(t[1..], rest, if t[0] == '(' then depth + 1 else if t[0] == ')' then depth - 1 else depth);
    }
  }

  lemma GroupReads(t: string, rest: string)
    requires Balanced(t)
    ensures ParenGroup("(" + (t + (")" + rest))) == Some(Read(t, TrimSpace(rest)))
  {
    var s := "(" + (t + (")" + rest));
    assert s[1..] == t + (")" + rest);
    GroupThrough(t, rest, 0);
    assert s[1..|t| + 1] == t && s[|t| + 2..] == rest;
  }

  // ----- the clauses, from the last to the first

  predicate OrderOk(col: IndexColumn) {
    && (col.sortOrder == "" || col.sortOrder == "ASC" || col.sortOrder == "DESC")
    && (col.nulls == "" || col.nulls == "FIRST" || col.nulls == "LAST")
  }

  predicate OpClassOk(w: string) {
    && PlainWord(w) && w[|w| - 1] != '"' && !IsTrailingKeyword(w) && ToUpper(w) != "COLLATE"
  }

  /** Nothing, or a sorting clause. */
  predicate OnlyOrder(s: string) {
    s == "" || IsTrailingKeyword(IdentToken(s).value)
  }

  lemma KeywordIsWord(k: string, st: Style)
    requires k == "NULLS" || k == "COLLATE"
    ensures PlainWord(Keyword(k, st)) && ToUpper(Keyword(k, st)) == k
  {
    KeywordReads(k, st);
  }

  lemma UpperWord(k: string)
    requires k == "ASC" || k == "DESC" || k == "FIRST" || k == "LAST"
    ensures PlainWord(k) && ToUpper(k) == k
  {
  }

  lemma NullsRead(col: IndexColumn, st: Style)
    requires OrderOk(col)
    ensures var s := NullsText(col, st);
      Trimmed(s) && OnlyOrder(s) && NullsOf(s) == col.nulls && SortOf(s) == Read("", s)
  {
    NoToken();
    if col.nulls != "" {
      UpperWord(col.nulls);
      KeywordIsWord("NULLS", st);
      WordToken(col.nulls, "");
      assert col.nulls + Spaced("") == col.nulls;
      WordToken(Keyword("NULLS", st), col.nulls);
    }
  }

  lemma SortReads(col: IndexColumn, st: Style)
    requires OrderOk(col)
    ensures var s := SortText(col, st);
      Trimmed(s) && OnlyOrder(s) && SortOf(s) == Read(col.sortOrder, NullsText(col, st))
  {
    NullsRead(col, st);
    if col.sortOrder != "" {
      UpperWord(col.sortOrder);
      WordToken(col.sortOrder, NullsText(col, st));
    }
  }

  lemma NotCollate(s: string)
    requires OnlyOrder(s)
    ensures CollateOf(s) == Read(None, s)
  {
    NoToken();
  }

  lemma GroupTrimmed(t: string, s: string)
    requires Trimmed(s)
    ensures var group := "(" + (t + (")" + Spaced(s)));
      Trimmed(group) && StartsWith(group, '(')
  {
    Assoc4("(", t, ")", Spaced(s));
    TrimmedJoin("(" + t + ")", s);
  }

  lemma ClassReads(name: string, params: seq<StorageParam>, s: string)
    requires OpClassOk(name) && ParamsPlain(params) && Balanced(ParamsText(params)) && Trimmed(s)
    requires params == [] ==> !StartsWith(s, '(')
    ensures var text := name + ParamsOn(params, Spaced(s));
      Trimmed(text) && OpClassOf(text) == Read(OpClass(Some(name), params), s) && IdentToken(text).value == name
  {
    QuotesStay(name);
    if params == [] {
      WordToken(name, s);
    } else {
      GroupTrimmed(ParamsText(params), s);
      CallToken(name, "(" + (ParamsText(params) + (")" + Spaced(s))));
      GroupReads(ParamsText(params), Spaced(s));
      TrimsAway(s);
      ParamsRead("", params);
      OnEmpty(ParamsText(params));
    }
  }

  predicate ClassOk(col: IndexColumn) {
    && OrderOk(col) && ParamsPlain(col.params) && Balanced(ParamsText(col.params))
    && (col.opClass.Some? ==> OpClassOk(col.opClass.value))
  }

  lemma OrderNoGroup(col: IndexColumn, st: Style)
    requires OrderOk(col)
    ensures !StartsWith(SortText(col, st), '(')
  {
    if col.sortOrder == "" && col.nulls != "" {
      KeywordIsWord("NULLS", st);
    }
  }

  lemma OpClassReads(col: IndexColumn, st: Style)
    requires ClassOk(col)
    ensures var s := OpClassText(col, st);
      && Trimmed(s) && CollateOf(s) == Read(None, s)
      && OpClassOf(s) == Read(OpClass(col.opClass, if col.opClass.None? then [] else col.params), SortText(col, st))
  {
    SortReads(col, st);
    if col.opClass.None? {
      NotCollate(SortText(col, st));
    } else {
      OrderNoGroup(col, st);
      ClassReads(col.opClass.value, col.params, SortText(col, st));
    }
  }

  lemma CollateReads(col: IndexColumn, st: Style)
    requires ClassOk(col)
    ensures var s := CollateText(col, st);
      && Trimmed(s) && CollateOf(s).rest == OpClassText(col, st) && (CollateOf(s).value.Some? <==> col.collation.Some?)
      && (CollateOf(s).value == col.collation <==> (col.collation.Some? ==> '"' !in col.collation.value))
  {
    OpClassReads(col, st);
    if col.collation.Some? {
      CollationReads(col.collation.value, st, OpClassText(col, st));
      KeywordIsWord("COLLATE", st);
      WordToken(Keyword("COLLATE", st), QuoteIdent(col.collation.value, st) + Spaced(OpClassText(col, st)));
    }
  }

  // ----- an entry

  /** Clauses are well-formed, expressions close their parentheses, and a name
      has no white space at its ends. */
  predicate EntryOk(col: IndexColumn) {
    && ClassOk(col)
    && if col.expr.Some? then Balanced(col.expr.value) else col.name != "" && Trimmed(col.name)
  }

  /** A name that is read whole: one word, without quotes at its ends. */
  predicate NameReadable(n: string) {
    PlainWord(n) && n[|n| - 1] != '"'
  }

  /** A name is one word, an expression has no other clauses than its order,
      parameters belong to an operator class, and a collation's name holds no quotes. */
  predicate Readable(col: IndexColumn) {
    && (if col.expr.Some? then col.name == "" && col.collation.None? && col.opClass.None? else NameReadable(col.name))
    && (col.opClass.None? ==> col.params == [])
    && (col.collation.Some? ==> '"' !in col.collation.value)
  }

  lemma ExprReads(e: string, rest: string)
    requires Balanced(e) && Trimmed(rest)
    ensures var s := "(" + (e + (")" + Spaced(rest)));
      Trimmed(s) && HeadOf(s) == Head(Some(e), "", rest)
  {
    var s := "(" + (e + (")" + Spaced(rest)));
    GroupReads(e, Spaced(rest));
    TrimsAway(rest);
    GroupTrimmed(e, rest);
    assert s[0..] == s && BareToken(s) == "";
  }

  lemma NameReads(name: string, rest: string)
    requires PlainWord(name) && name[|name| - 1] != '"' && Trimmed(rest)
    ensures var s := name + Spaced(rest);
      Trimmed(s) && HeadOf(s) == Head(None, name, rest)
  {
    BareTokenOf(name, Spaced(rest));
    WordToken(name, rest);
    QuotesStay(name);
  }

  lemma EntryTrimmed(col: IndexColumn, st: Style)
    requires EntryOk(col)
    ensures EntryText(col, st) != "" && Trimmed(EntryText(col, st))
  {
    CollateReads(col, st);
    if col.expr.Some? {
      ExprReads(col.expr.value, CollateText(col, st));
    } else {
      TrimmedJoin(col.name, CollateText(col, st));
    }
  }

  lemma HeadReads(col: IndexColumn, st: Style)
    requires EntryOk(col) && (col.expr.None? ==> NameReadable(col.name))
    ensures HeadOf(EntryText(col, st)) == Head(col.expr, if col.expr.Some? then "" else col.name, CollateText(col, st))
  {
    CollateReads(col, st);
    if col.expr.Some? {
      ExprReads(col.expr.value, CollateText(col, st));
    } else {
      NameReads(col.name, CollateText(col, st));
    }
  }

  lemma {:induction false} BareTokenUnbroken(s: string)
    ensures Unbroken(BareToken(s))
  {
    if s != [] && !IsBreak(s[0]) {
      BareTokenUnbroken(s[1..]);
    }
  }

  /** A name of several words, or with quotes at an end, is read as another one. */
  lemma BadNameNotRead(n: string, s: string)
    requires n != "" && Trimmed(n) && n <= s && Trimmed(s) && !NameReadable(n) && HeadOf(s).expr.None?
    ensures HeadOf(s).name != n
  {
    assert s[0] == n[0];
    if n[0] == '"' {
      TrimQuotesEnds(IdentToken(s).value);
    } else {
      BareFirst(s);
      BadBareNotRead(n, BareToken(s));
    }
  }

  lemma BareFirst(s: string)
    requires s != [] && Trimmed(s) && s[0] != '"'
    ensures IdentToken(s).value == BareToken(s) && Unbroken(BareToken(s))
    ensures BareToken(s) != [] ==> BareToken(s)[0] == s[0]
  {
    TrimsAway(s);
    BareTokenUnbroken(s);
  }

  predicate Unbroken(token: string) {
    forall i :: 0 <= i < |token| ==> !IsBreak(token[i])
  }

  lemma BadBareNotRead(n: string, token: string)
    requires n != "" && Trimmed(n) && n[0] != '"' && !NameReadable(n)
    requires Unbroken(token) && (token != [] ==> token[0] != '"')
    ensures TrimQuotes(token) != n
  {
    var r := TrimQuotesRight(token);
    TrimQuotesRightEnds(token);
    assert Unbroken(r);
    assert PlainWord(n) || !Unbroken(n);
  }

  /** A printed column is read back exactly when it is readable. */
  lemma EntryReadsIff(col: IndexColumn, st: Style)
    requires EntryOk(col)
    ensures ColumnOn(col, st, "") == EntryText(col, st)
    ensures ColumnEntry(EntryText(col, st)) == col <==> Readable(col)
  {
    EntryThen(col, st, "");
    assert EntryText(col, st) + "" == EntryText(col, st);
    EntryTrimmed(col, st);
    TrimsAway(EntryText(col, st));
    if col.expr.None? && !NameReadable(col.name) {
      if HeadOf(EntryText(col, st)).expr.None? {
        BadNameNotRead(col.name, EntryText(col, st));
      }
    } else {
      HeadReads(col, st);
      ClausesReadIff(col, st);
    }
  }

  /** What is read after the head. */
  lemma ClausesReadIff(col: IndexColumn, st: Style)
    requires EntryOk(col) && TrimSpace(EntryText(col, st)) == EntryText(col, st)
    requires HeadOf(EntryText(col, st)) == Head(col.expr, if col.expr.Some? then "" else col.name, CollateText(col, st))
    requires col.expr.None? ==> NameReadable(col.name)
    ensures ColumnEntry(EntryText(col, st)) == col <==> Readable(col)
  {
    CollateReads(col, st);
    OpClassReads(col, st);
    SortReads(col, st);
    NullsRead(col, st);
    assert Readable(col) && col.expr.Some? ==> CollateText(col, st) == SortText(col, st);
  }

  // ----- the list

  /** The depth after a text without a comma outside parentheses. */
  function Level(t: string, depth: int): Option<int> {
    if t == [] then Some(depth)
    else if t[0] == '(' then Level(t[1..], depth + 1)
    else if t[0] == ')' then Level(t[1..], depth - 1)
    else if t[0] == ',' && depth == 0 then None
    else Level(t[1..], depth)
  }

  predicate Neutral(t: string) {
    Level(t, 0) == Some(0)
  }

  lemma {:induction false} PieceThrough(c: string, rest: string, depth: int, piece: string)
    requires Level(c, depth).Some?
    ensures SplitTopLevel(c + rest, ',', depth, piece) == SplitTopLevel(rest, ',', Level(c, depth).value, piece + c)
  {
    if c == [] {
      assert c + rest == rest && piece + c == piece;
    } else {
      assert (c + rest)[1..] == c[1..] + rest;
      PieceThrough(c[1..], rest, if c[0] == '(' then depth + 1 else if c[0] == ')' then depth - 1 else depth,
        piece + [c[0]]);
      assert piece + [c[0]] + c[1..] == piece + c;
    }
  }

  lemma {:induction false} LevelJoin(a: string, b: string, depth: int)
    requires Level(a, depth).Some?
    ensures Level(a + b, depth) == Level(b, Level(a, depth).value)
  {
    if a == [] {
      assert a + b == b;
    } else {
      assert (a + b)[1..] == a[1..] + b;
      LevelJoin(a[1..], b, if a[0] == '(' then depth + 1 else if a[0] == ')' then depth - 1 else depth);
    }
  }

  lemma NeutralJoin(a: string, b: string)
    requires Neutral(a) && Neutral(b)
    ensures Neutral(a + b)
  {
    LevelJoin(a, b, 0);
  }

  lemma {:induction false} WithinLevel(t: string, depth: nat)
    requires Within(t, depth).Some?
    ensures Level(t, depth + 1) == Some(Within(t, depth).value + 1)
  {
    if t != [] {
      WithinLevel(t[1..], if t[0] == '(' then depth + 1 else if t[0] == ')' then depth - 1 else depth);
    }
  }

  lemma GroupNeutral(t: string, rest: string)
    requires Balanced(t) && Neutral(rest)
    ensures Neutral("(" + (t + (")" + rest)))
  {
    WithinLevel(t, 0);
    LevelJoin(t, ")" + rest, 1);
    assert ("(" + (t + (")" + rest)))[1..] == t + (")" + rest) && (")" + rest)[1..] == rest;
  }

  lemma {:induction false} LettersNeutral(w: string)
    requires AllWord(w)
    ensures Neutral(w)
  {
    if w != [] {
      LettersNeutral(w[1..]);
    }
  }

  lemma SpacedNeutral(s: string)
    requires Neutral(s)
    ensures Neutral(Spaced(s)) && Neutral(" " + s)
  {
    assert (" " + s)[1..] == s;
  }

  /** No name puts a comma outside parentheses or leaves one of them open. */
  predicate NamesNeutral(col: IndexColumn, st: Style) {
    && (col.expr.None? ==> Neutral(col.name))
    && (col.opClass.Some? ==> Neutral(col.opClass.value))
    && (col.collation.Some? ==> Neutral(QuoteIdent(col.collation.value, st)))
  }

  lemma OrderNeutral(col: IndexColumn, st: Style)
    requires OrderOk(col)
    ensures Neutral(SortText(col, st))
  {
    KeywordReads("NULLS", st);
    LettersNeutral(Keyword("NULLS", st));
    LettersNeutral(col.nulls);
    LettersNeutral(col.sortOrder);
    SpacedNeutral(col.nulls);
    NeutralJoin(Keyword("NULLS", st), " " + col.nulls);
    SpacedNeutral(NullsText(col, st));
    NeutralJoin(col.sortOrder, Spaced(NullsText(col, st)));
  }

  lemma ClassNeutral(col: IndexColumn, st: Style)
    requires ClassOk(col) && NamesNeutral(col, st)
    ensures Neutral(OpClassText(col, st))
  {
    var rest := SortText(col, st);
    OrderNeutral(col, st);
    SpacedNeutral(rest);
    if col.opClass.Some? {
      if col.params != [] {
        GroupNeutral(ParamsText(col.params), Spaced(rest));
      }
      NeutralJoin(col.opClass.value, ParamsOn(col.params, Spaced(rest)));
    }
  }

  lemma CollateNeutral(col: IndexColumn, st: Style)
    requires ClassOk(col) && NamesNeutral(col, st)
    ensures Neutral(CollateText(col, st))
  {
    ClassNeutral(col, st);
    if col.collation.Some? {
      var name, rest := QuoteIdent(col.collation.value, st), Spaced(OpClassText(col, st));
      KeywordReads("COLLATE", st);
      LettersNeutral(Keyword("COLLATE", st));
      SpacedNeutral(OpClassText(col, st));
      NeutralJoin(name, rest);
      SpacedNeutral(name + rest);
      NeutralJoin(Keyword("COLLATE", st), " " + (name + rest));
    }
  }

  lemma EntryNeutral(col: IndexColumn, st: Style)
    requires EntryOk(col) && NamesNeutral(col, st)
    ensures Neutral(EntryText(col, st))
  {
    CollateNeutral(col, st);
    SpacedNeutral(CollateText(col, st));
    if col.expr.Some? {
      GroupNeutral(col.expr.value, Spaced(CollateText(col, st)));
    } else {
      NeutralJoin(col.name, Spaced(CollateText(col, st)));
    }
  }

  lemma OrderSpaced(col: IndexColumn, st: Style, rest: string)
    requires OrderOk(col)
    ensures SortOn(col, st, rest) == Spaced(SortText(col, st)) + rest
  {
    assert NullsOn(col, st, rest) == Spaced(NullsText(col, st)) + rest;
  }

  lemma ParamsThen(ps: seq<StorageParam>, after: string, rest: string)
    ensures ParamsOn(ps, after + rest) == ParamsOn(ps, after) + rest
  {
    if ps != [] {
      assert "(" + (ParamsText(ps) + (")" + after)) + rest == "(" + (ParamsText(ps) + (")" + (after + rest)));
    }
  }

  lemma ClassSpaced(col: IndexColumn, st: Style, rest: string)
    requires ClassOk(col)
    ensures OpClassOn(col, st, rest) == Spaced(OpClassText(col, st)) + rest
  {
    OrderSpaced(col, st, rest);
    if col.opClass.Some? {
      var after := Spaced(SortText(col, st));
      ParamsThen(col.params, after, rest);
      assert OpClassText(col, st) != "";
      ThreeParts(col.opClass.value, ParamsOn(col.params, after), rest);
    }
  }

  lemma ThreeParts(a: string, b: string, rest: string)
    ensures " " + (a + b) + rest == " " + (a + (b + rest))
  {
  }

  lemma CollateSpaced(col: IndexColumn, st: Style, rest: string)
    requires ClassOk(col)
    ensures CollateOn(col, st, rest) == Spaced(CollateText(col, st)) + rest
  {
    ClassSpaced(col, st, rest);
    if col.collation.Some? {
      var after := Spaced(OpClassText(col, st));
      FiveParts(Keyword("COLLATE", st), QuoteIdent(col.collation.value, st), after, rest);
    }
  }

  lemma FiveParts(k: string, q: string, after: string, rest: string)
    ensures " " + (k + (" " + (q + after))) + rest == " " + (k + (" " + (q + (after + rest))))
  {
  }

  /** An entry is printed in front of what follows it. */
  lemma EntryThen(col: IndexColumn, st: Style, rest: string)
    requires ClassOk(col)
    ensures ColumnOn(col, st, rest) == EntryText(col, st) + rest
  {
    CollateSpaced(col, st, rest);
    var after := Spaced(CollateText(col, st));
    if col.expr.Some? {
      Assoc(")", after, rest);
      Assoc(col.expr.value, ")" + after, rest);
      Assoc("(", col.expr.value + (")" + after), rest);
    } else {
      Assoc(col.name, after, rest);
    }
  }

  predicate ListOk(cols: seq<IndexColumn>, st: Style) {
    forall i :: 0 <= i < |cols| ==> EntryOk(cols[i]) && NamesNeutral(cols[i], st)
  }

  /** Every column's text read by itself. */
  function EachRead(cols: seq<IndexColumn>, st: Style): seq<IndexColumn> {
    if cols == [] then [] else [ColumnEntry(EntryText(cols[0], st))] + EachRead(cols[1..], st)
  }

  /** The columns read from a text, whose first piece began with some lead. */
  function ReadFrom(text: string, lead: string): seq<IndexColumn> {
    EntriesOf(NonBlank(SplitTopLevel(text, ',', 0, lead)))
  }

  lemma LastEntry(c: string, lead: string)
    requires Neutral(c) && Trimmed(c) && c != [] && AllSpace(lead)
    ensures ReadFrom(c, lead) == [ColumnEntry(c)]
  {
    PieceThrough(c, "", 0, lead);
    assert c + "" == c;
    LastPiece(lead + c);
    OneEntry(lead, c, [], []);
    OneOnly(lead + c, ColumnEntry(c));
  }

  lemma LastPiece(piece: string)
    ensures SplitTopLevel("", ',', 0, piece) == [piece]
  {
  }

  lemma OneOnly(piece: string, col: IndexColumn)
    ensures [piece] + [] == [piece] && [col] + [] == [col]
  {
  }

  lemma NextEntry(c: string, rest: string, lead: string)
    requires Neutral(c) && Trimmed(c) && c != [] && AllSpace(lead)
    ensures ReadFrom(c + (", " + rest), lead) == [ColumnEntry(c)] + ReadFrom(rest, " ")
  {
    PieceThrough(c, ", " + rest, 0, lead);
    CommaSplits(rest, lead + c);
    OneEntry(lead, c, SplitTopLevel(rest, ',', 0, " "), ReadFrom(rest, " "));
  }

  lemma CommaSplits(rest: string, piece: string)
    ensures SplitTopLevel(", " + rest, ',', 0, piece) == [piece] + SplitTopLevel(rest, ',', 0, " ")
  {
    assert (", " + rest)[1..] == " " + rest;
    PieceThrough(" ", rest, 0, "");
    assert "" + " " == " ";
  }

  lemma OneEntry(lead: string, c: string, more: seq<string>, others: seq<IndexColumn>)
    requires AllSpace(lead) && Trimmed(c) && c != [] && EntriesOf(NonBlank(more)) == others
    ensures EntriesOf(NonBlank([lead + c] + more)) == [ColumnEntry(c)] + others
  {
    TrimSpaceAround(lead, c, "");
    assert lead + c == lead + c + "";
    assert ([lead + c] + more)[1..] == more;
    assert ([c] + NonBlank(more))[1..] == NonBlank(more);
  }

  lemma {:induction false} ListSplits(cols: seq<IndexColumn>, st: Style, lead: string)
    requires ListOk(cols, st) && cols != [] && AllSpace(lead)
    ensures ReadFrom(ColumnsText(cols, st), lead) == EachRead(cols, st)
    decreases |cols|
  {
    EntryNeutral(cols[0], st);
    EntryTrimmed(cols[0], st);
    EntryThen(cols[0], st, if |cols| == 1 then "" else ", " + ColumnsText(cols[1..], st));
    if |cols| == 1 {
      assert EntryText(cols[0], st) + "" == EntryText(cols[0], st);
      LastEntry(EntryText(cols[0], st), lead);
    } else {
      NextEntry(EntryText(cols[0], st), ColumnsText(cols[1..], st), lead);
      ListSplits(cols[1..], st, " ");
    }
  }

  lemma SameConsIff(a: IndexColumn, others: seq<IndexColumn>, cols: seq<IndexColumn>)
    requires cols != []
    ensures [a] + others == cols <==> a == cols[0] && others == cols[1..]
  {
    assert ([a] + others)[1..] == others;
    assert cols == [cols[0]] + cols[1..];
  }

  predicate AllReadable(cols: seq<IndexColumn>) {
    cols == [] || (Readable(cols[0]) && AllReadable(cols[1..]))
  }

  lemma {:induction false} EachReadIff(cols: seq<IndexColumn>, st: Style)
    requires ListOk(cols, st)
    ensures EachRead(cols, st) == cols <==> AllReadable(cols)
  {
    if cols != [] {
      EachReadIff(cols[1..], st);
      EntryReadsIff(cols[0], st);
      SameConsIff(ColumnEntry(EntryText(cols[0], st)), EachRead(cols[1..], st), cols);
    }
  }

  /** A printed list of columns is read back exactly when all its columns are readable. */
  lemma ColumnsReadIff(cols: seq<IndexColumn>, st: Style)
    requires ListOk(cols, st)
    ensures Columns(ColumnsText(cols, st)) == cols <==> AllReadable(cols)
  {
    EachReadIff(cols, st);
    assert Columns(ColumnsText(cols, st)) == ReadFrom(ColumnsText(cols, st), "");
    if cols != [] {
      ListSplits(cols, st, "");
    } else {
      assert SplitTopLevel("", ',', 0, []) == [""] && TrimSpace("") == "" && [""][1..] == [];
    }
  }
}

/** Names and constraints that the dump prints are read back by the block parser. */
module ConstraintRoundTrip {
  import opened Text
  import opened Scanner
  import opened ScannerFacts
  import opened PartitionGrammar
  import opened PartitionPrinter

  // ----- keywords and names

  lemma KeywordReads(k: string, st: Style)
    requires AllWord(k)
    ensures AllWord(Keyword(k, st)) && SameFold(Keyword(k, st), k) && |Keyword(k, st)| == |k|
  {
  }

  /** A bare name stops being one word of the parser at a dollar sign. */
  predicate Readable(n: string, st: Style) {
    PrintedBare(n, st) ==> '$' !in n
  }

  lemma {:induction false} DoubledReads(n: string, q: char, s: string)
    requires !StartsWith(s, q)
    ensures QuotedTail(Double(n, q) + ([q] + s), q) == Some(Read(n, s))
  {
    if n == [] {
      OnEmpty([q] + s);
    } else {
      DoubledReads(n[1..], q, s);
      var more := Double(n[1..], q) + ([q] + s);
      Assoc(if n[0] == q then [q, q] else [n[0]], Double(n[1..], q), [q] + s);
      OneRead(n[0], n[1..], q, more, s);
      FirstAndRest(n);
    }
  }

  lemma FirstAndRest(n: string)
    requires n != []
    ensures [n[0]] + n[1..] == n
  {
  }

  lemma OneRead(c: char, n: string, q: char, more: string, s: string)
    requires QuotedTail(more, q) == Some(Read(n, s))
    ensures c == q ==> QuotedTail([q, q] + more, q) == Some(Read([c] + n, s))
    ensures c != q ==> QuotedTail([c] + more, q) == Some(Read([c] + n, s))
  {
    assert ([q, q] + more)[2..] == more && ([c] + more)[1..] == more;
  }

  lemma InQuotesReads(n: string, q: char, s: string)
    requires !StartsWith(s, q)
    ensures Quoted(InQuotes(n, q) + s, q) == Some(Read(n, s))
  {
    assert (InQuotes(n, q) + s)[1..] == Double(n, q) + ([q] + s);
    DoubledReads(n, q, s);
  }

  /** No word, dot or quote comes next. */
  predicate NameEnds(s: string) {
    s != [] ==> !IsWordChar(s[0]) && s[0] != '.' && s[0] != '"'
  }

  lemma NameVisible(n: string, st: Style, s: string)
    ensures Visible(QuoteIdent(n, st) + s) && QuoteIdent(n, st) != [] && Apart(QuoteIdent(n, st) + s)
    ensures StartsWith(QuoteIdent(n, st) + s, '"') <==> !PrintedBare(n, st)
  {
    if PrintedBare(n, st) {
      assert (QuoteIdent(n, st) + s)[0] == n[0];
    } else {
      assert (QuoteIdent(n, st) + s)[0] == '"';
    }
  }

  lemma BareIsWord(n: string, st: Style)
    requires PrintedBare(n, st) && Readable(n, st)
    ensures AllWord(n)
  {
  }

  lemma NameReads(n: string, st: Style, s: string)
    requires Readable(n, st) && NameEnds(s)
    ensures Ident(QuoteIdent(n, st) + s) == Some(Read(Identifier([], n), s))
  {
    NameVisible(n, st, s);
    SkipsBlanks("", QuoteIdent(n, st) + s);
    assert "" + (QuoteIdent(n, st) + s) == QuoteIdent(n, st) + s;
    if PrintedBare(n, st) {
      BareIsWord(n, st);
      ReadsWord(n, s);
    } else {
      InQuotesReads(n, '"', s);
    }
  }

  /** A printed name is read back exactly when it is quoted or holds no dollar sign. */
  lemma NameReadsIff(n: string, st: Style, s: string)
    requires NameEnds(s)
    ensures Readable(n, st) <==> Ident(QuoteIdent(n, st) + s) == Some(Read(Identifier([], n), s))
  {
    if Readable(n, st) {
      NameReads(n, st, s);
    } else {
      DollarCutsName(n, st, s);
    }
  }

  lemma DollarCutsName(n: string, st: Style, s: string)
    requires !Readable(n, st)
    ensures Ident(QuoteIdent(n, st) + s).Some? ==>
      Ident(QuoteIdent(n, st) + s).value.value.name != n || Ident(QuoteIdent(n, st) + s).value.value.schema != []
  {
    NameVisible(n, st, s);
    SkipsBlanks("", n + s);
    assert "" + (n + s) == n + s;
    var at :| 0 <= at < |n| && n[at] == '$';
    WordStopsAt(n + s, at);
    assert |NamePart(n + s).value.value| < |n|;
  }

  lemma {:induction false} WordStopsAt(s: string, at: nat)
    requires at < |s| && !IsWordChar(s[at])
    ensures |Word(s)| <= at
  {
    if IsWordChar(s[0]) {
      WordStopsAt(s[1..], at - 1);
    }
  }

  // ----- constraints

  function ConstraintText(c: TableConstraint, st: Style): string {
    c.expr + FlagsOn(c, st, "")
  }

  /** A constraint whose text ends in nothing that reads as another clause, and
      whose quoted texts, comments, parentheses and braces are closed. */
  predicate FitConstraint(c: TableConstraint, st: Style) {
    && c.expr != [] && Trimmed(c.expr) && Through(c.expr, ";{", Depth(0, 0)) == Some(Depth(0, 0))
    && NothingMistaken(c, st)
  }

  predicate WellFormedConstraint(c: TableConstraint, st: Style) {
    Readable(c.name, st) && FitConstraint(c, st)
  }

  /** No end of the text is taken for a clause that was not printed. */
  predicate NothingMistaken(c: TableConstraint, st: Style) {
    && FindRename(ConstraintText(c, st), false).None?
    && (!c.notValid ==> !EndsInFold(c.expr, "NOT VALID"))
    && (!c.notValid && !c.notEnforced ==> !EndsInFold(c.expr, "ENFORCED"))
  }

  function ConstraintDefOf(c: TableConstraint): ConstraintDef {
    ConstraintDef(Identifier([], c.name), c.expr, None, c.notValid, c.notEnforced, None)
  }

  lemma FlagPrinted(on: bool, word: string, st: Style, rest: string)
    requires AllWord(word)
    ensures FlagOn(on, word, st, rest) == FlagOn(on, word, st, "") + rest
    ensures Plain(FlagOn(on, word, st, ""))
    ensures FlagOn(on, word, st, "") != [] ==> FlagOn(on, word, st, "")[0] == ' '
  {
    KeywordReads(word, st);
    KeywordReads("NOT", st);
    if on {
      var w, n := Keyword(word, st), Keyword("NOT", st);
      assert " " + (n + (" " + (w + rest))) == " " + (n + (" " + (w + ""))) + rest;
    }
  }

  lemma FlagsPrinted(c: TableConstraint, st: Style, rest: string)
    ensures FlagsOn(c, st, rest) == FlagsOn(c, st, "") + rest
    ensures Plain(FlagsOn(c, st, ""))
    ensures FlagsOn(c, st, "") != [] ==> FlagsOn(c, st, "")[0] == ' '
  {
    var last, first := FlagOn(c.notEnforced, "ENFORCED", st, ""), FlagOn(c.notValid, "VALID", st, "");
    FlagPrinted(c.notEnforced, "ENFORCED", st, rest);
    FlagPrinted(c.notValid, "VALID", st, last);
    FlagPrinted(c.notValid, "VALID", st, last + rest);
    assert first + (last + rest) == first + last + rest;
  }

  /** A printed flag is recognised at the end of a text and taken off again. */
  lemma FlagTakenOff(x: string, word: string, st: Style)
    requires x != [] && Trimmed(x) && AllWord(word) && word != []
    ensures var s := x + FlagOn(true, word, st, "");
      Trimmed(s) && EndsInFold(s, "NOT " + word) && DropEnd(s, 4 + |word|) == x
  {
    KeywordReads(word, st);
    KeywordReads("NOT", st);
    var w, n := Keyword(word, st), Keyword("NOT", st);
    var s := x + FlagOn(true, word, st, "");
    assert s == x + " " + (n + " " + w);
    var tail := s[|s| - (4 + |word|)..];
    assert tail == n + " " + w;
    FoldConcat(n + " ", "NOT ", w, word);
    FoldConcat(n, "NOT", " ", " ");
    assert s[..|s| - (4 + |word|)] == "" + x + " ";
    TrimSpaceAround("", x, " ");
    assert s[|s| - 1] == w[|w| - 1] && IsWordChar(w[|w| - 1]);
    assert s[0] == x[0];
  }

  lemma FoldConcat(a: string, a': string, b: string, b': string)
    requires SameFold(a, a') && SameFold(b, b')
    ensures SameFold(a + b, a' + b')
  {
    assert ToUpper(a + b) == ToUpper(a) + ToUpper(b);
    assert ToUpper(a' + b') == ToUpper(a') + ToUpper(b');
  }

  lemma ValidIsNotEnforced(x: string, st: Style)
    ensures !EndsInFold(x + FlagOn(true, "VALID", st, ""), "ENFORCED")
  {
    KeywordReads("VALID", st);
    var s := x + FlagOn(true, "VALID", st, "");
    assert s[|s| - 2] == Keyword("VALID", st)[3];
    SecondLast(s, "ENFORCED");
  }

  lemma SecondLast(s: string, word: string)
    requires |word| >= 2 && |s| >= 2
    ensures EndsInFold(s, word) ==> UpperChar(s[|s| - 2]) == UpperChar(word[|word| - 2])
  {
    if EndsInFold(s, word) {
      var tail := s[|s| - |word|..];
      assert ToUpper(tail)[|word| - 2] == ToUpper(word)[|word| - 2];
    }
  }

  lemma LongerEnding(s: string)
    requires EndsInFold(s, "NOT ENFORCED")
    ensures EndsInFold(s, "ENFORCED")
  {
    var tail := s[|s| - 12..];
    forall i | 0 <= i < 8 ensures ToUpper(s[|s| - 8..])[i] == ToUpper("ENFORCED")[i] {
      assert s[|s| - 8..][i] == tail[i + 4];
      assert ToUpper(tail)[i + 4] == ToUpper("NOT ENFORCED")[i + 4];
    }
  }

  lemma EnforcedTaken(x: string, on: bool, st: Style)
    requires x != [] && Trimmed(x) && (!on ==> !EndsInFold(x, "ENFORCED"))
    ensures TakeEnforced(x + FlagOn(on, "ENFORCED", st, "")) == Flagged(on, x)
    ensures Trimmed(x + FlagOn(on, "ENFORCED", st, ""))
  {
    if on {
      FlagTakenOff(x, "ENFORCED", st);
      assert "NOT " + "ENFORCED" == "NOT ENFORCED";
    } else {
      assert x + "" == x;
      if EndsInFold(x, "NOT ENFORCED") {
        LongerEnding(x);
      }
    }
  }

  lemma ValidTaken(x: string, on: bool, st: Style)
    requires x != [] && Trimmed(x) && (!on ==> !EndsInFold(x, "NOT VALID"))
    ensures TakeValid(x + FlagOn(on, "VALID", st, "")) == Flagged(on, x)
    ensures Trimmed(x + FlagOn(on, "VALID", st, ""))
  {
    if on {
      FlagTakenOff(x, "VALID", st);
      assert "NOT " + "VALID" == "NOT VALID";
    } else {
      assert x + "" == x;
    }
  }

  lemma SplitPieces(name: Identifier, text: string, raw: string, x: string, expr: string, enforced: bool, valid: bool)
    requires TrimSpace(text) == raw && FindRename(raw, false).None?
    requires TakeEnforced(raw) == Flagged(enforced, x) && TakeValid(x) == Flagged(valid, expr)
    ensures SplitConstraint(name, text, None) == ConstraintDef(name, expr, None, valid, enforced, None)
  {
  }

  function WithValid(c: TableConstraint, st: Style): string {
    c.expr + FlagOn(c.notValid, "VALID", st, "")
  }

  lemma TextParts(c: TableConstraint, st: Style)
    ensures ConstraintText(c, st) == WithValid(c, st) + FlagOn(c.notEnforced, "ENFORCED", st, "")
    ensures !c.notValid ==> WithValid(c, st) == c.expr
  {
    FlagPrinted(c.notValid, "VALID", st, FlagOn(c.notEnforced, "ENFORCED", st, ""));
  }

  lemma WithValidEnds(c: TableConstraint, st: Style)
    requires !c.notValid && !c.notEnforced ==> !EndsInFold(c.expr, "ENFORCED")
    ensures !c.notEnforced ==> !EndsInFold(WithValid(c, st), "ENFORCED")
  {
    if c.notValid {
      ValidIsNotEnforced(c.expr, st);
    } else {
      TextParts(c, st);
    }
  }

  lemma FlagsTaken(c: TableConstraint, st: Style)
    requires c.expr != [] && Trimmed(c.expr) && NothingMistaken(c, st)
    ensures TakeValid(WithValid(c, st)) == Flagged(c.notValid, c.expr)
    ensures TakeEnforced(ConstraintText(c, st)) == Flagged(c.notEnforced, WithValid(c, st))
    ensures Trimmed(ConstraintText(c, st)) && ConstraintText(c, st) != []
  {
    TextParts(c, st);
    ValidTaken(c.expr, c.notValid, st);
    WithValidEnds(c, st);
    EnforcedTaken(WithValid(c, st), c.notEnforced, st);
  }

  lemma TrimLeading(raw: string)
    requires Trimmed(raw) && raw != []
    ensures TrimSpace(" " + raw) == raw
  {
    assert " " + raw == " " + raw + "";
    TrimSpaceAround(" ", raw, "");
  }

  lemma ConstraintSplits(c: TableConstraint, st: Style)
    requires c.expr != [] && Trimmed(c.expr) && NothingMistaken(c, st)
    ensures SplitConstraint(Identifier([], c.name), " " + ConstraintText(c, st), None) == ConstraintDefOf(c)
  {
    FlagsTaken(c, st);
    TrimLeading(ConstraintText(c, st));
    SplitPieces(Identifier([], c.name), " " + ConstraintText(c, st), ConstraintText(c, st),
                WithValid(c, st), c.expr, c.notEnforced, c.notValid);
  }

  /** The clauses come apart exactly when no end of the text is mistaken for one. */
  lemma ConstraintSplitsIff(c: TableConstraint, st: Style)
    requires c.expr != [] && Trimmed(c.expr)
    ensures NothingMistaken(c, st) <==>
      SplitConstraint(Identifier([], c.name), " " + ConstraintText(c, st), None) == ConstraintDefOf(c)
  {
    if NothingMistaken(c, st) {
      ConstraintSplits(c, st);
    } else if FindRename(ConstraintText(c, st), false).None? {
      MistakenClause(c, st);
    } else {
      TextTrimmed(c, st);
      TrimLeading(ConstraintText(c, st));
    }
  }

  lemma TextTrimmed(c: TableConstraint, st: Style)
    requires c.expr != [] && Trimmed(c.expr)
    ensures Trimmed(ConstraintText(c, st)) && ConstraintText(c, st) != []
  {
    TextParts(c, st);
    FlagTrimmed(c.expr, c.notValid, "VALID", st);
    FlagTrimmed(WithValid(c, st), c.notEnforced, "ENFORCED", st);
  }

  lemma FlagTrimmed(x: string, on: bool, word: string, st: Style)
    requires x != [] && Trimmed(x) && AllWord(word) && word != []
    ensures Trimmed(x + FlagOn(on, word, st, ""))
  {
    if on {
      FlagTakenOff(x, word, st);
    } else {
      assert x + "" == x;
    }
  }

  lemma MistakenClause(c: TableConstraint, st: Style)
    requires c.expr != [] && Trimmed(c.expr) && !c.notValid && FindRename(ConstraintText(c, st), false).None?
    requires EndsInFold(c.expr, "NOT VALID") || (!c.notEnforced && EndsInFold(c.expr, "ENFORCED"))
    ensures SplitConstraint(Identifier([], c.name), " " + ConstraintText(c, st), None) != ConstraintDefOf(c)
  {
    var raw := ConstraintText(c, st);
    TextTrimmed(c, st);
    TrimLeading(raw);
    if c.notEnforced {
      assert raw == c.expr + FlagOn(true, "ENFORCED", st, "");
      EnforcedTaken(c.expr, true, st);
    } else {
      assert raw == c.expr;
      if EndsInFold(raw, "ENFORCED") {
        DropsSome(raw, 8);
        if EndsInFold(raw, "NOT ENFORCED") {
          DropsSome(raw, 12);
        }
        assert |TakeEnforced(raw).text| < |raw|;
        DropsSome(TakeEnforced(raw).text, 0);
        TakeValidShrinks(TakeEnforced(raw).text);
      } else if EndsInFold(raw, "NOT ENFORCED") {
        LongerEnding(raw);
      }
    }
  }

  lemma TakeValidShrinks(s: string)
    ensures |TakeValid(s).text| <= |s|
  {
    if EndsInFold(s, "NOT VALID") {
      DropsSome(s, 9);
    }
  }

  lemma DropsSome(s: string, n: nat)
    requires n <= |s|
    ensures |DropEnd(s, n)| <= |s| - n
  {
    TrimShrinks(s[..|s| - n]);
  }

  lemma TrimShrinks(s: string)
    ensures |TrimSpace(s)| <= |s|
  {
    TrimLeftShrinks(s);
    TrimRightShrinks(TrimLeft(s));
  }

  lemma TrimLeftShrinks(s: string)
    ensures |TrimLeft(s)| <= |s|
  {
  }

  lemma TrimRightShrinks(s: string)
    ensures |TrimRight(s)| <= |s|
  {
  }

  lemma ConstraintReads(c: TableConstraint, st: Style, rest: string)
    requires WellFormedConstraint(c, st)
    ensures Constraint(" " + (QuoteIdent(c.name, st) + (" " + (c.expr + FlagsOn(c, st, ";\n" + rest))))) ==
      Some(Read(ConstraintDefOf(c), "\n" + rest))
  {
    var body := " " + (c.expr + FlagsOn(c, st, ";\n" + rest));
    NameAfterBlank(c.name, st, body);
    SemiLine(rest);
    ConstraintRaw(c, st, ";\n" + rest);
    ConstraintSplits(c, st);
    ConstraintPieces(" " + (QuoteIdent(c.name, st) + body), Identifier([], c.name), body, " " + ConstraintText(c, st), ";\n" + rest,
                     ConstraintDefOf(c), "\n" + rest);
  }

  lemma SemiLine(rest: string)
    ensures StartsWith(";\n" + rest, ';') && (";\n" + rest)[1..] == "\n" + rest
  {
  }

  lemma ConstraintPieces(s: string, name: Identifier, body: string, raw: string, end: string, def: ConstraintDef,
                         after: string)
    requires Ident(s) == Some(Read(name, body)) && RawUntil(body, ";{") == Some(Read(raw, end)) && StartsWith(end, ';')
    requires SplitConstraint(name, raw, None) == def && end[1..] == after
    ensures Constraint(s) == Some(Read(def, after))
  {
  }

  /** A name cut at a dollar sign is read as another one, after a blank too. */
  lemma BadNameAfterBlank(n: string, st: Style, s: string)
    requires !Readable(n, st)
    ensures Ident(" " + (QuoteIdent(n, st) + s)).Some? ==>
      Ident(" " + (QuoteIdent(n, st) + s)).value.value != Identifier([], n)
  {
    NameVisible(n, st, s);
    IdentAfterBlank(QuoteIdent(n, st) + s);
    DollarCutsName(n, st, s);
  }

  lemma NameAfterBlank(n: string, st: Style, s: string)
    requires Readable(n, st) && NameEnds(s)
    ensures Ident(" " + (QuoteIdent(n, st) + s)) == Some(Read(Identifier([], n), s))
  {
    NameVisible(n, st, s);
    IdentAfterBlank(QuoteIdent(n, st) + s);
    NameReads(n, st, s);
  }

  lemma IdentAfterBlank(s: string)
    requires Visible(s)
    ensures Ident(" " + s) == Ident(s)
  {
    SkipsOne(s);
    SkipsBlanks("", s);
    assert "" + s == s;
  }

  lemma ConstraintRaw(c: TableConstraint, st: Style, end: string)
    requires WellFormedConstraint(c, st) && StartsWith(end, ';')
    ensures RawUntil(" " + (c.expr + FlagsOn(c, st, end)), ";{") == Some(Read(" " + ConstraintText(c, st), end))
  {
    FlagsPrinted(c, st, end);
    RawOfParts(c.expr, FlagsOn(c, st, ""), end, ";{");
  }

  /** Raw text made of a closed part and a plain one, up to a semicolon. */
  lemma RawOfParts(text: string, plain: string, end: string, stops: string)
    requires Through(text, stops, Depth(0, 0)) == Some(Depth(0, 0)) && Plain(plain) && Apart(plain)
    requires (forall c :: c in stops ==> c in "(){};") && end != [] && end[0] in stops
    ensures RawUntil(" " + (text + (plain + end)), stops) == Some(Read(" " + (text + plain), end))
  {
    PlainAfter(plain, end, stops, 0, 0);
    RawEndAfter(text, plain + end, stops, Depth(0, 0));
    assert (" " + (text + (plain + end)))[1..] == text + (plain + end);
    assert " " + (text + (plain + end)) == " " + (text + plain) + end;
    RawRead(" " + (text + plain), end, stops);
  }
}

/** The clauses between a partition's name and its block: what the dump prints
    there comes apart into the same bounds, server, options and columns. */
module ClauseRoundTrip {
  import opened Text
  import opened Scanner
  import opened ScannerFacts
  import opened PartitionGrammar
  import opened PartitionPrinter
  import opened ConstraintRoundTrip

  const TOP := Depth(0, 0)
  const INSIDE := Depth(1, 0)
  const STOPS := ";{}"

  // ----- PARTITION BY

  lemma FoldTaken(w: string, k: string, rest: string)
    requires SameFold(w, k) && |w| == |k|
    ensures TakeFold(w + rest, k) == Some(rest)
  {
    assert (w + rest)[..|k|] == w && (w + rest)[|k|..] == rest;
  }

  lemma SpaceTaken(rest: string)
    requires rest != [] ==> !IsRegexSpace(rest[0])
    ensures SomeSpace(" " + rest) == Some(rest) && SkipRegexSpace(" " + rest) == rest
  {
    assert (" " + rest)[1..] == rest;
    assert SkipRegexSpace(rest) == rest;
  }

  lemma KeywordTaken(k: string, st: Style, rest: string)
    requires AllWord(k)
    ensures TakeFold(Keyword(k, st) + rest, k) == Some(rest)
  {
    KeywordReads(k, st);
    FoldTaken(Keyword(k, st), k, rest);
  }

  lemma KeywordSolid(k: string, st: Style, rest: string)
    requires AllWord(k) && k != []
    ensures Keyword(k, st) != [] && (Keyword(k, st) + rest)[0] == Keyword(k, st)[0] && IsWordChar(Keyword(k, st)[0])
    ensures !IsRegexSpace((Keyword(k, st) + rest)[0]) && Visible(Keyword(k, st) + rest) && Apart(Keyword(k, st) + rest)
  {
    KeywordReads(k, st);
  }

  predicate IsStrategy(s: string) {
    s == "RANGE" || s == "LIST" || s == "HASH"
  }

  lemma StrategyTaken(strategy: string, st: Style, rest: string)
    requires IsStrategy(strategy)
    ensures TakeStrategy(Keyword(strategy, st) + rest) == Some(Read(strategy, rest))
  {
    var s := Keyword(strategy, st) + rest;
    KeywordTaken(strategy, st, rest);
    KeywordReads(strategy, st);
    assert UpperChar(s[0]) == strategy[0] && s[|strategy|..] == rest;
    assert TakeFold(s, "RANGE").Some? ==> ToUpper(s[..5])[0] == 'R';
    assert TakeFold(s, "LIST").Some? ==> ToUpper(s[..4])[0] == 'L';
  }

  lemma {:induction false} CutAt(a: string, c: char, b: string)
    requires c !in a
    ensures Cut(a + ([c] + b), c) == Some((a, b))
  {
    if a == [] {
      assert a + ([c] + b) == [c] + b;
    } else {
      assert (a + ([c] + b))[1..] == a[1..] + ([c] + b);
      CutAt(a[1..], c, b);
      assert a == [a[0]] + a[1..];
    }
  }

  lemma ColumnsTaken(columns: string, pad: string)
    requires ')' !in columns && SkipRegexSpace(pad) == []
    ensures
      var s := SkipRegexSpace(" (" + (columns + (")" + pad)));
      StartsWith(s, '(') && Cut(s[1..], ')') == Some((columns, pad))
  {
    var s := "(" + (columns + (")" + pad));
    assert " (" + (columns + (")" + pad)) == " " + s;
    SpaceTaken(s);
    assert s[1..] == columns + ([')'] + pad);
    CutAt(columns, ')', pad);
  }

  lemma SubClauseSteps(s: string, s1: string, s2: string, s3: string, s4: string, strategy: string, s5: string,
                       columns: string, pad: string)
    requires TakeFold(s, "PARTITION") == Some(s1) && SomeSpace(s1) == Some(s2) && TakeFold(s2, "BY") == Some(s3)
    requires SomeSpace(s3) == Some(s4) && TakeStrategy(s4) == Some(Read(strategy, s5))
    requires StartsWith(SkipRegexSpace(s5), '(') && Cut(SkipRegexSpace(s5)[1..], ')') == Some((columns, pad))
    requires SkipRegexSpace(pad) == []
    ensures SubClauseAt(s) == Some(SubClause(strategy, columns))
  {
  }

  /** One word of the clause and the space after it. */
  lemma WordTaken(k: string, st: Style, rest: string)
    requires (k == "PARTITION" || k == "BY") && rest != [] && !IsRegexSpace(rest[0])
    ensures TakeFold(Keyword(k, st) + (" " + rest), k) == Some(" " + rest) && SomeSpace(" " + rest) == Some(rest)
    ensures !IsRegexSpace((Keyword(k, st) + (" " + rest))[0])
  {
    assert AllWord("PARTITION") && AllWord("BY");
    KeywordTaken(k, st, " " + rest);
    SpaceTaken(rest);
    KeywordSolid(k, st, " " + rest);
  }

  lemma SubClauseReads(spec: PartitionSpec, st: Style, pad: string)
    requires IsStrategy(spec.strategy) && ')' !in Join(spec.columns, ", ") && SkipRegexSpace(pad) == []
    ensures SubClauseAt(SubClauseOn(spec, st, pad)) == Some(SubClause(spec.strategy, Join(spec.columns, ", ")))
  {
    var s5 := " (" + (Join(spec.columns, ", ") + (")" + pad));
    var s4 := Keyword(spec.strategy, st) + s5;
    var s2 := Keyword("BY", st) + (" " + s4);
    KeywordSolid(spec.strategy, st, s5);
    WordTaken("BY", st, s4);
    WordTaken("PARTITION", st, s2);
    StrategyTaken(spec.strategy, st, s5);
    ColumnsTaken(Join(spec.columns, ", "), pad);
    SubClauseSteps(SubClauseOn(spec, st, pad), " " + s2, s2, " " + s4, s4, spec.strategy, s5, Join(spec.columns, ", "),
      pad);
  }

  /** A printed clause is recognised with its columns exactly when they hold no
      closing parenthesis, so an expression among them is not. */
  lemma SubClauseReadsIff(spec: PartitionSpec, st: Style, pad: string)
    requires IsStrategy(spec.strategy) && SkipRegexSpace(pad) == []
    ensures ')' !in Join(spec.columns, ", ") <==>
      SubClauseAt(SubClauseOn(spec, st, pad)) == Some(SubClause(spec.strategy, Join(spec.columns, ", ")))
  {
    if ')' !in Join(spec.columns, ", ") {
      SubClauseReads(spec, st, pad);
    } else if SubClauseAt(SubClauseOn(spec, st, pad)).Some? {
      ColumnsHaveNoParen(SubClauseOn(spec, st, pad));
    }
  }

  lemma ColumnsHaveNoParen(s: string)
    requires SubClauseAt(s).Some?
    ensures ')' !in SubClauseAt(s).value.columns
  {
    var s4 := SomeSpace(TakeFold(SomeSpace(TakeFold(s, "PARTITION").value).value, "BY").value).value;
    var s5 := SkipRegexSpace(TakeStrategy(s4).value.rest);
    CutBefore(s5[1..], ')');
  }

  lemma {:induction false} CutBefore(s: string, c: char)
    requires Cut(s, c).Some?
    ensures c !in Cut(s, c).value.0
  {
    if s[0] != c {
      CutBefore(s[1..], c);
    }
  }

  /** The clause is not recognised at any earlier place. */
  predicate NoneBefore(a: string, b: string, afterWord: bool) {
    a == [] || ((afterWord || SubClauseAt(a + b).None?) && NoneBefore(a[1..], b, IsWordChar(a[0])))
  }

  lemma {:induction false} FoundThere(a: string, b: string, afterWord: bool)
    requires NoneBefore(a, b, afterWord) && SubClauseAt(b).Some?
    requires if a == [] then !afterWord else !IsWordChar(a[|a| - 1])
    ensures FindSubClause(a + b, afterWord) == Some(Found(a, SubClauseAt(b).value))
  {
    if a == [] {
      assert a + b == b;
    } else {
      assert (a + b)[1..] == a[1..] + b;
      FoundThere(a[1..], b, IsWordChar(a[0]));
      assert a == [a[0]] + a[1..];
    }
  }

  predicate FoldAt(s: string, i: nat, word: string) {
    i + |word| <= |s| && SameFold(s[i..i + |word|], word)
  }

  predicate Mentions(s: string, word: string) {
    exists i: nat :: i <= |s| && FoldAt(s, i, word)
  }

  lemma {:induction false} MentionsLater(s: string, word: string)
    requires s != [] && Mentions(s[1..], word)
    ensures Mentions(s, word)
  {
    var i: nat :| i <= |s[1..]| && FoldAt(s[1..], i, word);
    assert s[1..][i..i + |word|] == s[i + 1..i + 1 + |word|];
    assert FoldAt(s, i + 1, word);
  }

  /** A text that nowhere says PARTITION cannot be taken for the clause. */
  lemma {:induction false} UnmentionedMeansNone(a: string, b: string, afterWord: bool)
    requires !Mentions(a, "PARTITION") && (a != [] ==> a[|a| - 1] == ' ')
    ensures NoneBefore(a, b, afterWord)
  {
    if a != [] {
      if Mentions(a[1..], "PARTITION") {
        MentionsLater(a, "PARTITION");
      }
      UnmentionedMeansNone(a[1..], b, IsWordChar(a[0]));
      NotTakenHere(a, b);
    }
  }

  lemma NotTakenHere(a: string, b: string)
    requires !Mentions(a, "PARTITION") && a != [] && a[|a| - 1] == ' '
    ensures TakeFold(a + b, "PARTITION").None?
  {
    var s := a + b;
    if |a| >= 9 {
      assert !FoldAt(a, 0, "PARTITION");
      assert s[..9] == a[0..0 + 9];
    } else if |s| >= 9 {
      assert ToUpper(s[..9])[|a| - 1] == ' ';
    }
  }

  // ----- columns

  predicate ColumnOk(c: string) {
    && c != [] && Trimmed(c) && (forall i :: 0 <= i < |c| ==> c[i] !in ",()")
    && Through(c, STOPS, INSIDE) == Some(INSIDE) && Apart(c)
  }

  lemma {:induction false} PieceGoesOn(c: string, rest: string, piece: string)
    requires forall i :: 0 <= i < |c| ==> c[i] !in ",()"
    ensures SplitTopLevel(c + rest, ',', 0, piece) == SplitTopLevel(rest, ',', 0, piece + c)
  {
    if c == [] {
      assert c + rest == rest && piece + c == piece;
    } else {
      assert (c + rest)[1..] == c[1..] + rest;
      PieceGoesOn(c[1..], rest, piece + [c[0]]);
      assert piece + [c[0]] + c[1..] == piece + c;
    }
  }

  predicate ColumnsOk(cols: seq<string>) {
    forall i :: 0 <= i < |cols| ==> ColumnOk(cols[i])
  }

  lemma {:induction false} ColumnsSplit(cols: seq<string>, lead: string)
    requires ColumnsOk(cols) && cols != [] && AllSpace(lead)
    ensures NonBlank(SplitTopLevel(Join(cols, ", "), ',', 0, lead)) == cols
    decreases |cols|
  {
    var c := cols[0];
    assert lead + c == lead + c + "";
    TrimSpaceAround(lead, c, "");
    if |cols| == 1 {
      assert c + "" == c;
      PieceGoesOn(c, "", lead);
      assert SplitTopLevel("", ',', 0, lead + c) == [lead + c];
      OnePiece(lead + c, [], cols, c);
    } else {
      var rest := Join(cols[1..], ", ");
      assert c + ", " + rest == c + (", " + rest);
      PieceGoesOn(c, ", " + rest, lead);
      assert (", " + rest)[1..] == " " + rest;
      PieceGoesOn(" ", rest, "");
      assert "" + " " == " ";
      ColumnsSplit(cols[1..], " ");
      OnePiece(lead + c, SplitTopLevel(rest, ',', 0, " "), cols, c);
    }
  }

  lemma OnePiece(piece: string, more: seq<string>, cols: seq<string>, c: string)
    requires TrimSpace(piece) == c && c != [] && cols != [] && cols[0] == c && NonBlank(more) == cols[1..]
    ensures NonBlank([piece] + more) == cols
  {
    assert ([piece] + more)[1..] == more;
  }

  lemma ColumnsBack(cols: seq<string>)
    requires ColumnsOk(cols)
    ensures NonBlank(SplitTopLevel(Join(cols, ", "), ',', 0, [])) == cols
  {
    if cols != [] {
      ColumnsSplit(cols, []);
    } else {
      assert SplitTopLevel("", ',', 0, []) == [""];
      assert TrimSpace("") == "";
      assert [""][1..] == [];
    }
  }

  lemma {:induction false} JoinThrough(cols: seq<string>)
    requires ColumnsOk(cols)
    ensures Through(Join(cols, ", "), STOPS, INSIDE) == Some(INSIDE) && Apart(Join(cols, ", "))
    ensures ')' !in Join(cols, ", ")
    decreases |cols|
  {
    if |cols| > 1 {
      JoinThrough(cols[1..]);
      var rest := Join(cols[1..], ", ");
      PlainThrough(", ", STOPS, INSIDE);
      ThroughThen(", ", rest, STOPS, INSIDE);
      ThroughThen(cols[0], ", " + rest, STOPS, INSIDE);
      assert cols[0] + ", " + rest == cols[0] + (", " + rest);
    }
  }
}

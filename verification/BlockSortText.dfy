/** Sorting the text between the braces of a block. */
module BlockSortText {
  import opened Text
  import opened Scanner
  import opened FormatLexer
  import opened FaithfulTokens
  import opened StableSort
  import opened BlockSort

  function SortText(s: string, keywords: set<string>): string {
    var sp := SplitBlock(Lex(s, keywords));
    if TrimSpace(s) == "" || sp.chunks == [] then s else Texts(SortedTokens(sp))
  }

  // ----- the tokens of the sorted text

  lemma FlatCons(cs: seq<Chunk>, end: seq<Lexeme>)
    requires cs != []
    ensures Flat(cs) + end == cs[0] + (Flat(cs[1..]) + end)
  {
  }

  /** The directives of a faithful list are faithful, and so is what follows them. */
  lemma {:induction false} PiecesFaithful(cs: seq<Chunk>, end: seq<Lexeme>, keywords: set<string>)
    requires AllClosed(cs) && Faithful(Flat(cs) + end, keywords)
    ensures forall i :: 0 <= i < |cs| ==> Faithful(cs[i], keywords)
    ensures Faithful(end, keywords)
  {
    if cs == [] {
      assert Flat(cs) + end == end;
    } else {
      var more := Flat(cs[1..]) + end;
      FlatCons(cs, end);
      ClosedEndsClosed(cs[0]);
      FaithfulPrefix(cs[0], more, keywords);
      FaithfulSuffix(cs[0] + more, |cs[0]|, keywords);
      assert (cs[0] + more)[|cs[0]|..] == more;
      PiecesFaithful(cs[1..], end, keywords);
    }
  }

  lemma {:induction false} FlatFaithful(cs: seq<Chunk>, end: seq<Lexeme>, keywords: set<string>)
    requires AllClosed(cs) && (forall i :: 0 <= i < |cs| ==> Faithful(cs[i], keywords)) && Faithful(end, keywords)
    ensures Faithful(Flat(cs) + end, keywords)
  {
    if cs == [] {
      assert Flat(cs) + end == end;
    } else {
      FlatFaithful(cs[1..], end, keywords);
      ClosedEndsClosed(cs[0]);
      FaithfulJoin(cs[0], Flat(cs[1..]) + end, keywords);
      FlatCons(cs, end);
    }
  }

  /** What is ended among the directives, and what ends the block. */
  lemma SplitPieces(ts: seq<Lexeme>, sp: Split, keywords: set<string>)
    requires SplitsWell(ts, sp) && Faithful(ts, keywords)
    ensures forall i :: 0 <= i < |sp.chunks| ==> Faithful(sp.chunks[i], keywords)
    ensures Faithful(sp.trailing, keywords)
  {
    var n := |sp.chunks| - 1;
    if n < 0 {
      assert Flat(sp.chunks) + sp.trailing == sp.trailing;
    } else if Closed(sp.chunks[n]) {
      AllButLast(sp.chunks);
      PiecesFaithful(sp.chunks, sp.trailing, keywords);
    } else {
      var front, last := sp.chunks[..n], sp.chunks[n];
      assert sp.chunks == front + [last];
      FlatJoin(front, [last]);
      assert Flat([last]) == last + [];
      assert Flat(sp.chunks) + [] == Flat(front) + last;
      PiecesFaithful(front, last, keywords);
      assert Lex(Texts([]), keywords) == [];
      assert forall i :: 0 <= i < n ==> sp.chunks[i] == front[i];
    }
  }

  lemma SafeTextLexes(s: string, keywords: set<string>)
    requires LastIsSafe(SplitBlock(Lex(s, keywords)).chunks)
    ensures Faithful(SortedTokens(SplitBlock(Lex(s, keywords))), keywords)
  {
    var ts := Lex(s, keywords);
    var sp := SplitBlock(ts);
    SplitIsLossless(ts);
    LexIsFaithful(s, keywords);
    SplitPieces(ts, sp, keywords);
    var front, end := SafeSorted(ts, sp);
    SameMembers(sp.chunks, Priority);
    forall i | 0 <= i < |front| ensures Faithful(front[i], keywords) {
      assert front[i] == (front + SplitBlock(end).chunks)[i];
      assert front[i] in Sorted(sp.chunks);
    }
    FlatFaithful(front, end, keywords);
  }

  /** The sorted text comes apart into exactly the sorted directives, with the
      same tokens, if and only if the last directive is safe. */
  lemma SortedTextResplitsIff(s: string, keywords: set<string>)
    ensures var sp := SplitBlock(Lex(s, keywords));
      LastIsSafe(sp.chunks) <==>
        SplitBlock(Lex(Texts(SortedTokens(sp)), keywords)) == Split(Sorted(sp.chunks), sp.trailing)
  {
    var ts := Lex(s, keywords);
    var sp := SplitBlock(ts);
    if LastIsSafe(sp.chunks) {
      SafeTextLexes(s, keywords);
      ResplitsIff(ts);
    } else {
      UnsafeInside(sp.chunks);
      var ts' := Lex(Texts(SortedTokens(sp)), keywords);
      SplitIsLossless(ts');
      NotAllButLast(Sorted(sp.chunks), ts', SplitBlock(ts'));
    }
  }

  /** Then sorting again changes nothing. */
  lemma SortTextIdempotent(s: string, keywords: set<string>)
    requires LastIsSafe(SplitBlock(Lex(s, keywords)).chunks)
    ensures SortText(SortText(s, keywords), keywords) == SortText(s, keywords)
  {
    var sp := SplitBlock(Lex(s, keywords));
    SortedTextResplitsIff(s, keywords);
    SortByIsStable(sp.chunks, Priority, 0);
    OrderedStays(Sorted(sp.chunks), Priority);
  }

  /** The pieces of the text, in another order: no directive is lost, changed or
      split, and those of the same rank keep their order. */
  lemma SortTextRearranges(s: string, keywords: set<string>, rank: int)
    ensures var sp := SplitBlock(Lex(s, keywords));
      && s == Texts(Flat(sp.chunks)) + Texts(sp.trailing)
      && SortText(s, keywords) == Texts(Flat(Sorted(sp.chunks))) + Texts(sp.trailing)
      && multiset(Sorted(sp.chunks)) == multiset(sp.chunks) && Ordered(Sorted(sp.chunks), Priority)
      && OfKey(Sorted(sp.chunks), Priority, rank) == OfKey(sp.chunks, Priority, rank)
  {
    var ts := Lex(s, keywords);
    var sp := SplitBlock(ts);
    LexIsLossless(s, keywords);
    SplitIsLossless(ts);
    TextsJoin(Flat(sp.chunks), sp.trailing);
    TextsJoin(Flat(Sorted(sp.chunks)), sp.trailing);
    SortByIsStable(sp.chunks, Priority, rank);
    if TrimSpace(s) == "" {
      BlankHasNoDirective(s, keywords);
      OneStays(sp.chunks);
    }
  }

  lemma OneStays(cs: seq<Chunk>)
    requires |cs| <= 1
    ensures Sorted(cs) == cs
  {
    OrderedStays(cs, Priority);
  }

  /** White space alone has no mark that ends a directive. */
  lemma BlankHasNoDirective(s: string, keywords: set<string>)
    requires TrimSpace(s) == ""
    ensures |SplitBlock(Lex(s, keywords)).chunks| <= 1
  {
    TrimLeftStops(s);
    TrimRightKeepsFirst(TrimLeft(s));
    BlankTokens(s, keywords);
    NoMarkNoEnd(Lex(s, keywords));
  }

  lemma {:induction false} TrimRightKeepsFirst(t: string)
    requires t != [] ==> !IsSpace(t[0])
    ensures t != [] ==> TrimRight(t) != []
  {
    if t != [] && IsSpace(t[|t| - 1]) {
      TrimRightKeepsFirst(t[..|t| - 1]);
    }
  }

  lemma {:induction false} TrimLeftStops(s: string)
    ensures TrimLeft(s) != [] ==> !IsSpace(TrimLeft(s)[0])
    ensures TrimLeft(s) == [] ==> AllSpace(s)
  {
    if s != [] && IsSpace(s[0]) {
      TrimLeftStops(s[1..]);
      assert forall i :: 1 <= i < |s| ==> s[i] == s[1..][i - 1];
    }
  }

  predicate IsBlankToken(t: Lexeme) {
    t.typ == Newline || t.typ == Whitespace || t.typ == Operator
  }

  lemma {:induction false} BlankTokens(s: string, keywords: set<string>)
    requires AllSpace(s)
    ensures forall i :: 0 <= i < |Lex(s, keywords)| ==> IsBlankToken(Lex(s, keywords)[i])
    decreases |s|
  {
    if s != [] {
      var rest := FirstRest(s);
      FirstSuffix(s);
      forall i | 0 <= i < |rest| ensures IsSpace(rest[i]) {
        assert rest[i] == s[|s| - |rest| + i];
      }
      assert IsSpace(s[0]);
      BlankTokens(rest, keywords);
    }
  }

  lemma {:induction false} NoMarkNoBody(ts: seq<Lexeme>)
    requires forall i :: 0 <= i < |ts| ==> IsBlankToken(ts[i])
    ensures BodyLength(ts, 0).None?
  {
    if ts != [] {
      NoMarkNoBody(ts[1..]);
    }
  }

  lemma {:induction false} NoMarkNoEnd(ts: seq<Lexeme>)
    requires forall i :: 0 <= i < |ts| ==> IsBlankToken(ts[i])
    ensures DirectiveLength(ts).None? && |SplitBlock(ts).chunks| <= 1
  {
    if ts != [] {
      NoMarkNoBody(ts[1..]);
      NoMarkNoEnd(ts[1..]);
    }
  }
}

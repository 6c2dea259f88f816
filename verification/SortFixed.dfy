/** Which blocks sorting leaves as they are: exactly those whose directives stand
    in order, ended or not. */
module SortFixed {
  import opened Text
  import opened Scanner
  import opened FormatLexer
  import opened LexLocality
  import opened FaithfulTokens
  import opened StableSort
  import opened BlockSort
  import opened BlockSortText

  // ----- the first word of a text

  lemma {:induction false} FirstWordOf(c: Chunk, more: seq<Lexeme>)
    requires !AllTrivia(c)
    ensures FirstWord(c + more) == FirstWord(c)
  {
    assert (c + more)[0] == c[0] && (c + more)[1..] == c[1..] + more;
    if IsTrivia(c[0]) {
      FirstWordOf(c[1..], more);
    }
  }

  lemma EndedFirstWord(c: Chunk, rest: string, keywords: set<string>)
    requires Faithful(c, keywords) && Closed(c)
    ensures FirstWord(Lex(Texts(c) + rest, keywords)) == FirstWord(c)
  {
    var more := Lex(rest, keywords);
    LexIsFaithful(rest, keywords);
    LexIsLossless(rest, keywords);
    ClosedEndsClosed(c);
    FaithfulJoin(c, more, keywords);
    TextsJoin(c, more);
    ClosedHasWord(c);
    FirstWordOf(c, more);
  }

  lemma ClosedHasWord(c: Chunk)
    requires Closed(c)
    ensures !AllTrivia(c)
  {
    DirectiveOf(c, []);
    OnEmpty(c);
  }

  /** A word does not end in a mark. */
  lemma WordHasNoMark(t: Lexeme, keywords: set<string>)
    requires Heads(t, "", keywords) && (t.typ == Keyword || t.typ == Ident)
    ensures !EndsInMark(t.text)
  {
    OnEmpty(t.text);
    assert IsWordStart(t.text[0]) && AfterWord(t.text) == "";
    AllOfWord(t.text);
  }

  lemma {:induction false} AllOfWord(s: string)
    requires AfterWord(s) == ""
    ensures forall i :: 0 <= i < |s| ==> IsWordChar(s[i])
  {
    if s != [] {
      assert IsWordChar(s[0]) && AfterWord(s[1..]) == "";
      AllOfWord(s[1..]);
    }
  }

  lemma MarkAfter(t: Lexeme, ts: seq<Lexeme>, keywords: set<string>)
    requires Faithful([t] + ts, keywords) && ts != [] && EndsInMark(Texts([t] + ts))
    ensures Faithful(ts, keywords) && EndsInMark(Texts(ts)) && Heads(t, Texts(ts), keywords)
  {
    var all := [t] + ts;
    assert all[1..] == ts;
    FaithfulHead(all, keywords);
    FaithfulHead(ts, keywords);
    assert Texts(all) == t.text + Texts(ts) && Texts(ts) != [];
    assert Texts(all)[|Texts(all)| - 1] == Texts(ts)[|Texts(ts)| - 1];
  }

  /** The first word of a text that ends in a mark stays, whatever follows. */
  lemma {:induction false} MarkedFirstWord(ts: seq<Lexeme>, rest: string, keywords: set<string>)
    requires Faithful(ts, keywords) && EndsInMark(Texts(ts)) && !AllTrivia(ts)
    ensures FirstWord(ts) == "" || FirstWord(Lex(Texts(ts) + rest, keywords)) == FirstWord(ts)
  {
    var t, more := ts[0], ts[1..];
    if more == [] {
      OneWordIsNone(ts, keywords);
    } else {
      assert [t] + more == ts;
      MarkAfter(t, more, keywords);
      FirstOfMarked(t, more, rest, keywords);
      ConsWord(t, more);
      ConsWord(t, Lex(Texts(more) + rest, keywords));
      if IsTrivia(t) {
        MarkedFirstWord(more, rest, keywords);
      }
    }
  }

  lemma FirstOfMarked(t: Lexeme, ts: seq<Lexeme>, rest: string, keywords: set<string>)
    requires EndsInMark(Texts(ts)) && Heads(t, Texts(ts), keywords)
    ensures Lex(Texts([t] + ts) + rest, keywords) == [t] + Lex(Texts(ts) + rest, keywords)
  {
    OnEmpty(Texts(ts));
    HeadsBeforeMark(t, Texts(ts), "", rest, keywords);
    Assoc(t.text, Texts(ts), rest);
    LexStep(t.text, Texts(ts) + rest, keywords);
    assert ([t] + ts)[1..] == ts;
  }

  lemma ConsWord(t: Lexeme, ts: seq<Lexeme>)
    ensures FirstWord([t] + ts) == if IsTrivia(t) then FirstWord(ts) else FirstWord([t])
  {
    assert ([t] + ts)[1..] == ts;
  }

  lemma OneWordIsNone(ts: seq<Lexeme>, keywords: set<string>)
    requires Faithful(ts, keywords) && |ts| == 1 && EndsInMark(Texts(ts)) && !AllTrivia(ts)
    ensures FirstWord(ts) == ""
  {
    FaithfulHead(ts, keywords);
    OnEmpty(ts[0].text);
    if ts[0].typ == Keyword || ts[0].typ == Ident {
      WordHasNoMark(ts[0], keywords);
    }
  }

  // ----- the same text in two orders

  /** Directives as splitting gives them: only the last may be unended. */
  predicate Pieces(cs: seq<Chunk>) {
    cs != [] ==>
      var n := |cs| - 1;
      AllClosed(cs[..n]) && (Closed(cs[n]) || Unended(cs[n]))
  }

  predicate AllFaithful(cs: seq<Chunk>, keywords: set<string>) {
    forall i :: 0 <= i < |cs| ==> Faithful(cs[i], keywords)
  }

  lemma PieceHasWord(cs: seq<Chunk>, c: Chunk)
    requires Pieces(cs) && c in cs
    ensures !AllTrivia(c) && (Closed(c) || c == cs[|cs| - 1])
  {
    var n := |cs| - 1;
    var k :| 0 <= k < |cs| && cs[k] == c;
    assert k < n ==> cs[..n][k] == c;
    if Closed(c) {
      ClosedHasWord(c);
    }
  }

  lemma {:induction false} FlatEnds(cs: seq<Chunk>)
    requires cs != []
    ensures Texts(Flat(cs)) == Texts(Flat(cs[..|cs| - 1])) + Texts(cs[|cs| - 1])
  {
    var n := |cs| - 1;
    assert cs == cs[..n] + [cs[n]];
    FlatJoin(cs[..n], [cs[n]]);
    assert [cs[n]][1..] == [] && Flat([cs[n]]) == cs[n] + Flat([]) == cs[n];
    TextsJoin(Flat(cs[..n]), cs[n]);
  }

  lemma FlatBegins(cs: seq<Chunk>)
    requires cs != []
    ensures Texts(Flat(cs)) == Texts(cs[0]) + Texts(Flat(cs[1..]))
  {
    TextsJoin(cs[0], Flat(cs[1..]));
  }

  /** The unended directive moved to the front, before ended ones: its text ends
      in a mark, because the whole text ends with it. */
  lemma MovedEndsInMark(a: seq<Chunk>, b: seq<Chunk>, keywords: set<string>)
    requires a != [] && b != [] && a[0] == b[|b| - 1] && Closed(a[|a| - 1])
    requires AllFaithful(a, keywords) && !AllTrivia(a[0])
    requires Texts(Flat(a)) == Texts(Flat(b))
    ensures EndsInMark(Texts(a[0]))
  {
    FlatEnds(a);
    FlatEnds(b);
    ClosedEndsClosed(a[|a| - 1]);
    ClosedEndsInMark(a[|a| - 1], keywords);
    FaithfulHead(a[0], keywords);
    var s, u, v := Texts(Flat(a)), Texts(a[|a| - 1]), Texts(a[0]);
    assert s[|s| - 1] == u[|u| - 1] && v != [] && s[|s| - 1] == v[|v| - 1];
  }

  lemma TwiceIn<T>(s: seq<T>, x: T)
    requires s != [] && s[0] == x && multiset(s)[x] <= 1
    ensures x !in s[1..]
  {
    assert s == [s[0]] + s[1..];
    assert multiset(s)[x] == 1 + multiset(s[1..])[x];
  }

  lemma OnceIn(b: seq<Chunk>)
    requires Pieces(b) && b != [] && !Closed(b[|b| - 1])
    ensures multiset(b)[b[|b| - 1]] == 1
  {
    var n := |b| - 1;
    assert b == b[..n] + [b[n]];
    assert b[n] !in b[..n];
  }

  /** Everything behind an unended directive that was moved to the front is ended. */
  lemma OthersEnded(a: seq<Chunk>, b: seq<Chunk>)
    requires a != [] && multiset(a) == multiset(b) && Pieces(b) && !Closed(a[0])
    ensures b != [] && a[0] == b[|b| - 1] && AllClosed(a[1..]) && |a| == |b|
  {
    assert a[0] in multiset(b);
    assert |multiset(a)| == |a| && |multiset(b)| == |b|;
    PieceHasWord(b, a[0]);
    OnceIn(b);
    TwiceIn(a, a[0]);
    forall k | 0 <= k < |a[1..]| ensures Closed(a[1..][k]) {
      assert a[1..][k] == a[k + 1] && a[k + 1] in multiset(b);
      PieceHasWord(b, a[k + 1]);
    }
  }

  lemma RankAtMost(c: Chunk)
    ensures Priority(c) <= 99 && (FirstWord(c) == "" ==> Priority(c) == 99)
  {
  }

  /** Two such lists with one text begin with directives of one rank. */
  lemma SameFirstRank(a: seq<Chunk>, b: seq<Chunk>, keywords: set<string>)
    requires a != [] && multiset(a) == multiset(b) && Ordered(a, Priority) && Pieces(b)
    requires AllFaithful(a, keywords) && Faithful(Flat(b), keywords) && Texts(Flat(a)) == Texts(Flat(b))
    ensures b != [] && Priority(a[0]) == Priority(b[0])
  {
    assert a[0] in multiset(b);
    assert b[0] in multiset(a);
    PieceHasWord(b, a[0]);
    PieceHasWord(b, b[0]);
    FirstWordOf(b[0], Flat(b[1..]));
    FlatBegins(a);
    if Closed(a[0]) {
      EndedFirstWord(a[0], Texts(Flat(a[1..])), keywords);
    } else {
      OthersEnded(a, b);
      UnendedFirstRank(a, b, keywords);
    }
  }

  lemma UnendedFirstRank(a: seq<Chunk>, b: seq<Chunk>, keywords: set<string>)
    requires a != [] && |a| == |b| && a[0] == b[|b| - 1] && AllClosed(a[1..]) && !AllTrivia(a[0]) && b[0] in a
    requires Ordered(a, Priority) && AllFaithful(a, keywords) && Texts(Flat(a)) == Texts(Flat(b))
    requires FirstWord(Lex(Texts(Flat(b)), keywords)) == FirstWord(b[0])
    ensures Priority(a[0]) == Priority(b[0])
  {
    if |a| > 1 {
      assert a[|a| - 1] == a[1..][|a| - 2];
      MovedEndsInMark(a, b, keywords);
      FlatBegins(a);
      MarkedFirstWord(a[0], Texts(Flat(a[1..])), keywords);
      RankAtMost(a[0]);
      RankAtMost(b[0]);
      var k :| 0 <= k < |a| && a[k] == b[0];
      assert k == 0 || Priority(a[0]) <= Priority(a[k]);
    }
  }

  lemma RestPieces(b: seq<Chunk>, keywords: set<string>)
    requires b != [] && Pieces(b) && Faithful(Flat(b), keywords)
    ensures Pieces(b[1..]) && Faithful(Flat(b[1..]), keywords)
  {
    FaithfulSuffix(Flat(b), |b[0]|, keywords);
    assert Flat(b)[|b[0]|..] == Flat(b[1..]);
    var n := |b| - 1;
    if n > 0 {
      assert b[1..][..n - 1] == b[..n][1..] && b[1..][n - 1] == b[n];
    }
  }

  lemma TailMembers<T>(s: seq<T>)
    requires s != []
    ensures multiset(s[1..]) == multiset(s) - multiset{s[0]}
  {
    assert s == [s[0]] + s[1..];
  }

  lemma TailsAlike(a: seq<Chunk>, b: seq<Chunk>)
    requires a != [] && b != [] && a[0] == b[0] && multiset(a) == multiset(b) && SameOfKeys(a, b, Priority)
    requires Texts(Flat(a)) == Texts(Flat(b))
    ensures multiset(a[1..]) == multiset(b[1..]) && SameOfKeys(a[1..], b[1..], Priority)
    ensures Texts(Flat(a[1..])) == Texts(Flat(b[1..]))
  {
    TailMembers(a);
    TailMembers(b);
    forall k ensures OfKey(a[1..], Priority, k) == OfKey(b[1..], Priority, k) {
      TailOfKey(a, Priority, k);
      TailOfKey(b, Priority, k);
    }
    FlatBegins(a);
    FlatBegins(b);
    SameTail(Texts(a[0]), Texts(Flat(a[1..])), Texts(Flat(b[1..])));
  }

  lemma SameTail<T>(x: seq<T>, y: seq<T>, z: seq<T>)
    requires x + y == x + z
    ensures y == z
  {
    FrontAndRest(x, y);
    FrontAndRest(x, z);
  }

  /** So the list in order of rank is the other list itself. */
  lemma {:induction false} SameTextSameOrder(a: seq<Chunk>, b: seq<Chunk>, keywords: set<string>)
    requires multiset(a) == multiset(b) && Ordered(a, Priority) && SameOfKeys(a, b, Priority) && Pieces(b)
    requires AllFaithful(a, keywords) && Faithful(Flat(b), keywords) && Texts(Flat(a)) == Texts(Flat(b))
    ensures a == b
    decreases |a|
  {
    if a == [] {
      assert |multiset(b)| == |multiset(a)| == 0;
    } else {
      SameFirstRank(a, b, keywords);
      HeadOfKey(a, Priority);
      HeadOfKey(b, Priority);
      assert OfKey(a, Priority, Priority(a[0])) == OfKey(b, Priority, Priority(a[0]));
      TailsAlike(a, b);
      RestPieces(b, keywords);
      SameTextSameOrder(a[1..], b[1..], keywords);
      assert a == [a[0]] + a[1..] && b == [b[0]] + b[1..];
    }
  }

  // ----- what sorting leaves as it is

  lemma SplitParts(s: string, keywords: set<string>)
    ensures var sp := SplitBlock(Lex(s, keywords));
      Pieces(sp.chunks) && AllFaithful(sp.chunks, keywords) && Faithful(Flat(sp.chunks), keywords)
  {
    var ts := Lex(s, keywords);
    var sp := SplitBlock(ts);
    SplitIsLossless(ts);
    LexIsFaithful(s, keywords);
    SplitPieces(ts, sp, keywords);
    if sp.chunks != [] && Closed(sp.chunks[|sp.chunks| - 1]) {
      AllButLast(sp.chunks);
      assert Lex(Texts([]), keywords) == [];
      FlatFaithful(sp.chunks, [], keywords);
    }
    OnEmpty(Flat(sp.chunks));
  }

  /** Sorting leaves a block as it is if and only if its directives stand in order of rank. */
  lemma FixedIff(s: string, keywords: set<string>)
    ensures SortText(s, keywords) == s <==> Ordered(SplitBlock(Lex(s, keywords)).chunks, Priority)
  {
    var sp := SplitBlock(Lex(s, keywords));
    SortTextRearranges(s, keywords, 0);
    if Ordered(sp.chunks, Priority) {
      OrderedStays(sp.chunks, Priority);
    }
    if SortText(s, keywords) == s {
      FixedIsOrdered(s, sp, keywords);
    }
  }

  lemma FixedIsOrdered(s: string, sp: Split, keywords: set<string>)
    requires sp == SplitBlock(Lex(s, keywords))
    requires Texts(Flat(sp.chunks)) + Texts(sp.trailing) == Texts(Flat(Sorted(sp.chunks))) + Texts(sp.trailing)
    ensures Ordered(sp.chunks, Priority)
  {
    var cs, sorted := sp.chunks, Sorted(sp.chunks);
    SplitParts(s, keywords);
    SortedAlike(cs, keywords);
    SameFront(Texts(Flat(cs)), Texts(Flat(sorted)), Texts(sp.trailing));
    SameTextSameOrder(sorted, cs, keywords);
  }

  lemma SortedAlike(cs: seq<Chunk>, keywords: set<string>)
    requires AllFaithful(cs, keywords)
    ensures multiset(Sorted(cs)) == multiset(cs) && Ordered(Sorted(cs), Priority)
    ensures SameOfKeys(Sorted(cs), cs, Priority) && AllFaithful(Sorted(cs), keywords)
  {
    SameMembers(cs, Priority);
    SortByIsStable(cs, Priority, 0);
    forall k ensures OfKey(Sorted(cs), Priority, k) == OfKey(cs, Priority, k) {
      SortByIsStable(cs, Priority, k);
    }
    forall i | 0 <= i < |Sorted(cs)| ensures Faithful(Sorted(cs)[i], keywords) {
      assert Sorted(cs)[i] in Sorted(cs);
    }
  }

  lemma SameFront<T>(x: seq<T>, y: seq<T>, z: seq<T>)
    requires x + z == y + z
    ensures x == y
  {
    assert |x| == |y|;
    FrontAndRest(x, z);
    FrontAndRest(y, z);
  }

  /** So sorting again changes nothing if and only if the directives of the sorted text stand in order. */
  lemma IdempotentIff(s: string, keywords: set<string>)
    ensures SortText(SortText(s, keywords), keywords) == SortText(s, keywords) <==>
      Ordered(SplitBlock(Lex(SortText(s, keywords), keywords)).chunks, Priority)
  {
    FixedIff(SortText(s, keywords), keywords);
  }
}

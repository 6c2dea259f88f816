/** Sorting the directives of a block: how its tokens come apart into
    directives, and what putting them in another order keeps. */
module BlockSort {
  import opened Text
  import opened Scanner
  import opened FormatLexer
  import opened FaithfulTokens
  import opened StableSort

  type Chunk = seq<Lexeme>

  predicate IsTrivia(t: Lexeme) {
    t.typ == Newline || t.typ == Whitespace || t.typ == LineComment || t.typ == BlockComment
  }

  predicate AllTrivia(ts: seq<Lexeme>) {
    ts == [] || (IsTrivia(ts[0]) && AllTrivia(ts[1..]))
  }

  function Longer(n: Option<nat>): Option<nat> {
    if n.Some? then Some(n.value + 1) else None
  }

  /** How many tokens there are up to the end of a directive, after its first
      token: a semicolon outside braces, or the brace that closes a block. */
  function BodyLength(ts: seq<Lexeme>, depth: int): (n: Option<nat>)
    ensures n.Some? ==> 0 < n.value <= |ts|
  {
    if ts == [] then None
    else if ts[0].typ == LBrace then Longer(BodyLength(ts[1..], depth + 1))
    else if ts[0].typ == RBrace then if depth == 1 then Some(1) else Longer(BodyLength(ts[1..], depth - 1))
    else if ts[0].typ == Semicolon && depth == 0 then Some(1)
    else Longer(BodyLength(ts[1..], depth))
  }

  /** How many tokens the first directive has, with those before it, if it is
      ended. Its first token is not asked whether it ends it. */
  function DirectiveLength(ts: seq<Lexeme>): (n: Option<nat>)
    ensures n.Some? ==> 1 < n.value <= |ts|
  {
    if ts == [] then None
    else if IsTrivia(ts[0]) then Longer(DirectiveLength(ts[1..]))
    else Longer(BodyLength(ts[1..], 0))
  }

  datatype Split = Split(chunks: seq<Chunk>, trailing: seq<Lexeme>)

  function Prepend(c: Chunk, sp: Split): Split {
    Split([c] + sp.chunks, sp.trailing)
  }

  /** The directives of a block, each with the white space and comments before
      it, and what stands after the last. */
  function SplitBlock(ts: seq<Lexeme>): Split
    decreases |ts|
  {
    if AllTrivia(ts) then Split([], ts)
    else
      match DirectiveLength(ts)
      case None => Split([ts], [])
      case Some(n) => Prepend(ts[..n], SplitBlock(ts[n..]))
  }

  function Flat(cs: seq<Chunk>): seq<Lexeme> {
    if cs == [] then [] else cs[0] + Flat(cs[1..])
  }

  /** A directive that is ended by a semicolon or a closing brace. */
  predicate Closed(c: Chunk) {
    DirectiveLength(c) == Some(|c|)
  }

  predicate AllClosed(cs: seq<Chunk>) {
    forall i :: 0 <= i < |cs| ==> Closed(cs[i])
  }

  /** A directive that is not ended. */
  predicate Unended(c: Chunk) {
    !AllTrivia(c) && DirectiveLength(c).None?
  }

  // ----- what splitting gives

  lemma {:induction false} BodyOf(b: seq<Lexeme>, x: seq<Lexeme>, depth: int)
    requires BodyLength(b, depth).Some?
    ensures BodyLength(b + x, depth) == BodyLength(b, depth)
    decreases |b|
  {
    assert (b + x)[0] == b[0] && (b + x)[1..] == b[1..] + x;
    if b[0].typ == LBrace {
      BodyOf(b[1..], x, depth + 1);
    } else if b[0].typ == RBrace {
      if depth != 1 {
        BodyOf(b[1..], x, depth - 1);
      }
    } else if !(b[0].typ == Semicolon && depth == 0) {
      BodyOf(b[1..], x, depth);
    }
  }

  lemma {:induction false} DirectiveOf(c: seq<Lexeme>, x: seq<Lexeme>)
    requires DirectiveLength(c).Some?
    ensures DirectiveLength(c + x) == DirectiveLength(c) && !AllTrivia(c + x)
  {
    assert (c + x)[0] == c[0] && (c + x)[1..] == c[1..] + x;
    if IsTrivia(c[0]) {
      DirectiveOf(c[1..], x);
    } else {
      BodyOf(c[1..], x, 0);
    }
  }

  lemma {:induction false} BodyCut(b: seq<Lexeme>, depth: int, n: nat)
    requires BodyLength(b, depth) == Some(n)
    ensures BodyLength(b[..n], depth) == Some(n) && Closes(b[n - 1])
    decreases |b|
  {
    assert b[..n][0] == b[0];
    if n > 1 {
      assert b[..n][1..] == b[1..][..n - 1] && b[1..][n - 2] == b[n - 1];
      BodyCut(b[1..], if b[0].typ == LBrace then depth + 1 else if b[0].typ == RBrace then depth - 1 else depth, n - 1);
    }
  }

  /** The first directive of a list, when it is ended, is a closed one. */
  lemma {:induction false} DirectiveCut(ts: seq<Lexeme>, n: nat)
    requires DirectiveLength(ts) == Some(n)
    ensures Closed(ts[..n]) && EndsClosed(ts[..n])
  {
    assert ts[..n][0] == ts[0] && ts[..n][1..] == ts[1..][..n - 1] && ts[1..][n - 2] == ts[n - 1];
    if IsTrivia(ts[0]) {
      DirectiveCut(ts[1..], n - 1);
      assert ts[1..][..n - 1][n - 2] == ts[n - 1];
    } else {
      BodyCut(ts[1..], 0, n - 1);
    }
  }

  lemma ClosedEndsClosed(c: Chunk)
    requires Closed(c)
    ensures EndsClosed(c)
  {
    DirectiveCut(c, |c|);
    assert c[..|c|] == c;
  }

  /** What splitting a list gives: no token is lost; every directive but the last
      is ended, and the last is ended too or has nothing after it. */
  predicate SplitsWell(ts: seq<Lexeme>, sp: Split) {
    && Flat(sp.chunks) + sp.trailing == ts && AllTrivia(sp.trailing)
    && (sp.chunks != [] ==>
         var n := |sp.chunks| - 1;
         AllClosed(sp.chunks[..n]) && (Closed(sp.chunks[n]) || (Unended(sp.chunks[n]) && sp.trailing == [])))
  }

  lemma {:induction false} SplitIsLossless(ts: seq<Lexeme>)
    ensures SplitsWell(ts, SplitBlock(ts))
    decreases |ts|
  {
    if !AllTrivia(ts) {
      match DirectiveLength(ts)
      case None =>
        UnendedSplits(ts);
      case Some(n) =>
        SplitIsLossless(ts[n..]);
        DirectiveCut(ts, n);
        CutInTwo(ts, n);
        PrependSplits(ts[..n], ts[n..], SplitBlock(ts[n..]), ts, SplitBlock(ts));
    }
  }

  lemma UnendedSplits(ts: seq<Lexeme>)
    requires Unended(ts)
    ensures SplitsWell(ts, Split([ts], []))
  {
    assert [ts][1..] == [] && Flat([ts]) == ts + Flat([]);
    assert ts + [] + [] == ts;
  }

  lemma PrependSplits(c: Chunk, rest: seq<Lexeme>, sp: Split, ts: seq<Lexeme>, whole: Split)
    requires Closed(c) && SplitsWell(rest, sp) && ts == c + rest && whole == Prepend(c, sp)
    ensures SplitsWell(ts, whole)
  {
    var cs := [c] + sp.chunks;
    assert cs[1..] == sp.chunks;
    assert c + Flat(sp.chunks) + sp.trailing == c + (Flat(sp.chunks) + sp.trailing);
    var n := |sp.chunks|;
    if n > 0 {
      assert cs[..n] == [c] + sp.chunks[..n - 1];
      assert cs[n] == sp.chunks[n - 1];
    }
  }

  /** Ended directives put together come apart into the same directives, whatever follows. */
  lemma {:induction false} SplitOfClosed(cs: seq<Chunk>, rest: seq<Lexeme>, sp: Split)
    requires AllClosed(cs) && SplitBlock(rest) == sp
    ensures SplitBlock(Flat(cs) + rest) == Split(cs + sp.chunks, sp.trailing)
  {
    if cs == [] {
      assert Flat(cs) + rest == rest && cs + sp.chunks == sp.chunks;
    } else {
      SplitOfClosed(cs[1..], rest, sp);
      SplitCons(cs[0], cs[1..], Flat(cs[1..]), rest, sp);
      assert [cs[0]] + cs[1..] == cs;
    }
  }

  lemma SplitCons(c: Chunk, cs: seq<Chunk>, flat: seq<Lexeme>, rest: seq<Lexeme>, sp: Split)
    requires Closed(c) && SplitBlock(flat + rest) == Split(cs + sp.chunks, sp.trailing)
    ensures SplitBlock(c + flat + rest) == Split([c] + cs + sp.chunks, sp.trailing)
  {
    SplitFirst(c, flat + rest, Split(cs + sp.chunks, sp.trailing));
    Assoc(c, flat, rest);
    Assoc([c], cs, sp.chunks);
  }

  lemma SplitFirst(c: Chunk, more: seq<Lexeme>, sp: Split)
    requires Closed(c) && SplitBlock(more) == sp
    ensures SplitBlock(c + more) == Prepend(c, sp)
  {
    DirectiveOf(c, more);
    assert (c + more)[..|c|] == c && (c + more)[|c|..] == more;
  }

  // ----- reordering

  /** The first word of a directive, in capitals, if it starts with a word. */
  function FirstWord(c: Chunk): string {
    if c == [] then ""
    else if IsTrivia(c[0]) then FirstWord(c[1..])
    else if c[0].typ == Keyword || c[0].typ == Ident then ToUpper(c[0].text)
    else ""
  }

  /** The rank of a directive by its first word. */
  function WordPriority(w: string): int {
    if w == "RENAMED" then 0
    else if w == "COMMENT" then 1
    else if w == "OWNER" then 2
    else if w == "DEPRECATED" then 3
    else if w == "PROTECTED" then 4
    else if w == "DROP" then 5
    else if w == "ENABLE" then 6
    else if w == "FORCE" then 7
    else if w == "INDICES" || w == "INDEX" then 8
    else if w == "COLUMNS" || w == "COLUMN" then 9
    else if w == "POLICIES" || w == "POLICY" then 10
    else if w == "TRIGGERS" || w == "TRIGGER" then 11
    else if w == "GRANTS" || w == "GRANT" then 12
    else if w == "REVOCATIONS" || w == "REVOKE" then 13
    else if w == "PREFERRED" then 14
    else 99
  }

  function Priority(c: Chunk): int {
    WordPriority(FirstWord(c))
  }

  function Sorted(cs: seq<Chunk>): seq<Chunk> {
    SortBy(cs, Priority)
  }

  /** The last directive is ended, or no other ranks after it. */
  predicate LastIsSafe(cs: seq<Chunk>) {
    cs == [] || Closed(cs[|cs| - 1]) || forall i :: 0 <= i < |cs| ==> Priority(cs[i]) <= Priority(cs[|cs| - 1])
  }

  /** The sorted block. */
  function SortedTokens(sp: Split): seq<Lexeme> {
    Flat(Sorted(sp.chunks)) + sp.trailing
  }

  lemma {:induction false} FlatJoin(a: seq<Chunk>, b: seq<Chunk>)
    ensures Flat(a + b) == Flat(a) + Flat(b)
  {
    if a == [] {
      assert a + b == b;
    } else {
      assert (a + b)[1..] == a[1..] + b;
      FlatJoin(a[1..], b);
      assert a[0] + (Flat(a[1..]) + Flat(b)) == a[0] + Flat(a[1..]) + Flat(b);
    }
  }

  lemma SortedClosed(cs: seq<Chunk>)
    requires AllClosed(cs)
    ensures AllClosed(Sorted(cs))
  {
    SameMembers(cs, Priority);
    forall i | 0 <= i < |Sorted(cs)| ensures Closed(Sorted(cs)[i]) {
      assert Sorted(cs)[i] in Sorted(cs);
    }
  }

  /** The sorted directives of a block whose last one is safe: ended ones, then
      an unended one only if it was last. */
  lemma SafeSorted(ts: seq<Lexeme>, sp: Split) returns (front: seq<Chunk>, end: seq<Lexeme>)
    requires SplitsWell(ts, sp) && LastIsSafe(sp.chunks)
    ensures AllClosed(front) && SortedTokens(sp) == Flat(front) + end
    ensures front + SplitBlock(end).chunks == Sorted(sp.chunks) && SplitBlock(end).trailing == sp.trailing
    ensures end == sp.trailing || (sp.chunks != [] && end == sp.chunks[|sp.chunks| - 1] && sp.trailing == [])
  {
    var cs, n := sp.chunks, |sp.chunks| - 1;
    if cs == [] || Closed(cs[n]) {
      AllButLast(cs);
      front, end := Sorted(cs), sp.trailing;
      ClosedLast(cs, sp.trailing);
    } else {
      assert cs == cs[..n] + [cs[n]];
      front, end := UnendedLast(cs[..n], cs[n]);
      assert Flat(Sorted(cs)) + [] == Flat(Sorted(cs));
    }
  }

  lemma AllButLast(cs: seq<Chunk>)
    requires cs == [] || (AllClosed(cs[..|cs| - 1]) && Closed(cs[|cs| - 1]))
    ensures AllClosed(cs)
  {
    if cs != [] {
      assert forall i :: 0 <= i < |cs| - 1 ==> cs[..|cs| - 1][i] == cs[i];
    }
  }

  lemma ClosedLast(cs: seq<Chunk>, trailing: seq<Lexeme>)
    requires AllClosed(cs) && AllTrivia(trailing)
    ensures AllClosed(Sorted(cs)) && SplitBlock(trailing) == Split([], trailing)
    ensures Sorted(cs) + SplitBlock(trailing).chunks == Sorted(cs)
  {
    SortedClosed(cs);
  }

  lemma UnendedLast(cs: seq<Chunk>, last: Chunk) returns (front: seq<Chunk>, end: seq<Lexeme>)
    requires AllClosed(cs) && Unended(last) && forall i :: 0 <= i < |cs| ==> Priority(cs[i]) <= Priority(last)
    ensures AllClosed(front) && Flat(Sorted(cs + [last])) == Flat(front) + end && end == last
    ensures front + SplitBlock(end).chunks == Sorted(cs + [last]) && SplitBlock(end).trailing == []
  {
    GreatestStaysLast(cs, last, Priority);
    SortedClosed(cs);
    front, end := Sorted(cs), last;
    FlatJoin(front, [end]);
    assert Flat([end]) == end + Flat([]);
  }

  /** When the last directive is safe, the sorted tokens come apart into exactly
      the sorted directives; and only then. */
  lemma ResplitsIff(ts: seq<Lexeme>)
    ensures var sp := SplitBlock(ts);
      LastIsSafe(sp.chunks) <==> SplitBlock(SortedTokens(sp)) == Split(Sorted(sp.chunks), sp.trailing)
  {
    var sp := SplitBlock(ts);
    SplitIsLossless(ts);
    if LastIsSafe(sp.chunks) {
      var front, end := SafeSorted(ts, sp);
      SplitOfClosed(front, end, SplitBlock(end));
    } else {
      UnsafeInside(sp.chunks);
      SplitIsLossless(SortedTokens(sp));
      NotAllButLast(Sorted(sp.chunks), SortedTokens(sp), SplitBlock(SortedTokens(sp)));
    }
  }

  lemma NotAllButLast(cs: seq<Chunk>, ts: seq<Lexeme>, sp: Split)
    requires SplitsWell(ts, sp) && exists i :: 0 <= i < |cs| - 1 && !Closed(cs[i])
    ensures sp.chunks != cs
  {
    var i :| 0 <= i < |cs| - 1 && !Closed(cs[i]);
    if sp.chunks != [] && |sp.chunks| == |cs| {
      assert sp.chunks[..|sp.chunks| - 1][i] == sp.chunks[i];
      assert Closed(sp.chunks[i]);
    }
  }

  lemma UnsafeInside(cs: seq<Chunk>)
    requires !LastIsSafe(cs)
    ensures exists i :: 0 <= i < |Sorted(cs)| - 1 && !Closed(Sorted(cs)[i])
  {
    var last := cs[|cs| - 1];
    var j :| 0 <= j < |cs| && Priority(cs[j]) > Priority(last);
    SortByIsStable(cs, Priority, 0);
    SameMembers(cs, Priority);
    assert cs[j] in Sorted(cs) && last in Sorted(cs);
    UnsafePlace(Sorted(cs), cs[j], last);
  }

  lemma UnsafePlace(s: seq<Chunk>, c: Chunk, last: Chunk)
    requires Ordered(s, Priority) && c in s && last in s && Priority(c) > Priority(last) && !Closed(last)
    ensures exists i :: 0 <= i < |s| - 1 && !Closed(s[i])
  {
    var a :| 0 <= a < |s| && s[a] == c;
    var b :| 0 <= b < |s| && s[b] == last;
    assert b < a;
  }
}

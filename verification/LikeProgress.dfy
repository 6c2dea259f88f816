/** What holds between the steps of a resolution of LIKE clauses, on the values
    of the tables. */
module LikeProgress {
  import opened Text
  import opened Like
  import opened LikeExpansion

  /** Which keys are resolved, in what order they were, and which are being visited. */
  datatype Books = Books(resolved: set<string>, visiting: set<string>, done: seq<string>, stack: seq<string>)

  /** A resolved key is expanded from keys resolved before it; a key being
      visited is linked by a clause to the one visited before it; any other key
      has its declared contents. */
  ghost predicate Stands(decls: Declarations, now: Expansion, b: Books, key: string) {
    && (key in b.resolved <==> key in b.done)
    && (key in b.visiting <==> key in b.stack)
    && (key in b.resolved ==> key !in b.visiting && Explains(decls, now, key) && SettledOnce(decls, b.done, key))
    && (key in b.visiting ==> key in decls && decls[key].likes != [] && LinkedOnce(decls, b.stack, key))
    && (key in decls && key in now && key !in b.resolved && key !in b.visiting ==>
          now[key] == Contents(decls[key].columns, decls[key].constraints))
  }

  ghost predicate SettledOnce(decls: Declarations, done: seq<string>, key: string) {
    forall k {:trigger SourcesBefore(decls, done, k)} :: 0 <= k < |done| && done[k] == key ==>
      SourcesBefore(decls, done, k)
  }

  ghost predicate LinkedOnce(decls: Declarations, stack: seq<string>, key: string) {
    && (forall i, j :: 0 <= i < j < |stack| && stack[i] == key ==> stack[j] != key)
    && (forall i, j :: 0 <= i && j == i + 1 && j < |stack| && stack[j] == key ==> Copies(decls, stack[i], key))
  }

  ghost predicate Progress(decls: Declarations, now: Expansion, b: Books) {
    now.Keys == decls.Keys && forall key {:trigger Stands(decls, now, b, key)} :: Stands(decls, now, b, key)
  }

  lemma ResolvedSourcesFirst(decls: Declarations, now: Expansion, b: Books)
    requires Progress(decls, now, b)
    ensures SourcesFirst(decls, b.done)
  {
    forall k | 0 <= k < |b.done| ensures SourcesBefore(decls, b.done, k) {
      assert Stands(decls, now, b, b.done[k]);
    }
  }

  lemma StatusesApart(decls: Declarations, now: Expansion, b: Books)
    requires Progress(decls, now, b)
    ensures b.resolved <= now.Keys && b.visiting <= now.Keys && b.resolved !! b.visiting
    ensures forall key :: key in b.resolved <==> key in b.done
  {
    forall key ensures key in b.resolved ==> key in now && key !in b.visiting {
      assert Stands(decls, now, b, key);
    }
    forall key ensures key in b.visiting ==> key in now {
      assert Stands(decls, now, b, key);
    }
    forall key ensures key in b.resolved <==> key in b.done {
      assert Stands(decls, now, b, key);
    }
  }

  /** Once every key is resolved the tables hold what they amount to. */
  lemma AllResolved(decls: Declarations, now: Expansion, b: Books)
    requires Progress(decls, now, b) && decls.Keys <= b.resolved
    ensures IsExpansion(decls, now) && AllDeclared(decls) && Acyclic(decls)
  {
    StatusesApart(decls, now, b);
    ResolvedSourcesFirst(decls, now, b);
    OrderedIsAcyclic(decls, b.done);
    forall key | key in decls ensures Explains(decls, now, key) {
      assert Stands(decls, now, b, key);
    }
  }

  lemma VisitedFormChain(decls: Declarations, now: Expansion, b: Books)
    requires Progress(decls, now, b)
    ensures IsChain(decls, b.stack)
  {
    forall i, j | 0 <= i && j == i + 1 && j < |b.stack| ensures Copies(decls, b.stack[i], b.stack[j]) {
      assert Stands(decls, now, b, b.stack[j]);
    }
  }

  /** Changing the contents of a table being visited leaves the resolved ones explained. */
  lemma VisitOther(decls: Declarations, now: Expansion, now': Expansion, b: Books, key: string)
    requires Progress(decls, now, b) && key in b.visiting
    requires now'.Keys == now.Keys && forall k :: k in now && k != key ==> now'[k] == now[k]
    ensures Progress(decls, now', b)
  {
    ResolvedSourcesFirst(decls, now, b);
    forall k ensures Stands(decls, now', b, k) {
      assert Stands(decls, now, b, k);
      if k in b.resolved {
        var at :| 0 <= at < |b.done| && b.done[at] == k;
        OthersAgree(decls, now, now', b, key, at);
        assert SourcesBefore(decls, b.done, at);
        SourcesAgree(decls, b.done, at, now, now');
      }
    }
  }

  lemma OthersAgree(decls: Declarations, now: Expansion, now': Expansion, b: Books, key: string, n: nat)
    requires Progress(decls, now, b) && key in b.visiting && n <= |b.done|
    requires now'.Keys == now.Keys && forall k :: k in now && k != key ==> now'[k] == now[k]
    ensures AgreeOn(now, now', b.done, n)
  {
    forall k | 0 <= k < n ensures b.done[k] in now && now[b.done[k]] == now'[b.done[k]] {
      assert Stands(decls, now, b, b.done[k]);
    }
  }

  function Entered(b: Books, key: string): Books {
    b.(visiting := b.visiting + {key}, stack := b.stack + [key])
  }

  lemma Enter(decls: Declarations, now: Expansion, b: Books, key: string)
    requires Progress(decls, now, b)
    requires key in decls && key !in b.resolved && key !in b.visiting && decls[key].likes != []
    requires b.stack != [] ==> Copies(decls, b.stack[|b.stack| - 1], key)
    ensures Progress(decls, now, Entered(b, key)) && MidTable(decls[key], now, b.resolved, key, 0, 0)
  {
    StatusesApart(decls, now, b);
    assert Stands(decls, now, b, key);
    forall k ensures Stands(decls, now, Entered(b, key), k) {
      assert Stands(decls, now, b, k);
      if k in b.visiting {
        assert LinkedOnce(decls, b.stack, k);
      }
    }
  }

  /** A table part way through its clauses: the first i are copied, and the
      offset counts what they inserted. */
  ghost predicate MidTable(d: Declared, now: Expansion, resolved: set<string>, key: string, i: nat, offset: nat) {
    && SourcesUpto(d, resolved, i) && resolved <= now.Keys && key in now && key !in resolved
    && Take(d, now, i) == Partial(now[key], offset)
  }

  /** Two expansions say the same of some keys. */
  ghost predicate Unmoved(a: Expansion, b: Expansion, keys: set<string>) {
    forall k {:trigger SameAt(a, b, k)} :: k in keys ==> SameAt(a, b, k)
  }

  ghost predicate SameAt(a: Expansion, b: Expansion, k: string) {
    (k in a <==> k in b) && (k in a ==> a[k] == b[k])
  }

  lemma UnmovedSince(a: Expansion, b: Expansion, c: Expansion, keys: set<string>, more: set<string>)
    requires Unmoved(a, b, keys) && Unmoved(b, c, more) && keys <= more
    ensures Unmoved(a, c, keys)
  {
    forall k | k in keys ensures SameAt(a, c, k) {
      assert SameAt(a, b, k) && SameAt(b, c, k);
    }
  }

  /** A table half filled stays so while a source of it is resolved. */
  lemma SourceDone(decls: Declarations, d: Declared, start: Expansion, now: Expansion, later: Expansion,
                   known: set<string>, b: Books,
                   key: string, i: nat, offset: nat, kept: set<string>)
    requires Progress(decls, later, b) && key in b.visiting && i <= |d.likes|
    requires MidTable(d, now, known, key, i, offset) && Unmoved(now, later, known + b.visiting) && known <= b.resolved
    requires kept <= known + b.visiting && Unmoved(start, now, kept)
    ensures MidTable(d, later, b.resolved, key, i, offset) && Unmoved(start, later, kept)
  {
    StatusesApart(decls, later, b);
    MidStays(d, now, later, known, b.resolved, key, i, offset, known + b.visiting);
    UnmovedSince(start, now, later, kept, known + b.visiting);
  }

  /** Progress elsewhere leaves a table part way as it is. */
  lemma MidStays(d: Declared, now: Expansion, now': Expansion, resolved: set<string>, resolved': set<string>,
                 key: string, i: nat, offset: nat, kept: set<string>)
    requires MidTable(d, now, resolved, key, i, offset)
    requires resolved <= resolved' <= now'.Keys && key !in resolved'
    requires Unmoved(now, now', kept) && resolved <= kept && key in kept
    ensures MidTable(d, now', resolved', key, i, offset)
  {
    assert SameAt(now, now', key);
    forall k | k in resolved ensures now'[k] == now[k] {
      assert SameAt(now, now', k);
    }
    SameSources(d, now, now', i);
  }

  /** One more clause, once its source is resolved. */
  lemma MidNext(d: Declared, now: Expansion, resolved: set<string>, key: string, i: nat, offset: nat, now': Expansion,
                offset': nat)
    requires MidTable(d, now, resolved, key, i, offset) && i < |d.likes| && SourceKey(d.schema, d.likes[i]) in resolved
    requires key in now' && Copied(Partial(now[key], offset), Source(d, now, i), d.likes[i]) ==
      Partial(now'[key], offset')
    requires now' == now[key := now'[key]]
    ensures MidTable(d, now', resolved, key, i + 1, offset')
  {
    SameSources(d, now, now', i + 1);
  }

  /** Past its last clause a table is what its declaration expands to. */
  lemma MidEnds(decls: Declarations, now: Expansion, resolved: set<string>, key: string, offset: nat)
    requires key in decls && MidTable(decls[key], now, resolved, key, |decls[key].likes|, offset)
    ensures Explains(decls, now, key) && SourcesIn(decls[key], resolved)
  {
  }

  /** A table whose sources are resolved can be listed next. */
  lemma ListNext(decls: Declarations, now: Expansion, b: Books, key: string)
    requires Progress(decls, now, b) && key in decls && key !in b.resolved && SourcesIn(decls[key], b.resolved)
    ensures SettledOnce(decls, b.done + [key], key)
    ensures forall k :: k in b.resolved ==> SettledOnce(decls, b.done + [key], k)
  {
    var done := b.done + [key];
    assert Stands(decls, now, b, key);
    forall to | Copies(decls, key, to) ensures ListedBefore(done, |b.done|, to) {
      assert Stands(decls, now, b, to);
      var j :| 0 <= j < |b.done| && b.done[j] == to;
      assert done[j] == to;
    }
    assert SourcesBefore(decls, done, |b.done|);
    forall k | k in b.resolved ensures SettledOnce(decls, done, k) {
      assert Stands(decls, now, b, k);
      forall i | 0 <= i < |done| && done[i] == k ensures SourcesBefore(decls, done, i) {
        assert SourcesBefore(decls, b.done, i);
        ListedLonger(decls, b.done, key, i);
      }
    }
  }

  lemma ListedLonger(decls: Declarations, done: seq<string>, key: string, i: nat)
    requires i < |done| && SourcesBefore(decls, done, i)
    ensures SourcesBefore(decls, done + [key], i)
  {
    forall to | Copies(decls, done[i], to) ensures ListedBefore(done + [key], i, to) {
      var j :| 0 <= j < i && done[j] == to;
      assert (done + [key])[j] == to;
    }
  }

  function Left(b: Books, key: string): Books
    requires b.stack != []
  {
    Books(b.resolved + {key}, b.visiting - {key}, b.done + [key], b.stack[..|b.stack| - 1])
  }

  lemma Finish(decls: Declarations, now: Expansion, b: Books, key: string, offset: nat)
    requires Progress(decls, now, b) && key in decls && b.stack != [] && b.stack[|b.stack| - 1] == key
    requires MidTable(decls[key], now, b.resolved, key, |decls[key].likes|, offset)
    ensures Progress(decls, now, Left(b, key))
  {
    MidEnds(decls, now, b.resolved, key, offset);
    ListNext(decls, now, b, key);
    assert Stands(decls, now, b, key);
    forall k ensures Stands(decls, now, Left(b, key), k) {
      assert Stands(decls, now, b, k);
      LeftStack(decls, b.stack, k);
    }
  }

  lemma LeftStack(decls: Declarations, stack: seq<string>, k: string)
    requires stack != []
    ensures k in stack <==> k in stack[..|stack| - 1] || k == stack[|stack| - 1]
    ensures LinkedOnce(decls, stack, k) ==> LinkedOnce(decls, stack[..|stack| - 1], k)
    ensures LinkedOnce(decls, stack, stack[|stack| - 1]) ==> stack[|stack| - 1] !in stack[..|stack| - 1]
  {
    assert stack == stack[..|stack| - 1] + [stack[|stack| - 1]];
  }

  function Listed(b: Books, key: string): Books {
    b.(resolved := b.resolved + {key}, done := b.done + [key])
  }

  /** A table without clauses is resolved as it stands. */
  lemma FinishPlain(decls: Declarations, now: Expansion, b: Books, key: string)
    requires Progress(decls, now, b) && key in decls && key !in b.resolved && decls[key].likes == []
    ensures Progress(decls, now, Listed(b, key))
  {
    ListNext(decls, now, b, key);
    assert Stands(decls, now, b, key);
    forall k ensures Stands(decls, now, Listed(b, key), k) {
      assert Stands(decls, now, b, k);
    }
  }

  /** Meeting a key that is being visited closes a circle. */
  lemma ClosesCircle(decls: Declarations, now: Expansion, b: Books, key: string)
    requires Progress(decls, now, b) &&
      key in b.visiting && (b.stack != [] ==> Copies(decls, b.stack[|b.stack| - 1], key))
    ensures !Acyclic(decls)
  {
    assert Stands(decls, now, b, key);
    VisitedFormChain(decls, now, b);
    var at :| 0 <= at < |b.stack| && b.stack[at] == key;
    assert IsCircular(decls, b.stack[at..]);
  }

  lemma Undeclared(decls: Declarations, key: string, i: nat)
    requires key in decls && i < |decls[key].likes| && SourceKey(decls[key].schema, decls[key].likes[i]) !in decls
    ensures !AllDeclared(decls)
  {
    assert !SourcesIn(decls[key], decls.Keys);
  }

}

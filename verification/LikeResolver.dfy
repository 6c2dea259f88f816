/** Resolution of LIKE clauses over shared tables: each table is expanded once,
    its sources first, with cycles and undeclared sources reported. */
module LikeResolver {
  import opened Text
  import opened Like
  import opened LikeExpansion
  import opened LikeProgress
  import opened LikeTables

  /** One resolution over the tables of a compile unit. */
  class Resolution {
    const tables: map<string, Table>
    var resolved: set<string>
    var visiting: set<string>
    ghost const decls: Declarations
    ghost var done: seq<string>
    ghost var stack: seq<string>

    ghost function Kept(): Books
      reads this
    {
      Books(resolved, visiting, done, stack)
    }

    ghost predicate Valid()
      reads this, tables.Values
    {
      Fits(tables, decls, resolved) && Progress(decls, ContentsOf(tables), Kept())
    }

    constructor (tables: map<string, Table>)
      requires OwnKeys(tables)
      ensures this.tables == tables && decls == old(DeclarationsOf(tables))
      ensures resolved == {} && visiting == {} && stack == [] && Valid()
    {
      this.tables := tables;
      resolved, visiting := {}, {};
      decls := DeclarationsOf(tables);
      done, stack := [], [];
    }

    /** Resolves one table, its sources first. */
    method ResolveTable(t: Table) returns (ok: bool)
      requires Valid() && t.Key() in tables && tables[t.Key()] == t
      requires stack != [] ==> Copies(decls, stack[|stack| - 1], t.Key())
      modifies this, tables.Values
      ensures ok ==> Valid() && t.Key() in resolved && old(resolved) <= resolved
      ensures ok ==> visiting == old(visiting) && stack == old(stack)
      ensures ok ==> Unmoved(old(ContentsOf(tables)), ContentsOf(tables), old(resolved) + visiting)
      ensures !ok ==> !AllDeclared(decls) || !Acyclic(decls)
      decreases tables.Keys - visiting, 1
    {
      var key := t.Key();
      if key in resolved {
        return true;
      }
      if t.likeClauses == [] {
        MarkPlain(t, key, ContentsOf(tables));
        return true;
      }
      if key in visiting {
        ClosesCircle(decls, ContentsOf(tables), Kept(), key);
        return false;
      }
      ok := ResolveClauses(t, key);
    }

    /** A table without clauses is resolved as it stands. */
    method MarkPlain(t: Table, key: string, ghost now: Expansion)
      requires Valid() && now == ContentsOf(tables) && key in tables && tables[key] == t
      requires key !in resolved && t.likeClauses == []
      modifies this
      ensures Valid() && resolved == old(resolved) + {key} && visiting == old(visiting) && stack == old(stack)
      ensures ContentsOf(tables) == now
    {
      FinishPlain(decls, now, Kept(), key);
      resolved, done := resolved + {key}, done + [key];
      SameTables(tables);
    }

    method ResolveClauses(t: Table, key: string) returns (ok: bool)
      requires Valid() && key in tables && tables[key] == t
      requires key !in resolved && key !in visiting && t.likeClauses != []
      requires stack != [] ==> Copies(decls, stack[|stack| - 1], key)
      modifies this, tables.Values
      ensures ok ==> Valid() && key in resolved && old(resolved) <= resolved
      ensures ok ==> visiting == old(visiting) && stack == old(stack)
      ensures ok ==> Unmoved(old(ContentsOf(tables)), ContentsOf(tables), old(resolved) + visiting)
      ensures !ok ==> !AllDeclared(decls) || !Acyclic(decls)
      decreases tables.Keys - visiting, 0
    {
      ghost var start, known, path, chain := ContentsOf(tables), resolved, visiting, stack;
      Open(t, key, start);
      var offset;
      ok, offset := TakeClauses(t, key, decls[key], start, known + path);
      if ok {
        Seal(t, key, ContentsOf(tables), path, chain, offset);
      }
    }

    /** The clauses in declaration order, with the running offset. */
    method TakeClauses(t: Table, key: string, ghost d: Declared, ghost start: Expansion, ghost kept: set<string>)
      returns (ok: bool, offset: nat)
      requires Valid() && Known(t, key, d) && Visited(key)
      requires start == ContentsOf(tables) && MidTable(d, start, resolved, key, 0, 0)
      requires key !in kept && kept <= resolved + visiting
      modifies this, tables.Values
      ensures ok ==> Valid() && visiting == old(visiting) && stack == old(stack) && old(resolved) <= resolved
      ensures ok ==> MidTable(d, ContentsOf(tables), resolved, key, |d.likes|, offset)
      ensures ok ==> Unmoved(start, ContentsOf(tables), kept)
      ensures !ok ==> !AllDeclared(decls) || !Acyclic(decls)
      decreases tables.Keys - visiting, 4
    {
      ghost var known, path, chain := resolved, visiting, stack;
      var likes := t.likeClauses;
      assert likes == d.likes;
      ok, offset := true, 0;
      for i := 0 to |likes|
        invariant Valid() && visiting == path && stack == chain && known <= resolved && Visited(key)
        invariant MidTable(d, ContentsOf(tables), resolved, key, i, offset)
        invariant Unmoved(start, ContentsOf(tables), kept)
      {
        ok, offset := TakeClause(t, key, likes[i], offset, d, i, start, ContentsOf(tables), kept);
        if !ok {
          return;
        }
      }
    }

    ghost predicate Known(t: Table, key: string, d: Declared) {
      key in tables && tables[key] == t && key in decls && decls[key] == d
    }

    /** The table being filled, last on the path. */
    ghost predicate Visited(key: string)
      reads this
    {
      key in visiting && stack != [] && stack[|stack| - 1] == key
    }

    /** A table past its last clause is resolved. */
    method Seal(t: Table, key: string, ghost now: Expansion, ghost path: set<string>, ghost chain: seq<string>,
                ghost offset: nat)
      requires Valid() && now == ContentsOf(tables) && key in tables && tables[key] == t
      requires stack == chain + [key] && visiting == path + {key} && key !in path
      requires MidTable(decls[key], now, resolved, key, |decls[key].likes|, offset)
      modifies this, t
      ensures Valid() && resolved == old(resolved) + {key} && visiting == path && stack == chain
      ensures ContentsOf(tables) == now
    {
      Finish(decls, now, Kept(), key, offset);
      assert visiting - {key} == path;
      Clear(t, key, now);
      Close(key, now, path, chain);
    }

    method Open(t: Table, key: string, ghost now: Expansion)
      requires Valid() && now == ContentsOf(tables) && key in tables && tables[key] == t
      requires key !in resolved && key !in visiting && t.likeClauses != []
      requires stack != [] ==> Copies(decls, stack[|stack| - 1], key)
      modifies this
      ensures Valid() && resolved == old(resolved) && visiting == old(visiting) + {key} && stack == old(stack) + [key]
      ensures ContentsOf(tables) == now && MidTable(decls[key], now, resolved, key, 0, 0)
    {
      Enter(decls, now, Kept(), key);
      visiting, stack := visiting + {key}, stack + [key];
      SameTables(tables);
    }

    /** One clause: its source is found and resolved, then copied from. */
    method TakeClause(t: Table, key: string, lc: LikeClause, offset: nat,
                      ghost d: Declared, ghost i: nat, ghost start: Expansion, ghost now: Expansion, ghost kept: set<string>)
      returns (ok: bool, offset': nat)
      requires Valid() && Known(t, key, d) && Visited(key) && now == ContentsOf(tables)
      requires i < |d.likes| && lc == d.likes[i] && MidTable(d, now, resolved, key, i, offset)
      requires key !in kept && kept <= resolved + visiting && Unmoved(start, now, kept)
      modifies this, tables.Values
      ensures ok ==> Valid() && visiting == old(visiting) && stack == old(stack) && old(resolved) <= resolved
      ensures ok ==> Visited(key)
      ensures ok ==> MidTable(d, ContentsOf(tables), resolved, key, i + 1, offset')
      ensures ok ==> Unmoved(start, ContentsOf(tables), kept)
      ensures !ok ==> !AllDeclared(decls) || !Acyclic(decls)
      decreases tables.Keys - visiting, 3
    {
      offset' := offset;
      if SourceKey(t.schema, lc) !in tables {
        Undeclared(decls, key, i);
        visiting := visiting - {key};
        return false, offset';
      }
      var src := tables[SourceKey(t.schema, lc)];
      assert Copies(decls, key, src.Key());
      ok := ResolveSource(src, key, d, i, offset, start, now, kept);
      if ok {
        offset' := CopyFrom(t, key, src, lc, offset, i, start, ContentsOf(tables), kept);
      }
    }

    /** The source of a table part way. */
    method ResolveSource(src: Table, key: string, ghost d: Declared, ghost i: nat, ghost offset: nat,
                         ghost start: Expansion, ghost now: Expansion, ghost kept: set<string>)
      returns (ok: bool)
      requires Valid() && key in decls && decls[key] == d && Visited(key) && now == ContentsOf(tables)
      requires src.Key() in tables && tables[src.Key()] == src && Copies(decls, key, src.Key())
      requires i <= |d.likes| && MidTable(d, now, resolved, key, i, offset)
      requires key !in kept && kept <= resolved + visiting && Unmoved(start, now, kept)
      modifies this, tables.Values
      ensures ok ==> Valid() && visiting == old(visiting) && stack == old(stack) && old(resolved) <= resolved
      ensures ok ==> Visited(key) && src.Key() in resolved
      ensures ok ==>
        MidTable(d, ContentsOf(tables), resolved, key, i, offset) && Unmoved(start, ContentsOf(tables), kept)
      ensures !ok ==> !AllDeclared(decls) || !Acyclic(decls)
      decreases tables.Keys - visiting, 2
    {
      ghost var known := resolved;
      ok := ResolveTable(src);
      if ok {
        SourceDone(decls, d, start, now, ContentsOf(tables), known, Kept(), key, i, offset, kept);
      }
    }

    /** Splices one source's columns in and appends its constraints. */
    method CopyFrom(t: Table, key: string, src: Table, lc: LikeClause, offset: nat, ghost i: nat,
                    ghost start: Expansion, ghost now: Expansion, ghost kept: set<string>)
      returns (offset': nat)
      requires Valid() && key in visiting && key in tables && tables[key] == t
      requires now == ContentsOf(tables)
      requires i < |decls[key].likes| && lc == decls[key].likes[i]
      requires SourceKey(t.schema, lc) in tables &&
        SourceKey(t.schema, lc) in resolved && src == tables[SourceKey(t.schema, lc)]
      requires MidTable(decls[key], now, resolved, key, i, offset)
      requires key !in kept && Unmoved(start, now, kept)
      modifies t
      ensures Valid() && MidTable(decls[key], ContentsOf(tables), resolved, key, i + 1, offset')
      ensures Unmoved(start, ContentsOf(tables), kept)
    {
      offset' := t.Copy(src, lc, offset);
      OnlyItsContents(tables, key);
      FitsOthers(tables, decls, resolved, resolved, key);
      ghost var after := ContentsOf(tables);
      MidNext(decls[key], now, resolved, key, i, offset, after, offset');
      VisitOther(decls, now, after, Kept(), key);
      forall k | k in kept ensures SameAt(start, after, k) {
        assert SameAt(start, now, k);
      }
    }

    /** The clauses of a finished table are dropped; its contents stay. */
    method Clear(t: Table, key: string, ghost now: Expansion)
      requires Fits(tables, decls, resolved) && now == ContentsOf(tables) && key in tables && tables[key] == t
      modifies t
      ensures Fits(tables, decls, resolved + {key}) && ContentsOf(tables) == now
    {
      t.likeClauses := [];
      OnlyItsContents(tables, key);
      FitsOthers(tables, decls, resolved, resolved + {key}, key);
      assert now[key := t.Now()] == now;
    }

    /** The bookkeeping when a table is finished. */
    method Close(key: string, ghost now: Expansion, ghost path: set<string>, ghost chain: seq<string>)
      requires Fits(tables, decls, resolved + {key}) && now == ContentsOf(tables) && visiting - {key} == path
      requires Progress(decls, now, Books(resolved + {key}, path, done + [key], chain))
      modifies this
      ensures Valid() && resolved == old(resolved) + {key} && visiting == path && stack == chain
      ensures ContentsOf(tables) == now
    {
      visiting := visiting - {key};
      resolved, done, stack := resolved + {key}, done + [key], chain;
      SameTables(tables);
    }
  }

  /** Resolves the clauses of every table. Go visits the tables in no particular order. */
  method ResolveLikeClauses(objects: seq<Table>) returns (ok: bool)
    modifies TablesByName(objects).Values
    ensures ok <==>
      AllDeclared(old(DeclarationsOf(TablesByName(objects)))) && Acyclic(old(DeclarationsOf(TablesByName(objects))))
    ensures ok ==> IsExpansion(old(DeclarationsOf(TablesByName(objects))), ContentsOf(TablesByName(objects)))
    ensures ok ==> forall t :: t in TablesByName(objects).Values ==> t.likeClauses == []
  {
    var tables := IndexTables(objects);
    var r := new Resolution(tables);
    var todo := tables.Keys;
    while todo != {}
      invariant r.tables == tables && r.Valid() && r.stack == [] && r.visiting == {}
      invariant todo <= tables.Keys && tables.Keys - todo <= r.resolved
      invariant r.decls == old(DeclarationsOf(TablesByName(objects)))
    {
      var key :| key in todo;
      ok := r.ResolveTable(tables[key]);
      if !ok {
        return false;
      }
      todo := todo - {key};
    }
    AllResolved(r.decls, ContentsOf(tables), r.Kept());
    return true;
  }

  method IndexTables(objects: seq<Table>) returns (tables: map<string, Table>)
    ensures tables == TablesByName(objects)
  {
    tables := map[];
    for i := 0 to |objects|
      invariant tables == TablesByName(objects[..i])
    {
      assert objects[..i + 1][..i] == objects[..i];
      tables := tables[objects[i].Key() := objects[i]];
    }
    assert objects[..|objects|] == objects;
  }
}

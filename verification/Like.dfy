/** LIKE clauses: what one clause copies, and what a table with several of them,
    over sources that may have clauses of their own, is to become. */
module Like {
  import opened Text

  // Option bits of a clause.
  const COMMENTS: bv32 := 1
  const COMPRESSION: bv32 := 2
  const CONSTRAINTS: bv32 := 4
  const DEFAULTS: bv32 := 8
  const GENERATED: bv32 := 16
  const IDENTITY: bv32 := 32
  const INDEXES: bv32 := 64
  const STORAGE: bv32 := 256

  predicate Includes(options: bv32, bit: bv32) {
    options & bit != 0
  }

  /** A column. other stands for the properties a clause never copies. */
  datatype Column = Column(
    name: string, colType: string, notNull: bool, serial: Option<string>,
    default: Option<string>, generated: Option<string>, identity: Option<string>,
    storage: Option<string>, storageIsTypeDefault: bool,
    compression: Option<string>, comment: Option<string>, other: Option<string>)

  datatype Constraint = Constraint(
    name: string, kind: string, expr: string, columns: seq<string>, checkColumn: Option<string>,
    notValid: bool, deferrable: bool, initiallyDeferred: bool,
    exclude: Option<string>, comment: Option<string>, other: Option<string>)

  datatype LikeClause = LikeClause(sourceSchema: string, sourceName: string, options: bv32, insertAt: nat)

  /** What a table declares, and what it amounts to once its clauses are resolved. */
  datatype Declared = Declared(schema: string, columns: seq<Column>, constraints: seq<Constraint>, likes: seq<LikeClause>)
  datatype Contents = Contents(columns: seq<Column>, constraints: seq<Constraint>)

  function QualName(schema: string, name: string): string {
    if schema == "" then name else schema + "." + name
  }

  /** The key of a clause's source, in the referring table's schema unless it names one. */
  function SourceKey(schema: string, lc: LikeClause): string {
    QualName(if lc.sourceSchema == "" then schema else lc.sourceSchema, lc.sourceName)
  }

  // ----- copying

  function CloneColumn(c: Column, options: bv32): Column {
    Column(c.name, c.colType, c.notNull, c.serial,
           if Includes(options, DEFAULTS) then c.default else None,
           if Includes(options, GENERATED) then c.generated else None,
           if Includes(options, IDENTITY) then c.identity else None,
           if Includes(options, STORAGE) then c.storage else None,
           Includes(options, STORAGE) && c.storageIsTypeDefault,
           if Includes(options, COMPRESSION) then c.compression else None,
           if Includes(options, COMMENTS) then c.comment else None,
           None)
  }

  function CloneColumns(cols: seq<Column>, options: bv32): (r: seq<Column>) {
    if cols == [] then [] else CloneColumns(cols[..|cols| - 1], options) + [CloneColumn(cols[|cols| - 1], options)]
  }

  predicate CopiedBy(c: Constraint, options: bv32) {
    || (c.kind == "CHECK" && Includes(options, CONSTRAINTS))
    || ((c.kind == "PRIMARY KEY" || c.kind == "UNIQUE" || c.kind == "EXCLUDE") && Includes(options, INDEXES))
  }

  function CloneConstraint(c: Constraint, options: bv32): Constraint {
    Constraint("", c.kind, c.expr, c.columns, c.checkColumn, c.notValid, c.deferrable, c.initiallyDeferred,
               c.exclude, if Includes(options, COMMENTS) then c.comment else None, None)
  }

  function CloneConstraints(cs: seq<Constraint>, options: bv32): seq<Constraint> {
    if cs == [] then []
    else
      var last := cs[|cs| - 1];
      CloneConstraints(cs[..|cs| - 1], options) + if CopiedBy(last, options) then [CloneConstraint(last, options)] else []
  }

  // ----- placing the copies

  /** Inserts at a position, or at the end when the position is beyond it. */
  function Splice<T>(cols: seq<T>, at: nat, ins: seq<T>): seq<T> {
    var k := if at > |cols| then |cols| else at;
    cols[..k] + ins + cols[k..]
  }

  /** What one clause inserts, and where it stood among the declared columns. */
  datatype Insertion<T> = Insertion(at: nat, items: seq<T>)

  /** Splicing in clause order, each position shifted by what earlier clauses inserted. */
  function SpliceAll<T>(cols: seq<T>, ins: seq<Insertion<T>>): seq<T> {
    if ins == [] then cols
    else
      var front, last := ins[..|ins| - 1], ins[|ins| - 1];
      Splice(SpliceAll(cols, front), last.at + Inserted(front), last.items)
  }

  function Inserted<T>(ins: seq<Insertion<T>>): nat {
    if ins == [] then 0 else Inserted(ins[..|ins| - 1]) + |ins[|ins| - 1].items|
  }

  /** The declared columns with each insertion standing exactly where its clause stood. */
  function Weave<T>(cols: seq<T>, ins: seq<Insertion<T>>): seq<T>
    requires WellPlaced(cols, ins)
    decreases |ins|
  {
    if ins == [] then cols
    else
      var front, last := ins[..|ins| - 1], ins[|ins| - 1];
      Weave(cols[..last.at], front) + last.items + cols[last.at..]
  }

  /** Positions are in range and do not decrease from clause to clause. */
  predicate WellPlaced<T>(cols: seq<T>, ins: seq<Insertion<T>>) {
    && (forall k :: 0 <= k < |ins| ==> ins[k].at <= |cols|)
    && (forall j, k :: 0 <= j < k < |ins| ==> ins[j].at <= ins[k].at)
  }

  lemma {:induction false} WeaveLength<T>(cols: seq<T>, ins: seq<Insertion<T>>)
    requires WellPlaced(cols, ins)
    ensures |Weave(cols, ins)| == |cols| + Inserted(ins)
    decreases |ins|
  {
    if ins != [] {
      WeaveLength(cols[..ins[|ins| - 1].at], ins[..|ins| - 1]);
    }
  }

  /** Columns after the last position stay at the end. */
  lemma {:induction false} WeaveTail<T>(head: seq<T>, tail: seq<T>, ins: seq<Insertion<T>>)
    requires WellPlaced(head, ins)
    ensures WellPlaced(head + tail, ins) && Weave(head + tail, ins) == Weave(head, ins) + tail
  {
    if ins != [] {
      var at := ins[|ins| - 1].at;
      assert (head + tail)[..at] == head[..at] && (head + tail)[at..] == head[at..] + tail;
    }
  }

  /** The running offset is right: splicing puts every insertion where its clause stood. */
  lemma {:induction false} SpliceAllIsWeave<T>(cols: seq<T>, ins: seq<Insertion<T>>)
    requires WellPlaced(cols, ins)
    ensures SpliceAll(cols, ins) == Weave(cols, ins)
  {
    if ins != [] {
      var front, last := ins[..|ins| - 1], ins[|ins| - 1];
      var head, tail := cols[..last.at], cols[last.at..];
      assert cols == head + tail;
      SpliceAllIsWeave(cols, front);
      WeaveTail(head, tail, front);
      WeaveLength(head, front);
    }
  }

  /** A column list as written: columns and clauses in source order. */
  datatype Element<T> = Item(item: T) | Clause(copied: seq<T>)

  /** How the builder records the list: columns apart, each clause with the
      number of columns before it. */
  function ItemsOf<T>(elems: seq<Element<T>>): seq<T> {
    if elems == [] then []
    else
      var last := elems[|elems| - 1];
      ItemsOf(elems[..|elems| - 1]) + if last.Item? then [last.item] else []
  }

  function InsertionsOf<T>(elems: seq<Element<T>>): seq<Insertion<T>> {
    if elems == [] then []
    else
      var front, last := elems[..|elems| - 1], elems[|elems| - 1];
      InsertionsOf(front) + if last.Clause? then [Insertion(|ItemsOf(front)|, last.copied)] else []
  }

  /** The list read in source order, each clause replaced by its copies. */
  function InSourceOrder<T>(elems: seq<Element<T>>): seq<T> {
    if elems == [] then []
    else
      var last := elems[|elems| - 1];
      InSourceOrder(elems[..|elems| - 1]) + if last.Item? then [last.item] else last.copied
  }

  lemma {:induction false} BuilderIsWellPlaced<T>(elems: seq<Element<T>>)
    ensures WellPlaced(ItemsOf(elems), InsertionsOf(elems))
  {
    if elems != [] {
      BuilderIsWellPlaced(elems[..|elems| - 1]);
    }
  }

  /** For every column list, what the builder records splices back into the
      columns in source order. */
  lemma {:induction false} SplicedInSourceOrder<T>(elems: seq<Element<T>>)
    ensures SpliceAll(ItemsOf(elems), InsertionsOf(elems)) == InSourceOrder(elems)
  {
    BuilderIsWellPlaced(elems);
    SpliceAllIsWeave(ItemsOf(elems), InsertionsOf(elems));
    if elems != [] {
      var front, last := elems[..|elems| - 1], elems[|elems| - 1];
      SplicedInSourceOrder(front);
      BuilderIsWellPlaced(front);
      SpliceAllIsWeave(ItemsOf(front), InsertionsOf(front));
      if last.Item? {
        assert InsertionsOf(elems) == InsertionsOf(front);
        WeaveTail(ItemsOf(front), [last.item], InsertionsOf(front));
      } else {
        var ins := InsertionsOf(elems);
        assert ins[..|ins| - 1] == InsertionsOf(front);
        assert ItemsOf(elems) == ItemsOf(front);
        assert ItemsOf(front)[..|ItemsOf(front)|] == ItemsOf(front);
      }
    }
  }

  // ----- chains of clauses

  /** A column copied from table to table, one clause after the other. */
  function ChainColumn(c: Column, hops: seq<bv32>): Column {
    if hops == [] then c else CloneColumn(ChainColumn(c, hops[..|hops| - 1]), hops[|hops| - 1])
  }

  predicate EveryHop(hops: seq<bv32>, bit: bv32) {
    forall k :: 0 <= k < |hops| ==> Includes(hops[k], bit)
  }

  function Through(v: Option<string>, hops: seq<bv32>, bit: bv32): Option<string> {
    if EveryHop(hops, bit) then v else None
  }

  /** An attribute arrives exactly when every hop includes it; name, type, NOT
      NULL and the serial marker always arrive. */
  lemma {:induction false} ChainCopies(c: Column, hops: seq<bv32>)
    ensures
      var r := ChainColumn(c, hops);
      && r.name == c.name && r.colType == c.colType && r.notNull == c.notNull && r.serial == c.serial
      && r.default == Through(c.default, hops, DEFAULTS)
      && r.generated == Through(c.generated, hops, GENERATED)
      && r.identity == Through(c.identity, hops, IDENTITY)
      && r.storage == Through(c.storage, hops, STORAGE)
      && r.storageIsTypeDefault == (c.storageIsTypeDefault && EveryHop(hops, STORAGE))
      && r.compression == Through(c.compression, hops, COMPRESSION)
      && r.comment == Through(c.comment, hops, COMMENTS)
      && r.other == if hops == [] then c.other else None
  {
    if hops != [] {
      var front, last := hops[..|hops| - 1], hops[|hops| - 1];
      ChainCopies(c, front);
      HopSplit(hops, DEFAULTS);
      HopSplit(hops, GENERATED);
      HopSplit(hops, IDENTITY);
      HopSplit(hops, STORAGE);
      HopSplit(hops, COMPRESSION);
      HopSplit(hops, COMMENTS);
    }
  }

  lemma HopSplit(hops: seq<bv32>, bit: bv32)
    requires hops != []
    ensures EveryHop(hops, bit) <==> EveryHop(hops[..|hops| - 1], bit) && Includes(hops[|hops| - 1], bit)
  {
  }

  lemma {:induction false} CloneMembers(cs: seq<Constraint>, options: bv32)
    ensures forall k :: k in CloneConstraints(cs, options) <==>
      exists c :: c in cs && CopiedBy(c, options) && k == CloneConstraint(c, options)
  {
    if cs != [] {
      var front, last := cs[..|cs| - 1], cs[|cs| - 1];
      CloneMembers(front, options);
      assert cs == front + [last];
    }
  }

  lemma {:induction false} CloneColumnMembers(cols: seq<Column>, options: bv32)
    ensures forall k :: k in CloneColumns(cols, options) <==> exists c :: c in cols && k == CloneColumn(c, options)
  {
    if cols != [] {
      var front, last := cols[..|cols| - 1], cols[|cols| - 1];
      CloneColumnMembers(front, options);
      assert cols == front + [last];
    }
  }

  /** A constraint copied from table to table. */
  function ChainConstraint(c: Constraint, hops: seq<bv32>): Constraint {
    if hops == [] then c else CloneConstraint(ChainConstraint(c, hops[..|hops| - 1]), hops[|hops| - 1])
  }

  predicate CopiedByEvery(c: Constraint, hops: seq<bv32>) {
    forall k :: 0 <= k < |hops| ==> CopiedBy(c, hops[k])
  }

  /** A constraint's body always stays; its name goes with the first copy, and its
      comment arrives exactly when every hop includes it. */
  lemma {:induction false} ChainConstraintCopies(c: Constraint, hops: seq<bv32>)
    ensures
      var r := ChainConstraint(c, hops);
      && r.kind == c.kind && r.expr == c.expr && r.columns == c.columns && r.exclude == c.exclude
      && r.name == (if hops == [] then c.name else "")
      && r.comment == Through(c.comment, hops, COMMENTS)
  {
    if hops != [] {
      ChainConstraintCopies(c, hops[..|hops| - 1]);
      HopSplit(hops, COMMENTS);
    }
  }
}

/**
 The SQL store of crates/loom-sql: a lazy base snapshot, an overlay of changed rows, the two change
 logs (`row_dirty`, `schema_dirty`) and the pre-BEGIN snapshot. Its reference semantics is a plain
 database with copy-and-restore transactions; `StepRefines` shows that every storage call on the
 layered store does to the visible database what the plain call does.
 */
module SqlStore {
  import opened Prelude

  type Name = string

  /** `Key::I64` is what keyless appends mint; every other declared key is carried by its text. */
  datatype Key = I64(n: int) | Declared(repr: string)

  /** A row in its stored, already projected form. */
  type Row = string

  datatype Schema = Schema(columns: string, indexes: seq<string>)

  type Rows = map<Key, Row>

  /** An overlay: `Some` is an upsert, `None` a tombstone that shadows a base row. */
  type Slots = map<Key, Option<Row>>

  datatype Write = Write(key: Key, slot: Option<Row>)

  datatype Table = Table(schema: Schema, rows: Rows)

  datatype Database = Database(tables: map<Name, Table>, nextId: map<Name, int>)

  /** The mutable part of the store, which is also what `BEGIN` snapshots. */
  datatype Work = Work(
    schemas: map<Name, Schema>,
    base: map<Name, Rows>,
    overlay: map<Name, Slots>,
    nextId: map<Name, int>,
    rowDirty: map<Name, set<Key>>,
    schemaDirty: set<Name>)

  datatype Store = Store(work: Work, txn: Option<Work>)

  /** The storage calls the SQL executor makes; `Refuse` is a statement it rejects by itself. */
  datatype Call =
    | InsertSchema(name: Name, schema: Schema)
    | DeleteSchema(name: Name)
    | AppendData(name: Name, rows: seq<Row>)
    | InsertData(name: Name, puts: seq<(Key, Row)>)
    | DeleteData(name: Name, keys: seq<Key>)
    | CreateIndex(name: Name, index: string)
    | DropIndex(name: Name, index: string)
    | Begin
    | CommitTxn
    | RollbackTxn
    | Refuse

  // ---- rows --------------------------------------------------------------------------------------

  function Lookup<K, V>(m: map<K, V>, k: K): (r: Option<V>) {
    if k in m then Some(m[k]) else None
  }

  function RowsAt(m: map<Name, Rows>, n: Name): (r: Rows) {
    if n in m then m[n] else map[]
  }

  function SlotsAt(m: map<Name, Slots>, n: Name): (r: Slots) {
    if n in m then m[n] else map[]
  }

  function DirtyAt(m: map<Name, set<Key>>, n: Name): (r: set<Key>) {
    if n in m then m[n] else {}
  }

  /** The merged view of one table: overlay first, then the base. */
  function Merge(base: Rows, ov: Slots): (r: Rows)
  {
    map k | k in base.Keys + ov.Keys && (k in ov ==> ov[k].Some?) ::
      if k in ov then ov[k].value else base[k]
  }

  /** The overlay after recording `ws` in order. */
  function Overlaid(ov: Slots, ws: seq<Write>): (r: Slots)
    ensures r.Keys == ov.Keys + Touched(ws)
  {
    if ws == [] then ov
    else
      var last := ws[|ws| - 1];
      assert ws == ws[..|ws| - 1] + [last];
      Overlaid(ov, ws[..|ws| - 1])[last.key := last.slot]
  }

  function Touched(ws: seq<Write>): (r: set<Key>) {
    set w | w in ws :: w.key
  }

  /** The reference meaning of the same writes on a plain row map. */
  function Written(rows: Rows, ws: seq<Write>): (r: Rows) {
    if ws == [] then rows
    else
      var last := ws[|ws| - 1];
      var before := Written(rows, ws[..|ws| - 1]);
      if last.slot.Some? then before[last.key := last.slot.value] else before - {last.key}
  }

  /** Recording one write in the overlay is writing it to the merged rows. */
  lemma MergeOne(base: Rows, ov: Slots, w: Write)
    ensures Merge(base, ov[w.key := w.slot]) ==
            if w.slot.Some? then Merge(base, ov)[w.key := w.slot.value] else Merge(base, ov) - {w.key}
  {
  }

  lemma {:induction false} MergeOverlaid(base: Rows, ov: Slots, ws: seq<Write>)
    ensures Merge(base, Overlaid(ov, ws)) == Written(Merge(base, ov), ws)
  {
    if ws != [] {
      MergeOverlaid(base, ov, ws[..|ws| - 1]);
      MergeOne(base, Overlaid(ov, ws[..|ws| - 1]), ws[|ws| - 1]);
    }
  }

  function Appends(start: int, rows: seq<Row>): (ws: seq<Write>) {
    seq(|rows|, i requires 0 <= i < |rows| => Write(I64(start + i), Some(rows[i])))
  }

  function Puts(puts: seq<(Key, Row)>): (ws: seq<Write>) {
    seq(|puts|, i requires 0 <= i < |puts| => Write(puts[i].0, Some(puts[i].1)))
  }

  function Tombstones(keys: seq<Key>): (ws: seq<Write>) {
    seq(|keys|, i requires 0 <= i < |keys| => Write(keys[i], None))
  }

  // ---- the layered store -------------------------------------------------------------------------

  /** What the store shows to SQL. */
  function View(w: Work): (db: Database) {
    Database(map n | n in w.schemas :: Table(w.schemas[n], TableRows(w, n)), w.nextId)
  }

  function TableRows(w: Work, n: Name): (r: Rows) {
    Merge(RowsAt(w.base, n), SlotsAt(w.overlay, n))
  }

  /** Nothing is remembered about a table outside the catalog, and every logged key has a slot. */
  ghost predicate Wf(w: Work) {
    && w.base.Keys <= w.schemas.Keys
    && w.overlay.Keys <= w.schemas.Keys
    && w.schemaDirty <= w.schemas.Keys
    && w.rowDirty.Keys <= w.schemas.Keys
    && (forall n :: n in w.rowDirty ==> w.rowDirty[n] <= SlotsAt(w.overlay, n).Keys)
  }

  ghost predicate WfStore(s: Store) {
    Wf(s.work) && (s.txn.Some? ==> Wf(s.txn.value))
  }

  predicate IsDirty(w: Work) {
    w.rowDirty != map[] || w.schemaDirty != {}
  }

  function RecordWrites(w: Work, n: Name, ws: seq<Write>): (r: Work) {
    w.(overlay := w.overlay[n := Overlaid(SlotsAt(w.overlay, n), ws)],
       rowDirty := w.rowDirty[n := DirtyAt(w.rowDirty, n) + Touched(ws)])
  }

  /** The next auto key of a table, created at 0 on first use. */
  function NextId(m: map<Name, int>, n: Name): (r: int) {
    if n in m then m[n] else 0
  }

  /** Rows under freshly minted keys. */
  function Appended(w: Work, n: Name, rows: seq<Row>): (r: Work) {
    RecordWrites(w, n, Appends(NextId(w.nextId, n), rows)).(nextId := w.nextId[n := NextId(w.nextId, n) + |rows|])
  }

  /** Whether a non-transaction call succeeds; the executor refuses a missing table before it reaches the store. */
  predicate Accepts(schemas: map<Name, Schema>, c: Call) {
    match c
    case InsertSchema(_, _) => true
    case DeleteSchema(_) => true
    case AppendData(n, _) => n in schemas
    case InsertData(n, _) => n in schemas
    case DeleteData(n, _) => n in schemas
    case CreateIndex(n, i) => n in schemas && i !in schemas[n].indexes
    case DropIndex(n, i) => n in schemas && i in schemas[n].indexes
    case _ => false
  }

  function WithIndex(s: Schema, i: string): (r: Schema) {
    s.(indexes := s.indexes + [i])
  }

  function WithoutIndex(s: Schema, i: string): (r: Schema) {
    s.(indexes := Without(s.indexes, i))
  }

  function Without(xs: seq<string>, x: string): (r: seq<string>) {
    if xs == [] then [] else (if xs[0] == x then [] else [xs[0]]) + Without(xs[1..], x)
  }

  function Apply(w: Work, c: Call): (r: Work)
    requires Accepts(w.schemas, c)
  {
    match c
    case InsertSchema(n, schema) =>
      w.(schemas := w.schemas[n := schema],
         overlay := w.overlay[n := SlotsAt(w.overlay, n)],
         schemaDirty := w.schemaDirty + {n})
    case DeleteSchema(n) =>
      Work(w.schemas - {n}, w.base - {n}, w.overlay - {n}, w.nextId - {n}, w.rowDirty - {n}, w.schemaDirty - {n})
    case AppendData(n, rows) => Appended(w, n, rows)
    case InsertData(n, puts) => RecordWrites(w, n, Puts(puts))
    case DeleteData(n, keys) => RecordWrites(w, n, Tombstones(keys))
    case CreateIndex(n, i) =>
      w.(schemas := w.schemas[n := WithIndex(w.schemas[n], i)], schemaDirty := w.schemaDirty + {n})
    case DropIndex(n, i) =>
      w.(schemas := w.schemas[n := WithoutIndex(w.schemas[n], i)], schemaDirty := w.schemaDirty + {n})
  }

  /** One storage call; the flag says whether it succeeded. A failed call leaves the store as it was. */
  function Step(s: Store, c: Call): (r: (Store, bool)) {
    match c
    case Begin => if s.txn.Some? then (s, false) else (s.(txn := Some(s.work)), true)
    case CommitTxn => if s.txn.Some? then (s.(txn := None), true) else (s, false)
    case RollbackTxn => if s.txn.Some? then (Store(s.txn.value, None), true) else (s, false)
    case _ => if Accepts(s.work.schemas, c) then (s.(work := Apply(s.work, c)), true) else (s, false)
  }

  /** A script: the calls run in order and stop at the first failure, keeping what came before. */
  function Run(s: Store, calls: seq<Call>): (r: (Store, bool))
    decreases |calls|
  {
    if calls == [] then (s, true)
    else
      var (s1, ok) := Step(s, calls[0]);
      if ok then Run(s1, calls[1..]) else (s1, false)
  }

  // ---- the reference -----------------------------------------------------------------------------

  /** A plain database and the copy taken at BEGIN. */
  datatype Plain = Plain(db: Database, saved: Option<Database>)

  function Abs(s: Store): (p: Plain) {
    Plain(View(s.work), if s.txn.Some? then Some(View(s.txn.value)) else None)
  }

  function SchemasOf(db: Database): (r: map<Name, Schema>) {
    map n | n in db.tables :: db.tables[n].schema
  }

  function PlainWrites(db: Database, n: Name, ws: seq<Write>): (r: Database)
    requires n in db.tables
  {
    db.(tables := db.tables[n := db.tables[n].(rows := Written(db.tables[n].rows, ws))])
  }

  function PlainApply(db: Database, c: Call): (r: Database)
    requires Accepts(SchemasOf(db), c)
  {
    match c
    case InsertSchema(n, schema) =>
      db.(tables := db.tables[n := Table(schema, if n in db.tables then db.tables[n].rows else map[])])
    case DeleteSchema(n) => Database(db.tables - {n}, db.nextId - {n})
    case AppendData(n, rows) =>
      PlainWrites(db, n, Appends(NextId(db.nextId, n), rows))
        .(nextId := db.nextId[n := NextId(db.nextId, n) + |rows|])
    case InsertData(n, puts) => PlainWrites(db, n, Puts(puts))
    case DeleteData(n, keys) => PlainWrites(db, n, Tombstones(keys))
    case CreateIndex(n, i) =>
      db.(tables := db.tables[n := db.tables[n].(schema := WithIndex(db.tables[n].schema, i))])
    case DropIndex(n, i) =>
      db.(tables := db.tables[n := db.tables[n].(schema := WithoutIndex(db.tables[n].schema, i))])
  }

  function PlainStep(p: Plain, c: Call): (r: (Plain, bool)) {
    match c
    case Begin => if p.saved.Some? then (p, false) else (p.(saved := Some(p.db)), true)
    case CommitTxn => if p.saved.Some? then (p.(saved := None), true) else (p, false)
    case RollbackTxn => if p.saved.Some? then (Plain(p.saved.value, None), true) else (p, false)
    case _ => if Accepts(SchemasOf(p.db), c) then (p.(db := PlainApply(p.db, c)), true) else (p, false)
  }

  function PlainRun(p: Plain, calls: seq<Call>): (r: (Plain, bool))
    decreases |calls|
  {
    if calls == [] then (p, true)
    else
      var (p1, ok) := PlainStep(p, calls[0]);
      if ok then PlainRun(p1, calls[1..]) else (p1, false)
  }

  // ---- refinement --------------------------------------------------------------------------------

  /** A table's rows depend only on its own base and overlay entries. */
  lemma SameRows(w: Work, r: Work, n: Name)
    requires RowsAt(r.base, n) == RowsAt(w.base, n)
    requires SlotsAt(r.overlay, n) == SlotsAt(w.overlay, n)
    ensures TableRows(r, n) == TableRows(w, n)
  {
  }

  /** The view changes at `n` only, to `table`. */
  lemma ViewUpdate(w: Work, r: Work, n: Name, table: Table)
    requires r.schemas == w.schemas[n := table.schema]
    requires TableRows(r, n) == table.rows
    requires forall m | m in w.schemas && m != n ::
               RowsAt(r.base, m) == RowsAt(w.base, m) && SlotsAt(r.overlay, m) == SlotsAt(w.overlay, m)
    ensures View(r) == View(w).(tables := View(w).tables[n := table], nextId := r.nextId)
  {
    forall m | m in w.schemas && m != n
      ensures TableRows(r, m) == TableRows(w, m)
    {
      SameRows(w, r, m);
    }
  }

  lemma RecordWritesView(w: Work, n: Name, ws: seq<Write>)
    requires n in w.schemas
    ensures View(RecordWrites(w, n, ws)) == PlainWrites(View(w), n, ws)
  {
    var r := RecordWrites(w, n, ws);
    var table := Table(w.schemas[n], Written(TableRows(w, n), ws));
    assert TableRows(r, n) == table.rows by {
      MergeOverlaid(RowsAt(w.base, n), SlotsAt(w.overlay, n), ws);
    }
    ViewUpdate(w, r, n, table);
  }

  lemma AppendView(w: Work, n: Name, rows: seq<Row>)
    requires n in w.schemas
    ensures n in View(w).tables
    ensures View(Apply(w, AppendData(n, rows))) == PlainApply(View(w), AppendData(n, rows))
  {
    var ws := Appends(NextId(w.nextId, n), rows);
    var r := RecordWrites(w, n, ws);
    RecordWritesView(w, n, ws);
    var t := Apply(w, AppendData(n, rows));
    forall m | m in w.schemas
      ensures TableRows(t, m) == TableRows(r, m)
    {
      SameRows(r, t, m);
    }
    assert View(t).tables == View(r).tables;
  }

  lemma InsertSchemaView(w: Work, n: Name, schema: Schema)
    requires Wf(w)
    ensures View(Apply(w, InsertSchema(n, schema))) == PlainApply(View(w), InsertSchema(n, schema))
  {
    var r := Apply(w, InsertSchema(n, schema));
    SameRows(w, r, n);
    if n !in w.schemas {
      assert TableRows(w, n) == map[];
    }
    ViewUpdate(w, r, n, Table(schema, TableRows(w, n)));
  }

  lemma DeleteSchemaView(w: Work, n: Name)
    ensures View(Apply(w, DeleteSchema(n))) == PlainApply(View(w), DeleteSchema(n))
  {
    var r := Apply(w, DeleteSchema(n));
    forall m | m in r.schemas
      ensures TableRows(r, m) == TableRows(w, m)
    {
      SameRows(w, r, m);
    }
  }

  lemma ReindexView(w: Work, n: Name, schema: Schema)
    requires n in w.schemas
    ensures View(w.(schemas := w.schemas[n := schema], schemaDirty := w.schemaDirty + {n})) ==
            View(w).(tables := View(w).tables[n := View(w).tables[n].(schema := schema)])
  {
    var r := w.(schemas := w.schemas[n := schema], schemaDirty := w.schemaDirty + {n});
    SameRows(w, r, n);
    ViewUpdate(w, r, n, Table(schema, TableRows(w, n)));
  }

  lemma ApplyRefines(w: Work, c: Call)
    requires Wf(w)
    requires Accepts(w.schemas, c)
    ensures Accepts(SchemasOf(View(w)), c)
    ensures View(Apply(w, c)) == PlainApply(View(w), c)
  {
    assert SchemasOf(View(w)) == w.schemas;
    match c
    case InsertSchema(n, schema) => InsertSchemaView(w, n, schema);
    case DeleteSchema(n) => DeleteSchemaView(w, n);
    case AppendData(n, rows) => AppendView(w, n, rows);
    case InsertData(n, puts) => RecordWritesView(w, n, Puts(puts));
    case DeleteData(n, keys) => RecordWritesView(w, n, Tombstones(keys));
    case CreateIndex(n, i) => ReindexView(w, n, WithIndex(w.schemas[n], i));
    case DropIndex(n, i) => ReindexView(w, n, WithoutIndex(w.schemas[n], i));
  }

  lemma ApplyKeepsWf(w: Work, c: Call)
    requires Wf(w)
    requires Accepts(w.schemas, c)
    ensures Wf(Apply(w, c))
  {
  }

  /** Every storage call keeps the store well formed and does to the view what the plain call does. */
  lemma StepRefines(s: Store, c: Call)
    requires WfStore(s)
    ensures WfStore(Step(s, c).0)
    ensures PlainStep(Abs(s), c) == (Abs(Step(s, c).0), Step(s, c).1)
  {
    assert SchemasOf(View(s.work)) == s.work.schemas;
    if !c.Begin? && !c.CommitTxn? && !c.RollbackTxn? && Accepts(s.work.schemas, c) {
      ApplyRefines(s.work, c);
      ApplyKeepsWf(s.work, c);
    }
  }

  /** Whole scripts: the layered store and the plain database agree, failures included. */
  lemma {:induction false} RunRefines(s: Store, calls: seq<Call>)
    requires WfStore(s)
    ensures WfStore(Run(s, calls).0)
    ensures PlainRun(Abs(s), calls) == (Abs(Run(s, calls).0), Run(s, calls).1)
    decreases |calls|
  {
    if calls != [] {
      StepRefines(s, calls[0]);
      if Step(s, calls[0]).1 {
        RunRefines(Step(s, calls[0]).0, calls[1..]);
      }
    }
  }

  // ---- what each call does to the visible database -----------------------------------------------

  /** A call succeeds by the tables, indexes and open transaction a reader sees, and a failed call changes nothing. */
  lemma StepAccepts(s: Store, c: Call)
    requires WfStore(s)
    ensures var tables := View(s.work).tables;
            Step(s, c).1 <==>
            match c
            case InsertSchema(_, _) => true
            case DeleteSchema(_) => true
            case AppendData(n, _) => n in tables
            case InsertData(n, _) => n in tables
            case DeleteData(n, _) => n in tables
            case CreateIndex(n, i) => n in tables && i !in tables[n].schema.indexes
            case DropIndex(n, i) => n in tables && i in tables[n].schema.indexes
            case Begin => s.txn.None?
            case CommitTxn => s.txn.Some?
            case RollbackTxn => s.txn.Some?
            case Refuse => false
    ensures !Step(s, c).1 ==> Step(s, c).0 == s
  {
  }

  /** Only table `n` and the counters may differ. */
  predicate SameOthers(was: Database, now: Database, n: Name) {
    && now.tables.Keys == was.tables.Keys
    && forall m :: m in was.tables && m != n ==> now.tables[m] == was.tables[m]
  }

  /** The row a sequence of writes leaves at a key: that of the last write to it, else the row before. */
  lemma {:induction false} WrittenAt(rows: Rows, ws: seq<Write>, k: Key, i: nat)
    requires i < |ws| && ws[i].key == k && forall j :: i < j < |ws| ==> ws[j].key != k
    ensures Lookup(Written(rows, ws), k) == ws[i].slot
  {
    if i < |ws| - 1 { WrittenAt(rows, ws[..|ws| - 1], k, i); }
  }

  lemma {:induction false} UnwrittenAt(rows: Rows, ws: seq<Write>, k: Key)
    requires forall j :: 0 <= j < |ws| ==> ws[j].key != k
    ensures Lookup(Written(rows, ws), k) == Lookup(rows, k)
  {
    if ws != [] { UnwrittenAt(rows, ws[..|ws| - 1], k); }
  }

  /** An upsert: a key put shows the row of its last put, every other key the row it had. */
  lemma InsertedRows(w: Work, n: Name, puts: seq<(Key, Row)>, k: Key)
    requires Wf(w) && n in View(w).tables
    ensures var was, now := View(w), View(Apply(w, InsertData(n, puts)));
            && SameOthers(was, now, n) && now.nextId == was.nextId && now.tables[n].schema == was.tables[n].schema
            && (forall i :: 0 <= i < |puts| && puts[i].0 == k && (forall j :: i < j < |puts| ==> puts[j].0 != k) ==>
                  Lookup(now.tables[n].rows, k) == Some(puts[i].1))
            && ((forall i :: 0 <= i < |puts| ==> puts[i].0 != k) ==>
                  Lookup(now.tables[n].rows, k) == Lookup(was.tables[n].rows, k))
  {
    var rows, ws := View(w).tables[n].rows, Puts(puts);
    ApplyRefines(w, InsertData(n, puts));
    forall i | 0 <= i < |puts| && puts[i].0 == k && forall j :: i < j < |puts| ==> puts[j].0 != k
      ensures Lookup(Written(rows, ws), k) == Some(puts[i].1)
    {
      WrittenAt(rows, ws, k, i);
    }
    if forall i :: 0 <= i < |puts| ==> puts[i].0 != k { UnwrittenAt(rows, ws, k); }
  }

  lemma {:induction false} AppendedAt(rows: Rows, c: int, new_: seq<Row>, k: Key)
    ensures Lookup(Written(rows, Appends(c, new_)), k) ==
            if k.I64? && c <= k.n < c + |new_| then Some(new_[k.n - c]) else Lookup(rows, k)
  {
    if k.I64? && c <= k.n < c + |new_| {
      WrittenAt(rows, Appends(c, new_), k, k.n - c);
    } else {
      UnwrittenAt(rows, Appends(c, new_), k);
    }
  }

  /** The database after an append of `rows` to table `n`, seen at key `k`. */
  predicate AppendedTo(was: Database, now: Database, n: Name, rows: seq<Row>, k: Key)
    requires n in was.tables
  {
    var c := if n in was.nextId then was.nextId[n] else 0;
    && SameOthers(was, now, n) && now.nextId == was.nextId[n := c + |rows|]
    && now.tables[n].schema == was.tables[n].schema
    && Lookup(now.tables[n].rows, k) ==
       if k.I64? && c <= k.n < c + |rows| then Some(rows[k.n - c]) else Lookup(was.tables[n].rows, k)
  }

  lemma PlainAppended(db: Database, n: Name, rows: seq<Row>, k: Key)
    requires n in db.tables
    ensures Accepts(SchemasOf(db), AppendData(n, rows))
    ensures AppendedTo(db, PlainApply(db, AppendData(n, rows)), n, rows, k)
  {
    AppendedAt(db.tables[n].rows, NextId(db.nextId, n), rows, k);
  }

  /** An append: the rows stand under the keys from the counter on, the counter moves past them. */
  lemma AppendedRows(w: Work, n: Name, rows: seq<Row>, k: Key)
    requires Wf(w) && n in View(w).tables
    ensures AppendedTo(View(w), View(Apply(w, AppendData(n, rows))), n, rows, k)
  {
    ApplyRefines(w, AppendData(n, rows));
    PlainAppended(View(w), n, rows, k);
  }

  lemma {:induction false} TombstonedAt(rows: Rows, keys: seq<Key>, k: Key)
    ensures Lookup(Written(rows, Tombstones(keys)), k) == if k in keys then None else Lookup(rows, k)
  {
    if keys != [] {
      var init := keys[..|keys| - 1];
      TombstonedAt(rows, init, k);
      assert Tombstones(keys)[..|keys| - 1] == Tombstones(init);
      assert keys == init + [keys[|keys| - 1]];
    }
  }

  /** A delete: no listed key is left, every other row stays. */
  lemma DeletedRows(w: Work, n: Name, keys: seq<Key>, k: Key)
    requires Wf(w) && n in View(w).tables
    ensures var was, now := View(w), View(Apply(w, DeleteData(n, keys)));
            && SameOthers(was, now, n) && now.nextId == was.nextId && now.tables[n].schema == was.tables[n].schema
            && Lookup(now.tables[n].rows, k) == if k in keys then None else Lookup(was.tables[n].rows, k)
  {
    ApplyRefines(w, DeleteData(n, keys));
    TombstonedAt(View(w).tables[n].rows, keys, k);
  }

  lemma {:induction false} WithoutNone(xs: seq<string>, x: string)
    requires x !in xs
    ensures Without(xs, x) == xs
  {
    if xs != [] {
      assert xs[0] in xs && forall y :: y in xs[1..] ==> y in xs;
      WithoutNone(xs[1..], x);
      assert xs == [xs[0]] + xs[1..];
    }
  }

  lemma {:induction false} WithoutAppend(a: seq<string>, b: seq<string>, x: string)
    ensures Without(a + b, x) == Without(a, x) + Without(b, x)
  {
    if a == [] {
      assert a + b == b;
    } else {
      WithoutAppend(a[1..], b, x);
      assert (a + b)[1..] == a[1..] + b;
      AppendAssoc(if a[0] == x then [] else [a[0]], Without(a[1..], x), Without(b, x));
    }
  }

  lemma {:induction false} WithoutMiddle(a: seq<string>, x: string, b: seq<string>)
    requires x !in a && x !in b
    ensures Without(a + [x] + b, x) == a + b
  {
    WithoutAppend(a + [x], b, x);
    WithoutAppend(a, [x], x);
    WithoutNone(a, x);
    WithoutNone(b, x);
    assert [x][1..] == [] && Without([x], x) == [];
    assert a + [] == a;
  }

  /** Creating an index adds it behind the others; rows, columns and everything else stay. */
  lemma IndexCreated(w: Work, n: Name, i: string)
    requires Wf(w) && Accepts(w.schemas, CreateIndex(n, i))
    ensures var was, now := View(w), View(Apply(w, CreateIndex(n, i)));
            && n in was.tables && SameOthers(was, now, n) && now.nextId == was.nextId
            && now.tables[n] == Table(Schema(was.tables[n].schema.columns, was.tables[n].schema.indexes + [i]), was.tables[n].rows)
  {
    ApplyRefines(w, CreateIndex(n, i));
  }

  /** Dropping an index takes it out from between the others; rows, columns and everything else stay. */
  lemma IndexDropped(w: Work, n: Name, i: string, before: seq<string>, after: seq<string>)
    requires Wf(w) && n in View(w).tables && i !in before && i !in after
    requires View(w).tables[n].schema.indexes == before + [i] + after
    ensures var was, now := View(w), View(Apply(w, DropIndex(n, i)));
            && SameOthers(was, now, n) && now.nextId == was.nextId
            && now.tables[n] == Table(Schema(was.tables[n].schema.columns, before + after), was.tables[n].rows)
  {
    assert (before + [i] + after)[|before|] == i;
    ApplyRefines(w, DropIndex(n, i));
    WithoutMiddle(before, i, after);
  }

  /** Creating a table, or replacing its schema, keeps the rows under its name. */
  lemma TableCreated(w: Work, n: Name, schema: Schema)
    requires Wf(w)
    ensures var was, now := View(w), View(Apply(w, InsertSchema(n, schema)));
            && now.nextId == was.nextId && now.tables.Keys == was.tables.Keys + {n}
            && now.tables[n] == Table(schema, if n in was.tables then was.tables[n].rows else map[])
            && forall m :: m in was.tables && m != n ==> now.tables[m] == was.tables[m]
  {
    ApplyRefines(w, InsertSchema(n, schema));
  }

  /** A dropped table is gone, with its counter. */
  lemma TableDropped(w: Work, n: Name)
    requires Wf(w)
    ensures var was, now := View(w), View(Apply(w, DeleteSchema(n)));
            && now.tables.Keys == was.tables.Keys - {n} && n !in now.nextId
            && (forall m :: m in now.tables ==> now.tables[m] == was.tables[m])
            && forall m :: m != n ==> Lookup(now.nextId, m) == Lookup(was.nextId, m)
  {
    ApplyRefines(w, DeleteSchema(n));
  }
}

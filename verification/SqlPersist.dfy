/**
 `LoomSqlStore::persist` and `LoomSqlStore::open`: flushing the layered store into the working tree of
 a loom and reading it back. Persist is incremental (changed rows only) unless a table's schema or
 index set changed or the table is not staged yet. The central result is `PersistExact`: the
 incremental flush leaves exactly the visible database staged if and only if the staged tables agree
 with the store outside its change logs (`Synced`).
 */
module SqlPersist {
  import opened Prelude
  import opened SqlStore

  datatype Catalog = Catalog(schemas: map<Name, Schema>, nextId: map<Name, int>)

  /** One database of a working tree: the catalog file, if written, and the staged tables. */
  datatype Staged = Staged(catalog: Option<Catalog>, tables: map<Name, Table>)

  const NOTHING := Staged(None, map[])

  /** A from-scratch full stage of a plain database. */
  function Stage(db: Database): (s: Staged) {
    Staged(Some(Catalog(SchemasOf(db), db.nextId)), db.tables)
  }

  /** `LoomSqlStore::open`: catalog and base rows; no catalog yields an empty store. */
  function Open(s: Staged): (st: Store) {
    if s.catalog.None? then Store(Work(map[], map[], map[], map[], map[], {}), None)
    else
      var c := s.catalog.value;
      Store(Work(c.schemas, map n | n in c.schemas && n in s.tables :: s.tables[n].rows, map[], c.nextId, map[], {}),
            None)
  }

  /** The database a reader of this working tree sees. */
  function Visible(s: Staged): (db: Database) {
    View(Open(s).work)
  }

  /** Written only by completed persists: either never, or exactly a full stage of its own content. */
  ghost predicate Coherent(s: Staged) {
    s == NOTHING || s == Stage(Visible(s))
  }

  predicate NeedsFull(w: Work, s: Staged, n: Name) {
    n in w.schemaDirty || n !in s.tables
  }

  function Logged(ov: Slots, dirty: set<Key>): (r: Slots) {
    map k | k in ov && k in dirty :: ov[k]
  }

  /** What persist leaves at table `n`. */
  function Flushed(w: Work, s: Staged, n: Name): (t: Table)
    requires n in w.schemas
  {
    if NeedsFull(w, s, n) then Table(w.schemas[n], TableRows(w, n))
    else
      Table(s.tables[n].schema,
            Merge(s.tables[n].rows, Logged(SlotsAt(w.overlay, n), DirtyAt(w.rowDirty, n))))
  }

  /** A persist that runs to the end: new catalog, every table flushed, every other table unlinked. */
  function Persist(w: Work, s: Staged): (r: Staged) {
    Staged(Some(Catalog(w.schemas, w.nextId)), map n | n in w.schemas :: Flushed(w, s, n))
  }

  /** The store after a completed persist: the change logs are cleared, base and overlay stay. */
  function Clean(w: Work): (r: Work) {
    w.(rowDirty := map[], schemaDirty := {})
  }

  /** The staged table agrees with the store on its schema and on every row outside the change log. */
  ghost predicate SyncedTable(w: Work, s: Staged, n: Name)
    requires n in w.schemas && n in s.tables
  {
    && s.tables[n].schema == w.schemas[n]
    && forall k :: k !in DirtyAt(w.rowDirty, n) ==> Lookup(s.tables[n].rows, k) == Lookup(TableRows(w, n), k)
  }

  ghost predicate Synced(w: Work, s: Staged) {
    forall n :: n in w.schemas && !NeedsFull(w, s, n) ==> SyncedTable(w, s, n)
  }

  ghost predicate SyncedStore(st: Store, s: Staged) {
    Synced(st.work, s) && (st.txn.Some? ==> Synced(st.txn.value, s))
  }

  // ---- one table ---------------------------------------------------------------------------------

  lemma SameLookups(a: Rows, b: Rows)
    requires forall k :: Lookup(a, k) == Lookup(b, k)
    ensures a == b
  {
    forall k
      ensures k in a <==> k in b
      ensures k in a ==> a[k] == b[k]
    {
      assert Lookup(a, k) == Lookup(b, k);
    }
  }

  lemma MergeAt(base: Rows, ov: Slots, k: Key)
    ensures Lookup(Merge(base, ov), k) == if k in ov then ov[k] else Lookup(base, k)
  {
  }

  /** Replaying the logged slots over the staged rows. */
  lemma DeltaAt(w: Work, staged: Rows, n: Name, k: Key)
    requires Wf(w)
    ensures Lookup(Merge(staged, Logged(SlotsAt(w.overlay, n), DirtyAt(w.rowDirty, n))), k) ==
            if k in DirtyAt(w.rowDirty, n) then Lookup(TableRows(w, n), k) else Lookup(staged, k)
  {
    var ov, dirty := SlotsAt(w.overlay, n), DirtyAt(w.rowDirty, n);
    MergeAt(staged, Logged(ov, dirty), k);
    MergeAt(RowsAt(w.base, n), ov, k);
    assert dirty <= ov.Keys;
  }

  /** The incremental flush of one table is exact if and only if the table was synced. */
  lemma FlushExact(w: Work, s: Staged, n: Name)
    requires Wf(w)
    requires n in w.schemas
    requires !NeedsFull(w, s, n)
    ensures Flushed(w, s, n) == Table(w.schemas[n], TableRows(w, n)) <==> SyncedTable(w, s, n)
  {
    var f := Flushed(w, s, n);
    forall k
      ensures Lookup(f.rows, k) ==
              if k in DirtyAt(w.rowDirty, n) then Lookup(TableRows(w, n), k) else Lookup(s.tables[n].rows, k)
    {
      DeltaAt(w, s.tables[n].rows, n, k);
    }
    if SyncedTable(w, s, n) {
      SameLookups(f.rows, TableRows(w, n));
    }
  }

  // ---- the whole database ------------------------------------------------------------------------

  /** Persist stages exactly the visible database if and only if the staged tables were in sync. */
  lemma PersistExact(w: Work, s: Staged)
    requires Wf(w)
    ensures Persist(w, s) == Stage(View(w)) <==> Synced(w, s)
  {
    var p, v := Persist(w, s), Stage(View(w));
    assert SchemasOf(View(w)) == w.schemas;
    forall n | n in w.schemas
      ensures p.tables[n] == v.tables[n] <==> (!NeedsFull(w, s, n) ==> SyncedTable(w, s, n))
    {
      if !NeedsFull(w, s, n) {
        FlushExact(w, s, n);
      }
    }
    if p == v {
      forall n | n in w.schemas && !NeedsFull(w, s, n)
        ensures SyncedTable(w, s, n)
      {
        assert p.tables[n] == v.tables[n];
      }
    }
    if Synced(w, s) {
      assert p.tables == v.tables;
    }
  }

  /** Reading back a full stage recovers the database. */
  lemma OpenStage(db: Database)
    ensures Visible(Stage(db)) == db
    ensures Coherent(Stage(db))
  {
    var w := Open(Stage(db)).work;
    forall n | n in db.tables
      ensures TableRows(w, n) == db.tables[n].rows
    {
      MergeEmpty(db.tables[n].rows);
    }
    assert View(w).tables == db.tables;
  }

  lemma MergeEmpty(rows: Rows)
    ensures Merge(rows, map[]) == rows
  {
  }

  /** A freshly opened store is well formed, clean, outside any transaction, and in sync. */
  lemma OpenSynced(s: Staged)
    requires Coherent(s)
    ensures WfStore(Open(s)) && SyncedStore(Open(s), s)
    ensures !IsDirty(Open(s).work) && Open(s).txn.None?
  {
    var w := Open(s).work;
    forall n | n in w.schemas && !NeedsFull(w, s, n)
      ensures SyncedTable(w, s, n)
    {
      MergeEmpty(s.tables[n].rows);
    }
  }

  /** A completed persist changes neither the view nor, when in sync, the agreement with the tree. */
  lemma PersistSettles(w: Work, s: Staged)
    requires Wf(w) && Synced(w, s)
    ensures Wf(Clean(w)) && View(Clean(w)) == View(w)
    ensures Synced(Clean(w), Persist(w, s))
    ensures Visible(Persist(w, s)) == View(w) && Coherent(Persist(w, s))
  {
    PersistExact(w, s);
    OpenStage(View(w));
    CleanView(w);
    assert Persist(w, s).tables == View(w).tables;
  }

  lemma CleanView(w: Work)
    ensures View(Clean(w)) == View(w)
  {
    forall n | n in w.schemas
      ensures TableRows(Clean(w), n) == TableRows(w, n)
    {
      SameRows(w, Clean(w), n);
    }
  }

  /** The result does not depend on how often changes were flushed before: incremental equals full. */
  lemma DeltaEqualsFull(w: Work, s: Staged, w': Work, s': Staged)
    requires Wf(w) && Synced(w, s)
    requires Wf(w') && View(w') == View(w)
    requires w'.schemaDirty == w'.schemas.Keys
    ensures Persist(w, s) == Persist(w', s')
  {
    PersistExact(w, s);
    PersistExact(w', s');
  }

  // ---- calls keep the agreement ------------------------------------------------------------------

  lemma WritesAt(ov: Slots, ws: seq<Write>, k: Key)
    requires k !in Touched(ws)
    ensures Lookup(Overlaid(ov, ws), k) == Lookup(ov, k)
  {
    if ws != [] {
      assert ws[|ws| - 1] in ws;
      assert forall w | w in ws[..|ws| - 1] :: w in ws;
      WritesAt(ov, ws[..|ws| - 1], k);
    }
  }

  lemma RecordWritesSynced(w: Work, s: Staged, n: Name, ws: seq<Write>)
    requires Wf(w) && Synced(w, s) && n in w.schemas
    ensures Synced(RecordWrites(w, n, ws), s)
  {
    var r := RecordWrites(w, n, ws);
    forall m | m in r.schemas && !NeedsFull(r, s, m)
      ensures SyncedTable(r, s, m)
    {
      assert SyncedTable(w, s, m);
      if m == n {
        forall k | k !in DirtyAt(r.rowDirty, n)
          ensures Lookup(s.tables[n].rows, k) == Lookup(TableRows(r, n), k)
        {
          WritesAt(SlotsAt(w.overlay, n), ws, k);
          MergeAt(RowsAt(w.base, n), SlotsAt(w.overlay, n), k);
          MergeAt(RowsAt(r.base, n), SlotsAt(r.overlay, n), k);
        }
      } else {
        SameRows(w, r, m);
      }
    }
  }

  lemma OtherTablesSynced(w: Work, r: Work, s: Staged, n: Name)
    requires Synced(w, s)
    requires r.schemas.Keys <= w.schemas.Keys + {n}
    requires n in r.schemas ==> n in r.schemaDirty
    requires r.schemaDirty + {n} == w.schemaDirty + {n}
    requires forall m | m in r.schemas && m != n ::
               && r.schemas[m] == w.schemas[m]
               && RowsAt(r.base, m) == RowsAt(w.base, m) && SlotsAt(r.overlay, m) == SlotsAt(w.overlay, m)
               && DirtyAt(r.rowDirty, m) == DirtyAt(w.rowDirty, m)
    ensures Synced(r, s)
  {
    forall m | m in r.schemas && !NeedsFull(r, s, m)
      ensures SyncedTable(r, s, m)
    {
      assert m in r.schemaDirty + {n} <==> m in w.schemaDirty + {n};
      assert SyncedTable(w, s, m);
      SameRows(w, r, m);
    }
  }

  lemma SchemaCallSynced(w: Work, s: Staged, c: Call)
    requires Wf(w) && Synced(w, s) && Accepts(w.schemas, c)
    requires c.InsertSchema? || c.DeleteSchema?
    ensures Synced(Apply(w, c), s)
  {
    OtherTablesSynced(w, Apply(w, c), s, c.name);
  }

  lemma IndexCallSynced(w: Work, s: Staged, c: Call)
    requires Wf(w) && Synced(w, s) && Accepts(w.schemas, c)
    requires c.CreateIndex? || c.DropIndex?
    ensures Synced(Apply(w, c), s)
  {
    OtherTablesSynced(w, Apply(w, c), s, c.name);
  }

  lemma AppendSynced(w: Work, s: Staged, n: Name, rows: seq<Row>)
    requires Wf(w) && Synced(w, s) && n in w.schemas
    ensures Synced(Apply(w, AppendData(n, rows)), s)
  {
    var ws := Appends(NextId(w.nextId, n), rows);
    RecordWritesSynced(w, s, n, ws);
    NextIdSynced(RecordWrites(w, n, ws), s, w.nextId[n := NextId(w.nextId, n) + |rows|]);
  }

  /** Every storage call logs what it changes: the agreement with the tree survives it. */
  lemma ApplySynced(w: Work, s: Staged, c: Call)
    requires Wf(w) && Synced(w, s) && Accepts(w.schemas, c)
    ensures Synced(Apply(w, c), s)
  {
    match c
    case InsertSchema(_, _) => SchemaCallSynced(w, s, c);
    case DeleteSchema(_) => SchemaCallSynced(w, s, c);
    case AppendData(n, rows) => AppendSynced(w, s, n, rows);
    case InsertData(n, puts) => RecordWritesSynced(w, s, n, Puts(puts));
    case DeleteData(n, keys) => RecordWritesSynced(w, s, n, Tombstones(keys));
    case CreateIndex(_, _) => IndexCallSynced(w, s, c);
    case DropIndex(_, _) => IndexCallSynced(w, s, c);
  }

  lemma NextIdSynced(w: Work, s: Staged, nextId: map<Name, int>)
    requires Synced(w, s)
    ensures Synced(w.(nextId := nextId), s)
  {
    var r := w.(nextId := nextId);
    forall m | m in r.schemas && !NeedsFull(r, s, m)
      ensures SyncedTable(r, s, m)
    {
      assert SyncedTable(w, s, m);
      SameRows(w, r, m);
    }
  }

  lemma {:induction false} RunSynced(st: Store, s: Staged, calls: seq<Call>)
    requires WfStore(st) && SyncedStore(st, s)
    ensures SyncedStore(Run(st, calls).0, s)
    decreases |calls|
  {
    if calls != [] {
      var c := calls[0];
      StepRefines(st, c);
      if !c.Begin? && !c.CommitTxn? && !c.RollbackTxn? && Accepts(st.work.schemas, c) {
        ApplySynced(st.work, s, c);
      }
      if Step(st, c).1 {
        RunSynced(Step(st, c).0, s, calls[1..]);
      }
    }
  }

  // ---- a persist that fails part way -------------------------------------------------------------

  /** A table after some of its flush: untouched, fully staged, or with some logged rows replayed. */
  ghost predicate PartlyFlushed(w: Work, s: Staged, s': Staged, n: Name)
    requires n in w.schemas
  {
    if NeedsFull(w, s, n) then
      Lookup(s'.tables, n) == Lookup(s.tables, n) || Lookup(s'.tables, n) == Some(Flushed(w, s, n))
    else
      && n in s'.tables && s'.tables[n].schema == s.tables[n].schema
      && forall k :: || Lookup(s'.tables[n].rows, k) == Lookup(s.tables[n].rows, k)
                     || (k in DirtyAt(w.rowDirty, n) && Lookup(s'.tables[n].rows, k) == Lookup(TableRows(w, n), k))
  }

  /** Every tree a failing persist can leave behind, whatever the order of its engine calls. */
  ghost predicate PartialPersist(w: Work, s: Staged, s': Staged) {
    && (s'.catalog == s.catalog || s'.catalog == Some(Catalog(w.schemas, w.nextId)))
    && (forall n :: n in w.schemas ==> PartlyFlushed(w, s, s', n))
    && (forall n :: n !in w.schemas && n in s'.tables ==> n in s.tables && s'.tables[n] == s.tables[n])
  }

  /** A failed persist never breaks the agreement, because the change logs are cleared only at the end. */
  lemma PartialSynced(w: Work, s: Staged, s': Staged)
    requires Wf(w) && Synced(w, s) && PartialPersist(w, s, s')
    ensures Synced(w, s')
  {
    forall n | n in w.schemas && !NeedsFull(w, s', n)
      ensures SyncedTable(w, s', n)
    {
      assert PartlyFlushed(w, s, s', n);
      assert n in s'.tables && Lookup(s'.tables, n) == Some(s'.tables[n]);
      if n in s.tables {
        assert Lookup(s.tables, n) == Some(s.tables[n]);
        assert SyncedTable(w, s, n);
      }
    }
  }
}

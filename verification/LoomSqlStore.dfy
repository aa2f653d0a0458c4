/**
 The store object itself: the fields of `LoomSqlStore`, updated in place by the storage calls, and the
 loops of `append_data`, `insert_data`, `delete_data`, `scan_data` and `persist`. Each method is proved
 against the functions of SqlStore and SqlPersist, whose properties are proved there. Engine calls that
 can fail do so by a nondeterministic choice.
 */
module LoomSqlStore {
  import opened Prelude
  import opened SqlStore
  import opened SqlPersist

  /** The part of a loom's working tree that belongs to one database. */
  class WorkingTree {
    var catalog: Option<Catalog>
    var tables: map<Name, Table>

    function Value(): (s: Staged)
      reads this
    {
      Staged(catalog, tables)
    }

    constructor (s: Staged)
      ensures Value() == s
    {
      catalog, tables := s.catalog, s.tables;
    }
  }

  lemma OverlaidNext(ov: Slots, ws: seq<Write>, i: nat)
    requires i < |ws|
    ensures Overlaid(ov, ws[..i + 1]) == Overlaid(ov, ws[..i])[ws[i].key := ws[i].slot]
    ensures Touched(ws[..i + 1]) == Touched(ws[..i]) + {ws[i].key}
  {
    assert ws[..i + 1][..i] == ws[..i];
    assert ws[..i + 1] == ws[..i] + [ws[i]];
  }

  /** The loop of `append_data` over the three entries it borrows. */
  method MintRows(id0: int, slots0: Slots, dirty0: set<Key>, rows: seq<Row>)
    returns (id: int, slots: Slots, dirty: set<Key>)
    ensures id == id0 + |rows| && slots == Overlaid(slots0, Appends(id0, rows))
    ensures dirty == dirty0 + Touched(Appends(id0, rows))
  {
    id, slots, dirty := id0, slots0, dirty0;
    ghost var ws := Appends(id0, rows);
    assert ws[..0] == [];
    for i := 0 to |rows|
      invariant id == id0 + i && slots == Overlaid(slots0, ws[..i]) && dirty == dirty0 + Touched(ws[..i])
    {
      slots, dirty := MintOne(slots0, slots, dirty0, dirty, ws, i, I64(id), rows[i]);
      id := id + 1;
    }
    assert ws[..|rows|] == ws;
  }

  /** One turn of that loop. */
  method MintOne(ghost slots0: Slots, slots: Slots, ghost dirty0: set<Key>, dirty: set<Key>, ghost ws: seq<Write>,
                 ghost i: nat, key: Key, row: Row) returns (slots': Slots, dirty': set<Key>)
    requires i < |ws| && ws[i] == Write(key, Some(row))
    requires slots == Overlaid(slots0, ws[..i]) && dirty == dirty0 + Touched(ws[..i])
    ensures slots' == Overlaid(slots0, ws[..i + 1]) && dirty' == dirty0 + Touched(ws[..i + 1])
  {
    OverlaidNext(slots0, ws, i);
    slots', dirty' := slots[key := Some(row)], dirty + {key};
  }

  class SqlStoreObject {
    var schemas: map<Name, Schema>
    var base: map<Name, Rows>
    var overlay: map<Name, Slots>
    var nextId: map<Name, int>
    var rowDirty: map<Name, set<Key>>
    var schemaDirty: set<Name>
    var txn: Option<Work>

    function Snapshot(): (w: Work)
      reads this
    {
      Work(schemas, base, overlay, nextId, rowDirty, schemaDirty)
    }

    function State(): (s: Store)
      reads this
    {
      Store(Snapshot(), txn)
    }

    /** `open`: catalog metadata and base rows, nothing else. */
    constructor (s: Staged)
      ensures State() == Open(s)
    {
      var o := Open(s);
      schemas, base, overlay := o.work.schemas, o.work.base, o.work.overlay;
      nextId, rowDirty, schemaDirty := o.work.nextId, o.work.rowDirty, o.work.schemaDirty;
      txn := o.txn;
    }

    method InsertSchema(n: Name, schema: Schema)
      modifies this
      ensures State() == Step(old(State()), Call.InsertSchema(n, schema)).0
    {
      schemas := schemas[n := schema];
      overlay := overlay[n := SlotsAt(overlay, n)];
      schemaDirty := schemaDirty + {n};
    }

    method DeleteSchema(n: Name)
      modifies this
      ensures State() == Step(old(State()), Call.DeleteSchema(n)).0
    {
      schemas := schemas - {n};
      overlay := overlay - {n};
      nextId := nextId - {n};
      rowDirty := rowDirty - {n};
      schemaDirty := schemaDirty - {n};
      base := base - {n};
    }

    /** Like the next two, this takes any table name; the executor has looked the table up before. */
    method AppendData(n: Name, rows: seq<Row>)
      modifies this
      ensures txn == old(txn) && Snapshot() == Appended(old(Snapshot()), n, rows)
    {
      var id, slots, dirty := MintRows(NextId(nextId, n), SlotsAt(overlay, n), DirtyAt(rowDirty, n), rows);
      overlay, rowDirty, nextId := overlay[n := slots], rowDirty[n := dirty], nextId[n := id];
    }

    method InsertData(n: Name, puts: seq<(Key, Row)>)
      modifies this
      ensures txn == old(txn) && Snapshot() == RecordWrites(old(Snapshot()), n, Puts(puts))
    {
      var slots, dirty := SlotsAt(overlay, n), DirtyAt(rowDirty, n);
      ghost var ws := Puts(puts);
      for i := 0 to |puts|
        invariant slots == Overlaid(SlotsAt(old(overlay), n), ws[..i])
        invariant dirty == DirtyAt(old(rowDirty), n) + Touched(ws[..i])
        invariant State() == old(State())
      {
        OverlaidNext(SlotsAt(old(overlay), n), ws, i);
        slots := slots[puts[i].0 := Some(puts[i].1)];
        dirty := dirty + {puts[i].0};
      }
      assert ws[..|puts|] == ws;
      overlay, rowDirty := overlay[n := slots], rowDirty[n := dirty];
    }

    method DeleteData(n: Name, keys: seq<Key>)
      modifies this
      ensures txn == old(txn) && Snapshot() == RecordWrites(old(Snapshot()), n, Tombstones(keys))
    {
      var slots, dirty := SlotsAt(overlay, n), DirtyAt(rowDirty, n);
      ghost var ws := Tombstones(keys);
      for i := 0 to |keys|
        invariant slots == Overlaid(SlotsAt(old(overlay), n), ws[..i])
        invariant dirty == DirtyAt(old(rowDirty), n) + Touched(ws[..i])
        invariant State() == old(State())
      {
        OverlaidNext(SlotsAt(old(overlay), n), ws, i);
        slots := slots[keys[i] := None];
        dirty := dirty + {keys[i]};
      }
      assert ws[..|keys|] == ws;
      overlay, rowDirty := overlay[n := slots], rowDirty[n := dirty];
    }

    method CreateIndex(n: Name, index: string) returns (ok: bool)
      modifies this
      ensures (State(), ok) == Step(old(State()), Call.CreateIndex(n, index))
    {
      ok := n in schemas && index !in schemas[n].indexes;
      if ok {
        schemas := schemas[n := schemas[n].(indexes := schemas[n].indexes + [index])];
        schemaDirty := schemaDirty + {n};
      }
    }

    method DropIndex(n: Name, index: string) returns (ok: bool)
      modifies this
      ensures (State(), ok) == Step(old(State()), Call.DropIndex(n, index))
    {
      ok := n in schemas && index in schemas[n].indexes;
      if ok {
        schemas := schemas[n := WithoutIndex(schemas[n], index)];
        schemaDirty := schemaDirty + {n};
      }
    }

    method Begin() returns (ok: bool)
      modifies this
      ensures (State(), ok) == Step(old(State()), Call.Begin)
    {
      ok := txn.None?;
      if ok { txn := Some(Snapshot()); }
    }

    method Commit() returns (ok: bool)
      modifies this
      ensures (State(), ok) == Step(old(State()), Call.CommitTxn)
    {
      ok := txn.Some?;
      txn := None;
    }

    method Rollback() returns (ok: bool)
      modifies this
      ensures (State(), ok) == Step(old(State()), Call.RollbackTxn)
    {
      ok := txn.Some?;
      if ok {
        var w := txn.value;
        schemas, base, overlay := w.schemas, w.base, w.overlay;
        nextId, rowDirty, schemaDirty := w.nextId, w.rowDirty, w.schemaDirty;
        txn := None;
      }
    }

    /** The executor's dispatch of one storage call; writes to a table it cannot find are refused here. */
    method Dispatch(c: Call) returns (ok: bool)
      modifies this
      ensures (State(), ok) == Step(old(State()), c)
    {
      match c {
        case InsertSchema(n, schema) => InsertSchema(n, schema); ok := true;
        case DeleteSchema(n) => DeleteSchema(n); ok := true;
        case AppendData(n, rows) => ok := n in schemas; if ok { AppendData(n, rows); }
        case InsertData(n, puts) => ok := n in schemas; if ok { InsertData(n, puts); }
        case DeleteData(n, keys) => ok := n in schemas; if ok { DeleteData(n, keys); }
        case CreateIndex(n, index) => ok := CreateIndex(n, index);
        case DropIndex(n, index) => ok := DropIndex(n, index);
        case Begin => ok := Begin();
        case CommitTxn => ok := Commit();
        case RollbackTxn => ok := Rollback();
        case Refuse => ok := false;
      }
    }

    /** A script: stop at the first failing call, keep what came before. */
    method Execute(calls: seq<Call>) returns (ok: bool)
      modifies this
      ensures (State(), ok) == Run(old(State()), calls)
    {
      ok := true;
      var i := 0;
      while i < |calls| && ok
        invariant 0 <= i <= |calls|
        invariant ok ==> Run(old(State()), calls) == Run(State(), calls[i..])
        invariant !ok ==> Run(old(State()), calls) == (State(), false)
      {
        assert calls[i..][0] == calls[i] && calls[i..][1..] == calls[i + 1..];
        ok := Dispatch(calls[i]);
        i := i + 1;
      }
      assert ok ==> calls[i..] == [];
    }

    /** Overlay first, then the base: the lookup of the merged table. */
    method FetchData(n: Name, k: Key) returns (r: Option<Row>)
      ensures r == Lookup(TableRows(Snapshot(), n), k)
    {
      MergeAt(RowsAt(base, n), SlotsAt(overlay, n), k);
      if n in overlay && k in overlay[n] {
        r := overlay[n][k];
      } else if n in base && k in base[n] {
        r := Some(base[n][k]);
      } else {
        r := None;
      }
    }

    /** The two-phase stream: base rows the overlay does not shadow, then the overlay's live rows. */
    method ScanData(n: Name) returns (out: seq<(Key, Row)>)
      ensures forall i, j :: 0 <= i < j < |out| ==> out[i].0 != out[j].0
      ensures forall p :: p in out <==> p.0 in TableRows(Snapshot(), n) && TableRows(Snapshot(), n)[p.0] == p.1
    {
      var rows, slots := RowsAt(base, n), SlotsAt(overlay, n);
      out := [];
      var todo := rows.Keys;
      while todo != {}
        invariant todo <= rows.Keys
        invariant forall i, j :: 0 <= i < j < |out| ==> out[i].0 != out[j].0
        invariant forall p :: p in out <==> p.0 in rows.Keys - todo && p.0 !in slots && rows[p.0] == p.1
      {
        var k :| k in todo;
        if k !in slots {
          assert forall p | p in out :: p.0 != k;
          out := out + [(k, rows[k])];
        }
        todo := todo - {k};
      }
      todo := slots.Keys;
      while todo != {}
        invariant todo <= slots.Keys
        invariant forall i, j :: 0 <= i < j < |out| ==> out[i].0 != out[j].0
        invariant forall p :: p in out <==>
                    || (p.0 in rows && p.0 !in slots && rows[p.0] == p.1)
                    || (p.0 in slots.Keys - todo && slots[p.0] == Some(p.1))
      {
        var k :| k in todo;
        if slots[k].Some? {
          assert forall p | p in out :: p.0 != k;
          out := out + [(k, slots[k].value)];
        }
        todo := todo - {k};
      }
    }

    /** Full re-stage: re-project the merged rows through the current schema. */
    method StageTable(tree: WorkingTree, n: Name)
      requires n in schemas
      modifies tree
      ensures tree.Value() == old(tree.Value()).(tables := old(tree.tables)[n := Table(schemas[n], TableRows(Snapshot(), n))])
    {
      var rows := ScanData(n);
      var built := map[];
      for i := 0 to |rows|
        invariant tree.Value() == old(tree.Value())
        invariant forall k :: k in built <==> exists j :: 0 <= j < i && rows[j].0 == k
        invariant forall j :: 0 <= j < i ==> built[rows[j].0] == rows[j].1
      {
        built := built[rows[i].0 := rows[i].1];
      }
      BuiltIsTable(rows, built, TableRows(Snapshot(), n));
      tree.tables := tree.tables[n := Table(schemas[n], built)];
    }

    /** Replay the logged rows of one table; a failure stops between two rows. */
    method ReplayRows(tree: WorkingTree, n: Name) returns (ok: bool, ghost left: set<Key>)
      requires n in tree.tables && Wf(Snapshot())
      modifies tree
      ensures tree.catalog == old(tree.catalog)
      ensures forall m :: m != n ==> Lookup(tree.tables, m) == Lookup(old(tree.tables), m)
      ensures n in tree.tables && tree.tables[n].schema == old(tree.tables[n].schema)
      ensures forall k :: Lookup(tree.tables[n].rows, k) ==
                if k in DirtyAt(rowDirty, n) - left then Lookup(TableRows(Snapshot(), n), k) else Lookup(old(tree.tables[n].rows), k)
      ensures ok ==> left == {}
    {
      var dirty := DirtyAt(rowDirty, n);
      var slots := SlotsAt(overlay, n);
      while dirty != {}
        invariant dirty <= DirtyAt(rowDirty, n)
        invariant tree.catalog == old(tree.catalog)
        invariant forall m :: m != n ==> Lookup(tree.tables, m) == Lookup(old(tree.tables), m)
        invariant n in tree.tables && tree.tables[n].schema == old(tree.tables[n].schema)
        invariant forall k :: Lookup(tree.tables[n].rows, k) ==
                    if k in DirtyAt(rowDirty, n) - dirty then Lookup(TableRows(Snapshot(), n), k) else Lookup(old(tree.tables[n].rows), k)
      {
        if * { return false, dirty; }
        var k :| k in dirty;
        MergeAt(RowsAt(base, n), slots, k);
        var t := tree.tables[n];
        var rows := if slots[k].Some? then t.rows[k := slots[k].value] else t.rows - {k};
        tree.tables := tree.tables[n := t.(rows := rows)];
        dirty := dirty - {k};
      }
      return true, {};
    }

    /** Stage or update one table; a failure leaves the other tables alone and this one partly flushed. */
    method FlushTable(tree: WorkingTree, n: Name) returns (ok: bool)
      requires n in schemas && Wf(Snapshot())
      modifies tree
      ensures tree.catalog == old(tree.catalog)
      ensures forall m :: m != n ==> Lookup(tree.tables, m) == Lookup(old(tree.tables), m)
      ensures ok ==> Lookup(tree.tables, n) == Some(Flushed(Snapshot(), old(tree.Value()), n))
      ensures PartlyFlushed(Snapshot(), old(tree.Value()), tree.Value(), n)
    {
      ghost var w, s := Snapshot(), tree.Value();
      if * {
        DoneIsPartly(w, s, s, n);
        return false;
      }
      if n in schemaDirty || n !in tree.tables {
        StageTable(tree, n);
        ok := true;
      } else {
        ghost var left;
        ok, left := ReplayRows(tree, n);
        if ok {
          ReplayedIsFlushed(w, s, n, tree.tables[n]);
        }
      }
    }

    /** The table loop of persist, after the catalog is written. */
    method FlushAll(tree: WorkingTree, ghost s: Staged) returns (ok: bool)
      requires Wf(Snapshot())
      requires Progress(Snapshot(), s, tree.Value(), schemas.Keys)
      modifies tree
      ensures ok ==> Progress(Snapshot(), s, tree.Value(), {})
      ensures !ok ==> PartialPersist(Snapshot(), s, tree.Value())
    {
      var todo := schemas.Keys;
      ok := true;
      while todo != {}
        invariant todo <= schemas.Keys
        invariant Progress(Snapshot(), s, tree.Value(), todo)
      {
        var n :| n in todo;
        ghost var cur := tree.Value();
        ok := FlushTable(tree, n);
        if !ok {
          InterruptedIsPartial(Snapshot(), s, cur, tree.Value(), todo, n);
          return;
        }
        ProgressNext(Snapshot(), s, cur, tree.Value(), todo, n);
        todo := todo - {n};
      }
    }

    /** The unlink loop of persist: staged tables outside the catalog go. */
    method UnlinkStale(tree: WorkingTree, ghost s: Staged) returns (ok: bool)
      requires Progress(Snapshot(), s, tree.Value(), {})
      modifies tree
      ensures Progress(Snapshot(), s, tree.Value(), {})
      ensures ok ==> tree.tables.Keys <= schemas.Keys
    {
      var stale := tree.tables.Keys - schemas.Keys;
      while stale != {}
        invariant stale == tree.tables.Keys - schemas.Keys
        invariant Progress(Snapshot(), s, tree.Value(), {})
      {
        if * { return false; }
        var n :| n in stale;
        UnlinkProgress(Snapshot(), s, tree.Value(), n);
        tree.tables := tree.tables - {n};
        stale := stale - {n};
      }
      NoneLeft(tree.tables.Keys, schemas.Keys);
      ok := true;
    }

    /** Catalog, tables, unlinking, and only then the change logs. */
    method Persist(tree: WorkingTree) returns (ok: bool)
      requires Wf(Snapshot())
      modifies this, tree
      ensures txn == old(txn)
      ensures ok ==> && tree.Value() == SqlPersist.Persist(old(Snapshot()), old(tree.Value()))
                     && Snapshot() == Clean(old(Snapshot()))
      ensures !ok ==> && PartialPersist(old(Snapshot()), old(tree.Value()), tree.Value())
                      && Snapshot() == old(Snapshot())
    {
      ghost var w, s := Snapshot(), tree.Value();
      if * {
        UntouchedIsPartial(w, s);
        return false;
      }
      tree.catalog := Some(Catalog(schemas, nextId));
      ok := FlushAll(tree, s);
      if !ok { return; }
      ok := UnlinkStale(tree, s);
      if !ok {
        ProgressIsPartial(w, s, tree.Value(), {});
        return;
      }
      FinishedIsPersist(w, s, tree.Value());
      rowDirty, schemaDirty := map[], {};
    }
  }

  lemma NoneLeft(a: set<Name>, b: set<Name>)
    requires a - b == {}
    ensures a <= b
  {
    forall n | n in a
      ensures n in b
    {
      assert n !in a - b;
    }
  }

  // ---- progress of a persist ---------------------------------------------------------------------

  lemma BuiltIsTable(rows: seq<(Key, Row)>, built: Rows, table: Rows)
    requires forall k :: k in built <==> exists j :: 0 <= j < |rows| && rows[j].0 == k
    requires forall j :: 0 <= j < |rows| ==> built[rows[j].0] == rows[j].1
    requires forall p :: p in rows <==> p.0 in table && table[p.0] == p.1
    ensures built == table
  {
    forall k
      ensures k in built ==> k in table && built[k] == table[k]
      ensures k in table ==> k in built
    {
      if k in built {
        var j :| 0 <= j < |rows| && rows[j].0 == k;
        assert rows[j] in rows;
      }
      if k in table {
        assert (k, table[k]) in rows;
      }
    }
  }

  lemma ReplayedIsFlushed(w: Work, s: Staged, n: Name, t: Table)
    requires Wf(w) && n in w.schemas && !NeedsFull(w, s, n)
    requires t.schema == s.tables[n].schema
    requires forall k :: Lookup(t.rows, k) ==
               if k in DirtyAt(w.rowDirty, n) then Lookup(TableRows(w, n), k) else Lookup(s.tables[n].rows, k)
    ensures t == Flushed(w, s, n)
  {
    forall k
      ensures Lookup(t.rows, k) == Lookup(Flushed(w, s, n).rows, k)
    {
      DeltaAt(w, s.tables[n].rows, n, k);
    }
    SameLookups(t.rows, Flushed(w, s, n).rows);
  }

  /** Catalog written, tables outside `todo` flushed, the others untouched, nothing new elsewhere. */
  ghost predicate Progress(w: Work, s: Staged, cur: Staged, todo: set<Name>) {
    && cur.catalog == Some(Catalog(w.schemas, w.nextId))
    && (forall n :: n in w.schemas ==>
          Lookup(cur.tables, n) == if n in todo then Lookup(s.tables, n) else Some(Flushed(w, s, n)))
    && (forall n :: n !in w.schemas && n in cur.tables ==> n in s.tables && cur.tables[n] == s.tables[n])
  }

  lemma FlushedFrame(w: Work, s: Staged, cur: Staged, n: Name)
    requires n in w.schemas
    requires Lookup(cur.tables, n) == Lookup(s.tables, n)
    ensures Flushed(w, cur, n) == Flushed(w, s, n)
  {
  }

  lemma UntouchedIsPartial(w: Work, s: Staged)
    ensures PartialPersist(w, s, s)
  {
    forall n | n in w.schemas
      ensures PartlyFlushed(w, s, s, n)
    {
      assert Lookup(s.tables, n) == Lookup(s.tables, n);
    }
  }

  lemma DoneIsPartly(w: Work, s: Staged, cur: Staged, n: Name)
    requires Wf(w) && n in w.schemas
    requires Lookup(cur.tables, n) == Some(Flushed(w, s, n)) || Lookup(cur.tables, n) == Lookup(s.tables, n)
    ensures PartlyFlushed(w, s, cur, n)
  {
    if !NeedsFull(w, s, n) {
      forall k
        ensures || Lookup(cur.tables[n].rows, k) == Lookup(s.tables[n].rows, k)
                || (k in DirtyAt(w.rowDirty, n) && Lookup(cur.tables[n].rows, k) == Lookup(TableRows(w, n), k))
      {
        DeltaAt(w, s.tables[n].rows, n, k);
      }
    }
  }

  lemma ProgressIsPartial(w: Work, s: Staged, cur: Staged, todo: set<Name>)
    requires Wf(w) && Progress(w, s, cur, todo)
    ensures PartialPersist(w, s, cur)
  {
    forall n | n in w.schemas
      ensures PartlyFlushed(w, s, cur, n)
    {
      DoneIsPartly(w, s, cur, n);
    }
  }

  lemma InterruptedIsPartial(w: Work, s: Staged, cur: Staged, next: Staged, todo: set<Name>, n: Name)
    requires Wf(w) && Progress(w, s, cur, todo) && n in todo && n in w.schemas
    requires next.catalog == cur.catalog
    requires forall m :: m != n ==> Lookup(next.tables, m) == Lookup(cur.tables, m)
    requires PartlyFlushed(w, cur, next, n)
    ensures PartialPersist(w, s, next)
  {
    FlushedFrame(w, s, cur, n);
    forall m | m in w.schemas
      ensures PartlyFlushed(w, s, next, m)
    {
      if m != n {
        assert Lookup(next.tables, m) == Lookup(cur.tables, m);
        DoneIsPartly(w, s, next, m);
      } else {
        assert Lookup(cur.tables, n) == Lookup(s.tables, n);
      }
    }
    forall m | m !in w.schemas && m in next.tables
      ensures m in s.tables && next.tables[m] == s.tables[m]
    {
      assert Lookup(next.tables, m) == Lookup(cur.tables, m);
    }
  }

  lemma ProgressNext(w: Work, s: Staged, cur: Staged, next: Staged, todo: set<Name>, n: Name)
    requires Progress(w, s, cur, todo) && n in todo && n in w.schemas
    requires next.catalog == cur.catalog
    requires forall m :: m != n ==> Lookup(next.tables, m) == Lookup(cur.tables, m)
    requires Lookup(next.tables, n) == Some(Flushed(w, cur, n))
    ensures Progress(w, s, next, todo - {n})
  {
    FlushedFrame(w, s, cur, n);
    forall m | m !in w.schemas && m in next.tables
      ensures m in s.tables && next.tables[m] == s.tables[m]
    {
      assert Lookup(next.tables, m) == Lookup(cur.tables, m);
    }
  }

  lemma UnlinkProgress(w: Work, s: Staged, cur: Staged, n: Name)
    requires Progress(w, s, cur, {}) && n !in w.schemas
    ensures Progress(w, s, cur.(tables := cur.tables - {n}), {})
  {
    forall m | m in w.schemas
      ensures Lookup(cur.tables - {n}, m) == Some(Flushed(w, s, m))
    {
      assert Lookup(cur.tables, m) == Some(Flushed(w, s, m));
    }
  }

  lemma FinishedIsPersist(w: Work, s: Staged, cur: Staged)
    requires Progress(w, s, cur, {})
    requires cur.tables.Keys <= w.schemas.Keys
    ensures cur == SqlPersist.Persist(w, s)
  {
    var p := SqlPersist.Persist(w, s);
    forall n | n in w.schemas
      ensures n in cur.tables && cur.tables[n] == p.tables[n]
    {
      assert Lookup(cur.tables, n) == Some(Flushed(w, s, n));
    }
    assert cur.tables == p.tables;
  }
}

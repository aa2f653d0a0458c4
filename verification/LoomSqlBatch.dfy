/**
 The batch object: the held loom, its working tree and the store, updated in place. Each method does
 one operation of SqlBatch; which fault a failing engine call showed is existentially quantified.
 */
module LoomSqlBatch {
  import opened Prelude
  import opened SqlStore
  import opened SqlPersist
  import opened LoomFile
  import opened LoomSqlStore
  import opened SqlBatch

  /** The `.loom` on disk. */
  class DurableFile {
    var loom: Loom

    constructor (l: Loom)
      ensures loom == l
    {
      loom := l;
    }
  }

  class BatchObject {
    const file: DurableFile
    const ns: WsId
    const db: string
    var isOpen: bool
    var loom: Loom
    var store: SqlStoreObject
    var tree: WorkingTree

    /** The held state; the working tree object is the loom's entry for this database. */
    function Held(): (i: Inner)
      reads this, store, tree
    {
      Inner(WithDb(loom, ns, db, tree.Value()), ns, db, store.State())
    }

    function Value(): (x: World)
      reads this, store, tree, file
    {
      World(file.loom, if isOpen then Some(Held()) else None)
    }

    constructor (f: DurableFile, i: Inner)
      requires i.store == Open(DbAt(f.loom, i.ns, i.db))
      ensures file == f && fresh(store) && fresh(tree)
      ensures Value() == World(f.loom, Some(i.(loom := WithDb(i.loom, i.ns, i.db, Tree(i)))))
    {
      file, ns, db := f, i.ns, i.db;
      isOpen, loom := true, i.loom;
      store := new SqlStoreObject(DbAt(f.loom, i.ns, i.db));
      tree := new WorkingTree(Tree(i));
    }

    method Exec(calls: seq<Call>) returns (ok: bool)
      modifies store
      ensures (Value(), ok) == Do(old(Value()), Op.Exec(calls))
    {
      if !isOpen { return false; }
      ok := store.Execute(calls);
    }

    method Commit() returns (ok: bool)
      requires isOpen ==> Wf(store.Snapshot())
      modifies this, store, tree, file
      ensures exists f: Fault :: Possible(old(Value()), Op.Commit(f)) && (Value(), ok) == Do(old(Value()), Op.Commit(f))
    {
      if !isOpen || store.txn.Some? {
        assert Possible(old(Value()), Op.Commit(Sound));
        return false;
      }
      ok := store.Persist(tree);
      WithDbTwice(loom, ns, db, old(tree.Value()), tree.Value());
      if !ok {
        ghost var f := InPersist(tree.Value());
        assert Possible(old(Value()), Op.Commit(f)) && (Value(), ok) == Do(old(Value()), Op.Commit(f));
        return;
      }
      if * {
        assert Possible(old(Value()), Op.Commit(InSave)) && (Value(), false) == Do(old(Value()), Op.Commit(InSave));
        return false;
      }
      file.loom := WithDb(loom, ns, db, tree.Value());
      assert Possible(old(Value()), Op.Commit(Sound)) && (Value(), ok) == Do(old(Value()), Op.Commit(Sound));
    }

    method CommitVcs() returns (ok: bool)
      requires isOpen ==> Wf(store.Snapshot())
      modifies this, store, tree, file
      ensures exists f: Fault :: Possible(old(Value()), Op.CommitVcs(f)) && (Value(), ok) == Do(old(Value()), Op.CommitVcs(f))
    {
      if !isOpen || store.txn.Some? {
        assert Possible(old(Value()), Op.CommitVcs(Sound));
        return false;
      }
      ok := store.Persist(tree);
      WithDbTwice(loom, ns, db, old(tree.Value()), tree.Value());
      if !ok {
        ghost var f := InPersist(tree.Value());
        assert Possible(old(Value()), Op.CommitVcs(f)) && (Value(), ok) == Do(old(Value()), Op.CommitVcs(f));
        return;
      }
      if * {
        assert Possible(old(Value()), Op.CommitVcs(InHistory)) && (Value(), false) == Do(old(Value()), Op.CommitVcs(InHistory));
        return false;
      }
      loom := Recorded(WithDb(loom, ns, db, tree.Value()), ns);
      assert WithDb(loom, ns, db, tree.Value()) == loom;
      if * {
        assert Possible(old(Value()), Op.CommitVcs(InSave)) && (Value(), false) == Do(old(Value()), Op.CommitVcs(InSave));
        return false;
      }
      file.loom := loom;
      assert Possible(old(Value()), Op.CommitVcs(Sound)) && (Value(), ok) == Do(old(Value()), Op.CommitVcs(Sound));
    }

    /** Only the store is replaced: the held loom and its working tree stay. */
    method Abort() returns (ok: bool)
      modifies this
      ensures (Value(), ok) == Do(old(Value()), Op.Abort(ok))
    {
      if !isOpen { return false; }
      if * { return false; }
      store := new SqlStoreObject(DbAt(file.loom, ns, db));
      ok := true;
    }

    method Close()
      modifies this
      ensures Value() == Do(old(Value()), Op.Close).0
    {
      isOpen := false;
    }
  }

  /** `begin_inner`: open for write, resolve or create the workspace in the held loom, load the store. */
  method BeginBatch(f: DurableFile, name: string, derived: WsId, db: string) returns (r: Option<BatchObject>)
    requires WfRegistry(f.loom.registry)
    ensures r.None? <==> SqlBatch.Begin(f.loom, name, derived, db).Err?
    ensures r.Some? ==>
              var i := SqlBatch.Begin(f.loom, name, derived, db).value;
              && fresh(r.value) && r.value.file == f
              && r.value.Value() == World(f.loom, Some(i.(loom := WithDb(i.loom, i.ns, i.db, Tree(i)))))
  {
    var resolved := EnsureForWrite(f.loom.registry, name, derived);
    if resolved.Err? { return None; }
    var (registry, ns) := resolved.value;
    var batch := new BatchObject(f, Inner(f.loom.(registry := registry), ns, db, Open(DbAt(f.loom, ns, db))));
    r := Some(batch);
  }
}

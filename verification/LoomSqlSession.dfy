/**
 The session calls as step sequences over the file: load a snapshot, run, check, reopen for write,
 persist, save. Each is proved against the functions of SqlSessions.
 */
module LoomSqlSession {
  import opened Prelude
  import opened SqlStore
  import opened SqlPersist
  import opened LoomFile
  import opened LoomSqlStore
  import opened LoomSqlBatch
  import opened SqlSessions

  lemma OpenWf(s: Staged)
    ensures WfStore(Open(s))
  {
  }

  /** Load by the derived id and run the script over the snapshot. */
  method LoadAndRun(file: DurableFile, s: Session, script: Script) returns (store: SqlStoreObject, ok: bool)
    ensures fresh(store) && WfStore(store.State())
    ensures (store.State(), ok) == Ran(Load(file.loom, s), script)
  {
    ghost var d := DbAt(file.loom, s.derived, s.db);
    store := new SqlStoreObject(DbAt(file.loom, s.derived, s.db));
    OpenWf(d);
    var calls := script(Abs(store.State()));
    RunRefines(Open(d), calls);
    ok := store.Execute(calls);
  }

  /** Open for write, resolve the workspace by name, persist into its tree and save. */
  method FlushToFile(file: DurableFile, s: Session, store: SqlStoreObject) returns (ok: bool)
    requires WfRegistry(file.loom.registry) && Wf(store.Snapshot())
    modifies file, store
    ensures exists fails :: (file.loom, ok) == WriteBack(old(file.loom), s, old(store.Snapshot()), fails)
  {
    ghost var before, w := file.loom, store.Snapshot();
    var resolved := EnsureForWrite(file.loom.registry, s.name, s.derived);
    if resolved.Err? {
      assert (before, false) == WriteBack(before, s, w, true);
      return false;
    }
    var ns := resolved.value.1;
    var tree := new WorkingTree(DbAt(file.loom, ns, s.db));
    ok := store.Persist(tree);
    if !ok {
      assert (before, false) == WriteBack(before, s, w, true);
      return;
    }
    if * {
      assert (before, false) == WriteBack(before, s, w, true);
      return false;
    }
    file.loom := WithDb(file.loom.(registry := resolved.value.0), ns, s.db, tree.Value());
    assert (file.loom, ok) == WriteBack(before, s, w, false);
  }

  /** `exec_to_bytes`. */
  method ExecToBytes(file: DurableFile, s: Session, script: Script) returns (ok: bool)
    requires WfRegistry(file.loom.registry)
    modifies file
    ensures exists fails :: (file.loom, ok) == ExecBytes(old(file.loom), s, script, fails)
  {
    ghost var before := file.loom;
    var store;
    store, ok := LoadAndRun(file, s, script);
    if !ok || store.txn.Some? {
      assert (before, false) == ExecBytes(before, s, script, false);
      return false;
    }
    ghost var w := store.Snapshot();
    if store.rowDirty != map[] || store.schemaDirty != {} {
      ok := FlushToFile(file, s, store);
      ghost var fails :| (file.loom, ok) == WriteBack(before, s, w, fails);
      assert (file.loom, ok) == ExecBytes(before, s, script, fails);
    } else {
      assert (file.loom, ok) == ExecBytes(before, s, script, false);
    }
  }

  /** `exec_json`: no check for a transaction left open. */
  method ExecToJson(file: DurableFile, s: Session, script: Script) returns (ok: bool)
    requires WfRegistry(file.loom.registry)
    modifies file
    ensures exists fails :: (file.loom, ok) == ExecJson(old(file.loom), s, script, fails)
  {
    ghost var before := file.loom;
    var store;
    store, ok := LoadAndRun(file, s, script);
    if !ok {
      assert (before, false) == ExecJson(before, s, script, false);
      return;
    }
    ghost var w := store.Snapshot();
    if store.rowDirty != map[] || store.schemaDirty != {} {
      ok := FlushToFile(file, s, store);
      ghost var fails :| (file.loom, ok) == WriteBack(before, s, w, fails);
      assert (file.loom, ok) == ExecJson(before, s, script, fails);
    } else {
      assert (file.loom, ok) == ExecJson(before, s, script, false);
    }
  }

  /** `query_to_rows`: run, then refuse a failure, an open transaction and a dirty store; the file is only read. */
  method QueryToRows(file: DurableFile, s: Session, script: Script) returns (r: Result<Plain>)
    ensures r == Query(file.loom, s, script)
  {
    var store, ok := LoadAndRun(file, s, script);
    if !ok { return Err; }
    if store.txn.Some? { return Err; }
    if store.rowDirty != map[] || store.schemaDirty != {} { return Err; }
    r := Ok(Abs(store.State()));
  }
}

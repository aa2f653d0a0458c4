/**
 `LoomSqlBatch`: the write lock is held from begin to close, statements run against one in-memory
 store, and only `commit`/`commit_vcs` publish. Runs are arbitrary sequences of operations in which
 persist, the history entry, the save and the reload of `abort` may each fail.

 Main results: `BatchRefines` (every run refines a batch over plain databases, failed commits and
 retries included), `AbortExact` (when an abort really discards everything), `AbortLeaks` (a run in
 which it does not), `TidyAborts` (a condition on the run a caller can see), and `HistoryExact` (which
 history entries become durable).
 */
module SqlBatch {
  import opened Prelude
  import opened SqlStore
  import opened SqlPersist
  import opened LoomFile

  datatype Inner = Inner(loom: Loom, ns: WsId, db: string, store: Store)

  /** The durable file and the batch; `None` once closed. */
  datatype World = World(durable: Loom, inner: Option<Inner>)

  /** Where a commit stops; `InPersist` carries the working tree the interrupted persist left. */
  datatype Fault = Sound | InPersist(left: Staged) | InHistory | InSave

  datatype Op =
    | Exec(calls: seq<Call>)
    | Commit(fault: Fault)
    | CommitVcs(fault: Fault)
    | Abort(reloads: bool)
    | Close

  function Tree(i: Inner): (s: Staged) {
    DbAt(i.loom, i.ns, i.db)
  }

  /** The held working tree replaced. */
  function Restaged(i: Inner, s: Staged): (r: Inner) {
    i.(loom := WithDb(i.loom, i.ns, i.db, s))
  }

  /** The batch after a persist that ran to the end. */
  function Persisted(i: Inner): (r: Inner) {
    Restaged(i, Persist(i.store.work, Tree(i))).(store := i.store.(work := Clean(i.store.work)))
  }

  predicate IsCommit(op: Op) {
    op.Commit? || op.CommitVcs?
  }

  /** Faults a run can actually show. */
  ghost predicate Possible(x: World, op: Op) {
    && (op.Commit? ==> op.fault != InHistory)
    && (IsCommit(op) && op.fault.InPersist? && x.inner.Some? ==>
          PartialPersist(x.inner.value.store.work, Tree(x.inner.value), op.fault.left))
  }

  /** `begin_inner`: lock, resolve or create the workspace, then load by the resolved id. */
  function Begin(durable: Loom, name: string, derived: WsId, db: string): (r: Result<Inner>)
    requires WfRegistry(durable.registry)
  {
    match EnsureForWrite(durable.registry, name, derived)
    case Err => Err
    case Ok((reg, ns)) => Ok(Inner(durable.(registry := reg), ns, db, Open(DbAt(durable, ns, db))))
  }

  function DoCommit(x: World, i: Inner, vcs: bool, fault: Fault): (r: (World, bool)) {
    if i.store.txn.Some? then (x, false)
    else if fault.InPersist? then (x.(inner := Some(Restaged(i, fault.left))), false)
    else if fault.InHistory? then (x.(inner := Some(Persisted(i))), false)
    else
      var p := Persisted(i);
      var done := if vcs then p.(loom := Recorded(p.loom, p.ns)) else p;
      if fault.InSave? then (x.(inner := Some(done)), false) else (World(done.loom, Some(done)), true)
  }

  /** One operation; the flag says whether it returned without an error. */
  function Do(x: World, op: Op): (r: (World, bool)) {
    if x.inner.None? then (x, op.Close?)
    else
      var i := x.inner.value;
      match op
      case Exec(calls) =>
        var (st, ok) := Run(i.store, calls);
        (x.(inner := Some(i.(store := st))), ok)
      case Commit(f) => DoCommit(x, i, false, f)
      case CommitVcs(f) => DoCommit(x, i, true, f)
      case Abort(reloads) =>
        if reloads then (x.(inner := Some(i.(store := Open(DbAt(x.durable, i.ns, i.db))))), true) else (x, false)
      case Close => (x.(inner := None), true)
  }

  // ---- the reference -----------------------------------------------------------------------------

  datatype Ref = Closed(durable: Database) | Live(durable: Database, work: Plain)

  function RefCommit(r: Ref, fault: Fault): (res: (Ref, bool))
    requires r.Live?
  {
    if r.work.saved.Some? || !fault.Sound? then (r, false) else (r.(durable := r.work.db), true)
  }

  /** Exec edits the working copy, a sound commit publishes it, abort re-copies, close drops it. */
  function RefDo(r: Ref, op: Op): (res: (Ref, bool)) {
    if r.Closed? then (r, op.Close?)
    else
      match op
      case Exec(calls) => var (p, ok) := PlainRun(r.work, calls); (r.(work := p), ok)
      case Commit(f) => RefCommit(r, f)
      case CommitVcs(f) => RefCommit(r, f)
      case Abort(reloads) => if reloads then (r.(work := Plain(r.durable, None)), true) else (r, false)
      case Close => (Closed(r.durable), true)
  }

  function AbsWorld(x: World, ns: WsId, db: string): (r: Ref) {
    var d := Visible(DbAt(x.durable, ns, db));
    if x.inner.None? then Closed(d) else Live(d, Abs(x.inner.value.store))
  }

  // ---- the invariant -----------------------------------------------------------------------------

  /** The batch is over (ns, db), its store agrees with its working tree, and it touches nothing else. */
  ghost predicate Inv(x: World, ns: WsId, db: string) {
    && Coherent(DbAt(x.durable, ns, db))
    && (x.inner.Some? ==>
          var i := x.inner.value;
          && i.ns == ns && i.db == db
          && WfStore(i.store) && SyncedStore(i.store, Tree(i))
          && SameElsewhere(x.durable, i.loom, ns, db))
  }

  /** Every table the file has is absent from the held tree or staged there exactly as in the file. */
  ghost predicate AbortSafe(durable: Staged, held: Staged) {
    forall n :: n in durable.tables && n in held.tables ==> held.tables[n] == durable.tables[n]
  }

  ghost predicate SafeOp(x: World, op: Op) {
    op.Abort? && op.reloads && x.inner.Some? ==>
      AbortSafe(DbAt(x.durable, x.inner.value.ns, x.inner.value.db), Tree(x.inner.value))
  }

  /** A store reopened from the file agrees with the held tree exactly when the abort is safe. */
  lemma ReopenSynced(durable: Staged, held: Staged)
    requires Coherent(durable)
    ensures Synced(Open(durable).work, held) <==> AbortSafe(durable, held)
  {
    var w := Open(durable).work;
    assert durable.tables.Keys == w.schemas.Keys;
    forall n | n in w.schemas && n in held.tables
      ensures SyncedTable(w, held, n) <==> held.tables[n] == durable.tables[n]
    {
      MergeEmpty(durable.tables[n].rows);
      assert TableRows(w, n) == durable.tables[n].rows;
      if SyncedTable(w, held, n) {
        SameLookups(held.tables[n].rows, durable.tables[n].rows);
      }
    }
    if Synced(w, held) {
      forall n | n in durable.tables && n in held.tables
        ensures held.tables[n] == durable.tables[n]
      {
        assert !NeedsFull(w, held, n);
      }
    }
  }

  lemma BeginInv(durable: Loom, name: string, derived: WsId, db: string)
    requires WfRegistry(durable.registry)
    requires forall ns :: Coherent(DbAt(durable, ns, db))
    requires Begin(durable, name, derived, db).Ok?
    ensures var i := Begin(durable, name, derived, db).value;
            && Inv(World(durable, Some(i)), i.ns, db)
            && Tree(i) == DbAt(durable, i.ns, db)
            && Abs(i.store) == Plain(Visible(DbAt(durable, i.ns, db)), None)
  {
    var i := Begin(durable, name, derived, db).value;
    OpenSynced(DbAt(durable, i.ns, db));
  }

  /** The workspace of a batch is bound and has the SQL facet in the held loom; every other name is as in the file. */
  ghost predicate Resolved(file: Registry, held: Registry, name: string, ns: WsId) {
    && name in held.byName && held.byName[name] == ns
    && ns in held.facets && SQL in held.facets[ns]
    && (forall n :: n != name ==> Lookup(held.byName, n) == Lookup(file.byName, n))
    && (name in file.byName ==> ns == file.byName[name])
    && forall id :: id != ns ==> Lookup(held.facets, id) == Lookup(file.facets, id)
  }

  lemma BeginResolves(durable: Loom, name: string, derived: WsId, db: string)
    requires WfRegistry(durable.registry) && Begin(durable, name, derived, db).Ok?
    ensures var i := Begin(durable, name, derived, db).value;
            && Resolved(durable.registry, i.loom.registry, name, i.ns)
            && i.db == db && i.loom.dbs == durable.dbs && i.loom.history == durable.history
  {
  }

  // ---- one step ----------------------------------------------------------------------------------

  lemma PersistedInv(i: Inner)
    requires WfStore(i.store) && SyncedStore(i.store, Tree(i)) && i.store.txn.None?
    ensures WfStore(Persisted(i).store) && SyncedStore(Persisted(i).store, Tree(Persisted(i)))
    ensures Abs(Persisted(i).store) == Abs(i.store)
    ensures Coherent(Tree(Persisted(i))) && Visible(Tree(Persisted(i))) == View(i.store.work)
    ensures SameElsewhere(i.loom, Persisted(i).loom, i.ns, i.db)
  {
    PersistSettles(i.store.work, Tree(i));
  }

  lemma CommitRefines(x: World, ns: WsId, db: string, vcs: bool, fault: Fault)
    requires Inv(x, ns, db) && x.inner.Some?
    requires Possible(x, if vcs then CommitVcs(fault) else Commit(fault))
    ensures var (x', ok) := DoCommit(x, x.inner.value, vcs, fault);
            Inv(x', ns, db) && RefCommit(AbsWorld(x, ns, db), fault) == (AbsWorld(x', ns, db), ok)
  {
    var i := x.inner.value;
    if i.store.txn.None? {
      if fault.InPersist? {
        PartialSynced(i.store.work, Tree(i), fault.left);
      } else {
        PersistedInv(i);
      }
    }
  }

  /** Every operation keeps the invariant and follows the reference, provided aborts are safe. */
  lemma DoRefines(x: World, ns: WsId, db: string, op: Op)
    requires Inv(x, ns, db) && Possible(x, op) && SafeOp(x, op)
    ensures Inv(Do(x, op).0, ns, db)
    ensures RefDo(AbsWorld(x, ns, db), op) == (AbsWorld(Do(x, op).0, ns, db), Do(x, op).1)
  {
    if x.inner.Some? {
      var i := x.inner.value;
      match op
      case Exec(calls) =>
        RunRefines(i.store, calls);
        RunSynced(i.store, Tree(i), calls);
      case Commit(f) => CommitRefines(x, ns, db, false, f);
      case CommitVcs(f) => CommitRefines(x, ns, db, true, f);
      case Abort(reloads) =>
        if reloads {
          OpenSynced(DbAt(x.durable, ns, db));
          ReopenSynced(DbAt(x.durable, ns, db), Tree(i));
        }
      case Close =>
    }
  }

  // ---- whole runs --------------------------------------------------------------------------------

  function Play(x: World, ops: seq<Op>): (r: World)
    decreases |ops|
  {
    if ops == [] then x else Play(Do(x, ops[0]).0, ops[1..])
  }

  function RefPlay(r: Ref, ops: seq<Op>): (res: Ref)
    decreases |ops|
  {
    if ops == [] then r else RefPlay(RefDo(r, ops[0]).0, ops[1..])
  }

  /** Which operations of a run return without an error. */
  function Outcomes(x: World, ops: seq<Op>): (r: seq<bool>)
    decreases |ops|
  {
    if ops == [] then [] else [Do(x, ops[0]).1] + Outcomes(Do(x, ops[0]).0, ops[1..])
  }

  function RefOutcomes(r: Ref, ops: seq<Op>): (res: seq<bool>)
    decreases |ops|
  {
    if ops == [] then [] else [RefDo(r, ops[0]).1] + RefOutcomes(RefDo(r, ops[0]).0, ops[1..])
  }

  ghost predicate PossibleRun(x: World, ops: seq<Op>)
    decreases |ops|
  {
    ops != [] ==> Possible(x, ops[0]) && PossibleRun(Do(x, ops[0]).0, ops[1..])
  }

  ghost predicate SafeRun(x: World, ops: seq<Op>)
    decreases |ops|
  {
    ops != [] ==> SafeOp(x, ops[0]) && SafeRun(Do(x, ops[0]).0, ops[1..])
  }

  /**
   Every run of a batch, with commits failing anywhere and being retried, is a run of the plain batch:
   the file always shows the database of the last successful commit, every operation returns what the
   plain one returns, and other databases are untouched.
   */
  lemma {:induction false} BatchRefines(x: World, ns: WsId, db: string, ops: seq<Op>)
    requires Inv(x, ns, db) && PossibleRun(x, ops) && SafeRun(x, ops)
    ensures Inv(Play(x, ops), ns, db)
    ensures AbsWorld(Play(x, ops), ns, db) == RefPlay(AbsWorld(x, ns, db), ops)
    ensures Outcomes(x, ops) == RefOutcomes(AbsWorld(x, ns, db), ops)
    ensures SameElsewhere(x.durable, Play(x, ops).durable, ns, db)
    decreases |ops|
  {
    if ops != [] {
      DoRefines(x, ns, db, ops[0]);
      BatchRefines(Do(x, ops[0]).0, ns, db, ops[1..]);
    }
  }

  /** No commit of the run returns without an error. */
  ghost predicate NoneCommits(x: World, ops: seq<Op>)
    decreases |ops|
  {
    ops != [] ==> !(IsCommit(ops[0]) && Do(x, ops[0]).1) && NoneCommits(Do(x, ops[0]).0, ops[1..])
  }

  /** A run none of whose commits succeeds, for whatever reason they are refused or fail, leaves the file alone. */
  lemma {:induction false} OnlyCommitsPublish(x: World, ops: seq<Op>)
    requires NoneCommits(x, ops)
    ensures Play(x, ops).durable == x.durable
    decreases |ops|
  {
    if ops != [] {
      OnlyCommitsPublish(Do(x, ops[0]).0, ops[1..]);
    }
  }

  /** A closed batch stays as it is under every run, and every operation but close fails. */
  lemma {:induction false} ClosedRefuses(x: World, ops: seq<Op>)
    requires x.inner.None?
    ensures Play(x, ops) == x
    ensures |Outcomes(x, ops)| == |ops| && forall i :: 0 <= i < |ops| ==> (Outcomes(x, ops)[i] <==> ops[i].Close?)
    decreases |ops|
  {
    if ops != [] {
      ClosedRefuses(x, ops[1..]);
      assert forall i :: 1 <= i < |ops| ==> ops[i] == ops[1..][i - 1];
    }
  }

  // ---- history -----------------------------------------------------------------------------------

  type Entry = (WsId, map<string, Staged>)

  /** The history entry an operation makes: a `commit_vcs` that gets past its persist, saved or not. */
  function EntryOf(x: World, op: Op): (r: seq<Entry>) {
    if x.inner.Some? && op.CommitVcs? && x.inner.value.store.txn.None? && (op.fault.Sound? || op.fault.InSave?)
    then [(x.inner.value.ns, TreeOf(Persisted(x.inner.value).loom, x.inner.value.ns))] else []
  }

  function Entries(x: World, ops: seq<Op>): (r: seq<Entry>)
    decreases |ops|
  {
    if ops == [] then [] else EntryOf(x, ops[0]) + Entries(Do(x, ops[0]).0, ops[1..])
  }

  /** How much of the run there is up to and including its last successful commit. */
  function LastCommit(x: World, ops: seq<Op>): (n: nat)
    ensures n <= |ops|
    decreases |ops|
  {
    if ops == [] then 0
    else
      var rest := LastCommit(Do(x, ops[0]).0, ops[1..]);
      if rest > 0 then rest + 1 else if IsCommit(ops[0]) && Do(x, ops[0]).1 then 1 else 0
  }

  lemma StepHistory(x: World, op: Op)
    requires x.inner.Some?
    ensures var y := Do(x, op).0;
            && (y.inner.Some? ==> y.inner.value.loom.history == x.inner.value.loom.history + EntryOf(x, op))
            && y.durable.history ==
               if IsCommit(op) && Do(x, op).1 then x.inner.value.loom.history + EntryOf(x, op) else x.durable.history
  {
  }

  /**
   The durable history after any run: every entry made up to the last successful commit, those of
   `commit_vcs` calls whose own save failed included, and none made after it. Aborts withdraw nothing.
   */
  lemma {:induction false} HistoryExact(x: World, ops: seq<Op>)
    requires x.inner.Some?
    ensures Play(x, ops).durable.history ==
            if LastCommit(x, ops) == 0 then x.durable.history
            else x.inner.value.loom.history + Entries(x, ops[..LastCommit(x, ops)])
    decreases |ops|
  {
    if ops != [] {
      var op, rest, y := ops[0], ops[1..], Do(x, ops[0]).0;
      var k := LastCommit(y, rest);
      StepHistory(x, op);
      if y.inner.None? {
        ClosedRefuses(y, rest);
        ClosedNoCommit(y, rest);
        assert LastCommit(x, ops) == 0;
      } else {
        HistoryExact(y, rest);
        if k > 0 {
          var head := ops[..k + 1];
          assert head[0] == op && head[1..] == rest[..k];
          assert Entries(x, head) == EntryOf(x, op) + Entries(y, rest[..k]);
          AppendAssoc(x.inner.value.loom.history, EntryOf(x, op), Entries(y, rest[..k]));
        } else if IsCommit(op) && Do(x, op).1 {
          assert ops[..1] == [op] && [op][1..] == [];
          assert Entries(x, [op]) == EntryOf(x, op) + Entries(y, []);
        }
      }
    }
  }

  /** The registry the batch holds becomes durable with its first successful commit and not before. */
  lemma {:induction false} RegistryExact(x: World, ops: seq<Op>)
    requires x.inner.Some?
    ensures Play(x, ops).durable.registry ==
            if LastCommit(x, ops) == 0 then x.durable.registry else x.inner.value.loom.registry
    decreases |ops|
  {
    if ops != [] {
      var y := Do(x, ops[0]).0;
      if y.inner.None? {
        ClosedRefuses(y, ops[1..]);
        ClosedNoCommit(y, ops[1..]);
      } else {
        RegistryExact(y, ops[1..]);
      }
    }
  }

  /** So after any run of a new batch that committed, the file binds the workspace it was opened for. */
  lemma CommitCreatesWorkspace(durable: Loom, name: string, derived: WsId, db: string, ops: seq<Op>)
    requires WfRegistry(durable.registry) && Begin(durable, name, derived, db).Ok?
    requires LastCommit(World(durable, Some(Begin(durable, name, derived, db).value)), ops) > 0
    ensures var i := Begin(durable, name, derived, db).value;
            Resolved(durable.registry, Play(World(durable, Some(i)), ops).durable.registry, name, i.ns)
  {
    var i := Begin(durable, name, derived, db).value;
    BeginResolves(durable, name, derived, db);
    RegistryExact(World(durable, Some(i)), ops);
  }

  lemma {:induction false} ClosedNoCommit(x: World, ops: seq<Op>)
    requires x.inner.None?
    ensures LastCommit(x, ops) == 0
    decreases |ops|
  {
    if ops != [] { ClosedNoCommit(x, ops[1..]); }
  }

  /** An entry records the workspace: at the batch's database a full stage of what the store shows, at every other
      database of the workspace what the held loom has. */
  lemma EntryShowsWork(x: World, ns: WsId, db: string, op: Op)
    requires Inv(x, ns, db) && EntryOf(x, op) != []
    ensures var e, held := EntryOf(x, op)[0], x.inner.value.loom.dbs;
            && e.0 == ns && Lookup(e.1, db) == Some(Stage(View(x.inner.value.store.work)))
            && forall d :: d != db ==> Lookup(e.1, d) == Lookup(held, (ns, d))
  {
    var i := x.inner.value;
    var p := Persisted(i).loom;
    PersistExact(i.store.work, Tree(i));
    forall d
      ensures Lookup(TreeOf(p, ns), d) == Lookup(p.dbs, (ns, d))
    {
      TreeAt(p, ns, d);
    }
  }

  lemma TreeAt(l: Loom, ns: WsId, d: string)
    ensures Lookup(TreeOf(l, ns), d) == Lookup(l.dbs, (ns, d))
  {
    if (ns, d) in l.dbs { assert (ns, d).1 in TreeOf(l, ns); }
  }

  /** A `commit_vcs` whose save fails, an abort, a commit: the entry of the failed call is in the history. */
  lemma AbortKeepsEntry(x: World)
    requires x.inner.Some? && x.inner.value.store.txn.None?
    ensures var i := x.inner.value;
            Play(x, [CommitVcs(InSave), Abort(true), Commit(Sound)]).durable.history ==
            i.loom.history + [(i.ns, TreeOf(Persisted(i).loom, i.ns))]
  {
    var ops := [CommitVcs(InSave), Abort(true), Commit(Sound)];
    var x1 := Do(x, ops[0]).0;
    var x2 := Do(x1, ops[1]).0;
    var x3 := Do(x2, ops[2]).0;
    assert ops[1..] == [Abort(true), Commit(Sound)] && ops[1..][1..] == [Commit(Sound)] && ops[1..][1..][1..] == [];
    assert Play(x, ops) == Play(x1, ops[1..]) == Play(x2, ops[1..][1..]) == Play(x3, []) == x3;
    StepHistory(x, ops[0]);
    StepHistory(x1, ops[1]);
    StepHistory(x2, ops[2]);
  }

  // ---- aborts ------------------------------------------------------------------------------------

  /**
   Aborting and committing at once, with no statement in between, leaves the file's database exactly as
   a full stage of what it held if and only if the abort was safe.
   */
  lemma AbortExact(x: World, ns: WsId, db: string)
    requires Inv(x, ns, db) && x.inner.Some?
    ensures var y := Play(x, [Abort(true), Commit(Sound)]);
            DbAt(y.durable, ns, db) == Stage(Visible(DbAt(x.durable, ns, db)))
            <==> AbortSafe(DbAt(x.durable, ns, db), Tree(x.inner.value))
  {
    var d, i := DbAt(x.durable, ns, db), x.inner.value;
    var y1 := Do(x, Abort(true)).0;
    assert [Abort(true), Commit(Sound)][1..] == [Commit(Sound)];
    var y2 := Do(y1, Commit(Sound)).0;
    assert [Commit(Sound)][1..] == [];
    assert Play(x, [Abort(true), Commit(Sound)]) == Play(y1, [Commit(Sound)]) == Play(y2, []) == y2;
    assert DbAt(y2.durable, ns, db) == Persist(Open(d).work, Tree(i));
    OpenSynced(d);
    PersistExact(Open(d).work, Tree(i));
    ReopenSynced(d, Tree(i));
  }

  /** The file and the held tree hold the same database: true at begin and after each sound commit. */
  ghost predicate Settled(x: World) {
    x.inner.Some? ==> Tree(x.inner.value) == DbAt(x.durable, x.inner.value.ns, x.inner.value.db)
  }

  /** A caller's own bookkeeping: no abort between a failed commit and the next successful one. */
  ghost predicate Tidy(x: World, failed: bool, ops: seq<Op>)
    decreases |ops|
  {
    if ops == [] then true
    else
      var op := ops[0];
      var (y, ok) := Do(x, op);
      var rejected := x.inner.Some? && x.inner.value.store.txn.Some?;
      && (op.Abort? ==> !failed)
      && Tidy(y, if IsCommit(op) && !rejected then !ok else failed, ops[1..])
  }

  /** A run without an abort after an unretried failed commit only makes safe aborts. */
  lemma {:induction false} TidyAborts(x: World, failed: bool, ops: seq<Op>)
    requires Tidy(x, failed, ops)
    requires !failed ==> Settled(x)
    ensures SafeRun(x, ops)
    decreases |ops|
  {
    if ops != [] {
      var op := ops[0];
      var (y, ok) := Do(x, op);
      var rejected := x.inner.Some? && x.inner.value.store.txn.Some?;
      TidyAborts(y, if IsCommit(op) && !rejected then !ok else failed, ops[1..]);
    }
  }

  // ---- the run in which an abort leaks -----------------------------------------------------------

  const SCHEMA := Schema("id INT", [])
  const ONE_ROW := Database(map["t" := Table(SCHEMA, map[I64(1) := "one"])], map[])
  const DELETE_ROW := DeleteData("t", [I64(1)])

  function LeakStart(ns: WsId, db: string, registry: Registry): (x: World) {
    var file := Loom(registry, map[(ns, db) := Stage(ONE_ROW)], []);
    World(file, Some(Inner(file, ns, db, Open(Stage(ONE_ROW)))))
  }

  lemma PlayFour(x: World, a: Op, b: Op, c: Op, d: Op)
    ensures Play(x, [a, b, c, d]) == Do(Do(Do(Do(x, a).0, b).0, c).0, d).0
  {
    assert [a, b, c, d][1..] == [b, c, d] && [b, c, d][1..] == [c, d] && [c, d][1..] == [d] && [d][1..] == [];
    var x1 := Do(x, a).0;
    var x2 := Do(x1, b).0;
    var x3 := Do(x2, c).0;
    assert Play(x, [a, b, c, d]) == Play(x1, [b, c, d]);
    assert Play(x1, [b, c, d]) == Play(x2, [c, d]);
    assert Play(x2, [c, d]) == Play(x3, [d]);
    assert Play(x3, [d]) == Play(Do(x3, d).0, []);
  }

  /**
   A delete, a commit whose save fails, an abort, and a commit with no statement since the abort: the
   deleted row is gone from the file, because abort reloads the store but keeps the held loom.
   */
  lemma AbortLeaks(ns: WsId, db: string, registry: Registry)
    ensures var x := LeakStart(ns, db, registry);
            var y := Play(x, [Exec([DELETE_ROW]), Commit(InSave), Abort(true), Commit(Sound)]);
            && Inv(x, ns, db)
            && Visible(DbAt(x.durable, ns, db)) == ONE_ROW
            && Lookup(DbAt(y.durable, ns, db).tables, "t") == Some(Table(SCHEMA, map[]))
            && Visible(DbAt(y.durable, ns, db)) != ONE_ROW
  {
    var x := LeakStart(ns, db, registry);
    var st := Open(Stage(ONE_ROW));
    OpenStage(ONE_ROW);
    OpenSynced(Stage(ONE_ROW));
    LeakedTree(st);
    PlayFour(x, Exec([DELETE_ROW]), Commit(InSave), Abort(true), Commit(Sound));
    var x1 := Do(x, Exec([DELETE_ROW])).0;
    RunOne(st, DELETE_ROW);
    LeakRest(x, x1, ns, db, st);
  }

  lemma RunOne(st: Store, c: Call)
    ensures Run(st, [c]) == Step(st, c)
  {
    assert [c][1..] == [];
  }

  lemma LeakRest(x: World, x1: World, ns: WsId, db: string, st: Store)
    requires st == Open(Stage(ONE_ROW)) && DbAt(x.durable, ns, db) == Stage(ONE_ROW)
    requires x1.durable == x.durable && x1.inner.Some? && x1.inner.value.ns == ns && x1.inner.value.db == db
    requires x1.inner.value.store == Step(st, DELETE_ROW).0 && Tree(x1.inner.value) == Stage(ONE_ROW)
    requires x1.inner.value.store.txn.None?
    ensures var y := Do(Do(Do(x1, Commit(InSave)).0, Abort(true)).0, Commit(Sound)).0;
            DbAt(y.durable, ns, db) == Persist(st.work, Persist(Step(st, DELETE_ROW).0.work, Stage(ONE_ROW)))
  {
    var gone := Persist(Step(st, DELETE_ROW).0.work, Stage(ONE_ROW));
    var x2 := Do(x1, Commit(InSave)).0;
    assert Tree(x2.inner.value) == gone && x2.durable == x.durable;
    var x3 := Do(x2, Abort(true)).0;
    assert x3.inner.value.store == st && Tree(x3.inner.value) == gone;
  }

  /** The tree a finished persist of the delete leaves, and what a clean store then makes of it. */
  lemma LeakedTree(st: Store)
    requires st == Open(Stage(ONE_ROW))
    ensures Step(st, DELETE_ROW).1 && Step(st, DELETE_ROW).0.txn.None?
    ensures var gone := Persist(Step(st, DELETE_ROW).0.work, Stage(ONE_ROW));
            && gone.tables == map["t" := Table(SCHEMA, map[])]
            && Persist(st.work, gone).tables == map["t" := Table(SCHEMA, map[])]
            && Visible(Persist(st.work, gone)) != ONE_ROW
  {
    var w := Step(st, DELETE_ROW).0.work;
    var gone := Persist(w, Stage(ONE_ROW));
    assert Tombstones([I64(1)]) == [Write(I64(1), None)];
    assert SlotsAt(w.overlay, "t") == map[I64(1) := None] by {
      assert [Write(I64(1), None)][..0] == [];
    }
    assert DirtyAt(w.rowDirty, "t") == {I64(1)};
    assert gone.tables["t"].rows == map[];
    var after := Persist(st.work, gone);
    assert after.tables["t"].rows == map[];
    MergeEmpty(map[]);
    assert Visible(after).tables["t"].rows == map[];
    assert ONE_ROW.tables["t"].rows != map[];
  }
}

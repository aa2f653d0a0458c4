/**
 `LoomSql` sessions, one call at a time: each call loads a snapshot by the id derived from the
 workspace name, runs SQL in memory, and, if the store is dirty, reopens for write, resolves the
 workspace by name, persists and saves.

 Main results: `ExecExact` (when a successful exec is durable, and when its only change, a dropped
 table, is lost), `SessionKeeps` and `SessionRefines` (read-your-writes over whole call sequences with
 failures anywhere), `MisboundNeverSees` (a name bound to another id), and `JsonVersusBytes` (the missing transaction check of `exec_json`).
 */
module SqlSessions {
  import opened Prelude
  import opened SqlStore
  import opened SqlPersist
  import opened LoomFile
  import SqlBatch

  /** A session handle; `derived` is the id computed from the workspace name. */
  datatype Session = Session(name: string, derived: WsId, db: string)

  /** A SQL script: the storage calls it makes are determined by what it can see. */
  type Script = Plain -> seq<Call>

  /** `open_inner` and `open_for_write`: resolve or create, then save. */
  function OpenSession(file: Loom, s: Session): (r: Result<Loom>)
    requires WfRegistry(file.registry)
  {
    match EnsureForWrite(file.registry, s.name, s.derived)
    case Err => Err
    case Ok((reg, _)) => Ok(file.(registry := reg))
  }

  function Load(file: Loom, s: Session): (st: Store) {
    Open(DbAt(file, s.derived, s.db))
  }

  /** The in-memory part of an exec. */
  function Ran(st: Store, script: Script): (r: (Store, bool)) {
    Run(st, script(Abs(st)))
  }

  /** Reopen for write, persist and save; `fails` stands for any failure on the way. */
  function WriteBack(file: Loom, s: Session, w: Work, fails: bool): (r: (Loom, bool))
    requires WfRegistry(file.registry)
  {
    match EnsureForWrite(file.registry, s.name, s.derived)
    case Err => (file, false)
    case Ok((reg, ns)) =>
      if fails then (file, false)
      else (WithDb(file.(registry := reg), ns, s.db, Persist(w, DbAt(file, ns, s.db))), true)
  }

  /** `exec_to_bytes` (behind `exec`, `exec_bytes` and the async task). */
  function ExecBytes(file: Loom, s: Session, script: Script, fails: bool): (r: (Loom, bool))
    requires WfRegistry(file.registry)
  {
    var (st, ok) := Ran(Load(file, s), script);
    if !ok || st.txn.Some? then (file, false)
    else if IsDirty(st.work) then WriteBack(file, s, st.work, fails)
    else (file, true)
  }

  /** `exec_json`: the same, without the check for a transaction left open. */
  function ExecJson(file: Loom, s: Session, script: Script, fails: bool): (r: (Loom, bool))
    requires WfRegistry(file.registry)
  {
    var (st, ok) := Ran(Load(file, s), script);
    if !ok then (file, false)
    else if IsDirty(st.work) then WriteBack(file, s, st.work, fails)
    else (file, true)
  }

  /** `query_to_rows`: what a read-only query shows, or a refusal. */
  function Query(file: Loom, s: Session, script: Script): (r: Result<Plain>) {
    var (st, ok) := Ran(Load(file, s), script);
    if ok && st.txn.None? && !IsDirty(st.work) then Ok(Abs(st)) else Err
  }

  /** The id the write path uses is the id the read path uses. */
  predicate Bound(file: Loom, s: Session) {
    s.name in file.registry.byName && file.registry.byName[s.name] == s.derived
  }

  // ---- the change logs of a script ---------------------------------------------------------------

  /** A table outside both change logs is a table of the starting database, unchanged. */
  ghost predicate Accounted(w: Work, start: Database) {
    forall n :: n in w.schemas && n !in w.rowDirty && n !in w.schemaDirty ==>
      Lookup(start.tables, n) == Some(Table(w.schemas[n], TableRows(w, n)))
  }

  ghost predicate AccountedStore(st: Store, start: Database) {
    Accounted(st.work, start) && (st.txn.Some? ==> Accounted(st.txn.value, start))
  }

  lemma ApplyAccounted(w: Work, c: Call, start: Database)
    requires Accounted(w, start) && Accepts(w.schemas, c)
    ensures Accounted(Apply(w, c), start)
  {
    var r := Apply(w, c);
    forall n | n in r.schemas && n !in r.rowDirty && n !in r.schemaDirty
      ensures Lookup(start.tables, n) == Some(Table(r.schemas[n], TableRows(r, n)))
    {
      SameRows(w, r, n);
    }
  }

  lemma {:induction false} RunAccounted(st: Store, calls: seq<Call>, start: Database)
    requires AccountedStore(st, start)
    ensures AccountedStore(Run(st, calls).0, start)
    decreases |calls|
  {
    if calls != [] {
      var c := calls[0];
      if !c.Begin? && !c.CommitTxn? && !c.RollbackTxn? && Accepts(st.work.schemas, c) {
        ApplyAccounted(st.work, c, start);
      }
      if Step(st, c).1 {
        RunAccounted(Step(st, c).0, calls[1..], start);
      }
    }
  }

  lemma OpenAccounted(s: Staged)
    ensures AccountedStore(Open(s), Visible(s))
  {
  }

  /** A script that leaves the store clean changed nothing except, possibly, dropping tables. */
  lemma CleanRunOnlyDrops(s: Staged, calls: seq<Call>)
    requires Coherent(s)
    requires !IsDirty(Run(Open(s), calls).0.work)
    ensures forall n :: n in View(Run(Open(s), calls).0.work).tables ==>
              n in Visible(s).tables && View(Run(Open(s), calls).0.work).tables[n] == Visible(s).tables[n]
  {
    OpenAccounted(s);
    RunAccounted(Open(s), calls, Visible(s));
    var w := Run(Open(s), calls).0.work;
    forall n | n in View(w).tables
      ensures n in Visible(s).tables && View(w).tables[n] == Visible(s).tables[n]
    {
      assert Lookup(Visible(s).tables, n) == Some(Table(w.schemas[n], TableRows(w, n)));
    }
  }

  // ---- one exec ----------------------------------------------------------------------------------

  /** A script run over a freshly loaded store: persisting it over what was loaded stages its view. */
  lemma RanStages(d: Staged, script: Script)
    requires Coherent(d)
    ensures var st := Ran(Open(d), script).0;
            && WfStore(st) && Persist(st.work, d) == Stage(View(st.work))
            && Visible(Stage(View(st.work))) == View(st.work) && Coherent(Stage(View(st.work)))
  {
    OpenSynced(d);
    var calls := script(Abs(Open(d)));
    RunRefines(Open(d), calls);
    RunSynced(Open(d), d, calls);
    var st := Run(Open(d), calls).0;
    PersistExact(st.work, d);
    OpenStage(View(st.work));
  }

  /** The database a bound session ends up with, and whether the call succeeds. */
  lemma ExecBound(file: Loom, s: Session, script: Script, fails: bool)
    requires WfRegistry(file.registry) && Bound(file, s)
    requires Coherent(DbAt(file, s.derived, s.db))
    ensures var (st, ok) := Ran(Load(file, s), script);
            var (after, done) := ExecBytes(file, s, script, fails);
            && done == (ok && st.txn.None? && !(fails && IsDirty(st.work)))
            && WfRegistry(after.registry) && Bound(after, s)
            && SameElsewhere(file, after, s.derived, s.db)
            && Coherent(DbAt(after, s.derived, s.db))
            && (done && IsDirty(st.work) ==> DbAt(after, s.derived, s.db) == Stage(View(st.work)))
            && (!done || !IsDirty(st.work) ==> after == file)
  {
    RanStages(DbAt(file, s.derived, s.db), script);
  }

  /** The tables of a clean store are the file's tables if and only if none was dropped. */
  lemma CleanRunExact(d: Staged, script: Script)
    requires Coherent(d)
    requires !IsDirty(Ran(Open(d), script).0.work)
    ensures Visible(d).tables == View(Ran(Open(d), script).0.work).tables
            <==> Visible(d).tables.Keys <= Ran(Open(d), script).0.work.schemas.Keys
  {
    CleanRunOnlyDrops(d, script(Abs(Open(d))));
  }

  /**
   A successful exec makes durable exactly the tables its script ended with if and only if the store was
   dirty at the end or the script dropped no table of the file.
   */
  lemma ExecExact(file: Loom, s: Session, script: Script, fails: bool)
    requires WfRegistry(file.registry) && Bound(file, s)
    requires Coherent(DbAt(file, s.derived, s.db))
    requires ExecBytes(file, s, script, fails).1
    ensures var st := Ran(Load(file, s), script).0;
            var before, after := DbAt(file, s.derived, s.db), DbAt(ExecBytes(file, s, script, fails).0, s.derived, s.db);
            Visible(after).tables == View(st.work).tables
            <==> IsDirty(st.work) || Visible(before).tables.Keys <= st.work.schemas.Keys
  {
    var d := DbAt(file, s.derived, s.db);
    var st := Ran(Load(file, s), script).0;
    ExecBound(file, s, script, fails);
    if IsDirty(st.work) {
      OpenStage(View(st.work));
    } else {
      CleanRunExact(d, script);
    }
  }

  /** `DROP TABLE` by itself reports success and changes nothing, on every file. */
  lemma DropIsLost(file: Loom, s: Session, n: Name, fails: bool)
    requires WfRegistry(file.registry)
    ensures ExecBytes(file, s, (p: Plain) => [DeleteSchema(n)], fails) == (file, true)
    ensures n !in View(Ran(Load(file, s), (p: Plain) => [DeleteSchema(n)]).0.work).tables
  {
    SqlBatch.RunOne(Load(file, s), DeleteSchema(n));
  }

  /** A script ends well when no call of it fails and no transaction is left open. */
  predicate EndsWell(db: Database, script: Script) {
    var (p, ok) := PlainRun(Plain(db, None), script(Plain(db, None)));
    ok && p.saved.None?
  }

  /**
   A query is accepted if and only if its script ends well and leaves the store clean; it then shows what the
   plain execution ends with. A script that makes no storage call shows the file's database.
   */
  lemma QueryAccepts(file: Loom, s: Session, script: Script)
    requires Coherent(DbAt(file, s.derived, s.db))
    ensures var start := Plain(Visible(DbAt(file, s.derived, s.db)), None);
            && (Query(file, s, script).Ok? <==>
                  EndsWell(start.db, script) && !IsDirty(Ran(Load(file, s), script).0.work))
            && (Query(file, s, script).Ok? ==> Query(file, s, script).value == PlainRun(start, script(start)).0)
            && (script(start) == [] ==> Query(file, s, script) == Ok(start))
  {
    var d := DbAt(file, s.derived, s.db);
    OpenSynced(d);
    RunRefines(Open(d), script(Abs(Open(d))));
  }

  /**
   What a read-only query shows at its end are tables of the file, unchanged; it refuses every other
   statement but lets drops through, so it shows all of the file's tables if and only if it dropped none.
   */
  lemma QueryExact(file: Loom, s: Session, script: Script)
    requires Coherent(DbAt(file, s.derived, s.db))
    requires Query(file, s, script).Ok?
    ensures var shown, held := Query(file, s, script).value.db.tables, Visible(DbAt(file, s.derived, s.db)).tables;
            && (forall n :: n in shown ==> n in held && shown[n] == held[n])
            && (shown == held <==> held.Keys <= shown.Keys)
  {
    var d := DbAt(file, s.derived, s.db);
    CleanRunOnlyDrops(d, script(Abs(Open(d))));
  }

  /** The promised refusal of statements that change state does not reach `DROP TABLE`. */
  lemma QueryAcceptsDrop(file: Loom, s: Session, n: Name)
    ensures Query(file, s, (p: Plain) => [DeleteSchema(n)]).Ok?
    ensures n !in Query(file, s, (p: Plain) => [DeleteSchema(n)]).value.db.tables
  {
    SqlBatch.RunOne(Load(file, s), DeleteSchema(n));
  }

  /**
   The two execs agree on every script that fails or ends outside a transaction. On one that ends inside
   a transaction `exec_bytes` fails and leaves the file alone, while `exec_json`, unless its write-back
   fails, succeeds and makes the uncommitted work durable.
   */
  lemma JsonVersusBytes(file: Loom, s: Session, script: Script, fails: bool)
    requires WfRegistry(file.registry) && Bound(file, s)
    requires Coherent(DbAt(file, s.derived, s.db))
    ensures var (st, ok) := Ran(Load(file, s), script);
            var (after, done) := ExecJson(file, s, script, fails);
            && (!ok || st.txn.None? ==> (after, done) == ExecBytes(file, s, script, fails))
            && (ok && st.txn.Some? ==>
                  && ExecBytes(file, s, script, fails) == (file, false)
                  && done == !(fails && IsDirty(st.work))
                  && (done && IsDirty(st.work) ==> Visible(DbAt(after, s.derived, s.db)) == View(st.work)))
  {
    RanStages(DbAt(file, s.derived, s.db), script);
  }

  /** Such a script: begin a transaction and create a table in it. */
  function BeginAndCreate(n: Name, schema: Schema): (script: Script) {
    (p: Plain) => [Call.Begin, InsertSchema(n, schema)]
  }

  /** On every file `exec_bytes` refuses it, and `exec_json` makes the table durable. */
  lemma UncommittedIsPublished(file: Loom, s: Session, n: Name, schema: Schema)
    requires WfRegistry(file.registry) && Bound(file, s)
    requires Coherent(DbAt(file, s.derived, s.db))
    ensures var script := BeginAndCreate(n, schema);
            && ExecBytes(file, s, script, false) == (file, false)
            && ExecJson(file, s, script, false).1
            && n in Visible(DbAt(ExecJson(file, s, script, false).0, s.derived, s.db)).tables
  {
    var script, st := BeginAndCreate(n, schema), Load(file, s);
    var calls := [Call.Begin, InsertSchema(n, schema)];
    assert calls[1..] == [InsertSchema(n, schema)] && calls[1..][1..] == [];
    var st1 := Step(st, Call.Begin).0;
    assert Run(st, calls) == Run(st1, calls[1..]) == Run(Step(st1, InsertSchema(n, schema)).0, []);
    JsonVersusBytes(file, s, script, false);
  }

  // ---- sequences of calls ------------------------------------------------------------------------

  /** An exec call and whether its write-back, if it comes to that, fails. */
  datatype Attempt = Attempt(script: Script, fails: bool)

  function ExecAll(file: Loom, s: Session, calls: seq<Attempt>): (r: Loom)
    requires WfRegistry(file.registry)
    ensures WfRegistry(r.registry)
    decreases |calls|
  {
    if calls == [] then file else ExecAll(ExecBytes(file, s, calls[0].script, calls[0].fails).0, s, calls[1..])
  }

  /** Which of the calls return without an error. */
  function Answers(file: Loom, s: Session, calls: seq<Attempt>): (r: seq<bool>)
    requires WfRegistry(file.registry)
    ensures |r| == |calls|
    decreases |calls|
  {
    if calls == [] then []
    else
      var (next, ok) := ExecBytes(file, s, calls[0].script, calls[0].fails);
      [ok] + Answers(next, s, calls[1..])
  }

  /** The reference: one plain database, replaced by the result of each script whose call succeeded. */
  function PlainExecAll(db: Database, calls: seq<Attempt>, answers: seq<bool>): (r: Database)
    requires |calls| == |answers|
    decreases |calls|
  {
    if calls == [] then db
    else
      var script := calls[0].script;
      var next := if answers[0] then PlainRun(Plain(db, None), script(Plain(db, None))).0.db else db;
      PlainExecAll(next, calls[1..], answers[1..])
  }

  /** The calls that can succeed are those whose script ends well; of these only a failing write-back fails. */
  ghost predicate FairAnswers(db: Database, calls: seq<Attempt>, answers: seq<bool>)
    requires |calls| == |answers|
    decreases |calls|
  {
    if calls == [] then true
    else
      var script := calls[0].script;
      var next := if answers[0] then PlainRun(Plain(db, None), script(Plain(db, None))).0.db else db;
      && (answers[0] ==> EndsWell(db, script))
      && (EndsWell(db, script) && !calls[0].fails ==> answers[0])
      && FairAnswers(next, calls[1..], answers[1..])
  }

  /** Which of the calls succeed with a dirty store, and so are written back. */
  function Kept(file: Loom, s: Session, calls: seq<Attempt>): (r: seq<bool>)
    requires WfRegistry(file.registry)
    ensures |r| == |calls|
    decreases |calls|
  {
    if calls == [] then []
    else
      var (next, ok) := ExecBytes(file, s, calls[0].script, calls[0].fails);
      [ok && IsDirty(Ran(Load(file, s), calls[0].script).0.work)] + Kept(next, s, calls[1..])
  }

  /**
   After any sequence of execs whatever, a load shows the plain executions of exactly the calls that were
   written back; a successful call that was not had, by `CleanRunOnlyDrops`, nothing but drops to lose.
   */
  lemma {:induction false} SessionKeeps(file: Loom, s: Session, calls: seq<Attempt>)
    requires WfRegistry(file.registry) && Bound(file, s)
    requires Coherent(DbAt(file, s.derived, s.db))
    ensures Abs(Load(ExecAll(file, s, calls), s)) ==
            Plain(PlainExecAll(Visible(DbAt(file, s.derived, s.db)), calls, Kept(file, s, calls)), None)
    decreases |calls|
  {
    var d := DbAt(file, s.derived, s.db);
    OpenSynced(d);
    if calls != [] {
      var script, fails := calls[0].script, calls[0].fails;
      ExecBound(file, s, script, fails);
      RunRefines(Open(d), script(Abs(Open(d))));
      OpenStage(View(Run(Open(d), script(Abs(Open(d)))).0.work));
      var next := ExecBytes(file, s, script, fails).0;
      SessionKeeps(next, s, calls[1..]);
      assert Kept(file, s, calls)[1..] == Kept(next, s, calls[1..]);
    }
  }

  /** No successful call has a drop as its script's only change: each leaves the store dirty or the view as it was. */
  ghost predicate NoSilentDrop(file: Loom, s: Session, calls: seq<Attempt>)
    requires WfRegistry(file.registry)
    decreases |calls|
  {
    calls != [] ==>
      var st := Ran(Load(file, s), calls[0].script).0;
      var (next, ok) := ExecBytes(file, s, calls[0].script, calls[0].fails);
      && (ok ==> IsDirty(st.work) || View(st.work) == View(Load(file, s).work))
      && NoSilentDrop(next, s, calls[1..])
  }

  /**
   Read-your-writes: after any sequence of execs, with write-backs failing anywhere, a load shows what the
   plain executions of the successful calls produce.
   */
  lemma {:induction false} SessionRefines(file: Loom, s: Session, calls: seq<Attempt>)
    requires WfRegistry(file.registry) && Bound(file, s)
    requires Coherent(DbAt(file, s.derived, s.db))
    requires NoSilentDrop(file, s, calls)
    ensures var after, start := ExecAll(file, s, calls), Visible(DbAt(file, s.derived, s.db));
            && Bound(after, s) && Coherent(DbAt(after, s.derived, s.db))
            && Abs(Load(after, s)) == Plain(PlainExecAll(start, calls, Answers(file, s, calls)), None)
            && FairAnswers(start, calls, Answers(file, s, calls))
            && SameElsewhere(file, after, s.derived, s.db)
    decreases |calls|
  {
    var d := DbAt(file, s.derived, s.db);
    OpenSynced(d);
    if calls != [] {
      var script, fails := calls[0].script, calls[0].fails;
      ExecBound(file, s, script, fails);
      RunRefines(Open(d), script(Abs(Open(d))));
      OpenStage(View(Run(Open(d), script(Abs(Open(d)))).0.work));
      var (next, ok) := ExecBytes(file, s, script, fails);
      SessionRefines(next, s, calls[1..]);
      assert Answers(file, s, calls)[1..] == Answers(next, s, calls[1..]);
    }
  }

  /** Opening a session on an unbound name whose derived id is free binds the two; a bound one stays. */
  lemma OpenBinds(file: Loom, s: Session)
    requires WfRegistry(file.registry)
    requires s.name in file.registry.byName ==> file.registry.byName[s.name] == s.derived
    ensures OpenSession(file, s).Ok? <==> s.name in file.registry.byName || s.derived !in file.registry.facets
    ensures OpenSession(file, s).Ok? ==> Bound(OpenSession(file, s).value, s)
    ensures OpenSession(file, s).Ok? ==> OpenSession(file, s).value.dbs == file.dbs
  {
  }

  /** Under the binding a batch and a session load one and the same database. */
  lemma BatchSeesSession(file: Loom, s: Session)
    requires WfRegistry(file.registry) && Bound(file, s)
    ensures var b := SqlBatch.Begin(file, s.name, s.derived, s.db);
            b.Ok? && b.value.ns == s.derived && b.value.store == Load(file, s)
  {
  }

  /** A name bound to another id: no exec of the session, failing or not, ever changes what the session loads. */
  lemma {:induction false} MisboundNeverSees(file: Loom, s: Session, calls: seq<Attempt>)
    requires WfRegistry(file.registry)
    requires s.name in file.registry.byName && file.registry.byName[s.name] != s.derived
    ensures Load(ExecAll(file, s, calls), s) == Load(file, s)
    decreases |calls|
  {
    if calls != [] {
      MisboundNeverSees(ExecBytes(file, s, calls[0].script, calls[0].fails).0, s, calls[1..]);
    }
  }

  /** So a dirty exec that changes the view is read back if and only if the binding is the derived one. */
  lemma ReadBackExact(file: Loom, s: Session, script: Script)
    requires WfRegistry(file.registry)
    requires s.name in file.registry.byName
    requires Coherent(DbAt(file, s.derived, s.db))
    requires ExecBytes(file, s, script, false).1
    requires IsDirty(Ran(Load(file, s), script).0.work)
    requires View(Ran(Load(file, s), script).0.work) != View(Load(file, s).work)
    ensures View(Load(ExecBytes(file, s, script, false).0, s).work) == View(Ran(Load(file, s), script).0.work)
            <==> Bound(file, s)
  {
    if Bound(file, s) {
      ExecBound(file, s, script, false);
      OpenStage(View(Ran(Load(file, s), script).0.work));
    } else {
      var calls := [Attempt(script, false)];
      MisboundNeverSees(file, s, calls);
      assert calls[1..] == [];
      assert ExecAll(file, s, calls) == ExecAll(ExecBytes(file, s, script, false).0, s, []);
    }
  }
}

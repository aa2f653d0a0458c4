/**
 Any number of clients over one file: sessions, whose load, run, lock, persist and save interleave with
 everything else, and batches, which lock before they load. The log records, in the order of the saves,
 which scripts each save made durable.

 Main results: `LockOwnsFile` and `BatchAlone` (while a client holds the lock the file changes only by
 its own saves, and nothing others do can be told from their absence), `RunSerial` (every run whose
 sessions are not overtaken is the serial execution of its log, database by database), `SavePublishes` (what
 a save publishes otherwise), and `OvertakenSessionDropsTable` (a run in which an overtaken session destroys
 another's work).
 */
module SqlClients {
  import opened Prelude
  import opened SqlStore
  import opened SqlPersist
  import opened LoomFile
  import opened SqlSessions
  import SqlBatch

  type Cid = int

  datatype Phase =
    | Idle
    | Loaded(s: Session, seen: Staged, script: Script)
    | Executed(s: Session, seen: Staged, script: Script, store: Store)
    | Writing(s: Session, script: Script, store: Store, held: Loom, ns: WsId)
    | Flushed(s: Session, script: Script, held: Loom, ns: WsId)
    | Batching(inner: SqlBatch.Inner, pending: seq<Script>)

  /** One save: the database it published and the scripts run on it since the save before. */
  datatype Saved = Saved(ns: WsId, db: string, scripts: seq<Script>)

  datatype Sys = Sys(file: Loom, lock: Option<Cid>, clients: map<Cid, Phase>, log: seq<Saved>)

  datatype Event =
    | Load(who: Cid, s: Session, script: Script)
    | Execute(who: Cid)
    | Acquire(who: Cid)
    | Flush(who: Cid, ok: bool)
    | Publish(who: Cid, ok: bool)
    | BeginBatch(who: Cid, s: Session)
    | BatchExec(who: Cid, script: Script)
    | BatchCommit(who: Cid, vcs: bool, fault: SqlBatch.Fault)
    | BatchAbort(who: Cid, reloads: bool)
    | BatchClose(who: Cid)

  function PhaseOf(a: Sys, c: Cid): (p: Phase) {
    if c in a.clients then a.clients[c] else Idle
  }

  predicate HoldsLock(p: Phase) {
    p.Writing? || p.Flushed? || p.Batching?
  }

  /** When an event can happen. Opening for write may be tried at any time; it fails while the lock is taken. */
  ghost predicate Enabled(a: Sys, e: Event) {
    var p := PhaseOf(a, e.who);
    match e
    case Load(_, _, _) => p.Idle?
    case Execute(_) => p.Loaded?
    case Acquire(_) => p.Executed?
    case Flush(_, _) => p.Writing?
    case Publish(_, _) => p.Flushed?
    case BeginBatch(_, _) => p.Idle?
    case BatchExec(_, _) => p.Batching?
    case BatchCommit(_, _, _) => p.Batching? && SqlBatch.Possible(BatchWorld(a, p), BatchOp(p, e))
    case BatchAbort(_, _) => p.Batching?
    case BatchClose(_) => p.Batching?
  }

  function BatchWorld(a: Sys, p: Phase): (x: SqlBatch.World)
    requires p.Batching?
  {
    SqlBatch.World(a.file, Some(p.inner))
  }

  function BatchOp(p: Phase, e: Event): (op: SqlBatch.Op)
    requires p.Batching?
  {
    match e
    case BatchExec(_, script) => SqlBatch.Exec(script(Abs(p.inner.store)))
    case BatchCommit(_, vcs, fault) => if vcs then SqlBatch.CommitVcs(fault) else SqlBatch.Commit(fault)
    case BatchAbort(_, reloads) => SqlBatch.Abort(reloads)
    case _ => SqlBatch.Close
  }

  function Moved(a: Sys, c: Cid, p: Phase): (b: Sys) {
    a.(clients := a.clients[c := p])
  }

  function Released(a: Sys, c: Cid): (b: Sys) {
    Moved(a, c, Idle).(lock := None)
  }

  /** Scripts not yet published after a batch event. */
  function Pending(p: Phase, e: Event, ok: bool): (r: seq<Script>)
    requires p.Batching?
  {
    match e
    case BatchExec(_, script) => p.pending + [script]
    case BatchCommit(_, _, _) => if ok then [] else p.pending
    case BatchAbort(_, _) => if ok then [] else p.pending
    case _ => p.pending
  }

  function NextBatch(a: Sys, e: Event, p: Phase): (b: Sys)
    requires p.Batching?
  {
    var (x, ok) := SqlBatch.Do(BatchWorld(a, p), BatchOp(p, e));
    var file := x.durable;
    if x.inner.None? then Released(a, e.who).(file := file)
    else
      var log := if e.BatchCommit? && ok then a.log + [Saved(p.inner.ns, p.inner.db, p.pending)] else a.log;
      Moved(a, e.who, Batching(x.inner.value, Pending(p, e, ok))).(file := file, log := log)
  }

  function Next(a: Sys, e: Event): (b: Sys)
    requires WfRegistry(a.file.registry) && Enabled(a, e)
  {
    var p := PhaseOf(a, e.who);
    match e
    case Load(c, s, script) => Moved(a, c, Loaded(s, DbAt(a.file, s.derived, s.db), script))
    case Execute(c) =>
      var (st, ok) := Ran(Open(p.seen), p.script);
      if ok && st.txn.None? && IsDirty(st.work) then Moved(a, c, Executed(p.s, p.seen, p.script, st)) else Moved(a, c, Idle)
    case Acquire(c) =>
      if a.lock.Some? then Moved(a, c, Idle)
      else
        (match EnsureForWrite(a.file.registry, p.s.name, p.s.derived)
         case Err => Moved(a, c, Idle)
         case Ok((reg, ns)) =>
           Moved(a, c, Writing(p.s, p.script, p.store, a.file.(registry := reg), ns)).(lock := Some(c)))
    case Flush(c, ok) =>
      if !ok then Released(a, c)
      else
        var tree := Persist(p.store.work, DbAt(p.held, p.ns, p.s.db));
        Moved(a, c, Flushed(p.s, p.script, WithDb(p.held, p.ns, p.s.db, tree), p.ns))
    case Publish(c, ok) =>
      if !ok then Released(a, c)
      else Released(a, c).(file := p.held, log := a.log + [Saved(p.ns, p.s.db, [p.script])])
    case BeginBatch(c, s) =>
      if a.lock.Some? then a
      else
        (match SqlBatch.Begin(a.file, s.name, s.derived, s.db)
         case Err => a
         case Ok(i) => Moved(a, c, Batching(i, [])).(lock := Some(c)))
    case _ => NextBatch(a, e, p)
  }

  // ---- the lock ----------------------------------------------------------------------------------

  /** The lock names exactly the client that is writing, and the copies in play have a sane registry. */
  ghost predicate LockInv(a: Sys) {
    && WfRegistry(a.file.registry)
    && (forall c :: HoldsLock(PhaseOf(a, c)) <==> a.lock == Some(c))
    && (forall c :: PhaseOf(a, c).Writing? || PhaseOf(a, c).Flushed? ==> WfRegistry(PhaseOf(a, c).held.registry))
    && (forall c :: PhaseOf(a, c).Batching? ==> WfRegistry(PhaseOf(a, c).inner.loom.registry))
  }

  lemma BatchKeepsRegistry(x: SqlBatch.World, op: SqlBatch.Op)
    requires WfRegistry(x.durable.registry)
    requires x.inner.Some? ==> WfRegistry(x.inner.value.loom.registry)
    ensures var y := SqlBatch.Do(x, op).0;
            WfRegistry(y.durable.registry) && (y.inner.Some? ==> WfRegistry(y.inner.value.loom.registry))
  {
  }

  lemma LockOwnsFileBatch(a: Sys, e: Event)
    requires LockInv(a) && Enabled(a, e) && PhaseOf(a, e.who).Batching?
    ensures LockInv(Next(a, e))
    ensures forall c :: c != e.who ==> PhaseOf(Next(a, e), c) == PhaseOf(a, c)
    ensures a.lock == Some(e.who)
  {
    var p := PhaseOf(a, e.who);
    BatchKeepsRegistry(BatchWorld(a, p), BatchOp(p, e));
    assert HoldsLock(p);
  }

  /** One event keeps the lock discipline and moves no other client; only the lock holder changes the file. */
  lemma LockOwnsFile(a: Sys, e: Event)
    requires LockInv(a) && Enabled(a, e)
    ensures LockInv(Next(a, e))
    ensures forall c :: c != e.who ==> PhaseOf(Next(a, e), c) == PhaseOf(a, c)
    ensures Next(a, e).file != a.file ==> a.lock == Some(e.who)
  {
    if PhaseOf(a, e.who).Batching? {
      LockOwnsFileBatch(a, e);
    } else {
      assert HoldsLock(PhaseOf(a, e.who)) <==> a.lock == Some(e.who);
    }
  }

  ghost predicate EnabledRun(a: Sys, es: seq<Event>)
    requires LockInv(a)
    decreases |es|
  {
    if es == [] then true
    else Enabled(a, es[0]) && (LockOwnsFile(a, es[0]); EnabledRun(Next(a, es[0]), es[1..]))
  }

  ghost function RunAll(a: Sys, es: seq<Event>): (b: Sys)
    requires LockInv(a) && EnabledRun(a, es)
    ensures LockInv(b)
    decreases |es|
  {
    if es == [] then a
    else
      LockOwnsFile(a, es[0]);
      RunAll(Next(a, es[0]), es[1..])
  }

  // ---- isolation ---------------------------------------------------------------------------------

  /** The events of one client, in order. */
  function EventsOf(es: seq<Event>, c: Cid): (r: seq<Event>) {
    if es == [] then [] else (if es[0].who == c then [es[0]] else []) + EventsOf(es[1..], c)
  }

  /** What a lock holder can tell apart. */
  ghost predicate SameFor(a: Sys, b: Sys, c: Cid) {
    a.file == b.file && a.lock == b.lock && a.log == b.log && PhaseOf(a, c) == PhaseOf(b, c)
  }

  lemma OthersInvisible(a: Sys, e: Event, c: Cid)
    requires LockInv(a) && Enabled(a, e) && a.lock == Some(c) && e.who != c
    ensures SameFor(Next(a, e), a, c)
  {
    LockOwnsFile(a, e);
    assert !HoldsLock(PhaseOf(a, e.who));
  }

  lemma OwnStepSame(a: Sys, b: Sys, e: Event)
    requires LockInv(a) && LockInv(b) && SameFor(a, b, e.who)
    requires Enabled(a, e) && PhaseOf(a, e.who).Batching?
    ensures Enabled(b, e) && SameFor(Next(a, e), Next(b, e), e.who)
  {
  }

  /**
   While a batch stays open, removing every event of every other client changes nothing it can see: the
   file, the log and its own state come out the same.
   */
  lemma {:induction false} BatchAlone(a: Sys, b: Sys, es: seq<Event>, c: Cid)
    requires LockInv(a) && LockInv(b) && EnabledRun(a, es)
    requires SameFor(a, b, c) && PhaseOf(a, c).Batching?
    requires forall e | e in es :: e.who == c ==> !e.BatchClose?
    ensures EnabledRun(b, EventsOf(es, c))
    ensures SameFor(RunAll(a, es), RunAll(b, EventsOf(es, c)), c)
    decreases |es|
  {
    if es != [] {
      var e := es[0];
      assert e in es;
      LockOwnsFile(a, e);
      if e.who == c {
        OwnStepSame(a, b, e);
        LockOwnsFile(b, e);
        assert PhaseOf(Next(a, e), c).Batching?;
        BatchAlone(Next(a, e), Next(b, e), es[1..], c);
        assert EventsOf(es, c) == [e] + EventsOf(es[1..], c);
        assert EventsOf(es, c)[1..] == EventsOf(es[1..], c);
      } else {
        OthersInvisible(a, e, c);
        BatchAlone(Next(a, e), b, es[1..], c);
        assert EventsOf(es, c) == EventsOf(es[1..], c);
      }
    }
  }

  // ---- serial executions -------------------------------------------------------------------------

  /** The scripts of one save run one after the other on a plain database. */
  function RunScripts(p: Plain, scripts: seq<Script>): (r: Plain) {
    if scripts == [] then p
    else
      var q := RunScripts(p, scripts[..|scripts| - 1]);
      PlainRun(q, scripts[|scripts| - 1](q)).0
  }

  function ReplayOne(d: Database, ns: WsId, db: string, x: Saved): (r: Database) {
    if x.ns == ns && x.db == db then RunScripts(Plain(d, None), x.scripts).db else d
  }

  /** The log as a serial execution, seen at one database. */
  function Replay(d: Database, ns: WsId, db: string, log: seq<Saved>): (r: Database) {
    if log == [] then d else ReplayOne(Replay(d, ns, db, log[..|log| - 1]), ns, db, log[|log| - 1])
  }

  /**
   When a session gets the lock, no save has reached its database since its load and its name is unbound or
   bound to its derived id; aborts are safe.
   */
  ghost predicate Quiet(a: Sys, e: Event) {
    var p := PhaseOf(a, e.who);
    && (e.Acquire? && p.Executed? && a.lock.None? ==>
          && DbAt(a.file, p.s.derived, p.s.db) == p.seen
          && (p.s.name in a.file.registry.byName ==> a.file.registry.byName[p.s.name] == p.s.derived))
    && (e.BatchAbort? && p.Batching? ==> SqlBatch.SafeOp(BatchWorld(a, p), BatchOp(p, e)))
  }

  ghost predicate PhaseInv(file: Loom, p: Phase) {
    match p
    case Idle => true
    case Loaded(_, seen, _) => Coherent(seen)
    case Executed(_, seen, script, st) =>
      Coherent(seen) && Ran(Open(seen), script) == (st, true) && st.txn.None?
    case Writing(s, script, st, held, ns) =>
      && ns == s.derived && held.dbs == file.dbs
      && Ran(Open(DbAt(file, ns, s.db)), script) == (st, true) && st.txn.None?
    case Flushed(s, script, held, ns) =>
      && SameElsewhere(file, held, ns, s.db)
      && DbAt(held, ns, s.db) == Stage(RunScripts(Plain(Visible(DbAt(file, ns, s.db)), None), [script]).db)
    case Batching(i, pending) =>
      && SqlBatch.Inv(SqlBatch.World(file, Some(i)), i.ns, i.db)
      && Abs(i.store) == RunScripts(Plain(Visible(DbAt(file, i.ns, i.db)), None), pending)
  }

  ghost predicate SerialInv(a: Sys) {
    && LockInv(a)
    && (forall ns, db :: Coherent(DbAt(a.file, ns, db)))
    && (forall c :: PhaseInv(a.file, PhaseOf(a, c)))
  }

  lemma RunScriptsOne(p: Plain, script: Script)
    ensures RunScripts(p, [script]) == PlainRun(p, script(p)).0
  {
    assert [script][..0] == [];
  }

  lemma RunScriptsSnoc(p: Plain, scripts: seq<Script>, script: Script)
    ensures RunScripts(p, scripts + [script]) == PlainRun(RunScripts(p, scripts), script(RunScripts(p, scripts))).0
  {
    assert (scripts + [script])[..|scripts|] == scripts;
  }

  /** The effect of one event on the file, as seen at every database. */
  ghost predicate SerialStep(a: Sys, b: Sys) {
    || (b.log == a.log && forall ns, db :: Visible(DbAt(b.file, ns, db)) == Visible(DbAt(a.file, ns, db)))
    || exists x :: && b.log == a.log + [x]
                   && forall ns, db :: Visible(DbAt(b.file, ns, db)) == ReplayOne(Visible(DbAt(a.file, ns, db)), ns, db, x)
  }

  lemma ExecuteStep(a: Sys, e: Event)
    requires SerialInv(a) && e.Execute? && Enabled(a, e)
    ensures PhaseInv(a.file, PhaseOf(Next(a, e), e.who))
  {
  }

  lemma AcquireStep(a: Sys, e: Event)
    requires SerialInv(a) && e.Acquire? && Enabled(a, e) && Quiet(a, e)
    ensures PhaseInv(a.file, PhaseOf(Next(a, e), e.who))
  {
  }

  lemma FlushStep(a: Sys, e: Event)
    requires SerialInv(a) && e.Flush? && Enabled(a, e)
    ensures PhaseInv(a.file, PhaseOf(Next(a, e), e.who))
  {
    var p := PhaseOf(a, e.who);
    if e.ok {
      var d := DbAt(a.file, p.ns, p.s.db);
      assert DbAt(p.held, p.ns, p.s.db) == d;
      RanStages(d, p.script);
      OpenSynced(d);
      RunRefines(Open(d), p.script(Abs(Open(d))));
      RunScriptsOne(Plain(Visible(d), None), p.script);
    }
  }

  lemma PublishStep(a: Sys, e: Event)
    requires SerialInv(a) && e.Publish? && Enabled(a, e)
    ensures forall ns, db :: Coherent(DbAt(Next(a, e).file, ns, db))
    ensures SerialStep(a, Next(a, e))
  {
    var p := PhaseOf(a, e.who);
    var b := Next(a, e);
    if e.ok {
      var x := Saved(p.ns, p.s.db, [p.script]);
      OpenStage(RunScripts(Plain(Visible(DbAt(a.file, p.ns, p.s.db)), None), [p.script]).db);
      forall ns, db
        ensures Coherent(DbAt(b.file, ns, db))
        ensures Visible(DbAt(b.file, ns, db)) == ReplayOne(Visible(DbAt(a.file, ns, db)), ns, db, x)
      {
        if (ns, db) != (p.ns, p.s.db) {
          assert DbAt(p.held, ns, db) == DbAt(a.file, ns, db);
        }
      }
      assert b.log == a.log + [x];
    }
  }

  lemma BeginStep(a: Sys, e: Event)
    requires SerialInv(a) && e.BeginBatch? && Enabled(a, e)
    ensures PhaseInv(a.file, PhaseOf(Next(a, e), e.who))
  {
    if SqlBatch.Begin(a.file, e.s.name, e.s.derived, e.s.db).Ok? {
      SqlBatch.BeginInv(a.file, e.s.name, e.s.derived, e.s.db);
    }
  }

  lemma BatchExecStep(a: Sys, e: Event)
    requires SerialInv(a) && Enabled(a, e) && e.BatchExec?
    ensures PhaseInv(a.file, PhaseOf(Next(a, e), e.who))
  {
    var p := PhaseOf(a, e.who);
    var i, calls := p.inner, e.script(Abs(p.inner.store));
    RunRefines(i.store, calls);
    RunSynced(i.store, SqlBatch.Tree(i), calls);
    RunScriptsSnoc(Plain(Visible(DbAt(a.file, i.ns, i.db)), None), p.pending, e.script);
    var q := PhaseOf(Next(a, e), e.who);
    assert q == Batching(i.(store := Run(i.store, calls).0), p.pending + [e.script]);
  }

  lemma BatchPhaseStep(a: Sys, e: Event)
    requires SerialInv(a) && Enabled(a, e) && Quiet(a, e) && PhaseOf(a, e.who).Batching? && !e.BatchExec?
    ensures PhaseInv(Next(a, e).file, PhaseOf(Next(a, e), e.who))
  {
    var p := PhaseOf(a, e.who);
    var x, op := BatchWorld(a, p), BatchOp(p, e);
    var (y, ok) := SqlBatch.Do(x, op);
    SqlBatch.DoRefines(x, p.inner.ns, p.inner.db, op);
    BatchFrame(x, op, p.inner.ns, p.inner.db);
    if y.inner.Some? {
      assert PhaseOf(Next(a, e), e.who) == Batching(y.inner.value, Pending(p, e, ok));
    }
  }

  lemma BatchFileStep(a: Sys, e: Event)
    requires SerialInv(a) && Enabled(a, e) && Quiet(a, e) && PhaseOf(a, e.who).Batching?
    ensures forall ns, db :: Coherent(DbAt(Next(a, e).file, ns, db))
    ensures SerialStep(a, Next(a, e))
  {
    var p := PhaseOf(a, e.who);
    var x, op, b := BatchWorld(a, p), BatchOp(p, e), Next(a, e);
    var y := SqlBatch.Do(x, op).0;
    var ns0, db0 := p.inner.ns, p.inner.db;
    SqlBatch.DoRefines(x, ns0, db0, op);
    BatchFrame(x, op, ns0, db0);
    assert b.file == y.durable;
    assert Coherent(DbAt(b.file, ns0, db0));
    forall ns, db
      ensures Coherent(DbAt(b.file, ns, db))
    {
      if (ns, db) != (ns0, db0) {
        assert DbAt(b.file, ns, db) == DbAt(a.file, ns, db);
      }
    }
    if SqlBatch.IsCommit(op) && SqlBatch.Do(x, op).1 {
      CommitSerial(a, b, p, ns0, db0);
    }
  }

  lemma CommitSerial(a: Sys, b: Sys, p: Phase, ns0: WsId, db0: string)
    requires p.Batching? && SameElsewhere(a.file, b.file, ns0, db0)
    requires b.log == a.log + [Saved(ns0, db0, p.pending)]
    requires Visible(DbAt(b.file, ns0, db0)) == RunScripts(Plain(Visible(DbAt(a.file, ns0, db0)), None), p.pending).db
    ensures SerialStep(a, b)
  {
    var x := Saved(ns0, db0, p.pending);
    forall ns, db
      ensures Visible(DbAt(b.file, ns, db)) == ReplayOne(Visible(DbAt(a.file, ns, db)), ns, db, x)
    {
      if (ns, db) != (ns0, db0) {
        assert DbAt(b.file, ns, db) == DbAt(a.file, ns, db);
      }
    }
  }

  /** A batch operation leaves every other database of the file alone, and publishes only by committing. */
  lemma BatchFrame(x: SqlBatch.World, op: SqlBatch.Op, ns: WsId, db: string)
    requires SqlBatch.Inv(x, ns, db)
    ensures SameElsewhere(x.durable, SqlBatch.Do(x, op).0.durable, ns, db)
    ensures !(SqlBatch.IsCommit(op) && SqlBatch.Do(x, op).1) ==> SqlBatch.Do(x, op).0.durable == x.durable
  {
  }

  /** One quiet event keeps the invariant and is either invisible or one entry of the serial execution. */
  lemma StepSerial(a: Sys, e: Event)
    requires SerialInv(a) && Enabled(a, e) && Quiet(a, e)
    ensures SerialInv(Next(a, e)) && SerialStep(a, Next(a, e))
  {
    LockOwnsFile(a, e);
    var p, b := PhaseOf(a, e.who), Next(a, e);
    match e {
      case Load(_, _, _) =>
      case Execute(_) => ExecuteStep(a, e);
      case Acquire(_) => AcquireStep(a, e);
      case Flush(_, _) => FlushStep(a, e);
      case Publish(_, _) => PublishStep(a, e);
      case BeginBatch(_, _) => BeginStep(a, e);
      case _ =>
        if e.BatchExec? { BatchExecStep(a, e); } else { BatchPhaseStep(a, e); }
        BatchFileStep(a, e);
    }
    forall c
      ensures PhaseInv(b.file, PhaseOf(b, c))
    {
      if c != e.who {
        assert b.file == a.file || !HoldsLock(PhaseOf(a, c));
      }
    }
  }

  ghost predicate QuietRun(a: Sys, es: seq<Event>)
    requires LockInv(a) && EnabledRun(a, es)
    decreases |es|
  {
    if es == [] then true else (LockOwnsFile(a, es[0]); Quiet(a, es[0]) && QuietRun(Next(a, es[0]), es[1..]))
  }

  /** Every run whose sessions are not overtaken is the serial execution of its log, at every database. */
  lemma {:induction false} RunSerial(start: Loom, a: Sys, es: seq<Event>)
    requires SerialInv(a) && EnabledRun(a, es) && QuietRun(a, es)
    requires forall ns, db :: Visible(DbAt(a.file, ns, db)) == Replay(Visible(DbAt(start, ns, db)), ns, db, a.log)
    ensures var b := RunAll(a, es);
            && SerialInv(b)
            && forall ns, db :: Visible(DbAt(b.file, ns, db)) == Replay(Visible(DbAt(start, ns, db)), ns, db, b.log)
    decreases |es|
  {
    if es != [] {
      StepSerial(a, es[0]);
      var b := Next(a, es[0]);
      forall ns, db
        ensures Visible(DbAt(b.file, ns, db)) == Replay(Visible(DbAt(start, ns, db)), ns, db, b.log)
      {
        if b.log != a.log {
          var x :| && b.log == a.log + [x]
                   && forall ns, db :: Visible(DbAt(b.file, ns, db)) == ReplayOne(Visible(DbAt(a.file, ns, db)), ns, db, x);
          assert b.log[..|b.log| - 1] == a.log;
        }
      }
      RunSerial(start, b, es[1..]);
    }
  }

  // ---- an overtaken session ----------------------------------------------------------------------

  function WriteBackOf(c: Cid): (es: seq<Event>) {
    [Acquire(c), Flush(c, true), Publish(c, true)]
  }

  ghost predicate Reaches(a: Sys, es: seq<Event>, b: Sys) {
    LockInv(a) && EnabledRun(a, es) && RunAll(a, es) == b
  }

  /** Lock, persist and save of a session that has executed: the file it leaves. */
  lemma SessionWrites(a: Sys, c: Cid) returns (b: Sys)
    requires LockInv(a) && a.lock.None? && PhaseOf(a, c).Executed? && Bound(a.file, PhaseOf(a, c).s)
    ensures Reaches(a, WriteBackOf(c), b) && LockInv(b) && b.lock.None?
    ensures var p := PhaseOf(a, c);
            && b.log == a.log + [Saved(p.s.derived, p.s.db, [p.script])]
            && DbAt(b.file, p.s.derived, p.s.db) == Persist(p.store.work, DbAt(a.file, p.s.derived, p.s.db))
            && b.file.registry.byName == a.file.registry.byName
    ensures forall o :: o != c ==> PhaseOf(b, o) == PhaseOf(a, o)
  {
    var es := WriteBackOf(c);
    LockOwnsFile(a, es[0]);
    var a1 := Next(a, es[0]);
    assert es[1..] == [Flush(c, true), Publish(c, true)];
    LockOwnsFile(a1, es[1]);
    var a2 := Next(a1, es[1]);
    assert es[1..][1..] == [Publish(c, true)];
    LockOwnsFile(a2, es[2]);
    b := Next(a2, es[2]);
    assert es[1..][1..][1..] == [];
    assert EnabledRun(b, []) && EnabledRun(a2, es[1..][1..]) && EnabledRun(a1, es[1..]);
    assert RunAll(a2, es[1..][1..]) == RunAll(b, []) == b;
    assert RunAll(a1, es[1..]) == b;
  }

  lemma ReachesCons(a: Sys, e: Event, es: seq<Event>, b: Sys)
    requires LockInv(a) && Enabled(a, e) && LockInv(Next(a, e)) && Reaches(Next(a, e), es, b)
    ensures Reaches(a, [e] + es, b)
  {
    assert ([e] + es)[0] == e && ([e] + es)[1..] == es;
  }

  /** The events of a write-back that nobody interrupts. */
  function SoloWrite(r: Registry, c: Cid, s: Session, fails: bool): (es: seq<Event>)
    requires WfRegistry(r)
  {
    if EnsureForWrite(r, s.name, s.derived).Err? then [Acquire(c)]
    else if fails then [Acquire(c), Flush(c, false)]
    else WriteBackOf(c)
  }

  predicate WritesBack(file: Loom, s: Session, script: Script) {
    var (st, ok) := Ran(SqlSessions.Load(file, s), script);
    ok && st.txn.None? && IsDirty(st.work)
  }

  /** The events of one exec call that nobody interrupts. */
  function SoloExec(file: Loom, c: Cid, s: Session, script: Script, fails: bool): (es: seq<Event>)
    requires WfRegistry(file.registry)
  {
    [Load(c, s, script)] + ([Execute(c)] + if WritesBack(file, s, script) then SoloWrite(file.registry, c, s, fails) else [])
  }

  /** From the executed store to the end of the call. */
  lemma SoloWrites(a: Sys, c: Cid, fails: bool) returns (b: Sys)
    requires LockInv(a) && a.lock.None? && PhaseOf(a, c).Executed?
    ensures var p := PhaseOf(a, c);
            && Reaches(a, SoloWrite(a.file.registry, c, p.s, fails), b)
            && b.file == WriteBack(a.file, p.s, p.store.work, fails).0
            && PhaseOf(b, c).Idle? && b.lock.None?
  {
    var p := PhaseOf(a, c);
    LockOwnsFile(a, Acquire(c));
    var a1 := Next(a, Acquire(c));
    if EnsureForWrite(a.file.registry, p.s.name, p.s.derived).Err? {
      b := a1;
      assert Reaches(b, [], b);
      ReachesCons(a, Acquire(c), [], b);
      assert [Acquire(c)] + [] == [Acquire(c)];
    } else if fails {
      LockOwnsFile(a1, Flush(c, false));
      b := Next(a1, Flush(c, false));
      assert Reaches(b, [], b);
      ReachesCons(a1, Flush(c, false), [], b);
      ReachesCons(a, Acquire(c), [Flush(c, false)] + [], b);
      assert [Acquire(c)] + ([Flush(c, false)] + []) == [Acquire(c), Flush(c, false)];
    } else {
      LockOwnsFile(a1, Flush(c, true));
      var a2 := Next(a1, Flush(c, true));
      LockOwnsFile(a2, Publish(c, true));
      b := Next(a2, Publish(c, true));
      assert Reaches(b, [], b);
      ReachesCons(a2, Publish(c, true), [], b);
      ReachesCons(a1, Flush(c, true), [Publish(c, true)] + [], b);
      ReachesCons(a, Acquire(c), [Flush(c, true)] + ([Publish(c, true)] + []), b);
      assert [Acquire(c)] + ([Flush(c, true)] + ([Publish(c, true)] + [])) == WriteBackOf(c);
    }
  }

  /** Loading and running: the client is idle again unless there is something to write back. */
  lemma SoloRuns(a: Sys, c: Cid, s: Session, script: Script) returns (a1: Sys, a2: Sys)
    requires LockInv(a) && a.lock.None? && PhaseOf(a, c).Idle?
    ensures Enabled(a, Load(c, s, script)) && Next(a, Load(c, s, script)) == a1 && LockInv(a1)
    ensures Enabled(a1, Execute(c)) && Next(a1, Execute(c)) == a2 && LockInv(a2)
    ensures a2.file == a.file && a2.lock.None?
    ensures PhaseOf(a2, c) == if WritesBack(a.file, s, script)
                              then Executed(s, DbAt(a.file, s.derived, s.db), script, Ran(SqlSessions.Load(a.file, s), script).0)
                              else Idle
  {
    LockOwnsFile(a, Load(c, s, script));
    a1 := Next(a, Load(c, s, script));
    LockOwnsFile(a1, Execute(c));
    a2 := Next(a1, Execute(c));
  }

  /** What the exec call does to the file: the write-back, when there is one. */
  lemma ExecWritesBack(file: Loom, s: Session, script: Script, fails: bool)
    requires WfRegistry(file.registry)
    ensures ExecBytes(file, s, script, fails).0
            == if WritesBack(file, s, script) then WriteBack(file, s, Ran(SqlSessions.Load(file, s), script).0.work, fails).0 else file
  {
    var (st, ok) := Ran(SqlSessions.Load(file, s), script);
  }

  /** Uninterrupted, the events of a session do to the file what the exec call does, and leave the client idle. */
  lemma SoloIsExec(a: Sys, c: Cid, s: Session, script: Script, fails: bool) returns (b: Sys)
    requires LockInv(a) && a.lock.None? && PhaseOf(a, c).Idle?
    ensures Reaches(a, SoloExec(a.file, c, s, script, fails), b)
    ensures b.file == ExecBytes(a.file, s, script, fails).0 && PhaseOf(b, c).Idle? && b.lock.None?
  {
    ExecWritesBack(a.file, s, script, fails);
    var a1, a2 := SoloRuns(a, c, s, script);
    var rest := if WritesBack(a.file, s, script) then SoloWrite(a.file.registry, c, s, fails) else [];
    if WritesBack(a.file, s, script) {
      b := SoloWrites(a2, c, fails);
    } else {
      b := a2;
      assert Reaches(b, [], b);
    }
    assert Reaches(a2, rest, b);
    ReachesCons(a1, Execute(c), rest, b);
    ReachesCons(a, Load(c, s, script), [Execute(c)] + rest, b);
  }

  /**
   What the save of a session publishes over a file that may have moved on: the tables of its own catalog
   and no others; in a table whose schema it changed, or that the file no longer has, all of its rows; in
   any other table its own changed rows, and every other row as the file has it. That is the whole view of
   the session if and only if its store is in sync with the file.
   */
  lemma SavePublishes(a: Sys, c: Cid) returns (b: Sys)
    requires LockInv(a) && a.lock.None? && PhaseOf(a, c).Executed? && Bound(a.file, PhaseOf(a, c).s)
    requires Wf(PhaseOf(a, c).store.work)
    ensures Reaches(a, WriteBackOf(c), b)
    ensures var p := PhaseOf(a, c);
            var w, was := p.store.work, DbAt(a.file, p.s.derived, p.s.db);
            var now := DbAt(b.file, p.s.derived, p.s.db);
            && now.tables.Keys == w.schemas.Keys
            && (forall n, k :: n in w.schemas ==>
                  Lookup(now.tables[n].rows, k) ==
                  if NeedsFull(w, was, n) || k in DirtyAt(w.rowDirty, n) then Lookup(TableRows(w, n), k)
                  else Lookup(was.tables[n].rows, k))
            && (now == Stage(View(w)) <==> Synced(w, was))
  {
    b := SessionWrites(a, c);
    var p := PhaseOf(a, c);
    var w, was := p.store.work, DbAt(a.file, p.s.derived, p.s.db);
    PersistExact(w, was);
    forall n, k | n in w.schemas
      ensures Lookup(Persist(w, was).tables[n].rows, k) ==
              if NeedsFull(w, was, n) || k in DirtyAt(w.rowDirty, n) then Lookup(TableRows(w, n), k)
              else Lookup(was.tables[n].rows, k)
    {
      if !NeedsFull(w, was, n) { DeltaAt(w, was.tables[n].rows, n, k); }
    }
  }

  /** Saving a session leaves exactly the tables its own catalog knows. */
  lemma UnknownTablesVanish(w: Work, current: Staged, n: Name)
    ensures n in Visible(Persist(w, current)).tables <==> n in w.schemas
  {
  }

  function Create(n: Name): (script: Script) {
    (p: Plain) => [InsertSchema(n, SqlBatch.SCHEMA)]
  }

  lemma Creates(d: Database, n: Name)
    ensures RunScripts(Plain(d, None), [Create(n)]).db.tables.Keys == d.tables.Keys + {n}
  {
    var c := InsertSchema(n, SqlBatch.SCHEMA);
    RunScriptsOne(Plain(d, None), Create(n));
    assert [c][1..] == [];
    assert PlainRun(Plain(d, None), [c]) == PlainRun(PlainStep(Plain(d, None), c).0, []);
  }

  lemma CreatedCatalog(seen: Staged, n: Name)
    ensures Ran(Open(seen), Create(n)).0.work.schemas.Keys == Open(seen).work.schemas.Keys + {n}
  {
    SqlBatch.RunOne(Open(seen), InsertSchema(n, SqlBatch.SCHEMA));
  }

  lemma ReplayTwo(d: Database, ns: WsId, db: string, x: Saved, y: Saved)
    ensures Replay(d, ns, db, [x, y]) == ReplayOne(ReplayOne(d, ns, db, x), ns, db, y)
  {
    assert [x, y][..1] == [x] && [x][..0] == [];
    assert Replay(d, ns, db, [x]) == ReplayOne(Replay(d, ns, db, []), ns, db, x);
  }

  lemma SerialKeepsBoth(d: Database, s: Session, n: Name, m: Name)
    ensures {n, m} <= Replay(d, s.derived, s.db, [Saved(s.derived, s.db, [Create(n)]), Saved(s.derived, s.db, [Create(m)])]).tables.Keys
  {
    ReplayTwo(d, s.derived, s.db, Saved(s.derived, s.db, [Create(n)]), Saved(s.derived, s.db, [Create(m)]));
    Creates(d, n);
    Creates(RunScripts(Plain(d, None), [Create(n)]).db, m);
  }

  function CreateRace(c: Cid, d: Cid, s: Session, n: Name, m: Name): (es: seq<Event>) {
    [Load(d, s, Create(n)), Load(c, s, Create(m)), Execute(d), Execute(c)]
  }

  /** A loaded session that creates a table is left with a store to write back, whose catalog has one table more. */
  lemma CreateExecutes(a: Sys, c: Cid, n: Name)
    requires LockInv(a) && PhaseOf(a, c).Loaded? && PhaseOf(a, c).script == Create(n)
    ensures var p, q := PhaseOf(a, c), PhaseOf(Next(a, Execute(c)), c);
            && q.Executed? && q.s == p.s && q.script == Create(n)
            && q.store.work.schemas.Keys == Open(p.seen).work.schemas.Keys + {n}
  {
    var seen := PhaseOf(a, c).seen;
    CreatedCatalog(seen, n);
    SqlBatch.RunOne(Open(seen), InsertSchema(n, SqlBatch.SCHEMA));
    assert n in Ran(Open(seen), Create(n)).0.work.schemaDirty;
  }

  /** Both sessions load and run before either writes back. */
  lemma RaceRuns(a: Sys, c: Cid, d: Cid, s: Session, n: Name, m: Name) returns (b: Sys)
    requires LockInv(a) && a.lock.None? && c != d && PhaseOf(a, c).Idle? && PhaseOf(a, d).Idle?
    ensures Reaches(a, CreateRace(c, d, s, n, m), b) && LockInv(b) && b.lock.None? && b.file == a.file && b.log == a.log
    ensures PhaseOf(b, d).Executed? && PhaseOf(b, d).s == s && PhaseOf(b, d).script == Create(n)
    ensures n in PhaseOf(b, d).store.work.schemas
    ensures PhaseOf(b, c).Executed? && PhaseOf(b, c).s == s && PhaseOf(b, c).script == Create(m)
    ensures PhaseOf(b, c).store.work.schemas.Keys == Visible(DbAt(a.file, s.derived, s.db)).tables.Keys + {m}
  {
    var es := CreateRace(c, d, s, n, m);
    LockOwnsFile(a, es[0]);
    var a1 := Next(a, es[0]);
    LockOwnsFile(a1, es[1]);
    var a2 := Next(a1, es[1]);
    LockOwnsFile(a2, es[2]);
    CreateExecutes(a2, d, n);
    var a3 := Next(a2, es[2]);
    LockOwnsFile(a3, es[3]);
    CreateExecutes(a3, c, m);
    b := Next(a3, es[3]);
    RunFour(a, es, a1, a2, a3, b);
  }

  lemma RunFour(a: Sys, es: seq<Event>, a1: Sys, a2: Sys, a3: Sys, b: Sys)
    requires |es| == 4 && LockInv(a) && LockInv(a1) && LockInv(a2) && LockInv(a3) && LockInv(b)
    requires Enabled(a, es[0]) && Next(a, es[0]) == a1 && Enabled(a1, es[1]) && Next(a1, es[1]) == a2
    requires Enabled(a2, es[2]) && Next(a2, es[2]) == a3 && Enabled(a3, es[3]) && Next(a3, es[3]) == b
    ensures Reaches(a, es, b)
  {
    assert es[1..][0] == es[1] && es[1..][1..] == es[2..] && es[2..][0] == es[2] && es[2..][1..] == es[3..];
    assert es[3..][0] == es[3] && es[3..][1..] == [];
    assert EnabledRun(b, []) && RunAll(b, []) == b;
    assert EnabledRun(a3, es[3..]) && RunAll(a3, es[3..]) == b;
    assert EnabledRun(a2, es[2..]) && RunAll(a2, es[2..]) == b;
    assert EnabledRun(a1, es[1..]) && RunAll(a1, es[1..]) == b;
  }

  /** The write-back of a session, seen at one table. */
  lemma WritesTable(a: Sys, c: Cid, n: Name) returns (b: Sys)
    requires LockInv(a) && a.lock.None? && PhaseOf(a, c).Executed? && Bound(a.file, PhaseOf(a, c).s)
    ensures Reaches(a, WriteBackOf(c), b) && LockInv(b) && b.lock.None?
    ensures b.file.registry.byName == a.file.registry.byName && forall o :: o != c ==> PhaseOf(b, o) == PhaseOf(a, o)
    ensures var p := PhaseOf(a, c);
            && b.log == a.log + [Saved(p.s.derived, p.s.db, [p.script])]
            && (n in Visible(DbAt(b.file, p.s.derived, p.s.db)).tables <==> n in p.store.work.schemas)
  {
    b := SessionWrites(a, c);
    UnknownTablesVanish(PhaseOf(a, c).store.work, DbAt(a.file, PhaseOf(a, c).s.derived, PhaseOf(a, c).s.db), n);
  }

  /** Two sessions that have run write back one after the other. */
  lemma OvertakenWrites(a: Sys, c: Cid, d: Cid, s: Session, n: Name) returns (mid: Sys, b: Sys)
    requires LockInv(a) && a.lock.None? && c != d && Bound(a.file, s)
    requires PhaseOf(a, d).Executed? && PhaseOf(a, d).s == s && n in PhaseOf(a, d).store.work.schemas
    requires PhaseOf(a, c).Executed? && PhaseOf(a, c).s == s && n !in PhaseOf(a, c).store.work.schemas
    ensures Reaches(a, WriteBackOf(d), mid) && Reaches(mid, WriteBackOf(c), b)
    ensures b.log == a.log + [Saved(s.derived, s.db, [PhaseOf(a, d).script]), Saved(s.derived, s.db, [PhaseOf(a, c).script])]
    ensures n in Visible(DbAt(mid.file, s.derived, s.db)).tables
    ensures n !in Visible(DbAt(b.file, s.derived, s.db)).tables
  {
    mid := WritesTable(a, d, n);
    b := WritesTable(mid, c, n);
  }

  /**
   From any idle, unlocked file with the name bound: two sessions load, one creates table `n` and the
   other `m`, the first writes back, then the second. Both calls succeed and `n` is gone, while the serial
   execution of the same two saves, from any database, has both tables.
   */
  lemma OvertakenSessionDropsTable(a: Sys, c: Cid, d: Cid, s: Session, n: Name, m: Name, start: Database)
    returns (ran: Sys, mid: Sys, b: Sys)
    requires LockInv(a) && a.lock.None? && c != d && PhaseOf(a, c).Idle? && PhaseOf(a, d).Idle? && Bound(a.file, s)
    requires n != m && n !in Visible(DbAt(a.file, s.derived, s.db)).tables
    ensures Reaches(a, CreateRace(c, d, s, n, m), ran)
    ensures Reaches(ran, WriteBackOf(d), mid) && Reaches(mid, WriteBackOf(c), b)
    ensures b.log == a.log + [Saved(s.derived, s.db, [Create(n)]), Saved(s.derived, s.db, [Create(m)])]
    ensures n in Visible(DbAt(mid.file, s.derived, s.db)).tables
    ensures n !in Visible(DbAt(b.file, s.derived, s.db)).tables
    ensures {n, m} <= Replay(start, s.derived, s.db, b.log[|a.log|..]).tables.Keys
  {
    ran := RaceRuns(a, c, d, s, n, m);
    mid, b := OvertakenWrites(ran, c, d, s, n);
    SerialKeepsBoth(start, s, n, m);
    assert b.log[|a.log|..] == [Saved(s.derived, s.db, [Create(n)]), Saved(s.derived, s.db, [Create(m)])];
  }
}

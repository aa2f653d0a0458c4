/**
 The state of a `.loom` as the SQL bindings see it: the workspace registry, the working tree of every
 database, and the version history. A writer works on its own copy under the exclusive lock and
 publishes it with one atomic save; readers take a copy at any time.
 */
module LoomFile {
  import opened Prelude
  import opened SqlStore
  import opened SqlPersist

  type WsId = string

  /** `by_name` and the facets of each `by_id` record. */
  datatype Registry = Registry(byName: map<string, WsId>, facets: map<WsId, set<string>>)

  datatype Loom = Loom(registry: Registry, dbs: map<(WsId, string), Staged>, history: seq<(WsId, map<string, Staged>)>)

  const SQL := "sql"

  function DbAt(l: Loom, ns: WsId, db: string): (s: Staged) {
    if (ns, db) in l.dbs then l.dbs[(ns, db)] else NOTHING
  }

  function WithDb(l: Loom, ns: WsId, db: string, s: Staged): (r: Loom) {
    l.(dbs := l.dbs[(ns, db) := s])
  }

  lemma WithDbTwice(l: Loom, ns: WsId, db: string, a: Staged, b: Staged)
    ensures WithDb(WithDb(l, ns, db, a), ns, db, b) == WithDb(l, ns, db, b)
  {
    assert l.dbs[(ns, db) := a][(ns, db) := b] == l.dbs[(ns, db) := b];
  }

  /** The working tree of a workspace, database by database. */
  function TreeOf(l: Loom, ns: WsId): (r: map<string, Staged>) {
    map p | p in l.dbs && p.0 == ns :: p.1 := l.dbs[p]
  }

  /** `loom.commit`: a history entry over the workspace's current working tree. */
  function Recorded(l: Loom, ns: WsId): (r: Loom) {
    l.(history := l.history + [(ns, TreeOf(l, ns))])
  }

  /** Names and ids stay in step: a bound name has a record. */
  ghost predicate WfRegistry(r: Registry) {
    forall n :: n in r.byName ==> r.byName[n] in r.facets
  }

  /**
   `ensure_for_write` with a typed selector: an existing name keeps its id (gaining the SQL facet if it
   lacks it), an unbound name is created with `newId`, and a taken id is an error.
   */
  function EnsureForWrite(r: Registry, name: string, newId: WsId): (res: Result<(Registry, WsId)>)
    requires WfRegistry(r)
    ensures res.Ok? ==> && WfRegistry(res.value.0)
                        && name in res.value.0.byName && res.value.0.byName[name] == res.value.1
                        && forall n :: n in r.byName ==> n in res.value.0.byName && res.value.0.byName[n] == r.byName[n]
    ensures res.Err? <==> name !in r.byName && newId in r.facets
    ensures res.Ok? ==> res.value.1 == if name in r.byName then r.byName[name] else newId
    ensures res.Ok? ==> && res.value.0.byName.Keys == r.byName.Keys + {name}
                        && res.value.0.facets.Keys == r.facets.Keys + {res.value.1}
                        && SQL in res.value.0.facets[res.value.1]
                        && forall id :: id in r.facets ==>
                             res.value.0.facets[id] == if id == res.value.1 then r.facets[id] + {SQL} else r.facets[id]
  {
    if name in r.byName then
      var id := r.byName[name];
      Ok((r.(facets := r.facets[id := r.facets[id] + {SQL}]), id))
    else if newId in r.facets then Err
    else Ok((Registry(r.byName[name := newId], r.facets[newId := {SQL}]), newId))
  }

  /** Everything except one database (and the registry and history) is the same. */
  ghost predicate SameElsewhere(a: Loom, b: Loom, ns: WsId, db: string) {
    forall m, d :: (m, d) != (ns, db) ==> DbAt(a, m, d) == DbAt(b, m, d)
  }
}

/**
 Lane mutation (bindings/node/src/lanes.rs over crates/loom-lanes): every request reads a stored lane,
 changes a copy, and puts it back under validation. The put commits by itself; a later save may still
 fail.

 Main results: `SubmitExact` (a request succeeds if and only if its own arguments are admissible, so the
 generated order keys never make a lane fail its own validation), `RunKeepsInv` (distinct ids, order
 keys strictly increasing, active ticket in the list, a ticket in at most one open assignment lane),
 `RunKeepsOrder` (untouched tickets keep their relative order over any run) and `FailureExact`.
 */
module Lanes {
  import opened Prelude
  import OrderKey
  import StringOrder

  datatype Ticket = Ticket(id: string, orderKey: string)

  datatype Lane = Lane(
    laneId: string,
    laneKey: string,
    title: string,
    description: string,
    kind: string,
    owner: Option<string>,
    status: string,
    tickets: seq<Ticket>,
    active: Option<string>,
    statusReport: string,
    reviewerFeedback: string,
    updatedAt: nat,
    updatedBy: string)

  const PROSE_MAX_BYTES: nat := 16 * 1024
  const ID_MAX_BYTES: nat := 512
  const CLOSED := "closed"
  const ASSIGNMENT := "assignment"
  const STATUSES := {
    "idle", "ready", "working", "waiting_for_review", "feedback_available", "waiting_for_decision", "blocked",
    "paused", CLOSED }
  const KINDS := {ASSIGNMENT, "tracking"}

  // ---- validation --------------------------------------------------------------------------------

  predicate ValidId(s: string) {
    s != "" && Utf8Length(s) <= ID_MAX_BYTES && forall i :: 0 <= i < |s| ==> !IsControl(s[i])
  }

  predicate ValidProse(s: string) {
    Utf8Length(s) <= PROSE_MAX_BYTES
  }

  predicate Has(ts: seq<Ticket>, id: string) {
    exists i :: 0 <= i < |ts| && ts[i].id == id
  }

  /** Distinct valid ids and canonical, strictly increasing order keys. */
  predicate TicketsValid(ts: seq<Ticket>) {
    && (forall i :: 0 <= i < |ts| ==> ValidId(ts[i].id) && OrderKey.Canonical(ts[i].orderKey))
    && (forall i, j :: 0 <= i < j < |ts| ==> ts[i].id != ts[j].id && StringOrder.Less(ts[i].orderKey, ts[j].orderKey))
  }

  predicate ValidLane(l: Lane) {
    && ValidId(l.laneId) && ValidId(l.laneKey) && ValidProse(l.title) && ValidProse(l.description)
    && l.kind in KINDS && (l.owner.Some? ==> ValidId(l.owner.value)) && l.status in STATUSES
    && ValidProse(l.statusReport) && ValidProse(l.reviewerFeedback) && ValidId(l.updatedBy)
    && TicketsValid(l.tickets)
    && (l.active.Some? ==> ValidId(l.active.value) && Has(l.tickets, l.active.value))
  }

  /** The single pass of `validate_lane_tickets`, which compares each key with the one before only. */
  method ValidateTickets(ts: seq<Ticket>) returns (ok: bool)
    ensures ok <==> TicketsValid(ts)
  {
    var seen: set<string> := {};
    for n := 0 to |ts|
      invariant TicketsValid(ts[..n])
      invariant seen == set i | 0 <= i < n :: ts[i].id
    {
      var t := ts[n];
      if !ValidId(t.id) || t.id in seen || !OrderKey.Canonical(t.orderKey) {
        return false;
      }
      if n > 0 && !StringOrder.Less(ts[n - 1].orderKey, t.orderKey) {
        return false;
      }
      forall i | 0 <= i < n
        ensures StringOrder.Less(ts[i].orderKey, t.orderKey)
      {
        if i < n - 1 {
          assert StringOrder.Less(ts[..n][i].orderKey, ts[..n][n - 1].orderKey);
          StringOrder.LessTransitive(ts[i].orderKey, ts[n - 1].orderKey, t.orderKey);
        }
      }
      ExtendValid(ts, n);
      seen := seen + {t.id};
    }
    assert ts[..|ts|] == ts;
    ok := true;
  }

  /** `validate_id`. */
  method ValidateId(s: string) returns (ok: bool)
    ensures ok <==> ValidId(s)
  {
    if s == "" || Utf8Length(s) > 512 { return false; }
    for i := 0 to |s|
      invariant forall j :: 0 <= j < i ==> !IsControl(s[j])
    {
      if IsControl(s[i]) { return false; }
    }
    ok := true;
  }

  /** `LaneKind::parse` and `LaneStatus::parse` accept. */
  method ParseKindAndStatus(kind: string, status: string) returns (ok: bool)
    ensures ok <==> kind in KINDS && status in STATUSES
  {
    ok := (kind == "assignment" || kind == "tracking")
          && (status == "idle" || status == "ready" || status == "working" || status == "waiting_for_review"
              || status == "feedback_available" || status == "waiting_for_decision" || status == "blocked"
              || status == "paused" || status == "closed");
  }

  /** The ids a lane carries besides those of its tickets. */
  method ValidateIds(l: Lane) returns (ok: bool)
    ensures ok <==> && ValidId(l.laneId) && ValidId(l.laneKey) && (l.owner.Some? ==> ValidId(l.owner.value))
                    && ValidId(l.updatedBy) && (l.active.Some? ==> ValidId(l.active.value))
  {
    ok := ValidateId(l.laneId);
    if !ok { return; }
    ok := ValidateId(l.laneKey);
    if !ok { return; }
    if l.owner.Some? {
      ok := ValidateId(l.owner.value);
      if !ok { return; }
    }
    ok := ValidateId(l.updatedBy);
    if !ok { return; }
    if l.active.Some? { ok := ValidateId(l.active.value); }
  }

  /** `Lane::validate`. */
  method ValidateLane(l: Lane) returns (ok: bool)
    ensures ok <==> ValidLane(l)
  {
    ok := ValidateIds(l);
    if !ok { return; }
    var longest := 16384;
    if Utf8Length(l.title) > longest || Utf8Length(l.description) > longest { return false; }
    if Utf8Length(l.statusReport) > longest || Utf8Length(l.reviewerFeedback) > longest { return false; }
    ok := ParseKindAndStatus(l.kind, l.status);
    if !ok { return; }
    ok := ValidateTickets(l.tickets);
    if !ok { return; }
    if l.active.Some? {
      for i := 0 to |l.tickets|
        invariant forall j :: 0 <= j < i ==> l.tickets[j].id != l.active.value
      {
        if l.tickets[i].id == l.active.value { return true; }
      }
      ok := false;
    }
  }

  lemma ExtendValid(ts: seq<Ticket>, n: nat)
    requires n < |ts| && TicketsValid(ts[..n])
    requires ValidId(ts[n].id) && OrderKey.Canonical(ts[n].orderKey)
    requires forall i :: 0 <= i < n ==> ts[i].id != ts[n].id && StringOrder.Less(ts[i].orderKey, ts[n].orderKey)
    ensures TicketsValid(ts[..n + 1])
  {
    var us := ts[..n + 1];
    forall i | 0 <= i < n
      ensures us[i] == ts[..n][i]
    {
    }
  }

  // ---- placement ---------------------------------------------------------------------------------

  datatype Placement = First | Last | Before(anchor: string) | After(anchor: string)

  /** `lane_ticket_placement`: an empty anchor counts as none; 0 means last. */
  function ParsePlacement(placement: int, anchor: Option<string>): (r: Result<Placement>) {
    var given := anchor.Some? && anchor.value != "";
    if placement == 0 || placement == 2 then (if given then Err else Ok(Last))
    else if placement == 1 then (if given then Err else Ok(First))
    else if placement == 3 then (if given then Ok(Before(anchor.value)) else Err)
    else if placement == 4 then (if given then Ok(After(anchor.value)) else Err)
    else Err
  }

  /** The index of the first ticket with this id. */
  function Position(ts: seq<Ticket>, id: string): (r: Option<nat>)
    ensures r.Some? <==> Has(ts, id)
    ensures r.Some? ==> r.value < |ts| && ts[r.value].id == id && forall i :: 0 <= i < r.value ==> ts[i].id != id
  {
    if ts == [] then None
    else if ts[0].id == id then Some(0)
    else
      var rest := Position(ts[1..], id);
      assert forall i | 0 < i < |ts| :: ts[i] == ts[1..][i - 1];
      if rest.Some? then Some(rest.value + 1) else None
  }

  /** Where a placement points; a missing anchor is an error. */
  function IndexOf(ts: seq<Ticket>, p: Placement): (r: Result<nat>)
    ensures r.Ok? ==> r.value <= |ts|
  {
    match p
    case First => Ok(0)
    case Last => Ok(|ts|)
    case Before(a) => (match Position(ts, a) case None => Err case Some(i) => Ok(i))
    case After(a) => (match Position(ts, a) case None => Err case Some(i) => Ok(i + 1))
  }

  function KeyAt(ts: seq<Ticket>, i: int): (r: Option<string>) {
    if 0 <= i < |ts| then Some(ts[i].orderKey) else None
  }

  /** The key minted for a ticket inserted at `i`, strictly between its new neighbours. */
  function MintKey(ts: seq<Ticket>, i: nat): (key: string)
    requires TicketsValid(ts) && i <= |ts|
    ensures OrderKey.Canonical(key)
    ensures i > 0 ==> StringOrder.Less(ts[i - 1].orderKey, key)
    ensures i < |ts| ==> StringOrder.Less(key, ts[i].orderKey)
  {
    var lo := if i > 0 then ts[i - 1].orderKey else "";
    OrderKey.Midkey(lo, KeyAt(ts, i))
  }

  function InsertAt(ts: seq<Ticket>, i: nat, t: Ticket): (r: seq<Ticket>)
    requires i <= |ts|
  {
    ts[..i] + [t] + ts[i..]
  }

  /** `place_lane_ticket`. */
  function Place(ts: seq<Ticket>, id: string, p: Placement): (r: Result<seq<Ticket>>)
    requires TicketsValid(ts)
  {
    if !ValidId(id) || Has(ts, id) then Err
    else
      match IndexOf(ts, p)
      case Err => Err
      case Ok(i) => Ok(InsertAt(ts, i, Ticket(id, MintKey(ts, i))))
  }

  lemma MintedOrder(ts: seq<Ticket>, i: nat, j: nat)
    requires TicketsValid(ts) && i <= |ts| && j < |ts|
    ensures j < i ==> StringOrder.Less(ts[j].orderKey, MintKey(ts, i))
    ensures i <= j ==> StringOrder.Less(MintKey(ts, i), ts[j].orderKey)
  {
    if j < i - 1 {
      StringOrder.LessTransitive(ts[j].orderKey, ts[i - 1].orderKey, MintKey(ts, i));
    }
    if i < j {
      StringOrder.LessTransitive(MintKey(ts, i), ts[i].orderKey, ts[j].orderKey);
    }
  }

  lemma InsertedAt(ts: seq<Ticket>, i: nat, t: Ticket, a: nat)
    requires i <= |ts| && a <= |ts|
    ensures InsertAt(ts, i, t)[a] == if a < i then ts[a] else if a == i then t else ts[a - 1]
  {
  }

  lemma PlacedPair(ts: seq<Ticket>, id: string, i: nat, a: nat, b: nat)
    requires TicketsValid(ts) && !Has(ts, id) && i <= |ts| && a < b <= |ts|
    ensures var r := InsertAt(ts, i, Ticket(id, MintKey(ts, i)));
            r[a].id != r[b].id && StringOrder.Less(r[a].orderKey, r[b].orderKey)
  {
    var t := Ticket(id, MintKey(ts, i));
    InsertedAt(ts, i, t, a);
    InsertedAt(ts, i, t, b);
    if a == i {
      MintedOrder(ts, i, b - 1);
    } else if b == i {
      MintedOrder(ts, i, a);
    }
  }

  /** A placement keeps the list valid. */
  lemma PlaceValid(ts: seq<Ticket>, id: string, i: nat)
    requires TicketsValid(ts) && ValidId(id) && !Has(ts, id) && i <= |ts|
    ensures TicketsValid(InsertAt(ts, i, Ticket(id, MintKey(ts, i))))
  {
    var t := Ticket(id, MintKey(ts, i));
    var r := InsertAt(ts, i, t);
    forall a, b | 0 <= a < b < |r|
      ensures r[a].id != r[b].id && StringOrder.Less(r[a].orderKey, r[b].orderKey)
    {
      PlacedPair(ts, id, i, a, b);
    }
    forall a | 0 <= a < |r|
      ensures ValidId(r[a].id) && OrderKey.Canonical(r[a].orderKey)
    {
      InsertedAt(ts, i, t, a);
    }
  }

  // ---- removal -----------------------------------------------------------------------------------

  /** `retain`: the tickets whose id differs. */
  function Retain(ts: seq<Ticket>, id: string): (r: seq<Ticket>) {
    if ts == [] then []
    else
      var n := |ts| - 1;
      Retain(ts[..n], id) + (if ts[n].id == id then [] else [ts[n]])
  }

  /** `x` stands before `y`. */
  predicate Precedes(ts: seq<Ticket>, x: string, y: string) {
    exists i, j :: 0 <= i < j < |ts| && ts[i].id == x && ts[j].id == y
  }

  lemma {:induction false} RetainHas(ts: seq<Ticket>, id: string, t: Ticket)
    ensures t in Retain(ts, id) <==> t in ts && t.id != id
  {
    if ts != [] {
      var n := |ts| - 1;
      RetainHas(ts[..n], id, t);
      assert ts == ts[..n] + [ts[n]];
    }
  }

  /** What holds of every ticket against a later one holds of the retained ones. */
  lemma {:induction false} RetainBelow(ts: seq<Ticket>, id: string, t: Ticket)
    requires forall i :: 0 <= i < |ts| ==> ts[i].id != t.id && StringOrder.Less(ts[i].orderKey, t.orderKey)
    ensures forall i :: 0 <= i < |Retain(ts, id)| ==>
              Retain(ts, id)[i].id != t.id && StringOrder.Less(Retain(ts, id)[i].orderKey, t.orderKey)
  {
    if ts != [] {
      RetainBelow(ts[..|ts| - 1], id, t);
    }
  }

  lemma {:induction false} SnocValid(r: seq<Ticket>, t: Ticket)
    requires TicketsValid(r) && ValidId(t.id) && OrderKey.Canonical(t.orderKey)
    requires forall i :: 0 <= i < |r| ==> r[i].id != t.id && StringOrder.Less(r[i].orderKey, t.orderKey)
    ensures TicketsValid(r + [t])
  {
    assert (r + [t])[..|r|] == r && (r + [t])[..|r| + 1] == r + [t];
    ExtendValid(r + [t], |r|);
  }

  lemma {:induction false} RetainValid(ts: seq<Ticket>, id: string)
    requires TicketsValid(ts)
    ensures TicketsValid(Retain(ts, id))
  {
    if ts != [] {
      var front, t := ts[..|ts| - 1], ts[|ts| - 1];
      RetainValid(front, id);
      RetainBelow(front, id, t);
      if t.id != id { SnocValid(Retain(front, id), t); }
    }
  }

  /** Removing an id keeps the others in order. */
  lemma {:induction false} RetainPrecedes(ts: seq<Ticket>, id: string, x: string, y: string)
    requires Precedes(ts, x, y) && x != id && y != id
    ensures Precedes(Retain(ts, id), x, y)
  {
    var i, j :| 0 <= i < j < |ts| && ts[i].id == x && ts[j].id == y;
    var n := |ts| - 1;
    var front, r := Retain(ts[..n], id), Retain(ts, id);
    if j < n {
      assert ts[..n][i].id == x && ts[..n][j].id == y;
      RetainPrecedes(ts[..n], id, x, y);
      var a, b :| 0 <= a < b < |front| && front[a].id == x && front[b].id == y;
      assert r[a] == front[a] && r[b] == front[b];
    } else {
      assert ts[..n][i] in ts[..n];
      RetainHas(ts[..n], id, ts[i]);
      var a :| 0 <= a < |front| && front[a] == ts[i];
      assert r[a].id == x && r[|front|].id == y;
    }
  }

  lemma InsertPrecedes(ts: seq<Ticket>, i: nat, t: Ticket, x: string, y: string)
    requires i <= |ts| && Precedes(ts, x, y)
    ensures Precedes(InsertAt(ts, i, t), x, y)
  {
    var a, b :| 0 <= a < b < |ts| && ts[a].id == x && ts[b].id == y;
    var r := InsertAt(ts, i, t);
    var a', b' := if a < i then a else a + 1, if b < i then b else b + 1;
    assert r[a'] == ts[a] && r[b'] == ts[b];
  }

  lemma {:induction false} RetainAbsent(ts: seq<Ticket>, id: string)
    requires !Has(ts, id)
    ensures Retain(ts, id) == ts
  {
    if ts != [] {
      var n := |ts| - 1;
      assert ts == ts[..n] + [ts[n]];
      assert forall i | 0 <= i < n :: ts[..n][i] == ts[i];
      RetainAbsent(ts[..n], id);
    }
  }

  lemma {:induction false} RetainAppend(a: seq<Ticket>, b: seq<Ticket>, id: string)
    ensures Retain(a + b, id) == Retain(a, id) + Retain(b, id)
  {
    if b == [] {
      assert a + b == a;
    } else {
      var n := |b| - 1;
      RetainAppend(a, b[..n], id);
      assert (a + b)[..|a + b| - 1] == a + b[..n];
    }
  }

  /** Removing a freshly placed ticket gives back the list as it was. */
  lemma PlaceThenRemove(ts: seq<Ticket>, id: string, p: Placement)
    requires TicketsValid(ts) && Place(ts, id, p).Ok?
    ensures Retain(Place(ts, id, p).value, id) == ts
  {
    var i := IndexOf(ts, p).value;
    InsertThenRemove(ts, i, Ticket(id, MintKey(ts, i)));
  }

  lemma SliceAbsent(ts: seq<Ticket>, i: nat, id: string)
    requires i <= |ts| && !Has(ts, id)
    ensures !Has(ts[..i], id) && !Has(ts[i..], id)
  {
    assert forall j | 0 <= j < i :: ts[..i][j] == ts[j];
    assert forall j | 0 <= j < |ts| - i :: ts[i..][j] == ts[i + j];
  }

  lemma InsertThenRemove(ts: seq<Ticket>, i: nat, t: Ticket)
    requires i <= |ts| && !Has(ts, t.id)
    ensures Retain(InsertAt(ts, i, t), t.id) == ts
  {
    var a, b := ts[..i], ts[i..];
    SliceAbsent(ts, i, t.id);
    RetainAbsent(a, t.id);
    RetainAbsent(b, t.id);
    RetainAppend(a + [t], b, t.id);
    RetainAppend(a, [t], t.id);
    assert [t][..0] == [];
    assert Retain([t], t.id) == [];
    assert a + b == ts;
  }

  /** The new ticket stands where the placement says. */
  lemma PlacedWhere(ts: seq<Ticket>, id: string, p: Placement)
    requires TicketsValid(ts) && Place(ts, id, p).Ok?
    ensures var r := Place(ts, id, p).value;
            match p
            case First => r[0].id == id
            case Last => r[|r| - 1].id == id
            case Before(a) => exists i :: 0 <= i < |r| - 1 && r[i].id == id && r[i + 1].id == a
            case After(a) => exists i :: 0 <= i < |r| - 1 && r[i].id == a && r[i + 1].id == id
  {
    var i := IndexOf(ts, p).value;
    var r := Place(ts, id, p).value;
    assert r[i].id == id;
    match p
    case First =>
    case Last =>
    case Before(a) => assert r[i + 1] == ts[i];
    case After(a) => assert r[i - 1] == ts[i - 1];
  }

  // ---- requests ----------------------------------------------------------------------------------

  datatype Fields = Fields(
    title: Option<string>,
    description: Option<string>,
    status: Option<string>,
    statusReport: Option<string>,
    reviewerFeedback: Option<string>)

  datatype Change =
    | Update(fields: Fields)
    | Add(ticket: string, placement: int, anchor: Option<string>)
    | Remove(ticket: string)

  datatype Request = Request(laneId: string, change: Change, who: string, now: nat)

  const NO_FIELDS := Fields(None, None, None, None, None)

  function Or(o: Option<string>, otherwise: string): (r: string) {
    if o.Some? then o.value else otherwise
  }

  function Stamped(l: Lane, who: string, now: nat): (r: Lane) {
    l.(updatedBy := who, updatedAt := now)
  }

  /** The closure passed to `mutate_lane`, on a copy of the stored lane. */
  function Mutate(l: Lane, c: Change, who: string, now: nat): (r: Result<Lane>)
    requires TicketsValid(l.tickets)
  {
    match c
    case Update(f) =>
      if f.status.Some? && f.status.value !in STATUSES then Err
      else
        Ok(Stamped(l.(title := Or(f.title, l.title), description := Or(f.description, l.description),
                      status := Or(f.status, l.status), statusReport := Or(f.statusReport, l.statusReport),
                      reviewerFeedback := Or(f.reviewerFeedback, l.reviewerFeedback)), who, now))
    case Add(id, placement, anchor) =>
      (match ParsePlacement(placement, anchor)
       case Err => Err
       case Ok(p) =>
         match Place(l.tickets, id, p)
         case Err => Err
         case Ok(ts) => Ok(Stamped(l.(tickets := ts), who, now)))
    case Remove(id) =>
      Ok(Stamped(l.(tickets := Retain(l.tickets, id), active := if l.active == Some(id) then None else l.active), who, now))
  }

  type LaneStore = map<string, Lane>

  predicate OpenAssignment(l: Lane) {
    l.kind == ASSIGNMENT && l.status != CLOSED
  }

  predicate SharesTicket(a: Lane, b: Lane) {
    exists i :: 0 <= i < |a.tickets| && Has(b.tickets, a.tickets[i].id)
  }

  /** `validate_assignment_lane_membership` against the stored lanes. */
  predicate MembershipFree(lanes: LaneStore, l: Lane) {
    OpenAssignment(l) ==>
      forall id :: id in lanes && id != l.laneId && OpenAssignment(lanes[id]) ==> !SharesTicket(lanes[id], l)
  }

  /** Whether some ticket of `a` is among the ids. */
  method AnyOf(a: Lane, ids: set<string>) returns (found: bool)
    ensures found <==> exists i :: 0 <= i < |a.tickets| && a.tickets[i].id in ids
  {
    for i := 0 to |a.tickets|
      invariant forall j :: 0 <= j < i ==> a.tickets[j].id !in ids
    {
      if a.tickets[i].id in ids { return true; }
    }
    found := false;
  }

  /** The loop of `validate_assignment_lane_membership` over the stored lanes. */
  method ValidateMembership(lanes: LaneStore, l: Lane) returns (ok: bool)
    requires forall id :: id in lanes ==> lanes[id].laneId == id
    ensures ok <==> MembershipFree(lanes, l)
  {
    if l.kind != "assignment" || l.status == "closed" { return true; }
    var ids := set i | 0 <= i < |l.tickets| :: l.tickets[i].id;
    if ids == {} {
      assert forall i :: 0 <= i < |l.tickets| ==> l.tickets[i].id in ids;
      return true;
    }
    var todo := lanes.Keys;
    while todo != {}
      invariant todo <= lanes.Keys
      invariant forall id :: id in lanes && id !in todo && id != l.laneId && OpenAssignment(lanes[id]) ==> !SharesTicket(lanes[id], l)
      decreases |todo|
    {
      var id :| id in todo;
      var o := lanes[id];
      todo := todo - {id};
      if o.laneId == l.laneId || o.kind != "assignment" || o.status == "closed" { continue; }
      var found := AnyOf(o, ids);
      assert found <==> SharesTicket(o, l);
      if found { return false; }
    }
    ok := true;
  }

  /** A failure of the engine before the put commits, or of the save after it. */
  datatype Fault = Sound | BeforePut | InSave

  /** One request: the stored lanes afterwards and whether the call returned without an error. */
  function Submit(lanes: LaneStore, q: Request, fault: Fault): (r: (LaneStore, bool))
    requires forall id :: id in lanes ==> ValidLane(lanes[id])
  {
    if q.change.Update? && q.change.fields == NO_FIELDS then (lanes, false)
    else if q.laneId !in lanes then (lanes, false)
    else
      assert ValidLane(lanes[q.laneId]);
      match Mutate(lanes[q.laneId], q.change, q.who, q.now)
      case Err => (lanes, false)
      case Ok(l) =>
        if fault.BeforePut? || !MembershipFree(lanes, l) || !ValidLane(l) then (lanes, false)
        else (lanes[q.laneId := l], fault.Sound?)
  }

  // ---- what requests keep ------------------------------------------------------------------------

  /** Every stored lane is filed under its id and valid; no ticket is in two open assignment lanes. */
  predicate Inv(lanes: LaneStore) {
    && (forall id :: id in lanes ==> lanes[id].laneId == id && ValidLane(lanes[id]))
    && (forall a, b :: a in lanes && b in lanes && a != b && OpenAssignment(lanes[a]) && OpenAssignment(lanes[b]) ==>
          !SharesTicket(lanes[a], lanes[b]))
  }

  lemma SharesSymmetric(a: Lane, b: Lane)
    requires SharesTicket(a, b)
    ensures SharesTicket(b, a)
  {
    var i :| 0 <= i < |a.tickets| && Has(b.tickets, a.tickets[i].id);
    var j :| 0 <= j < |b.tickets| && b.tickets[j].id == a.tickets[i].id;
    assert Has(a.tickets, b.tickets[j].id);
  }

  lemma PutKeepsInv(lanes: LaneStore, l: Lane)
    requires Inv(lanes) && ValidLane(l) && MembershipFree(lanes, l)
    ensures Inv(lanes[l.laneId := l])
  {
    var after := lanes[l.laneId := l];
    forall a, b | a in after && b in after && a != b && OpenAssignment(after[a]) && OpenAssignment(after[b])
      ensures !SharesTicket(after[a], after[b])
    {
      if SharesTicket(after[a], after[b]) {
        SharesSymmetric(after[a], after[b]);
      }
    }
  }

  lemma {:induction false} MutateKeepsId(l: Lane, change: Change, who: string, now: nat)
    requires ValidLane(l) && Mutate(l, change, who, now).Ok?
    ensures Mutate(l, change, who, now).value.laneId == l.laneId
  {
  }

  lemma {:induction false} SubmitKeepsInv(lanes: LaneStore, q: Request, fault: Fault)
    requires Inv(lanes)
    ensures Inv(Submit(lanes, q, fault).0)
  {
    if q.laneId in lanes && Mutate(lanes[q.laneId], q.change, q.who, q.now).Ok? {
      var l := Mutate(lanes[q.laneId], q.change, q.who, q.now).value;
      MutateKeepsId(lanes[q.laneId], q.change, q.who, q.now);
      if MembershipFree(lanes, l) && ValidLane(l) {
        PutKeepsInv(lanes, l);
      }
    }
  }

  /** Codes 0, 1 and 2 take no anchor, 3 and 4 one that is in the list; an empty anchor counts as none. */
  predicate PlacementFits(ts: seq<Ticket>, placement: int, anchor: Option<string>) {
    if anchor.None? || anchor.value == "" then placement in {0, 1, 2}
    else placement in {3, 4} && exists i :: 0 <= i < |ts| && ts[i].id == anchor.value
  }

  /** Another open assignment lane holds this ticket. */
  predicate HeldElsewhere(lanes: LaneStore, laneId: string, ticket: string) {
    exists o, i :: o in lanes && o != laneId && lanes[o].kind == "assignment" && lanes[o].status != "closed"
                   && 0 <= i < |lanes[o].tickets| && lanes[o].tickets[i].id == ticket
  }

  /** What a caller can check: the request's own arguments and the other lanes. */
  predicate Admissible(lanes: LaneStore, q: Request)
    requires forall id :: id in lanes ==> ValidLane(lanes[id])
  {
    && q.laneId in lanes && ValidId(q.who)
    && var l := lanes[q.laneId];
       match q.change
       case Update(f) =>
         && f != NO_FIELDS
         && (f.status.Some? ==> f.status.value in STATUSES)
         && (f.title.Some? ==> ValidProse(f.title.value)) && (f.description.Some? ==> ValidProse(f.description.value))
         && (f.statusReport.Some? ==> ValidProse(f.statusReport.value))
         && (f.reviewerFeedback.Some? ==> ValidProse(f.reviewerFeedback.value))
         && (l.kind == "assignment" && l.status == "closed" && f.status.Some? && f.status.value != "closed" ==>
               forall i :: 0 <= i < |l.tickets| ==> !HeldElsewhere(lanes, q.laneId, l.tickets[i].id))
       case Add(id, placement, anchor) =>
         && ValidId(id) && !Has(l.tickets, id)
         && PlacementFits(l.tickets, placement, anchor)
         && (l.kind == "assignment" && l.status != "closed" ==> !HeldElsewhere(lanes, q.laneId, id))
       case Remove(_) => true
  }

  /** A lane disjoint from `l` meets `l` with one more ticket only in that ticket. */
  lemma AddShares(o: Lane, l: Lane, l': Lane, i: nat, t: Ticket)
    requires !SharesTicket(o, l) && i <= |l.tickets| && l'.tickets == InsertAt(l.tickets, i, t)
    ensures SharesTicket(o, l') <==> Has(o.tickets, t.id)
  {
    InsertedAt(l.tickets, i, t, i);
    if Has(o.tickets, t.id) {
      var k :| 0 <= k < |o.tickets| && o.tickets[k].id == t.id;
      assert Has(l'.tickets, o.tickets[k].id);
    } else if SharesTicket(o, l') {
      var k :| 0 <= k < |o.tickets| && Has(l'.tickets, o.tickets[k].id);
      var j :| 0 <= j < |l'.tickets| && l'.tickets[j].id == o.tickets[k].id;
      InsertedAt(l.tickets, i, t, j);
      assert false;
    }
  }

  lemma PlacementExact(ts: seq<Ticket>, placement: int, anchor: Option<string>)
    ensures PlacementFits(ts, placement, anchor) <==>
            ParsePlacement(placement, anchor).Ok? && IndexOf(ts, ParsePlacement(placement, anchor).value).Ok?
  {
  }

  lemma HeldExact(lanes: LaneStore, laneId: string, ticket: string)
    ensures HeldElsewhere(lanes, laneId, ticket) <==>
            exists o :: o in lanes && o != laneId && OpenAssignment(lanes[o]) && Has(lanes[o].tickets, ticket)
  {
  }

  /** Adding a ticket to an exclusive set of lanes conflicts only through the new id. */
  lemma AddMembership(lanes: LaneStore, l: Lane, l': Lane, i: nat, t: Ticket)
    requires Inv(lanes) && l.laneId in lanes && lanes[l.laneId] == l && i <= |l.tickets|
    requires l'.laneId == l.laneId && l'.kind == l.kind && l'.status == l.status
    requires l'.tickets == InsertAt(l.tickets, i, t)
    ensures MembershipFree(lanes, l') <==> (OpenAssignment(l) ==> !HeldElsewhere(lanes, l.laneId, t.id))
  {
    HeldExact(lanes, l.laneId, t.id);
    forall o | o in lanes && o != l.laneId && OpenAssignment(lanes[o]) && OpenAssignment(l)
      ensures SharesTicket(lanes[o], l') <==> Has(lanes[o].tickets, t.id)
    {
      AddShares(lanes[o], l, l', i, t);
    }
  }

  lemma AddExact(lanes: LaneStore, q: Request)
    requires Inv(lanes) && q.change.Add?
    ensures Submit(lanes, q, Sound).1 <==> Admissible(lanes, q)
  {
    if q.laneId in lanes {
      var l := lanes[q.laneId];
      var m := Mutate(l, q.change, q.who, q.now);
      PlacementExact(l.tickets, q.change.placement, q.change.anchor);
      if m.Ok? {
        var p := ParsePlacement(q.change.placement, q.change.anchor).value;
        var i := IndexOf(l.tickets, p).value;
        var t := Ticket(q.change.ticket, MintKey(l.tickets, i));
        PlaceValid(l.tickets, q.change.ticket, i);
        AddMembership(lanes, l, m.value, i, t);
        if l.active.Some? {
          InsertHas(l.tickets, i, t, l.active.value);
        }
      }
    }
  }

  lemma InsertHas(ts: seq<Ticket>, i: nat, t: Ticket, id: string)
    requires i <= |ts| && Has(ts, id)
    ensures Has(InsertAt(ts, i, t), id)
  {
    var a :| 0 <= a < |ts| && ts[a].id == id;
    assert InsertAt(ts, i, t)[if a < i then a else a + 1] == ts[a];
  }

  lemma RemoveShares(o: Lane, l: Lane, l': Lane, id: string)
    requires !SharesTicket(o, l) && l'.tickets == Retain(l.tickets, id)
    ensures !SharesTicket(o, l')
  {
    if SharesTicket(o, l') {
      var k :| 0 <= k < |o.tickets| && Has(l'.tickets, o.tickets[k].id);
      var j :| 0 <= j < |l'.tickets| && l'.tickets[j].id == o.tickets[k].id;
      RetainHas(l.tickets, id, l'.tickets[j]);
      assert false;
    }
  }

  lemma RemoveExact(lanes: LaneStore, q: Request)
    requires Inv(lanes) && q.change.Remove?
    ensures Submit(lanes, q, Sound).1 <==> Admissible(lanes, q)
  {
    if q.laneId in lanes {
      var l, id := lanes[q.laneId], q.change.ticket;
      var m := Mutate(l, q.change, q.who, q.now).value;
      RetainValid(l.tickets, id);
      if m.active.Some? {
        var a :| 0 <= a < |l.tickets| && l.tickets[a].id == l.active.value;
        RetainHas(l.tickets, id, l.tickets[a]);
      }
      forall o | o in lanes && o != l.laneId && OpenAssignment(lanes[o]) && OpenAssignment(l)
        ensures !SharesTicket(lanes[o], m)
      {
        RemoveShares(lanes[o], l, m, id);
      }
    }
  }

  /** Only opening a closed assignment lane again can conflict. */
  lemma UpdateMembership(lanes: LaneStore, l: Lane, l': Lane)
    requires Inv(lanes) && l.laneId in lanes && lanes[l.laneId] == l
    requires l'.laneId == l.laneId && l'.kind == l.kind && l'.tickets == l.tickets
    ensures MembershipFree(lanes, l') <==>
            (!OpenAssignment(l) && OpenAssignment(l') ==> forall i :: 0 <= i < |l.tickets| ==> !HeldElsewhere(lanes, l.laneId, l.tickets[i].id))
  {
    forall o | o in lanes && o != l.laneId && OpenAssignment(lanes[o])
      ensures SharesTicket(lanes[o], l') <==> SharesTicket(l', lanes[o])
    {
      if SharesTicket(lanes[o], l') { SharesSymmetric(lanes[o], l'); }
      if SharesTicket(l', lanes[o]) { SharesSymmetric(l', lanes[o]); }
    }
    forall i | 0 <= i < |l.tickets|
      ensures HeldElsewhere(lanes, l.laneId, l.tickets[i].id) <==>
              exists o :: o in lanes && o != l.laneId && OpenAssignment(lanes[o]) && Has(lanes[o].tickets, l.tickets[i].id)
    {
      HeldExact(lanes, l.laneId, l.tickets[i].id);
    }
  }

  lemma UpdateExact(lanes: LaneStore, q: Request)
    requires Inv(lanes) && q.change.Update?
    ensures Submit(lanes, q, Sound).1 <==> Admissible(lanes, q)
  {
    if q.laneId in lanes {
      var m := Mutate(lanes[q.laneId], q.change, q.who, q.now);
      if m.Ok? {
        UpdateMembership(lanes, lanes[q.laneId], m.value);
      }
    }
  }

  /** A request succeeds, short of engine failures, if and only if it is admissible. */
  lemma SubmitExact(lanes: LaneStore, q: Request)
    requires Inv(lanes)
    ensures Submit(lanes, q, Sound).1 <==> Admissible(lanes, q)
  {
    match q.change
    case Update(_) => UpdateExact(lanes, q);
    case Add(_, _, _) => AddExact(lanes, q);
    case Remove(_) => RemoveExact(lanes, q);
  }

  // ---- what an accepted request stores -----------------------------------------------------------

  /** The other lanes, and of this lane its id, key, kind and owner, stay; who and when is stamped. */
  predicate StampedPut(lanes: LaneStore, q: Request, after: LaneStore) {
    && after.Keys == lanes.Keys && q.laneId in lanes
    && (forall o :: o in lanes && o != q.laneId ==> after[o] == lanes[o])
    && var l, m := lanes[q.laneId], after[q.laneId];
       && m.laneId == l.laneId && m.laneKey == l.laneKey && m.kind == l.kind && m.owner == l.owner
       && m.updatedBy == q.who && m.updatedAt == q.now
  }

  /** An admissible request puts the changed copy back. */
  lemma PutBack(lanes: LaneStore, q: Request, fault: Fault)
    requires Inv(lanes) && Admissible(lanes, q) && !fault.BeforePut?
    ensures var m := Mutate(lanes[q.laneId], q.change, q.who, q.now);
            m.Ok? && Submit(lanes, q, fault).0 == lanes[q.laneId := m.value]
  {
    SubmitExact(lanes, q);
  }

  /** An accepted update stores every given field and keeps every other. */
  lemma UpdateStores(lanes: LaneStore, q: Request, fault: Fault)
    requires Inv(lanes) && q.change.Update? && Admissible(lanes, q) && !fault.BeforePut?
    ensures var after := Submit(lanes, q, fault).0;
            && StampedPut(lanes, q, after)
            && var l, m, f := lanes[q.laneId], after[q.laneId], q.change.fields;
               && (m.title == match f.title case Some(v) => v case None => l.title)
               && (m.description == match f.description case Some(v) => v case None => l.description)
               && (m.status == match f.status case Some(v) => v case None => l.status)
               && (m.statusReport == match f.statusReport case Some(v) => v case None => l.statusReport)
               && (m.reviewerFeedback == match f.reviewerFeedback case Some(v) => v case None => l.reviewerFeedback)
               && m.tickets == l.tickets && m.active == l.active
  {
    PutBack(lanes, q, fault);
  }

  /** The texts and the status of a lane stay. */
  predicate SameTexts(l: Lane, m: Lane) {
    && m.title == l.title && m.description == l.description && m.status == l.status
    && m.statusReport == l.statusReport && m.reviewerFeedback == l.reviewerFeedback
  }

  /** Where a placement code points: 0 and 2 to the end, 1 to the front, 3 in front of the anchor, 4 behind it. */
  predicate PointsTo(ts: seq<Ticket>, placement: int, anchor: Option<string>, i: nat) {
    && i <= |ts|
    && (placement in {0, 2} ==> i == |ts|)
    && (placement == 1 ==> i == 0)
    && (placement == 3 ==> i < |ts| && Some(ts[i].id) == anchor)
    && (placement == 4 ==> i > 0 && Some(ts[i - 1].id) == anchor)
  }

  lemma CodeIndex(ts: seq<Ticket>, placement: int, anchor: Option<string>) returns (i: nat)
    requires PlacementFits(ts, placement, anchor)
    ensures PointsTo(ts, placement, anchor, i)
    ensures ParsePlacement(placement, anchor).Ok? && IndexOf(ts, ParsePlacement(placement, anchor).value) == Ok(i)
  {
    PlacementExact(ts, placement, anchor);
    i := IndexOf(ts, ParsePlacement(placement, anchor).value).value;
  }

  /** An accepted addition inserts the one ticket where its code says and keeps every other where it was. */
  lemma AddStores(lanes: LaneStore, q: Request, fault: Fault) returns (i: nat, t: Ticket)
    requires Inv(lanes) && q.change.Add? && Admissible(lanes, q) && !fault.BeforePut?
    ensures var after := Submit(lanes, q, fault).0;
            && StampedPut(lanes, q, after)
            && var l, m := lanes[q.laneId], after[q.laneId];
               && SameTexts(l, m) && m.active == l.active
               && PointsTo(l.tickets, q.change.placement, q.change.anchor, i)
               && m.tickets == l.tickets[..i] + [t] + l.tickets[i..] && t.id == q.change.ticket
  {
    PutBack(lanes, q, fault);
    var ts := lanes[q.laneId].tickets;
    i := CodeIndex(ts, q.change.placement, q.change.anchor);
    t := Ticket(q.change.ticket, MintKey(ts, i));
  }

  /** An accepted removal takes out the named ticket, active or not, and no other. */
  lemma RemoveStores(lanes: LaneStore, q: Request, fault: Fault)
    requires Inv(lanes) && q.change.Remove? && Admissible(lanes, q) && !fault.BeforePut?
    ensures var after := Submit(lanes, q, fault).0;
            && StampedPut(lanes, q, after)
            && var l, m, id := lanes[q.laneId], after[q.laneId], q.change.ticket;
               && SameTexts(l, m)
               && (forall t :: t in m.tickets <==> t in l.tickets && t.id != id)
               && (l.active == Some(id) ==> m.active.None?) && (l.active != Some(id) ==> m.active == l.active)
  {
    PutBack(lanes, q, fault);
    forall t
      ensures t in Retain(lanes[q.laneId].tickets, q.change.ticket) <==> t in lanes[q.laneId].tickets && t.id != q.change.ticket
    {
      RetainHas(lanes[q.laneId].tickets, q.change.ticket, t);
    }
  }

  /** A failed call leaves the stored lanes alone unless only its save failed; then the change is stored. */
  lemma FailureExact(lanes: LaneStore, q: Request, fault: Fault)
    requires Inv(lanes)
    ensures !Submit(lanes, q, fault).1 && !(fault.InSave? && Admissible(lanes, q)) ==> Submit(lanes, q, fault).0 == lanes
    ensures fault.InSave? ==> !Submit(lanes, q, fault).1 && Submit(lanes, q, fault).0 == Submit(lanes, q, Sound).0
  {
    SubmitExact(lanes, q);
  }

  // ---- runs --------------------------------------------------------------------------------------

  function Play(lanes: LaneStore, qs: seq<(Request, Fault)>): (r: LaneStore)
    requires Inv(lanes)
    ensures Inv(r)
    decreases |qs|
  {
    if qs == [] then lanes
    else
      SubmitKeepsInv(lanes, qs[0].0, qs[0].1);
      Play(Submit(lanes, qs[0].0, qs[0].1).0, qs[1..])
  }

  /** A run is its requests one after the other. */
  lemma {:induction false} PlaySnoc(lanes: LaneStore, qs: seq<(Request, Fault)>, q: Request, fault: Fault)
    requires Inv(lanes)
    ensures Play(lanes, qs + [(q, fault)]) == Submit(Play(lanes, qs), q, fault).0
    decreases |qs|
  {
    var all := qs + [(q, fault)];
    if qs == [] {
      assert all[1..] == [];
      SubmitKeepsInv(lanes, q, fault);
    } else {
      assert all[1..] == qs[1..] + [(q, fault)];
      SubmitKeepsInv(lanes, qs[0].0, qs[0].1);
      PlaySnoc(Submit(lanes, qs[0].0, qs[0].1).0, qs[1..], q, fault);
    }
  }

  lemma SubmitKeepsOrder(lanes: LaneStore, q: Request, fault: Fault, id: string, x: string, y: string)
    requires Inv(lanes) && id in lanes && Precedes(lanes[id].tickets, x, y)
    requires q.laneId == id && q.change.Remove? ==> q.change.ticket != x && q.change.ticket != y
    ensures id in Submit(lanes, q, fault).0 && Precedes(Submit(lanes, q, fault).0[id].tickets, x, y)
  {
    var after := Submit(lanes, q, fault).0;
    if q.laneId == id && after != lanes {
      var ts := lanes[id].tickets;
      match q.change
      case Update(_) =>
      case Add(t, placement, anchor) =>
        var i := IndexOf(ts, ParsePlacement(placement, anchor).value).value;
        InsertPrecedes(ts, i, Ticket(t, MintKey(ts, i)), x, y);
      case Remove(t) => RetainPrecedes(ts, t, x, y);
    }
  }

  /** Over any run, two tickets that no request removes keep their order in their lane. */
  lemma {:induction false} RunKeepsOrder(lanes: LaneStore, qs: seq<(Request, Fault)>, id: string, x: string, y: string)
    requires Inv(lanes) && id in lanes && Precedes(lanes[id].tickets, x, y)
    requires forall q | q in qs :: q.0.laneId == id && q.0.change.Remove? ==> q.0.change.ticket != x && q.0.change.ticket != y
    ensures id in Play(lanes, qs) && Precedes(Play(lanes, qs)[id].tickets, x, y)
    decreases |qs|
  {
    if qs != [] {
      assert qs[0] in qs;
      SubmitKeepsInv(lanes, qs[0].0, qs[0].1);
      SubmitKeepsOrder(lanes, qs[0].0, qs[0].1, id, x, y);
      RunKeepsOrder(Submit(lanes, qs[0].0, qs[0].1).0, qs[1..], id, x, y);
    }
  }

  /** Over any run, list order is key order, ids are distinct, and the active ticket, if any, is in the list. */
  lemma RunKeepsInv(lanes: LaneStore, qs: seq<(Request, Fault)>, id: string, i: nat, j: nat)
    requires Inv(lanes) && id in Play(lanes, qs)
    requires i < |Play(lanes, qs)[id].tickets| && j < |Play(lanes, qs)[id].tickets|
    ensures var ts := Play(lanes, qs)[id].tickets;
            && (i < j <==> StringOrder.Less(ts[i].orderKey, ts[j].orderKey))
            && (ts[i].id == ts[j].id <==> i == j)
    ensures var l := Play(lanes, qs)[id];
            l.active.Some? ==> Has(l.tickets, l.active.value)
  {
    var ts := Play(lanes, qs)[id].tickets;
    assert ValidLane(Play(lanes, qs)[id]);
    if i == j {
      StringOrder.LessIrreflexive(ts[i].orderKey);
    } else if j < i && StringOrder.Less(ts[i].orderKey, ts[j].orderKey) {
      StringOrder.LessTransitive(ts[i].orderKey, ts[j].orderKey, ts[i].orderKey);
      StringOrder.LessIrreflexive(ts[i].orderKey);
    }
  }
}

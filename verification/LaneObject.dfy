/**
 The lane as the binding changes it: fields assigned in place on the copy read from the store, ticket
 list rebuilt by loops. Each method is proved against the functions of Lanes.
 */
module LaneObject {
  import opened Prelude
  import opened Lanes
  import OrderKey

  class LaneRecord {
    const start: Lane
    var title: string
    var description: string
    var status: string
    var tickets: seq<Ticket>
    var active: Option<string>
    var statusReport: string
    var reviewerFeedback: string
    var updatedAt: nat
    var updatedBy: string

    function Value(): (l: Lane)
      reads this
    {
      start.(title := title, description := description, status := status, tickets := tickets, active := active,
             statusReport := statusReport, reviewerFeedback := reviewerFeedback, updatedAt := updatedAt,
             updatedBy := updatedBy)
    }

    constructor (l: Lane)
      ensures Value() == l
    {
      start := l;
      title, description, status, tickets, active := l.title, l.description, l.status, l.tickets, l.active;
      statusReport, reviewerFeedback := l.statusReport, l.reviewerFeedback;
      updatedAt, updatedBy := l.updatedAt, l.updatedBy;
    }

    method Stamp(who: string, now: nat)
      modifies this`updatedBy, this`updatedAt
      ensures Value() == Stamped(old(Value()), who, now)
    {
      updatedBy := who;
      updatedAt := now;
    }

    /** Fields are assigned one by one; a bad status stops half way, on the copy only. */
    method Update(f: Fields, who: string, now: nat) returns (ok: bool)
      requires TicketsValid(tickets)
      modifies this
      ensures var m := Mutate(old(Value()), Change.Update(f), who, now);
              ok == m.Ok? && (ok ==> Value() == m.value)
    {
      if f.title.Some? { title := f.title.value; }
      if f.description.Some? { description := f.description.value; }
      if f.status.Some? {
        if f.status.value !in STATUSES { return false; }
        status := f.status.value;
      }
      if f.statusReport.Some? { statusReport := f.statusReport.value; }
      if f.reviewerFeedback.Some? { reviewerFeedback := f.reviewerFeedback.value; }
      Stamp(who, now);
      ok := true;
    }

    /** The scan for the anchor. */
    method FindTicket(id: string) returns (r: Option<nat>)
      ensures r == Position(tickets, id)
    {
      for i := 0 to |tickets|
        invariant forall j :: 0 <= j < i ==> tickets[j].id != id
      {
        if tickets[i].id == id {
          return Some(i);
        }
      }
      r := None;
    }

    method FindIndex(p: Placement) returns (r: Result<nat>)
      ensures r == IndexOf(tickets, p)
    {
      match p {
        case First => r := Ok(0);
        case Last => r := Ok(|tickets|);
        case Before(a) =>
          var at := FindTicket(a);
          r := if at.None? then Err else Ok(at.value);
        case After(a) =>
          var at := FindTicket(a);
          r := if at.None? then Err else Ok(at.value + 1);
      }
    }

    /** Mint a key between the new neighbours and insert. */
    method InsertTicket(id: string, index: nat)
      requires TicketsValid(tickets) && index <= |tickets|
      modifies this`tickets
      ensures tickets == InsertAt(old(tickets), index, Ticket(id, MintKey(old(tickets), index)))
    {
      var lo := if index > 0 then tickets[index - 1].orderKey else "";
      var key := OrderKey.KeyBetween(lo, KeyAt(tickets, index));
      tickets := tickets[..index] + [Ticket(id, key)] + tickets[index..];
    }

    method AddTicket(id: string, placement: int, anchor: Option<string>, who: string, now: nat) returns (ok: bool)
      requires TicketsValid(tickets)
      modifies this
      ensures var m := Mutate(old(Value()), Add(id, placement, anchor), who, now);
              ok == m.Ok? && Value() == if ok then m.value else old(Value())
    {
      var parsed := ParsePlacement(placement, anchor);
      if parsed.Err? || !ValidId(id) { return false; }
      var present := FindTicket(id);
      if present.Some? { return false; }
      var index := FindIndex(parsed.value);
      if index.Err? { return false; }
      InsertTicket(id, index.value);
      Stamp(who, now);
      ok := true;
    }

    method RemoveTicket(id: string, who: string, now: nat)
      requires TicketsValid(tickets)
      modifies this
      ensures Mutate(old(Value()), Remove(id), who, now) == Ok(Value())
    {
      var kept: seq<Ticket> := [];
      for i := 0 to |tickets|
        invariant Value() == old(Value())
        invariant kept == Retain(tickets[..i], id)
      {
        assert tickets[..i + 1][..i] == tickets[..i];
        if tickets[i].id != id {
          kept := kept + [tickets[i]];
        }
      }
      assert tickets[..|tickets|] == tickets;
      tickets := kept;
      if active == Some(id) {
        active := None;
      }
      Stamp(who, now);
    }
  }
}

/**
 The paging loop over the Granola API (`api_documents`): pages of 100 until one is short.
 */
module Paging {
  import opened Prelude
  import opened PyValues

  const LIMIT: nat := 100

  /** What the server answers at an offset: the slice of its list, or an HTTP error, or a `docs` that is no list. */
  datatype Answer = HttpError | NoList | Docs(page: seq<Value>)

  function Min(a: nat, b: nat): (m: nat) {
    if a < b then a else b
  }

  function Slice(server: seq<Value>, offset: nat): (page: seq<Value>) {
    if offset >= |server| then [] else server[offset..Min(offset + LIMIT, |server|)]
  }

  /** `broken` tells at which offsets the request or its answer is unusable. */
  function Respond(server: seq<Value>, broken: nat -> Option<Answer>, offset: nat): (a: Answer) {
    var b := broken(offset);
    if b.Some? then b.value else Docs(Slice(server, offset))
  }

  ghost predicate OnlyErrors(broken: nat -> Option<Answer>) {
    forall o :: broken(o).Some? ==> !broken(o).value.Docs?
  }

  lemma {:induction false} DictsAppend(a: seq<Value>, b: seq<Value>)
    ensures Dicts(a + b) == Dicts(a) + Dicts(b)
  {
    if a == [] {
      assert a + b == b;
    } else {
      DictsAppend(a[1..], b);
      assert (a + b)[1..] == a[1..] + b;
    }
  }

  /** The offsets the loop reaches when nothing is broken: the multiples of 100 up to the length. */
  predicate Reached(server: seq<Value>, offset: nat) {
    offset % LIMIT == 0 && offset <= |server|
  }

  /** For a list of any length, served in slices: every object of the list once, in order, after
      `n / 100 + 1` requests, also when the length is a multiple of 100. It fails exactly when one of those
      requests does. */
  method ApiDocuments(server: seq<Value>, broken: nat -> Option<Answer>)
    returns (r: Result<seq<seq<Pair>>>, requests: nat)
    requires OnlyErrors(broken)
    ensures 1 <= requests
    ensures r.Ok? <==> forall o: nat :: Reached(server, o) ==> broken(o).None?
    ensures r.Ok? ==> r.value == Dicts(server) && requests == |server| / LIMIT + 1
    ensures r.Err? ==> Reached(server, (requests - 1) * LIMIT) && broken((requests - 1) * LIMIT).Some?
  {
    var documents: seq<seq<Pair>> := [];
    var offset := 0;
    requests := 0;
    while true
      invariant offset == requests * LIMIT && Reached(server, offset)
      invariant documents == Dicts(server[..offset])
      invariant forall o: nat :: o < offset && Reached(server, o) ==> broken(o).None?
      decreases |server| - offset
    {
      var answer := Respond(server, broken, offset);
      requests := requests + 1;
      if !answer.Docs? { return Err, requests; }
      var page := answer.page;
      ghost var next := offset + |page|;
      DictsAppend(server[..offset], page);
      assert server[..next] == server[..offset] + page;
      var objects := ListRecords(page);
      documents := documents + objects;
      if |page| < LIMIT {
        assert next == |server| && server[..next] == server;
        LastPage(|server|, offset);
        break;
      }
      NextOffset(offset);
      offset := offset + LIMIT;
    }
    r := Ok(documents);
  }

  /** A short page ends the list: its offset is the last multiple of 100 reached. */
  lemma {:induction false} LastPage(n: nat, offset: nat)
    requires offset % LIMIT == 0 && offset <= n < offset + LIMIT
    ensures n / LIMIT == offset / LIMIT
    ensures forall o: nat :: o % LIMIT == 0 && o <= n ==> o <= offset
  {
    forall o: nat | o % LIMIT == 0 && o <= n
      ensures o <= offset
    {
      assert o == o / LIMIT * LIMIT && offset == offset / LIMIT * LIMIT;
    }
  }

  lemma {:induction false} NextOffset(offset: nat)
    requires offset % LIMIT == 0
    ensures forall o: nat :: o % LIMIT == 0 && o < offset + LIMIT ==> o <= offset
  {
    forall o: nat | o % LIMIT == 0 && o < offset + LIMIT
      ensures o <= offset
    {
      assert o == o / LIMIT * LIMIT && offset == offset / LIMIT * LIMIT;
    }
  }
}

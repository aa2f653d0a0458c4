/**
 Granola snapshots: building one from a cache (`build_snapshot`) and combining several (`combine_snapshots`).

 `Regroup` says that combining does not depend on how the snapshots were grouped beforehand, and
 `CombineNormal` what a combination of two or more contains. `BuildCovers` and `CombineCovers` together say
 that every item without spans has its missing-transcript gap listed.
 */
module Snapshots {
  import opened Prelude
  import opened PyValues
  import opened StringOrder
  import opened Transcripts

  /** A meeting; `document` and `transcript` are the sidecar the remaining fields are read from. */
  datatype Item = Item(id: string, spans: seq<Span>, document: Value, transcript: Value)

  datatype Snapshot = Snapshot(items: seq<Item>, gaps: seq<string>)

  // ---- the last item under an id -----------------------------------------------------------------

  /** What a dictionary holds under `id` after the items were stored one after the other. */
  function Last(items: seq<Item>, id: string): (r: Option<Item>)
    ensures r.Some? ==> r.value.id == id && r.value in items
  {
    if items == [] then None
    else if items[|items| - 1].id == id then Some(items[|items| - 1])
    else Last(items[..|items| - 1], id)
  }

  function IdsOf(items: seq<Item>): (ids: seq<string>) {
    seq(|items|, i requires 0 <= i < |items| => items[i].id)
  }

  lemma {:induction false} LastSnoc(items: seq<Item>, x: Item, id: string)
    ensures Last(items + [x], id) == if x.id == id then Some(x) else Last(items, id)
  {
    assert (items + [x])[..|items|] == items;
  }

  lemma {:induction false} LastAppend(a: seq<Item>, b: seq<Item>, id: string)
    ensures Last(a + b, id) == if Last(b, id).Some? then Last(b, id) else Last(a, id)
  {
    if b == [] {
      assert a + b == a;
    } else {
      var init, x := b[..|b| - 1], b[|b| - 1];
      LastAppend(a, init, id);
      assert a + b == (a + init) + [x] && b == init + [x];
      LastSnoc(a + init, x, id);
    }
  }

  lemma {:induction false} LastExists(items: seq<Item>, id: string)
    ensures Last(items, id).Some? <==> id in IdsOf(items)
  {
    if items != [] {
      var init, x := items[..|items| - 1], items[|items| - 1];
      LastExists(init, id);
      assert IdsOf(items) == IdsOf(init) + [x.id];
    }
  }

  // ---- combining ---------------------------------------------------------------------------------

  function AllItems(snapshots: seq<Snapshot>): (r: seq<Item>) {
    if snapshots == [] then [] else snapshots[0].items + AllItems(snapshots[1..])
  }

  function AllGaps(snapshots: seq<Snapshot>): (r: seq<string>) {
    if snapshots == [] then [] else snapshots[0].gaps + AllGaps(snapshots[1..])
  }

  /** The last item under each id. */
  function Pick(ids: seq<string>, items: seq<Item>): (r: seq<Item>)
    requires forall k :: k in ids ==> Last(items, k).Some?
    ensures |r| == |ids|
  {
    seq(|ids|, i requires 0 <= i < |ids| => assert ids[i] in ids; Last(items, ids[i]).value)
  }

  function LastItems(items: seq<Item>): (r: seq<Item>) {
    SortedSetSpec(IdsOf(items));
    assert forall k :: k in SortedSet(IdsOf(items)) ==> Last(items, k).Some? by {
      forall k | k in SortedSet(IdsOf(items)) ensures Last(items, k).Some? { LastExists(items, k); }
    }
    Pick(SortedSet(IdsOf(items)), items)
  }

  /** `combine_snapshots`: a single snapshot is returned as it is. */
  function Combine(snapshots: seq<Snapshot>): (r: Snapshot)
    requires snapshots != []
  {
    if |snapshots| == 1 then snapshots[0]
    else Snapshot(LastItems(AllItems(snapshots)), SortedSet(AllGaps(snapshots)))
  }

  lemma {:induction false} AllSnoc(snapshots: seq<Snapshot>, s: Snapshot)
    ensures AllItems(snapshots + [s]) == AllItems(snapshots) + s.items
    ensures AllGaps(snapshots + [s]) == AllGaps(snapshots) + s.gaps
  {
    if snapshots == [] {
      assert snapshots + [s] == [s] && [s][1..] == [];
    } else {
      AllSnoc(snapshots[1..], s);
      assert (snapshots + [s])[1..] == snapshots[1..] + [s];
      AppendAssoc(snapshots[0].items, AllItems(snapshots[1..]), s.items);
      AppendAssoc(snapshots[0].gaps, AllGaps(snapshots[1..]), s.gaps);
    }
  }

  /** The dictionary as the loops leave it. */
  ghost predicate Holds(d: map<string, Item>, items: seq<Item>) {
    forall id :: (id in d <==> Last(items, id).Some?) && (id in d ==> Some(d[id]) == Last(items, id))
  }

  method Store(d0: map<string, Item>, items: seq<Item>, ghost before: seq<Item>) returns (d: map<string, Item>)
    requires Holds(d0, before)
    ensures Holds(d, before + items)
  {
    d := d0;
    assert before + items[..0] == before;
    for i := 0 to |items|
      invariant Holds(d, before + items[..i])
    {
      var item := items[i];
      d := d[item.id := item];
      assert before + items[..i + 1] == (before + items[..i]) + [item];
      forall id { LastSnoc(before + items[..i], item, id); }
    }
    assert items[..|items|] == items;
  }

  /** `sorted(d)`. */
  method SortedKeys(keys: set<string>) returns (r: seq<string>)
    ensures StrictlySorted(r) && forall k :: k in r <==> k in keys
  {
    r := [];
    var left := keys;
    while left != {}
      invariant left <= keys && StrictlySorted(r)
      invariant forall k :: k in r <==> k in keys - left
      decreases |left|
    {
      var k :| k in left;
      InsertSorted(r, k);
      forall x { InsertMembers(r, k, x); }
      r, left := Insert(r, k), left - {k};
    }
  }

  method ItemsInOrder(d: map<string, Item>, ghost items: seq<Item>) returns (r: seq<Item>)
    requires Holds(d, items)
    ensures r == LastItems(items)
  {
    var keys := SortedKeys(d.Keys);
    SortedSetSpec(IdsOf(items));
    forall k { LastExists(items, k); }
    SortedUnique(keys, SortedSet(IdsOf(items)));
    r := [];
    for i := 0 to |keys|
      invariant |r| == i && forall j :: 0 <= j < i ==> r[j] == LastItems(items)[j]
    {
      assert keys[i] in keys;
      r := r + [d[keys[i]]];
    }
  }

  method CombineSnapshots(snapshots: seq<Snapshot>) returns (r: Snapshot)
    requires snapshots != []
    ensures r == Combine(snapshots)
  {
    if |snapshots| == 1 { return snapshots[0]; }
    var items: map<string, Item> := map[];
    var gaps: seq<string> := [];
    for i := 0 to |snapshots|
      invariant Holds(items, AllItems(snapshots[..i])) && gaps == AllGaps(snapshots[..i])
    {
      assert snapshots[..i + 1] == snapshots[..i] + [snapshots[i]];
      AllSnoc(snapshots[..i], snapshots[i]);
      items := Store(items, snapshots[i].items, AllItems(snapshots[..i]));
      gaps := gaps + snapshots[i].gaps;
    }
    assert snapshots[..|snapshots|] == snapshots;
    var ordered := ItemsInOrder(items, AllItems(snapshots));
    r := Snapshot(ordered, SortedSet(gaps));
  }

  // ---- what a combination contains ---------------------------------------------------------------

  lemma {:induction false} LastItemsSpec(items: seq<Item>)
    ensures IdsOf(LastItems(items)) == SortedSet(IdsOf(items))
    ensures forall i :: 0 <= i < |LastItems(items)| ==> Some(LastItems(items)[i]) == Last(items, LastItems(items)[i].id)
  {
    SortedSetSpec(IdsOf(items));
    forall k { LastExists(items, k); }
  }

  /** Two or more: the ids are strictly ascending and are the union of the ids supplied, each item is the last
      one supplied under its id, and the gaps are the distinct gaps supplied, ascending. */
  lemma {:induction false} CombineNormal(snapshots: seq<Snapshot>)
    requires |snapshots| >= 2
    ensures var r := Combine(snapshots);
            && StrictlySorted(IdsOf(r.items))
            && (forall id :: id in IdsOf(r.items) <==> id in IdsOf(AllItems(snapshots)))
            && (forall i :: 0 <= i < |r.items| ==> Some(r.items[i]) == Last(AllItems(snapshots), r.items[i].id))
            && StrictlySorted(r.gaps) && (forall g :: g in r.gaps <==> g in AllGaps(snapshots))
  {
    LastItemsSpec(AllItems(snapshots));
    SortedSetSpec(IdsOf(AllItems(snapshots)));
    SortedSetSpec(AllGaps(snapshots));
  }

  // ---- grouping ----------------------------------------------------------------------------------

  function Flatten(groups: seq<seq<Snapshot>>): (r: seq<Snapshot>) {
    if groups == [] then [] else groups[0] + Flatten(groups[1..])
  }

  function CombineEach(groups: seq<seq<Snapshot>>): (r: seq<Snapshot>)
    requires forall i :: 0 <= i < |groups| ==> groups[i] != []
    ensures |r| == |groups|
  {
    if groups == [] then [] else [Combine(groups[0])] + CombineEach(groups[1..])
  }

  lemma {:induction false} AllAppend(a: seq<Snapshot>, b: seq<Snapshot>)
    ensures AllItems(a + b) == AllItems(a) + AllItems(b)
    ensures AllGaps(a + b) == AllGaps(a) + AllGaps(b)
  {
    if a == [] {
      assert a + b == b;
    } else {
      AllAppend(a[1..], b);
      assert (a + b)[1..] == a[1..] + b;
      AppendAssoc(a[0].items, AllItems(a[1..]), AllItems(b));
      AppendAssoc(a[0].gaps, AllGaps(a[1..]), AllGaps(b));
    }
  }

  /** Combining a group does not change what is last under an id. */
  lemma {:induction false} GroupLast(group: seq<Snapshot>, id: string)
    requires group != []
    ensures Last(Combine(group).items, id) == Last(AllItems(group), id)
  {
    if |group| == 1 {
      assert group[1..] == [] && AllItems(group) == group[0].items + [] == group[0].items;
    } else {
      var src := AllItems(group);
      LastItemsSpec(src);
      SortedSetSpec(IdsOf(src));
      LastExists(src, id);
      LastExists(LastItems(src), id);
      if Last(LastItems(src), id).Some? {
        var i :| 0 <= i < |LastItems(src)| && LastItems(src)[i] == Last(LastItems(src), id).value;
      }
    }
  }

  lemma {:induction false} GroupGaps(group: seq<Snapshot>, g: string)
    requires group != []
    ensures g in Combine(group).gaps <==> g in AllGaps(group)
  {
    if |group| == 1 {
      assert group[1..] == [] && AllGaps(group) == group[0].gaps + [];
    } else {
      SortedSetSpec(AllGaps(group));
    }
  }

  lemma {:induction false} EachLast(groups: seq<seq<Snapshot>>, id: string)
    requires forall i :: 0 <= i < |groups| ==> groups[i] != []
    ensures Last(AllItems(CombineEach(groups)), id) == Last(AllItems(Flatten(groups)), id)
  {
    if groups != [] {
      var first, rest := groups[0], groups[1..];
      EachLast(rest, id);
      GroupLast(first, id);
      AllAppend(first, Flatten(rest));
      AllAppend([Combine(first)], CombineEach(rest));
      assert [Combine(first)][1..] == [] && AllItems([Combine(first)]) == Combine(first).items + [];
      LastAppend(Combine(first).items, AllItems(CombineEach(rest)), id);
      LastAppend(AllItems(first), AllItems(Flatten(rest)), id);
    }
  }

  lemma {:induction false} EachGaps(groups: seq<seq<Snapshot>>, g: string)
    requires forall i :: 0 <= i < |groups| ==> groups[i] != []
    ensures g in AllGaps(CombineEach(groups)) <==> g in AllGaps(Flatten(groups))
  {
    if groups != [] {
      var first, rest := groups[0], groups[1..];
      EachGaps(rest, g);
      GroupGaps(first, g);
      AllAppend(first, Flatten(rest));
      AllAppend([Combine(first)], CombineEach(rest));
      assert [Combine(first)][1..] == [] && AllGaps([Combine(first)]) == Combine(first).gaps + [];
    }
  }

  /** Item lists with the same last items have the same combination. */
  lemma {:induction false} SameLast(a: seq<Item>, b: seq<Item>)
    requires forall id :: Last(a, id) == Last(b, id)
    ensures LastItems(a) == LastItems(b)
  {
    SortedSetSpec(IdsOf(a));
    SortedSetSpec(IdsOf(b));
    forall k
      ensures k in IdsOf(a) <==> k in IdsOf(b)
    {
      LastExists(a, k);
      LastExists(b, k);
    }
    SortedUnique(SortedSet(IdsOf(a)), SortedSet(IdsOf(b)));
  }

  lemma {:induction false} FlattenLength(groups: seq<seq<Snapshot>>)
    requires forall i :: 0 <= i < |groups| ==> groups[i] != []
    ensures |Flatten(groups)| >= |groups|
  {
    if groups != [] { FlattenLength(groups[1..]); }
  }

  /** Combining pre-combined groups is combining everything at once. */
  lemma {:induction false} Regroup(groups: seq<seq<Snapshot>>)
    requires groups != [] && forall i :: 0 <= i < |groups| ==> groups[i] != []
    ensures Flatten(groups) != [] && Combine(CombineEach(groups)) == Combine(Flatten(groups))
  {
    FlattenLength(groups);
    var each, all := CombineEach(groups), Flatten(groups);
    if |groups| == 1 {
      assert groups[1..] == [] && all == groups[0];
    } else {
      forall id { EachLast(groups, id); }
      SameLast(AllItems(each), AllItems(all));
      forall g { EachGaps(groups, g); }
      SortedSetSpec(AllGaps(each));
      SortedSetSpec(AllGaps(all));
      SortedUnique(SortedSet(AllGaps(each)), SortedSet(AllGaps(all)));
    }
  }

  // ---- building one from a cache -----------------------------------------------------------------

  function MissingTranscript(id: string): (gap: string) {
    "missing-transcript:" + id
  }

  function DocumentId(d: seq<Pair>): (v: Value) {
    FirstValue(d, ["id", "note_id", "noteId", "document_id", "documentId"])
  }

  /** The documents and shared documents, or the notes when there are none. */
  function Documents(state: seq<Pair>): (r: seq<seq<Pair>>) {
    var docs := AsRecords(Get(state, "documents")) + AsRecords(Get(state, "sharedDocuments"));
    if docs == [] then AsRecords(Get(state, "notes")) else docs
  }

  function TranscriptTable(state: seq<Pair>): (r: seq<Pair>) {
    var t := Get(state, "transcripts");
    if t.PyDict? then t.entries else []
  }

  function TranscriptOf(d: seq<Pair>, table: seq<Pair>, id: string): (v: Value) {
    var own := Get(d, "transcript");
    if own == PyNone then Get(table, id) else own
  }

  /** `find` is how a document's id is looked up. */
  function ItemOf(d: seq<Pair>, find: seq<Pair> -> Value, table: seq<Pair>, repr: Value -> string): (i: Item) {
    var id := Show(find(d), repr);
    var transcript := TranscriptOf(d, table, id);
    Item(id, Spans(id, transcript, repr), PyDict(d), transcript)
  }

  function ItemsOf(docs: seq<seq<Pair>>, find: seq<Pair> -> Value, table: seq<Pair>, repr: Value -> string): (r: seq<Item>)
    ensures |r| == |docs|
  {
    seq(|docs|, i requires 0 <= i < |docs| => ItemOf(docs[i], find, table, repr))
  }

  function GapOf(x: Item): (r: seq<string>) {
    if x.spans == [] then [MissingTranscript(x.id)] else []
  }

  /** The gaps of the items, in item order and with repetitions. */
  function GapsOf(items: seq<Item>): (r: seq<string>) {
    if items == [] then [] else GapsOf(items[..|items| - 1]) + GapOf(items[|items| - 1])
  }

  lemma {:induction false} GapsSnoc(items: seq<Item>, x: Item)
    ensures GapsOf(items + [x]) == GapsOf(items) + GapOf(x)
  {
    assert (items + [x])[..|items|] == items;
  }

  /** Put an item before the first one whose id is not smaller. */
  function InsertItem(x: Item, s: seq<Item>): (r: seq<Item>) {
    if s == [] then [x]
    else if Less(s[0].id, x.id) then [s[0]] + InsertItem(x, s[1..])
    else [x] + s
  }

  /** A stable sort by id. */
  function SortItems(items: seq<Item>): (r: seq<Item>) {
    if items == [] then [] else InsertItem(items[0], SortItems(items[1..]))
  }

  function BuildFrom(docs: seq<seq<Pair>>, find: seq<Pair> -> Value, table: seq<Pair>, repr: Value -> string)
    : (r: Result<Snapshot>)
  {
    if exists i :: 0 <= i < |docs| && find(docs[i]) == PyNone then Err
    else
      var items := ItemsOf(docs, find, table, repr);
      Ok(Snapshot(SortItems(items), GapsOf(items)))
  }

  /** `build_snapshot`: fails when a document has no usable id. */
  function Build(state: seq<Pair>, repr: Value -> string): (r: Result<Snapshot>) {
    BuildFrom(Documents(state), DocumentId, TranscriptTable(state), repr)
  }

  function Doc(docs: seq<seq<Pair>>, i: nat): (d: seq<Pair>)
    requires i < |docs|
  {
    docs[i]
  }

  /** The items are those of the first documents. */
  ghost predicate Made(items: seq<Item>, docs: seq<seq<Pair>>, find: seq<Pair> -> Value, table: seq<Pair>,
                       repr: Value -> string)
  {
    && |items| <= |docs|
    && forall j {:trigger Doc(docs, j)} :: 0 <= j < |items| ==> items[j] == ItemOf(Doc(docs, j), find, table, repr)
  }

  /** The item of one document. */
  method BuildItem(docs: seq<seq<Pair>>, i: nat, find: seq<Pair> -> Value, table: seq<Pair>, repr: Value -> string)
    returns (item: Item)
    requires i < |docs|
    ensures forall j {:trigger Doc(docs, j)} :: j == i ==> item == ItemOf(Doc(docs, j), find, table, repr)
  {
    var id := Show(find(docs[i]), repr);
    var transcript := Get(docs[i], "transcript");
    if transcript == PyNone { transcript := Get(table, id); }
    var spans := TranscriptSpans(id, transcript, repr);
    item := Item(id, spans, PyDict(docs[i]), transcript);
  }

  /** One turn of the loop over the documents. */
  method BuildStep(docs: seq<seq<Pair>>, find: seq<Pair> -> Value, table: seq<Pair>, repr: Value -> string,
                   items0: seq<Item>, gaps0: seq<string>) returns (items: seq<Item>, gaps: seq<string>)
    requires |items0| < |docs| && Made(items0, docs, find, table, repr) && gaps0 == GapsOf(items0)
    ensures |items| == |items0| + 1 && Made(items, docs, find, table, repr) && gaps == GapsOf(items)
  {
    var item := BuildItem(docs, |items0|, find, table, repr);
    gaps := gaps0;
    if item.spans == [] { gaps := gaps + [MissingTranscript(item.id)]; }
    GapsSnoc(items0, item);
    items := items0 + [item];
  }

  /** The loop over the documents; it stops at the first one without a usable id. */
  method BuildAll(docs: seq<seq<Pair>>, find: seq<Pair> -> Value, table: seq<Pair>, repr: Value -> string)
    returns (ok: bool, items: seq<Item>, gaps: seq<string>)
    ensures ok <==> forall i :: 0 <= i < |docs| ==> find(docs[i]) != PyNone
    ensures ok ==> |items| == |docs| && Made(items, docs, find, table, repr) && gaps == GapsOf(items)
  {
    items, gaps := [], [];
    for i := 0 to |docs|
      invariant forall j :: 0 <= j < i ==> find(docs[j]) != PyNone
      invariant |items| == i && Made(items, docs, find, table, repr) && gaps == GapsOf(items)
    {
      if find(docs[i]) == PyNone { return false, items, gaps; }
      items, gaps := BuildStep(docs, find, table, repr, items, gaps);
    }
    ok := true;
  }

  lemma {:induction false} MadeAll(items: seq<Item>, docs: seq<seq<Pair>>, find: seq<Pair> -> Value, table: seq<Pair>,
                                   repr: Value -> string)
    requires |items| == |docs| && Made(items, docs, find, table, repr)
    ensures items == ItemsOf(docs, find, table, repr)
  {
    forall j | 0 <= j < |docs|
      ensures items[j] == ItemsOf(docs, find, table, repr)[j]
    {
      assert Doc(docs, j) == docs[j];
    }
  }

  method BuildSnapshot(state: seq<Pair>, repr: Value -> string) returns (r: Result<Snapshot>)
    ensures r == Build(state, repr)
  {
    var docs := Records(Get(state, "documents"));
    var shared := Records(Get(state, "sharedDocuments"));
    docs := docs + shared;
    if docs == [] { docs := Records(Get(state, "notes")); }
    var transcripts := Get(state, "transcripts");
    var table := if transcripts.PyDict? then transcripts.entries else [];
    var ok, items, gaps := BuildAll(docs, DocumentId, table, repr);
    if !ok { return Err; }
    MadeAll(items, docs, DocumentId, table, repr);
    r := Ok(Snapshot(SortItems(items), gaps));
  }

  /** Which documents are built: those of "documents", then those of "sharedDocuments"; those of "notes" only
      when there are neither. */
  lemma {:induction false} DocumentsExact(state: seq<Pair>, i: nat)
    ensures var own, shared := AsRecords(Get(state, "documents")), AsRecords(Get(state, "sharedDocuments"));
            var docs := Documents(state);
            && (own != [] || shared != [] ==> |docs| == |own| + |shared|)
            && (i < |own| ==> i < |docs| && docs[i] == own[i])
            && (i < |shared| ==> |own| + i < |docs| && docs[|own| + i] == shared[i])
            && (own == [] && shared == [] ==> docs == AsRecords(Get(state, "notes")))
  {
    var own, shared := AsRecords(Get(state, "documents")), AsRecords(Get(state, "sharedDocuments"));
    BothOrNotes(own, shared, AsRecords(Get(state, "notes")), i);
  }

  lemma {:induction false} BothOrNotes(own: seq<seq<Pair>>, shared: seq<seq<Pair>>, notes: seq<seq<Pair>>, i: nat)
    ensures var docs := if own + shared == [] then notes else own + shared;
            && (own != [] || shared != [] ==> |docs| == |own| + |shared|)
            && (i < |own| ==> i < |docs| && docs[i] == own[i])
            && (i < |shared| ==> |own| + i < |docs| && docs[|own| + i] == shared[i])
            && (own == [] && shared == [] ==> docs == notes)
  {
    assert own + shared == [] <==> own == [] && shared == [] by {
      if own + shared == [] { assert |own + shared| == 0; }
    }
  }

  /** What is built for a document: its id from the first key that has one; its own transcript, and the table's
      entry under that id only when it has none. */
  lemma {:induction false} ItemFields(state: seq<Pair>, d: seq<Pair>, repr: Value -> string) returns (id: Value)
    ensures IsFirst(d, ["id", "note_id", "noteId", "document_id", "documentId"], id)
    ensures var x := ItemOf(d, DocumentId, TranscriptTable(state), repr);
            && x.id == Show(id, repr) && x.document == PyDict(d) && x.spans == Spans(x.id, x.transcript, repr)
            && (Get(d, "transcript") != PyNone ==> x.transcript == Get(d, "transcript"))
            && (Get(d, "transcript") == PyNone && Get(state, "transcripts").PyDict? ==>
                  x.transcript == Get(Get(state, "transcripts").entries, x.id))
            && (Get(d, "transcript") == PyNone && !Get(state, "transcripts").PyDict? ==> x.transcript == PyNone)
  {
    id := DocumentId(d);
    FirstExact(d, ["id", "note_id", "noteId", "document_id", "documentId"]);
  }

  /** Ids ascend. */
  predicate Ascending(items: seq<Item>) {
    forall i, j :: 0 <= i < j < |items| ==> !Less(items[j].id, items[i].id)
  }

  function Under(items: seq<Item>, id: string): (r: seq<Item>) {
    if items == [] then [] else (if items[0].id == id then [items[0]] else []) + Under(items[1..], id)
  }

  lemma {:induction false} InsertUnder(x: Item, s: seq<Item>, id: string)
    ensures Under(InsertItem(x, s), id) == (if x.id == id then [x] else []) + Under(s, id)
  {
    if s != [] && Less(s[0].id, x.id) {
      InsertUnder(x, s[1..], id);
      LessIrreflexive(x.id);
      assert InsertItem(x, s)[1..] == InsertItem(x, s[1..]);
    } else {
      assert ([x] + s)[1..] == s;
    }
  }

  lemma {:induction false} InsertItemMembers(x: Item, s: seq<Item>, y: Item)
    ensures y in InsertItem(x, s) <==> y == x || y in s
  {
    if s != [] && Less(s[0].id, x.id) {
      InsertItemMembers(x, s[1..], y);
      assert s == [s[0]] + s[1..];
    }
  }

  lemma {:induction false} AscendingCons(x: Item, s: seq<Item>)
    requires Ascending(s) && forall y :: y in s ==> !Less(y.id, x.id)
    ensures Ascending([x] + s)
  {
  }

  lemma {:induction false} InsertAscending(x: Item, s: seq<Item>)
    requires Ascending(s)
    ensures Ascending(InsertItem(x, s))
  {
    if s == [] {
    } else if Less(s[0].id, x.id) {
      InsertAscending(x, s[1..]);
      forall y | y in InsertItem(x, s[1..])
        ensures !Less(y.id, s[0].id)
      {
        InsertItemMembers(x, s[1..], y);
        if Less(x.id, s[0].id) {
          LessTransitive(x.id, s[0].id, x.id);
          LessIrreflexive(x.id);
        }
      }
      AscendingCons(s[0], InsertItem(x, s[1..]));
    } else {
      forall y | y in s
        ensures !Less(y.id, x.id)
      {
        var j :| 0 <= j < |s| && s[j] == y;
        if Less(y.id, x.id) {
          LessTotal(x.id, s[0].id);
          if x.id != s[0].id { LessTransitive(y.id, x.id, s[0].id); }
        }
      }
      AscendingCons(x, s);
    }
  }

  /** Sorting orders by id and keeps, under every id, the items and their order. */
  lemma {:induction false} SortStable(items: seq<Item>)
    ensures Ascending(SortItems(items))
    ensures forall id :: Under(SortItems(items), id) == Under(items, id)
    ensures forall x :: x in SortItems(items) <==> x in items
  {
    if items != [] {
      var x, rest := items[0], items[1..];
      SortStable(rest);
      InsertAscending(x, SortItems(rest));
      forall id { InsertUnder(x, SortItems(rest), id); }
      forall y
        ensures y in SortItems(items) <==> y in items
      {
        InsertItemMembers(x, SortItems(rest), y);
        assert items == [x] + rest;
      }
    }
  }

  // ---- gaps --------------------------------------------------------------------------------------

  lemma {:induction false} GapInjective(a: string, b: string)
    requires MissingTranscript(a) == MissingTranscript(b)
    ensures a == b
  {
    assert MissingTranscript(a)[19..] == a && MissingTranscript(b)[19..] == b;
  }

  lemma {:induction false} GapsExact(items: seq<Item>, id: string)
    ensures MissingTranscript(id) in GapsOf(items) <==> exists i :: 0 <= i < |items| && items[i].id == id && items[i].spans == []
  {
    if items != [] {
      var init, x := items[..|items| - 1], items[|items| - 1];
      assert items == init + [x];
      GapsExact(init, id);
      if MissingTranscript(x.id) == MissingTranscript(id) { GapInjective(x.id, id); }
      assert forall i :: 0 <= i < |init| ==> init[i] == items[i];
    }
  }

  /** Every item without spans has its gap listed. */
  predicate Covered(s: Snapshot) {
    forall x :: x in s.items && x.spans == [] ==> MissingTranscript(x.id) in s.gaps
  }

  /** The gap of an id is listed exactly when an item under it has no spans. */
  ghost predicate GapExact(s: Snapshot, id: string) {
    MissingTranscript(id) in s.gaps <==> exists x :: x in s.items && x.id == id && x.spans == []
  }

  /** A built snapshot lists the gap of an id exactly when an item under that id has no spans. */
  lemma {:induction false} BuildCovers(state: seq<Pair>, repr: Value -> string)
    requires Build(state, repr).Ok?
    ensures Covered(Build(state, repr).value) && forall id :: GapExact(Build(state, repr).value, id)
  {
    var items := ItemsOf(Documents(state), DocumentId, TranscriptTable(state), repr);
    SortStable(items);
    SortedGaps(Build(state, repr).value, items);
  }

  /** Sorting the items changes nothing about the gaps. */
  lemma {:induction false} SortedGaps(s: Snapshot, items: seq<Item>)
    requires s.gaps == GapsOf(items) && forall x :: x in s.items <==> x in items
    ensures Covered(s) && forall id :: GapExact(s, id)
  {
    forall id
      ensures GapExact(s, id)
    {
      GapsExact(items, id);
      if x :| x in s.items && x.id == id && x.spans == [] {
        assert x in items;
      }
      if i :| 0 <= i < |items| && items[i].id == id && items[i].spans == [] {
        assert items[i] in s.items;
      }
    }
    forall x | x in s.items && x.spans == []
      ensures MissingTranscript(x.id) in s.gaps
    {
      assert GapExact(s, x.id);
    }
  }

  lemma {:induction false} AllCovered(snapshots: seq<Snapshot>, x: Item)
    requires forall i :: 0 <= i < |snapshots| ==> Covered(snapshots[i])
    requires x in AllItems(snapshots) && x.spans == []
    ensures MissingTranscript(x.id) in AllGaps(snapshots)
  {
    if x !in snapshots[0].items {
      AllCovered(snapshots[1..], x);
    }
  }

  /** Combining covered snapshots, whichever items win, gives a covered snapshot. */
  lemma {:induction false} CombineCovers(snapshots: seq<Snapshot>)
    requires snapshots != [] && forall i :: 0 <= i < |snapshots| ==> Covered(snapshots[i])
    ensures Covered(Combine(snapshots))
  {
    if |snapshots| >= 2 {
      var r := Combine(snapshots);
      CombineNormal(snapshots);
      forall x | x in r.items && x.spans == []
        ensures MissingTranscript(x.id) in r.gaps
      {
        var i :| 0 <= i < |r.items| && r.items[i] == x;
        AllCovered(snapshots, x);
      }
    }
  }

  lemma {:induction false} AllGapsExact(snapshots: seq<Snapshot>, id: string)
    requires forall i :: 0 <= i < |snapshots| ==> GapExact(snapshots[i], id)
    ensures MissingTranscript(id) in AllGaps(snapshots) <==>
            exists x :: x in AllItems(snapshots) && x.id == id && x.spans == []
  {
    if snapshots != [] {
      AllGapsExact(snapshots[1..], id);
    }
  }

  /** The item that wins under an id. */
  lemma {:induction false} Winner(snapshots: seq<Snapshot>, id: string, x: Item)
    requires |snapshots| >= 2
    ensures x in Combine(snapshots).items && x.id == id <==> Last(AllItems(snapshots), id) == Some(x)
  {
    var items := AllItems(snapshots);
    var r := LastItems(items);
    LastItemsSpec(items);
    SortedSetSpec(IdsOf(items));
    LastExists(items, id);
    if x in r && x.id == id {
      var i :| 0 <= i < |r| && r[i] == x;
    }
    if Last(items, id) == Some(x) {
      assert id in IdsOf(r);
      var i :| 0 <= i < |r| && IdsOf(r)[i] == id;
      assert r[i].id == id;
    }
  }

  /**
   A combination keeps every gap supplied. So, from snapshots that are exact at an id, it is exact there if
   and only if the winning item has no spans or none of the items supplied under the id lacks them.
   */
  lemma {:induction false} CombineGapExact(snapshots: seq<Snapshot>, id: string)
    requires |snapshots| >= 2 && forall i :: 0 <= i < |snapshots| ==> GapExact(snapshots[i], id)
    ensures var last := Last(AllItems(snapshots), id);
            GapExact(Combine(snapshots), id) <==>
            (last.Some? && last.value.spans == []) || !(exists x :: x in AllItems(snapshots) && x.id == id && x.spans == [])
  {
    CombineNormal(snapshots);
    AllGapsExact(snapshots, id);
    var r, last := Combine(snapshots), Last(AllItems(snapshots), id);
    if last.Some? && last.value.spans == [] {
      Winner(snapshots, id, last.value);
      assert last.value in r.items;
    } else if x :| x in r.items && x.id == id && x.spans == [] {
      Winner(snapshots, id, x);
    }
  }

  /** A meeting without spans, then the same meeting with spans: the gap stays listed. */
  lemma {:induction false} StaleGap(bare: Item, full: Item)
    requires bare.id == full.id && bare.spans == [] && full.spans != []
    ensures var r := Combine([Snapshot([bare], [MissingTranscript(bare.id)]), Snapshot([full], [])]);
            MissingTranscript(full.id) in r.gaps && full in r.items && bare !in r.items
  {
    var a, b := Snapshot([bare], [MissingTranscript(bare.id)]), Snapshot([full], []);
    assert [a, b][1..] == [b] && [b][1..] == [];
    assert AllItems([b]) == [full] + [] && AllItems([a, b]) == [bare] + AllItems([b]);
    assert AllGaps([b]) == [] + [] && AllGaps([a, b]) == [MissingTranscript(bare.id)] + AllGaps([b]);
    CombineNormal([a, b]);
    LastSnoc([bare], full, full.id);
    Winner([a, b], full.id, full);
    Winner([a, b], full.id, bare);
  }
}

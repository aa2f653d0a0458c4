/**
 Transcript spans (`transcript_spans`): the entries that have text, in source order, each with an id made of
 its own id or else its position. `IdsDistinct` says exactly when the ids of a transcript are pairwise
 distinct.
 */
module Transcripts {
  import opened Prelude
  import opened PyValues

  datatype Span = Span(id: string, locator: Value, text: string, speaker: Option<string>, language: Option<string>)

  function TextOf(item: seq<Pair>): (v: Value)
    ensures v == PyNone || !Blank(v)
  {
    FirstValue(item, ["text", "content", "transcript", "body"])
  }

  function IdOf(item: seq<Pair>): (v: Value) {
    FirstValue(item, ["id", "span_id"])
  }

  /** The id an entry supplies itself; a falsy id (`0`, `false`, an empty list) does not count. */
  predicate Explicit(item: seq<Pair>) {
    Truthy(IdOf(item))
  }

  function SpanKey(item: seq<Pair>, index: nat, repr: Value -> string): (s: string) {
    if Explicit(item) then Show(IdOf(item), repr) else DigitsOf(index)
  }

  function SpanId(entity: string, key: string): (s: string) {
    "span/" + (entity + ("/transcript/" + key))
  }

  function Shown(v: Value, repr: Value -> string): (r: Option<string>) {
    if Blank(v) then None else Some(Show(v, repr))
  }

  function SpanOf(entity: string, item: seq<Pair>, index: nat, repr: Value -> string): (span: Span) {
    var locator := FirstValue(item, ["locator"]);
    Span(SpanId(entity, SpanKey(item, index, repr)),
         if Truthy(locator) then locator else PyStr("transcript/" + DigitsOf(index)),
         Show(TextOf(item), repr),
         Shown(FirstValue(item, ["speaker", "speakerName", "speaker_label", "speakerLabel"]), repr),
         Shown(FirstValue(item, ["language", "lang"]), repr))
  }

  /** The spans of the first `n` entries: one for every entry that has text, in source order. */
  function SpansUpTo(entity: string, items: seq<seq<Pair>>, n: nat, repr: Value -> string): (r: seq<Span>)
    requires n <= |items|
  {
    if n == 0 then []
    else
      var before := SpansUpTo(entity, items, n - 1, repr);
      if Blank(TextOf(items[n - 1])) then before else before + [SpanOf(entity, items[n - 1], n - 1, repr)]
  }

  function Spans(entity: string, value: Value, repr: Value -> string): (r: seq<Span>) {
    SpansUpTo(entity, AsRecords(value), |AsRecords(value)|, repr)
  }

  /** The dictionary `transcript_spans` builds for an entry. */
  method MakeSpan(entity: string, item: seq<Pair>, index: nat, text: Value, repr: Value -> string) returns (span: Span)
    requires text == TextOf(item)
    ensures span == SpanOf(entity, item, index, repr)
  {
    var id := FirstOf(item, ["id", "span_id"]);
    var key := if Truthy(id) then Show(id, repr) else DigitsOf(index);
    var locator := FirstOf(item, ["locator"]);
    if !Truthy(locator) { locator := PyStr("transcript/" + DigitsOf(index)); }
    var speaker := FirstOf(item, ["speaker", "speakerName", "speaker_label", "speakerLabel"]);
    var language := FirstOf(item, ["language", "lang"]);
    span := Span("span/" + (entity + ("/transcript/" + key)), locator, Show(text, repr),
                 if speaker in [PyNone, PyStr("")] then None else Some(Show(speaker, repr)),
                 if language in [PyNone, PyStr("")] then None else Some(Show(language, repr)));
  }

  /** Every field of a span, from the entry's own keys. */
  lemma {:induction false} SpanFields(entity: string, item: seq<Pair>, index: nat, repr: Value -> string)
    returns (id: Value, locator: Value, text: Value, speaker: Value, language: Value)
    ensures IsFirst(item, ["id", "span_id"], id) && IsFirst(item, ["locator"], locator)
    ensures IsFirst(item, ["text", "content", "transcript", "body"], text)
    ensures IsFirst(item, ["speaker", "speakerName", "speaker_label", "speakerLabel"], speaker)
    ensures IsFirst(item, ["language", "lang"], language)
    ensures var span := SpanOf(entity, item, index, repr);
            && span.id == "span/" + (entity + ("/transcript/" + if Truthy(id) then Show(id, repr) else DigitsOf(index)))
            && span.locator == (if Truthy(locator) then locator else PyStr("transcript/" + DigitsOf(index)))
            && span.text == Show(text, repr) && (text.PyStr? ==> span.text == text.s)
            && (id.PyStr? ==> span.id == "span/" + (entity + ("/transcript/" + id.s)))
            && (speaker.PyStr? ==> span.speaker == Some(speaker.s)) && (language.PyStr? ==> span.language == Some(language.s))
            && (span.speaker == if speaker == PyNone then None else Some(Show(speaker, repr)))
            && (span.language == if language == PyNone then None else Some(Show(language, repr)))
  {
    id, locator := IdOf(item), FirstValue(item, ["locator"]);
    text := TextOf(item);
    speaker := FirstValue(item, ["speaker", "speakerName", "speaker_label", "speakerLabel"]);
    language := FirstValue(item, ["language", "lang"]);
    FirstExact(item, ["id", "span_id"]);
    FirstExact(item, ["locator"]);
    FirstExact(item, ["text", "content", "transcript", "body"]);
    FirstExact(item, ["speaker", "speakerName", "speaker_label", "speakerLabel"]);
    FirstExact(item, ["language", "lang"]);
  }

  /** `transcript_spans`. */
  method TranscriptSpans(entity: string, value: Value, repr: Value -> string) returns (spans: seq<Span>)
    ensures spans == Spans(entity, value, repr)
  {
    var items := Records(value);
    spans := [];
    for index := 0 to |items|
      invariant spans == SpansUpTo(entity, items, index, repr)
    {
      var text := FirstOf(items[index], ["text", "content", "transcript", "body"]);
      if text != PyNone && text != PyStr("") {
        var span := MakeSpan(entity, items[index], index, text, repr);
        spans := spans + [span];
      }
    }
  }

  // ---- source order ------------------------------------------------------------------------------

  /** The positions, below `n`, of the entries that have text. */
  function Kept(items: seq<seq<Pair>>, n: nat): (r: seq<nat>)
    requires n <= |items|
  {
    if n == 0 then []
    else Kept(items, n - 1) + (if Blank(TextOf(items[n - 1])) then [] else [n - 1])
  }

  lemma {:induction false} KeptSpec(items: seq<seq<Pair>>, n: nat)
    requires n <= |items|
    ensures forall i :: 0 <= i < |Kept(items, n)| ==> Kept(items, n)[i] < n && !Blank(TextOf(items[Kept(items, n)[i]]))
    ensures forall i, j :: 0 <= i < j < |Kept(items, n)| ==> Kept(items, n)[i] < Kept(items, n)[j]
    ensures forall p: nat :: p < n && !Blank(TextOf(items[p])) ==> p in Kept(items, n)
  {
    if n > 0 {
      KeptSpec(items, n - 1);
    }
  }

  function SpansOf(entity: string, items: seq<seq<Pair>>, kept: seq<nat>, repr: Value -> string): (r: seq<Span>)
    requires forall i :: 0 <= i < |kept| ==> kept[i] < |items|
    ensures |r| == |kept|
  {
    seq(|kept|, i requires 0 <= i < |kept| => SpanOf(entity, items[kept[i]], kept[i], repr))
  }

  /** The spans are those of the entries at the ascending positions that have text, in that order. */
  lemma {:induction false} SpansKeepOrder(entity: string, items: seq<seq<Pair>>, n: nat, repr: Value -> string)
    requires n <= |items|
    ensures forall i :: 0 <= i < |Kept(items, n)| ==> Kept(items, n)[i] < |items|
    ensures SpansUpTo(entity, items, n, repr) == SpansOf(entity, items, Kept(items, n), repr)
  {
    KeptSpec(items, n);
    if n > 0 {
      SpansKeepOrder(entity, items, n - 1, repr);
    }
  }

  // ---- distinct ids ------------------------------------------------------------------------------

  predicate DistinctIds(spans: seq<Span>) {
    forall a, b :: 0 <= a < b < |spans| ==> spans[a].id != spans[b].id
  }

  predicate HasText(items: seq<seq<Pair>>, i: nat)
    requires i < |items|
  {
    !Blank(TextOf(items[i]))
  }

  /** An entry with text that supplies an id. */
  predicate Named(items: seq<seq<Pair>>, i: nat)
    requires i < |items|
  {
    HasText(items, i) && Explicit(items[i])
  }

  /** An entry with text that is named after its position. */
  predicate Numbered(items: seq<seq<Pair>>, i: nat)
    requires i < |items|
  {
    HasText(items, i) && !Explicit(items[i])
  }

  /** The ids the entries supply differ, and none is the position of an entry that supplies none. */
  predicate IdsDiffer(items: seq<seq<Pair>>, repr: Value -> string) {
    && (forall i, j :: 0 <= i < j < |items| && Named(items, i) && Named(items, j) ==>
          Show(IdOf(items[i]), repr) != Show(IdOf(items[j]), repr))
    && (forall i, j :: 0 <= i < |items| && 0 <= j < |items| && Named(items, i) && Numbered(items, j) ==>
          Show(IdOf(items[i]), repr) != DigitsOf(j))
  }

  lemma {:induction false} SpanIdInjective(entity: string, k: string, l: string)
    requires SpanId(entity, k) == SpanId(entity, l)
    ensures k == l
  {
    var n := 5 + |entity| + 12;
    assert SpanId(entity, k)[n..] == k && SpanId(entity, l)[n..] == l;
  }

  lemma {:induction false} KeysDiffer(items: seq<seq<Pair>>, repr: Value -> string, i: nat, j: nat)
    requires IdsDiffer(items, repr) && i < j < |items| && HasText(items, i) && HasText(items, j)
    ensures SpanKey(items[i], i, repr) != SpanKey(items[j], j, repr)
  {
    if !Explicit(items[i]) && !Explicit(items[j]) && DigitsOf(i) == DigitsOf(j) {
      DigitsInjective(i, j);
    }
  }

  lemma {:induction false} SpanIndex(entity: string, items: seq<seq<Pair>>, repr: Value -> string, p: nat) returns (a: nat)
    requires p < |items| && HasText(items, p)
    requires forall i :: 0 <= i < |Kept(items, |items|)| ==> Kept(items, |items|)[i] < |items|
    ensures a < |Kept(items, |items|)| && Kept(items, |items|)[a] == p
    ensures SpansOf(entity, items, Kept(items, |items|), repr)[a].id == SpanId(entity, SpanKey(items[p], p, repr))
  {
    KeptSpec(items, |items|);
    a :| 0 <= a < |Kept(items, |items|)| && Kept(items, |items|)[a] == p;
  }

  /** Two entries whose keys coincide give two spans with one id. */
  lemma {:induction false} Clash(entity: string, items: seq<seq<Pair>>, repr: Value -> string, i: nat, j: nat)
    requires i < |items| && j < |items| && i != j && HasText(items, i) && HasText(items, j)
    requires SpanKey(items[i], i, repr) == SpanKey(items[j], j, repr)
    requires forall k :: 0 <= k < |Kept(items, |items|)| ==> Kept(items, |items|)[k] < |items|
    ensures !DistinctIds(SpansOf(entity, items, Kept(items, |items|), repr))
  {
    var a := SpanIndex(entity, items, repr, i);
    var b := SpanIndex(entity, items, repr, j);
    var spans := SpansOf(entity, items, Kept(items, |items|), repr);
    if a < b { assert spans[a].id == spans[b].id; } else { assert spans[b].id == spans[a].id; }
  }

  lemma {:induction false} DifferSuffices(entity: string, items: seq<seq<Pair>>, repr: Value -> string)
    requires IdsDiffer(items, repr)
    requires forall k :: 0 <= k < |Kept(items, |items|)| ==> Kept(items, |items|)[k] < |items|
    ensures DistinctIds(SpansOf(entity, items, Kept(items, |items|), repr))
  {
    KeptSpec(items, |items|);
    var kept := Kept(items, |items|);
    var spans := SpansOf(entity, items, kept, repr);
    forall a, b | 0 <= a < b < |spans|
      ensures spans[a].id != spans[b].id
    {
      KeysDiffer(items, repr, kept[a], kept[b]);
      if spans[a].id == spans[b].id {
        SpanIdInjective(entity, SpanKey(items[kept[a]], kept[a], repr), SpanKey(items[kept[b]], kept[b], repr));
      }
    }
  }

  /** Span ids are pairwise distinct exactly when the supplied ids of entries with text are, and none of them is
      the decimal position of an entry with text that supplies no id. */
  lemma {:induction false} IdsDistinct(entity: string, value: Value, repr: Value -> string)
    ensures DistinctIds(Spans(entity, value, repr)) <==> IdsDiffer(AsRecords(value), repr)
  {
    var items := AsRecords(value);
    SpansKeepOrder(entity, items, |items|, repr);
    if IdsDiffer(items, repr) {
      DifferSuffices(entity, items, repr);
    } else if i, j :| 0 <= i < j < |items| && Named(items, i) && Named(items, j)
                      && Show(IdOf(items[i]), repr) == Show(IdOf(items[j]), repr) {
      Clash(entity, items, repr, i, j);
    } else {
      var i, j :| 0 <= i < |items| && 0 <= j < |items| && Named(items, i) && Numbered(items, j)
                  && Show(IdOf(items[i]), repr) == DigitsOf(j);
      Clash(entity, items, repr, i, j);
    }
  }
}

/**
 The building blocks of the hand-written printers: members pushed one after the other behind an opening
 brace, and comma-separated lists.
 */
module JsonPrinters {
  import opened Prelude
  import opened Json
  import Hex

  /** A key that needs no escaping. */
  predicate PlainKey(k: string) {
    forall c :: c in k ==> c == '_' || 'a' <= c <= 'z'
  }

  /** An object text up to its last member, without the closing brace. */
  function OpenObject(fs: seq<Field>): (s: string) {
    ['{'] + JoinTexts(RenderMembers(fs))
  }

  lemma {:induction false} PlainEscaped(k: string)
    requires PlainKey(k)
    ensures EscapedAll(k) == k
  {
    EscapedCons(k);
    if k != "" {
      assert k[0] in k && forall c :: c in k[1..] ==> c in k;
      PlainEscaped(k[1..]);
      assert k == [k[0]] + k[1..];
    }
  }

  lemma {:induction false} MembersSnoc(fs: seq<Field>, f: Field)
    ensures RenderMembers(fs + [f]) == RenderMembers(fs) + [Member(f.key, Render(f.value))]
  {
    if fs == [] {
      assert fs + [f] == [f];
    } else {
      MembersSnoc(fs[1..], f);
      assert (fs + [f])[1..] == fs[1..] + [f];
    }
  }

  lemma {:induction false} PushedText(out: string, key: string, text: string, comma: string)
    requires PlainKey(key)
    ensures out + (comma + Member(key, text)) == out + comma + ['"'] + key + ['"', ':'] + text
  {
    PlainEscaped(key);
  }

  /** Push one member: a comma unless it is the first, the quoted key, a colon, the value's text. */
  method PushField(out: string, ghost fs: seq<Field>, first: bool, key: string, text: string, ghost value: Json)
    returns (r: string, ghost rs: seq<Field>)
    requires out == OpenObject(fs) && (first <==> fs == []) && PlainKey(key) && text == Render(value)
    ensures rs == fs + [Field(key, value)] && r == OpenObject(rs)
  {
    rs := fs + [Field(key, value)];
    MembersSnoc(fs, Field(key, value));
    JoinSnoc(RenderMembers(fs), Member(key, text));
    var comma := if first then "" else [','];
    PushedText(out, key, text, comma);
    AppendAssoc(['{'], JoinTexts(RenderMembers(fs)), comma + Member(key, text));
    r := out + comma + ['"'] + key + ['"', ':'] + text;
    if first {
      assert "" + Member(key, text) == Member(key, text) && ['{'] + "" == ['{'];
    }
  }

  method CloseObject(out: string, ghost fs: seq<Field>) returns (r: string)
    requires out == OpenObject(fs)
    ensures r == Render(Obj(fs))
  {
    AppendAssoc(['{'], JoinTexts(RenderMembers(fs)), ['}']);
    r := out + ['}'];
  }

  lemma {:induction false} RenderAllAt(items: seq<Json>, texts: seq<string>)
    requires |texts| == |items| && forall i :: 0 <= i < |items| ==> texts[i] == Render(items[i])
    ensures RenderAll(items) == texts
  {
    if items != [] {
      RenderAllAt(items[1..], texts[1..]);
      assert texts == [texts[0]] + texts[1..];
    }
  }

  /** A list between brackets, from the texts of its items. */
  method ArrayText(texts: seq<string>, ghost items: seq<Json>) returns (out: string)
    requires |texts| == |items| && forall i :: 0 <= i < |items| ==> texts[i] == Render(items[i])
    ensures out == Render(Arr(items))
  {
    RenderAllAt(items, texts);
    var inner := JoinList(texts);
    out := ['['] + (inner + [']']);
  }

  function Strings(ss: seq<string>): (r: seq<Json>)
    ensures |r| == |ss|
  {
    seq(|ss|, i requires 0 <= i < |ss| => Str(ss[i]))
  }

  /** A list of strings. */
  method StringList(ss: seq<string>) returns (out: string)
    ensures out == Render(Arr(Strings(ss)))
  {
    var texts: seq<string> := [];
    for i := 0 to |ss|
      invariant |texts| == i && forall k :: 0 <= k < i ==> texts[k] == Quoted(ss[k])
    {
      var text := JsonString(ss[i]);
      texts := texts + [text];
    }
    out := ArrayText(texts, Strings(ss));
  }

  function BoolText(b: bool): (s: string)
    ensures s == Render(Bool(b))
  {
    if b then "true" else "false"
  }

  function OptionValue(o: Option<string>): (j: Json) {
    if o.Some? then Str(o.value) else Null
  }

  /** A string, or `null`. */
  method OptionString(o: Option<string>) returns (out: string)
    ensures out == Render(OptionValue(o))
  {
    if o.Some? { out := JsonString(o.value); } else { out := "null"; }
  }

  method PushString(out: string, ghost fs: seq<Field>, first: bool, key: string, s: string)
    returns (r: string, ghost rs: seq<Field>)
    requires out == OpenObject(fs) && (first <==> fs == []) && PlainKey(key)
    ensures rs == fs + [Field(key, Str(s))] && r == OpenObject(rs)
  {
    var text := JsonString(s);
    r, rs := PushField(out, fs, first, key, text, Str(s));
  }

  method PushOption(out: string, ghost fs: seq<Field>, first: bool, key: string, o: Option<string>)
    returns (r: string, ghost rs: seq<Field>)
    requires out == OpenObject(fs) && (first <==> fs == []) && PlainKey(key)
    ensures rs == fs + [Field(key, OptionValue(o))] && r == OpenObject(rs)
  {
    var text := OptionString(o);
    r, rs := PushField(out, fs, first, key, text, OptionValue(o));
  }

  method PushBool(out: string, ghost fs: seq<Field>, first: bool, key: string, b: bool)
    returns (r: string, ghost rs: seq<Field>)
    requires out == OpenObject(fs) && (first <==> fs == []) && PlainKey(key)
    ensures rs == fs + [Field(key, Bool(b))] && r == OpenObject(rs)
  {
    r, rs := PushField(out, fs, first, key, BoolText(b), Bool(b));
  }

  method PushStrings(out: string, ghost fs: seq<Field>, first: bool, key: string, ss: seq<string>)
    returns (r: string, ghost rs: seq<Field>)
    requires out == OpenObject(fs) && (first <==> fs == []) && PlainKey(key)
    ensures rs == fs + [Field(key, Arr(Strings(ss)))] && r == OpenObject(rs)
  {
    var text := StringList(ss);
    r, rs := PushField(out, fs, first, key, text, Arr(Strings(ss)));
  }

  function Values<T>(xs: seq<T>, f: T -> Json): (r: seq<Json>)
    ensures |r| == |xs|
  {
    if xs == [] then [] else [f(xs[0])] + Values(xs[1..], f)
  }

  lemma {:induction false} ValuesAt<T>(xs: seq<T>, f: T -> Json, i: nat)
    requires i < |xs|
    ensures Values(xs, f)[i] == f(xs[i])
  {
    if i > 0 { ValuesAt(xs[1..], f, i - 1); }
  }

  function At<T>(xs: seq<T>, i: nat): (x: T)
    requires i < |xs|
  {
    xs[i]
  }

  /** The texts of the first records of a list, `f` being what each record stands for. */
  ghost predicate Shows<T(!new)>(texts: seq<string>, xs: seq<T>, f: T -> Json) {
    |texts| <= |xs| && forall i {:trigger At(xs, i)} :: 0 <= i < |texts| ==> texts[i] == Render(f(At(xs, i)))
  }

  /** One turn of a loop over records. */
  method AddText<T(!new)>(texts: seq<string>, text: string, ghost xs: seq<T>, ghost f: T -> Json) returns (r: seq<string>)
    requires Shows(texts, xs, f) && |texts| < |xs| && text == Render(f(At(xs, |texts|)))
    ensures |r| == |texts| + 1 && Shows(r, xs, f)
  {
    r := texts + [text];
  }

  /** A list of records, from the texts of the records. */
  method ListText<T(!new)>(texts: seq<string>, ghost xs: seq<T>, ghost f: T -> Json) returns (out: string)
    requires Shows(texts, xs, f) && |texts| == |xs|
    ensures out == Render(Arr(Values(xs, f)))
  {
    forall i | 0 <= i < |xs|
      ensures texts[i] == Render(Values(xs, f)[i])
    {
      ValuesAt(xs, f, i);
      assert At(xs, i) == xs[i];
    }
    out := ArrayText(texts, Values(xs, f));
  }

  method PushList<T(!new)>(out: string, ghost fs: seq<Field>, first: bool, key: string, texts: seq<string>,
                           ghost xs: seq<T>, ghost f: T -> Json)
    returns (r: string, ghost rs: seq<Field>)
    requires out == OpenObject(fs) && (first <==> fs == []) && PlainKey(key) && Shows(texts, xs, f) && |texts| == |xs|
    ensures rs == fs + [Field(key, Arr(Values(xs, f)))] && r == OpenObject(rs)
  {
    var text := ListText(texts, xs, f);
    r, rs := PushField(out, fs, first, key, text, Arr(Values(xs, f)));
  }

  // ---- reading lists back ------------------------------------------------------------------------

  /** Decode every item, or nothing. */
  function All<T>(items: seq<Json>, f: Json -> Option<T>): (r: Option<seq<T>>) {
    if items == [] then Some([])
    else
      var head, tail := f(items[0]), All(items[1..], f);
      if head.Some? && tail.Some? then Some([head.value] + tail.value) else None
  }

  lemma {:induction false} AllBack<T(!new)>(xs: seq<T>, to: T -> Json, from: Json -> Option<T>)
    requires forall x :: from(to(x)) == Some(x)
    ensures All(Values(xs, to), from) == Some(xs)
  {
    if xs != [] {
      AllBack(xs[1..], to, from);
      assert Values(xs, to)[1..] == Values(xs[1..], to);
      assert xs == [xs[0]] + xs[1..];
    }
  }

  function AsString(j: Json): (r: Option<string>) {
    if j.Str? then Some(j.s) else None
  }

  lemma {:induction false} StringsBack(ss: seq<string>)
    ensures All(Strings(ss), AsString) == Some(ss)
  {
    if ss != [] {
      StringsBack(ss[1..]);
      assert Strings(ss)[1..] == Strings(ss[1..]);
      assert ss == [ss[0]] + ss[1..];
    }
  }

  // ---- optional values and ids -------------------------------------------------------------------

  function IdOption(o: Option<Hex.Id>): (r: Option<string>) {
    if o.Some? then Some(Hex.IdText(o.value)) else None
  }

  function IdOptionFrom(j: Json): (r: Option<Option<Hex.Id>>) {
    if j.Null? then Some(None)
    else if j.Str? && Hex.ParseId(j.s).Ok? then Some(Some(Hex.ParseId(j.s).value))
    else None
  }

  function StringOptionFrom(j: Json): (r: Option<Option<string>>) {
    if j.Null? then Some(None) else if j.Str? then Some(Some(j.s)) else None
  }

  predicate HasKeys(fs: seq<Field>, keys: seq<string>) {
    |fs| == |keys| && forall i :: 0 <= i < |fs| ==> fs[i].key == keys[i]
  }

  function AsBool(j: Json): (r: Option<bool>) {
    if j.Bool? then Some(j.b) else None
  }

  function AsId(j: Json): (r: Option<Hex.Id>) {
    if j.Str? && Hex.ParseId(j.s).Ok? then Some(Hex.ParseId(j.s).value) else None
  }

  function IdTexts(ids: seq<Hex.Id>): (ss: seq<string>) {
    seq(|ids|, i requires 0 <= i < |ids| => Hex.IdText(ids[i]))
  }

  lemma {:induction false} IdBack(id: Hex.Id)
    ensures AsId(Str(Hex.IdText(id))) == Some(id)
  {
    Hex.ParseIdText(id);
  }

  lemma {:induction false} AllCons<T>(j: Json, items: seq<Json>, from: Json -> Option<T>, x: T, xs: seq<T>)
    requires from(j) == Some(x) && All(items, from) == Some(xs)
    ensures All([j] + items, from) == Some([x] + xs)
  {
    assert ([j] + items)[1..] == items;
  }

  lemma {:induction false} IdsBack(ids: seq<Hex.Id>)
    ensures All(Strings(IdTexts(ids)), AsId) == Some(ids)
  {
    if ids != [] {
      var id, rest := ids[0], ids[1..];
      IdsBack(rest);
      IdBack(id);
      AllCons(Str(Hex.IdText(id)), Strings(IdTexts(rest)), AsId, id, rest);
      assert Strings(IdTexts(ids)) == [Str(Hex.IdText(id))] + Strings(IdTexts(rest));
      assert ids == [id] + rest;
    }
  }
}

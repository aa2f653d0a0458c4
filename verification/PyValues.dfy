/**
 The JSON values the Granola importer works on, as Python sees them, and the small helpers it shares
 (`as_records`, `first_value`).
 */
module PyValues {
  import opened Prelude

  /** `PyFloat` carries its printed form. */
  datatype Value =
    | PyNone
    | PyBool(b: bool)
    | PyInt(n: int)
    | PyFloat(text: string, zero: bool)
    | PyStr(s: string)
    | PyList(items: seq<Value>)
    | PyDict(entries: seq<Pair>)

  datatype Pair = Pair(key: string, value: Value)

  /** Python's truth value. */
  predicate Truthy(v: Value) {
    match v
    case PyNone => false
    case PyBool(b) => b
    case PyInt(n) => n != 0
    case PyFloat(_, zero) => !zero
    case PyStr(s) => s != ""
    case PyList(items) => items != []
    case PyDict(entries) => entries != []
  }

  /** `v in (None, "")`. */
  predicate Blank(v: Value) {
    v == PyNone || v == PyStr("")
  }

  function DigitsOf(n: nat): (s: string) {
    if n < 10 then ['0' + n as char] else DigitsOf(n / 10) + ['0' + (n % 10) as char]
  }

  /** `str(v)`; how lists and dictionaries print is left to `repr`. */
  function Show(v: Value, repr: Value -> string): (s: string) {
    match v
    case PyNone => "None"
    case PyBool(b) => if b then "True" else "False"
    case PyInt(n) => if n >= 0 then DigitsOf(n) else "-" + DigitsOf(-n)
    case PyFloat(text, _) => text
    case PyStr(s) => s
    case _ => repr(v)
  }

  /** `d.get(name)`. */
  function Get(d: seq<Pair>, name: string): (v: Value) {
    if d == [] then PyNone else if d[0].key == name then d[0].value else Get(d[1..], name)
  }

  /** What is found is a value of the dictionary. */
  lemma {:induction false} GetMember(d: seq<Pair>, name: string)
    ensures Get(d, name) == PyNone || exists i :: 0 <= i < |d| && Get(d, name) == d[i].value
  {
    if d != [] && d[0].key != name {
      GetMember(d[1..], name);
      if i :| 0 <= i < |d[1..]| && Get(d, name) == d[1..][i].value {
        assert d[i + 1] == d[1..][i];
      }
    }
  }

  predicate HasKey(d: seq<Pair>, name: string) {
    exists i :: 0 <= i < |d| && d[i].key == name
  }

  /** `first_value`: the first of the names whose value is neither None nor empty. */
  function FirstValue(d: seq<Pair>, names: seq<string>): (v: Value)
    ensures v == PyNone || !Blank(v)
  {
    if names == [] then PyNone
    else if !Blank(Get(d, names[0])) then Get(d, names[0])
    else FirstValue(d, names[1..])
  }

  /** `v` is the value of the first of the names that has one, or None when none has. */
  ghost predicate IsFirst(d: seq<Pair>, names: seq<string>, v: Value) {
    || (v == PyNone && forall j :: 0 <= j < |names| ==> Get(d, names[j]) in [PyNone, PyStr("")])
    || (exists k :: && 0 <= k < |names| && v == Get(d, names[k]) && v !in [PyNone, PyStr("")]
                    && forall j :: 0 <= j < k ==> Get(d, names[j]) in [PyNone, PyStr("")])
  }

  /** The loop of `first_value`. */
  method FirstOf(d: seq<Pair>, names: seq<string>) returns (v: Value)
    ensures v == FirstValue(d, names) && IsFirst(d, names, v)
  {
    for i := 0 to |names|
      invariant FirstValue(d, names) == FirstValue(d, names[i..])
      invariant forall j :: 0 <= j < i ==> Blank(Get(d, names[j]))
    {
      assert names[i..][1..] == names[i + 1..];
      v := Get(d, names[i]);
      if v != PyNone && v != PyStr("") { return; }
    }
    v := PyNone;
  }

  lemma {:induction false} FirstExact(d: seq<Pair>, names: seq<string>)
    ensures IsFirst(d, names, FirstValue(d, names))
  {
    if names != [] && Blank(Get(d, names[0])) {
      FirstExact(d, names[1..]);
      var v := FirstValue(d, names);
      assert forall j :: 0 <= j < |names[1..]| ==> names[1..][j] == names[j + 1];
      if v == PyNone {
        forall j | 0 <= j < |names|
          ensures Blank(Get(d, names[j]))
        {
          if j > 0 { assert Blank(Get(d, names[1..][j - 1])); }
        }
      } else {
        var k :| 0 <= k < |names[1..]| && v == Get(d, names[1..][k])
                 && forall j :: 0 <= j < k ==> Blank(Get(d, names[1..][j]));
        forall j | 0 <= j < k + 1
          ensures Blank(Get(d, names[j]))
        {
          if j > 0 { assert Blank(Get(d, names[1..][j - 1])); }
        }
        assert v == Get(d, names[k + 1]);
      }
    }
  }

  lemma {:induction false} KeyAfter(d: seq<Pair>, name: string, n: nat)
    requires 0 < n <= |d| && d[0].key != name && HasKey(d[..n], name)
    ensures HasKey(d[1..][..n - 1], name)
  {
    var j :| 0 <= j < n && d[..n][j].key == name;
    assert d[1..][..n - 1][j - 1] == d[j];
  }

  /** What a dictionary answers: the value stored under the name, or None when there is none. */
  lemma {:induction false} GetExact(d: seq<Pair>, name: string)
    ensures !HasKey(d, name) ==> Get(d, name) == PyNone
    ensures HasKey(d, name) ==>
              exists i :: 0 <= i < |d| && d[i].key == name && Get(d, name) == d[i].value && !HasKey(d[..i], name)
  {
    if d != [] {
      if d[0].key == name {
        assert !HasKey(d[..0], name);
      } else {
        GetExact(d[1..], name);
        assert HasKey(d, name) <==> HasKey(d[1..], name) by {
          assert forall i :: 0 <= i < |d[1..]| ==> d[1..][i] == d[i + 1];
          assert forall i :: 0 < i < |d| ==> d[i] == d[1..][i - 1];
        }
        if HasKey(d, name) {
          var i :| 0 <= i < |d[1..]| && d[1..][i].key == name && Get(d[1..], name) == d[1..][i].value && !HasKey(d[1..][..i], name);
          if HasKey(d[..i + 1], name) { KeyAfter(d, name, i + 1); }
          assert d[i + 1].key == name && !HasKey(d[..i + 1], name);
        }
      }
    }
  }

  /** The dictionaries of a list, in order. */
  function Dicts(items: seq<Value>): (r: seq<seq<Pair>>) {
    if items == [] then []
    else (if items[0].PyDict? then [items[0].entries] else []) + Dicts(items[1..])
  }

  /** `copy.setdefault("id", key)`. */
  function WithId(d: seq<Pair>, key: string): (r: seq<Pair>) {
    if HasKey(d, "id") then d else d + [Pair("id", PyStr(key))]
  }

  /** The dictionaries among the values of a dictionary, each with its key as default id. */
  function Keyed(entries: seq<Pair>): (r: seq<seq<Pair>>) {
    if entries == [] then []
    else (if entries[0].value.PyDict? then [WithId(entries[0].value.entries, entries[0].key)] else []) + Keyed(entries[1..])
  }

  /** `as_records`. */
  function AsRecords(v: Value): (r: seq<seq<Pair>>) {
    match v
    case PyList(items) => Dicts(items)
    case PyDict(entries) => Keyed(entries)
    case _ => []
  }

  lemma {:induction false} KeyedSnoc(entries: seq<Pair>, e: Pair)
    ensures Keyed(entries + [e]) == Keyed(entries) + (if e.value.PyDict? then [WithId(e.value.entries, e.key)] else [])
  {
    if entries == [] {
      assert entries + [e] == [e] && [e][1..] == [];
    } else {
      KeyedSnoc(entries[1..], e);
      assert (entries + [e])[1..] == entries[1..] + [e];
    }
  }

  lemma {:induction false} DictsSnoc(items: seq<Value>, x: Value)
    ensures Dicts(items + [x]) == Dicts(items) + (if x.PyDict? then [x.entries] else [])
  {
    if items == [] {
      assert items + [x] == [x] && [x][1..] == [];
    } else {
      DictsSnoc(items[1..], x);
      assert (items + [x])[1..] == items[1..] + [x];
    }
  }

  /** The comprehension of `as_records` over a list. */
  method ListRecords(items: seq<Value>) returns (records: seq<seq<Pair>>)
    ensures records == Dicts(items)
  {
    records := [];
    for i := 0 to |items|
      invariant records == Dicts(items[..i])
    {
      assert items[..i + 1] == items[..i] + [items[i]];
      DictsSnoc(items[..i], items[i]);
      if items[i].PyDict? {
        records := records + [items[i].entries];
      }
    }
    assert items[..|items|] == items;
  }

  /** The loop of `as_records` over a dictionary. */
  method KeyedRecords(entries: seq<Pair>) returns (records: seq<seq<Pair>>)
    ensures records == Keyed(entries)
  {
    records := [];
    for i := 0 to |entries|
      invariant records == Keyed(entries[..i])
    {
      var key, item := entries[i].key, entries[i].value;
      assert entries[..i + 1] == entries[..i] + [entries[i]];
      KeyedSnoc(entries[..i], entries[i]);
      if item.PyDict? {
        var copy := item.entries;
        if !HasKey(copy, "id") { copy := copy + [Pair("id", PyStr(key))]; }
        records := records + [copy];
      }
    }
    assert entries[..|entries|] == entries;
  }

  /** `as_records`: None and anything else that is neither a list nor a dictionary holds no record. */
  method Records(v: Value) returns (records: seq<seq<Pair>>)
    ensures records == AsRecords(v)
  {
    records := [];
    match v {
      case PyList(items) => records := ListRecords(items);
      case PyDict(entries) => records := KeyedRecords(entries);
      case _ =>
    }
  }

  /** A record made from a dictionary has an id, its key unless it had one. */
  lemma {:induction false} WithIdHasId(d: seq<Pair>, key: string)
    ensures HasKey(WithId(d, key), "id") && d <= WithId(d, key)
    ensures HasKey(d, "id") ==> WithId(d, key) == d
    ensures !HasKey(d, "id") ==> Get(WithId(d, key), "id") == PyStr(key)
  {
    if !HasKey(d, "id") {
      assert WithId(d, key)[|d|].key == "id";
      GetAppended(d, PyStr(key));
    }
  }

  lemma {:induction false} GetAppended(d: seq<Pair>, v: Value)
    requires !HasKey(d, "id")
    ensures Get(d + [Pair("id", v)], "id") == v
  {
    if d != [] {
      assert d[0].key != "id";
      assert forall i :: 0 <= i < |d[1..]| ==> d[1..][i] == d[i + 1];
      GetAppended(d[1..], v);
      assert (d + [Pair("id", v)])[1..] == d[1..] + [Pair("id", v)];
    }
  }

  // ---- decimal numbers ---------------------------------------------------------------------------

  function NumberOf(s: string): (n: int) {
    if s == "" then 0 else NumberOf(s[..|s| - 1]) * 10 + (s[|s| - 1] as int - '0' as int)
  }

  lemma {:induction false} DigitsBack(n: nat)
    ensures NumberOf(DigitsOf(n)) == n
  {
    var s := DigitsOf(n);
    if n < 10 {
      assert s[..|s| - 1] == "";
    } else {
      DigitsBack(n / 10);
      assert s[..|s| - 1] == DigitsOf(n / 10);
    }
  }

  lemma {:induction false} DigitsInjective(m: nat, n: nat)
    requires DigitsOf(m) == DigitsOf(n)
    ensures m == n
  {
    DigitsBack(m);
    DigitsBack(n);
  }

  /** The integer a decimal text denotes. */
  function IntOf(s: string): (n: int) {
    if s != "" && s[0] == '-' then -NumberOf(s[1..]) else NumberOf(s)
  }

  lemma {:induction false} DigitsHead(n: nat)
    ensures DigitsOf(n) != "" && DigitsOf(n)[0] != '-'
  {
    if n >= 10 { DigitsHead(n / 10); }
  }

  /** A printed integer denotes it. */
  lemma {:induction false} IntBack(n: int, repr: Value -> string)
    ensures IntOf(Show(PyInt(n), repr)) == n
  {
    if n >= 0 {
      DigitsHead(n);
      DigitsBack(n);
    } else {
      DigitsBack(-n);
      assert ("-" + DigitsOf(-n))[1..] == DigitsOf(-n);
    }
  }
}

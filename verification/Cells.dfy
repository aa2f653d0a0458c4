/**
 The mapping from SQL cells to JS values (`set_cell`, `cells_to_array`, `map_entries`).

 `CellBack` gives an inverse directed by the cell's type, down through nested lists and maps, so nothing is
 lost that the type does not already say. The column type says less: it does not describe what a list or a
 map holds, and `ColumnExact` shows that a column's cells are told apart by their JS values exactly when the
 column is neither.
 */
module Cells {
  import opened Prelude
  import Hex

  /** A 64-bit float; rounding and NaN payloads are not modelled. A 32-bit float is one of these too. */
  datatype Double = Finite(v: real) | NegativeZero | Infinite(negative: bool) | NaN

  datatype Cell =
    | Null
    | Bool(b: bool)
    | Int(n: int)
    | Float(x: Double)
    | Text(s: string)
    | Bytes(bytes: seq<Hex.Byte>)
    | I8(n: int)
    | I16(n: int)
    | I32(n: int)
    | I128(n: int)
    | U8(n: int)
    | U16(n: int)
    | U32(n: int)
    | U64(n: int)
    | U128(n: int)
    | F32(x: Double)
    | Decimal(mantissa: int, scale: int)
    | Date(n: int)
    | Time(n: int)
    | Timestamp(n: int)
    | Interval(months: int, micros: int)
    | Uuid(u: nat)
    | Inet(s: string) // an address, by its canonical text
    | Point(px: Double, py: Double)
    | List(items: seq<Cell>)
    | Map(entries: seq<Entry>) // in key order

  datatype Entry = Entry(key: string, value: Cell)

  datatype Js =
    | JsNull
    | JsBool(b: bool)
    | JsNumber(x: Double)
    | JsBigInt(n: int)
    | JsString(s: string)
    | JsBytes(bytes: seq<Hex.Byte>)
    | JsArray(items: seq<Js>)
    | JsObject(props: seq<Prop>)

  datatype Prop = Prop(name: string, value: Js)

  /** The column types, and `KNull` for a bare NULL. */
  datatype Kind =
    | KNull | KBool | KInt | KFloat | KText | KBytes | KI8 | KI16 | KI32 | KI128 | KU8 | KU16 | KU32 | KU64 | KU128
    | KF32 | KDecimal | KDate | KTime | KTimestamp | KInterval | KUuid | KInet | KPoint | KList | KMap

  function KindOf(v: Cell): (k: Kind) {
    match v
    case Null => KNull
    case Bool(_) => KBool
    case Int(_) => KInt
    case Float(_) => KFloat
    case Text(_) => KText
    case Bytes(_) => KBytes
    case I8(_) => KI8
    case I16(_) => KI16
    case I32(_) => KI32
    case I128(_) => KI128
    case U8(_) => KU8
    case U16(_) => KU16
    case U32(_) => KU32
    case U64(_) => KU64
    case U128(_) => KU128
    case F32(_) => KF32
    case Decimal(_, _) => KDecimal
    case Date(_) => KDate
    case Time(_) => KTime
    case Timestamp(_) => KTimestamp
    case Interval(_, _) => KInterval
    case Uuid(_) => KUuid
    case Inet(_) => KInet
    case Point(_, _) => KPoint
    case List(_) => KList
    case Map(_) => KMap
  }

  const TWO_128: int := 0x1_0000_0000_0000_0000_0000_0000_0000_0000

  /** The machine ranges of the engine's value type. */
  predicate InRange(v: Cell) {
    match v
    case Int(n) => -0x8000_0000_0000_0000 <= n < 0x8000_0000_0000_0000
    case I8(n) => -0x80 <= n < 0x80
    case I16(n) => -0x8000 <= n < 0x8000
    case I32(n) => -0x8000_0000 <= n < 0x8000_0000
    case I128(n) => -TWO_128 <= 2 * n < TWO_128
    case U8(n) => 0 <= n < 0x100
    case U16(n) => 0 <= n < 0x1_0000
    case U32(n) => 0 <= n < 0x1_0000_0000
    case U64(n) => 0 <= n < 0x1_0000_0000_0000_0000
    case U128(n) => 0 <= n < TWO_128
    case Decimal(m, s) => -TWO_128 <= 2 * m < TWO_128 && 0 <= s < 0x1_0000_0000
    case Date(n) => -0x8000_0000 <= n < 0x8000_0000
    case Time(n) => 0 <= n < 0x1_0000_0000_0000_0000
    case Timestamp(n) => -0x8000_0000_0000_0000 <= n < 0x8000_0000_0000_0000
    case Interval(m, u) => -0x8000_0000 <= m < 0x8000_0000 && -0x8000_0000_0000_0000 <= u < 0x8000_0000_0000_0000
    case Uuid(u) => u < TWO_128
    case List(items) => forall i :: 0 <= i < |items| ==> InRange(items[i])
    case Map(entries) => forall i :: 0 <= i < |entries| ==> InRange(entries[i].value)
    case _ => true
  }

  // ---- the mapping -------------------------------------------------------------------------------

  function Num(n: int): (j: Js) {
    JsNumber(Finite(n as real))
  }

  /** The low `width` hexadecimal digits of `n`. */
  function HexPad(n: nat, width: nat): (s: string)
    ensures |s| == width
  {
    if width == 0 then "" else HexPad(n / 16, width - 1) + [Hex.Nibble(n % 16)]
  }

  /** The JS value of a cell that holds no others. */
  function Scalar(v: Cell): (j: Js)
    requires !v.List? && !v.Map?
  {
    match v
    case Null => JsNull
    case Bool(b) => JsBool(b)
    case I8(n) => Num(n)
    case I16(n) => Num(n)
    case I32(n) => Num(n)
    case U8(n) => Num(n)
    case U16(n) => Num(n)
    case U32(n) => Num(n)
    case Int(n) => JsBigInt(n)
    case U64(n) => JsBigInt(n)
    case I128(n) => JsBigInt(n)
    case U128(n) => JsBigInt(n)
    case Float(x) => JsNumber(x)
    case F32(x) => JsNumber(x)
    case Text(s) => JsString(s)
    case Bytes(b) => JsBytes(b)
    case Decimal(m, s) => JsObject([Prop("mantissa", JsBigInt(m)), Prop("scale", Num(s))])
    case Date(n) => Num(n)
    case Time(n) => JsBigInt(n)
    case Timestamp(n) => JsBigInt(n)
    case Interval(m, u) => JsObject([Prop("months", Num(m)), Prop("micros", JsBigInt(u))])
    case Uuid(u) => JsString(HexPad(u, 32))
    case Inet(s) => JsString(s)
    case Point(x, y) => JsObject([Prop("x", JsNumber(x)), Prop("y", JsNumber(y))])
  }

  function ToJs(v: Cell): (j: Js) {
    match v
    case List(items) => JsArray(ToAll(items))
    case Map(entries) => JsArray(ToPairs(entries))
    case _ => Scalar(v)
  }

  function ToAll(items: seq<Cell>): (js: seq<Js>)
    ensures |js| == |items|
  {
    if items == [] then [] else [ToJs(items[0])] + ToAll(items[1..])
  }

  function ToPairs(entries: seq<Entry>): (js: seq<Js>)
    ensures |js| == |entries|
  {
    if entries == [] then []
    else [JsArray([JsString(entries[0].key), ToJs(entries[0].value)])] + ToPairs(entries[1..])
  }

  // ---- the writers: arrays of a fixed length, filled by index ------------------------------------

  lemma {:induction false} ToAllAt(items: seq<Cell>, i: nat)
    requires i < |items|
    ensures ToAll(items)[i] == ToJs(items[i])
  {
    if i > 0 { ToAllAt(items[1..], i - 1); }
  }

  lemma {:induction false} ToPairsAt(entries: seq<Entry>, i: nat)
    requires i < |entries|
    ensures ToPairs(entries)[i] == JsArray([JsString(entries[i].key), ToJs(entries[i].value)])
  {
    if i > 0 { ToPairsAt(entries[1..], i - 1); }
  }

  /** `set_cell`: only slot `i` changes. */
  method SetCell(arr: array<Js>, i: nat, v: Cell)
    requires i < arr.Length
    modifies arr
    ensures arr[..] == old(arr[..])[i := ToJs(v)]
    decreases v
  {
    match v
    case List(items) => { var inner := CellsToArray(items); arr[i] := JsArray(inner); }
    case Map(entries) => { var inner := MapEntries(entries); arr[i] := JsArray(inner); }
    case _ => { arr[i] := Scalar(v); }
  }

  /** `cells_to_array`. */
  method CellsToArray(cells: seq<Cell>) returns (js: seq<Js>)
    ensures js == ToAll(cells)
    decreases cells
  {
    var arr := new Js[|cells|](_ => JsNull);
    for i := 0 to |cells|
      invariant forall k :: 0 <= k < i ==> arr[k] == ToAll(cells)[k]
    {
      SetCell(arr, i, cells[i]);
      ToAllAt(cells, i);
      assert forall k :: 0 <= k < arr.Length ==> arr[k] == arr[..][k];
    }
    js := arr[..];
  }

  /** `map_entries`: the pairs `new Map` takes. */
  method MapEntries(entries: seq<Entry>) returns (js: seq<Js>)
    ensures js == ToPairs(entries)
    decreases entries
  {
    var arr := new Js[|entries|](_ => JsNull);
    for i := 0 to |entries|
      invariant forall k :: 0 <= k < i ==> arr[k] == ToPairs(entries)[k]
    {
      var pair := new Js[2](_ => JsNull);
      pair[0] := JsString(entries[i].key);
      SetCell(pair, 1, entries[i].value);
      ToPairsAt(entries, i);
      assert pair[..][0] == pair[0] && pair[..] == [JsString(entries[i].key), ToJs(entries[i].value)];
      arr[i] := JsArray(pair[..]);
    }
    js := arr[..];
  }

  // ---- the inverse -------------------------------------------------------------------------------

  /** The type of a cell, followed into its elements. */
  datatype Shape = Leaf(kind: Kind) | ListOf(items: seq<Shape>) | MapOf(items: seq<Shape>)

  function ShapeOf(v: Cell): (s: Shape) {
    match v
    case List(items) => ListOf(ShapesOf(items))
    case Map(entries) => MapOf(EntryShapes(entries))
    case _ => Leaf(KindOf(v))
  }

  function ShapesOf(items: seq<Cell>): (s: seq<Shape>)
    ensures |s| == |items|
  {
    if items == [] then [] else [ShapeOf(items[0])] + ShapesOf(items[1..])
  }

  function EntryShapes(entries: seq<Entry>): (s: seq<Shape>)
    ensures |s| == |entries|
  {
    if entries == [] then [] else [ShapeOf(entries[0].value)] + EntryShapes(entries[1..])
  }

  function WholeNumber(j: Js): (r: Option<int>) {
    if j.JsNumber? && j.x.Finite? then Some(j.x.v.Floor) else None
  }

  function AsInt(j: Js, f: int -> Cell): (r: Option<Cell>) {
    var n := WholeNumber(j);
    if n.Some? then Some(f(n.value)) else None
  }

  function AsBig(j: Js, f: int -> Cell): (r: Option<Cell>) {
    if j.JsBigInt? then Some(f(j.n)) else None
  }

  predicate IsPair(j: Js, first: string, second: string) {
    j.JsObject? && |j.props| == 2 && j.props[0].name == first && j.props[1].name == second
  }

  /** Read a value that holds no others as the given type; NULL belongs to every type. */
  function FromScalar(j: Js, k: Kind): (r: Option<Cell>) {
    if j.JsNull? then Some(Null)
    else
      match k
      case KNull => None
      case KBool => if j.JsBool? then Some(Bool(j.b)) else None
      case KI8 => AsInt(j, n => I8(n))
      case KI16 => AsInt(j, n => I16(n))
      case KI32 => AsInt(j, n => I32(n))
      case KU8 => AsInt(j, n => U8(n))
      case KU16 => AsInt(j, n => U16(n))
      case KU32 => AsInt(j, n => U32(n))
      case KDate => AsInt(j, n => Date(n))
      case KInt => AsBig(j, n => Int(n))
      case KU64 => AsBig(j, n => U64(n))
      case KI128 => AsBig(j, n => I128(n))
      case KU128 => AsBig(j, n => U128(n))
      case KTime => AsBig(j, n => Time(n))
      case KTimestamp => AsBig(j, n => Timestamp(n))
      case KFloat => if j.JsNumber? then Some(Float(j.x)) else None
      case KF32 => if j.JsNumber? then Some(F32(j.x)) else None
      case KText => if j.JsString? then Some(Text(j.s)) else None
      case KInet => if j.JsString? then Some(Inet(j.s)) else None
      case KBytes => if j.JsBytes? then Some(Bytes(j.bytes)) else None
      case KUuid =>
        if j.JsString? && Hex.HexNum(j.s).Some? then Some(Uuid(Hex.HexNum(j.s).value)) else None
      case KDecimal =>
        if IsPair(j, "mantissa", "scale") && j.props[0].value.JsBigInt? && WholeNumber(j.props[1].value).Some?
        then Some(Decimal(j.props[0].value.n, WholeNumber(j.props[1].value).value)) else None
      case KInterval =>
        if IsPair(j, "months", "micros") && WholeNumber(j.props[0].value).Some? && j.props[1].value.JsBigInt?
        then Some(Interval(WholeNumber(j.props[0].value).value, j.props[1].value.n)) else None
      case KPoint =>
        if IsPair(j, "x", "y") && j.props[0].value.JsNumber? && j.props[1].value.JsNumber?
        then Some(Point(j.props[0].value.x, j.props[1].value.x)) else None
      case KList => None
      case KMap => None
  }

  function FromJs(j: Js, s: Shape): (r: Option<Cell>)
    decreases s
  {
    match s
    case Leaf(k) => FromScalar(j, k)
    case ListOf(shapes) =>
      if !j.JsArray? then None
      else (var items := FromAll(j.items, shapes); if items.Some? then Some(List(items.value)) else None)
    case MapOf(shapes) =>
      if !j.JsArray? then None
      else (var entries := FromPairs(j.items, shapes); if entries.Some? then Some(Map(entries.value)) else None)
  }

  function FromAll(js: seq<Js>, shapes: seq<Shape>): (r: Option<seq<Cell>>)
    decreases shapes
  {
    if |js| != |shapes| then None
    else if js == [] then Some([])
    else
      var head, tail := FromJs(js[0], shapes[0]), FromAll(js[1..], shapes[1..]);
      if head.Some? && tail.Some? then Some([head.value] + tail.value) else None
  }

  function FromPairs(js: seq<Js>, shapes: seq<Shape>): (r: Option<seq<Entry>>)
    decreases shapes
  {
    if |js| != |shapes| then None
    else if js == [] then Some([])
    else if js[0].JsArray? && |js[0].items| == 2 && js[0].items[0].JsString? then
      var head, tail := FromJs(js[0].items[1], shapes[0]), FromPairs(js[1..], shapes[1..]);
      if head.Some? && tail.Some? then Some([Entry(js[0].items[0].s, head.value)] + tail.value) else None
    else None
  }

  function Power16(n: nat): (p: nat)
    ensures p > 0
  {
    if n == 0 then 1 else 16 * Power16(n - 1)
  }

  lemma {:induction false} HexBack(n: nat, width: nat)
    requires n < Power16(width)
    ensures Hex.HexNum(HexPad(n, width)) == Some(n)
  {
    if width > 0 {
      HexBack(n / 16, width - 1);
      var s := HexPad(n, width);
      assert s[..|s| - 1] == HexPad(n / 16, width - 1);
    }
  }

  lemma {:induction false} Power16Add(m: nat, n: nat)
    ensures Power16(m + n) == Power16(m) * Power16(n)
  {
    if m > 0 {
      Power16Add(m - 1, n);
      calc {
        Power16(m + n);
        16 * (Power16(m - 1) * Power16(n));
        16 * Power16(m - 1) * Power16(n);
      }
    }
  }

  lemma {:induction false} Power32()
    ensures Power16(32) == TWO_128
  {
    assert Power16(2) == 256 by { assert Power16(1) == 16; }
    assert Power16(4) == 0x1_0000 by { assert Power16(3) == 4096; }
    Power16Add(4, 4);
    Power16Add(8, 8);
    Power16Add(16, 16);
  }

  /** A UUID prints as 32 digits that denote it. */
  lemma {:induction false} UuidBack(u: nat)
    requires u < TWO_128
    ensures Hex.HexNum(HexPad(u, 32)) == Some(u)
  {
    Power32();
    HexBack(u, 32);
  }

  lemma {:induction false} ScalarBack(v: Cell)
    requires InRange(v) && !v.List? && !v.Map?
    ensures FromScalar(Scalar(v), KindOf(v)) == Some(v)
  {
    if v.Uuid? { UuidBack(v.u); }
  }

  /** The JS value of a cell, read by the cell's type, is the cell. */
  lemma {:induction false} CellBack(v: Cell)
    requires InRange(v)
    ensures FromJs(ToJs(v), ShapeOf(v)) == Some(v)
  {
    match v
    case List(items) => AllBack(items);
    case Map(entries) => PairsBack(entries);
    case _ => ScalarBack(v);
  }

  lemma {:induction false} FromAllCons(j: Js, js: seq<Js>, s: Shape, ss: seq<Shape>, v: Cell, vs: seq<Cell>)
    requires FromJs(j, s) == Some(v) && FromAll(js, ss) == Some(vs)
    ensures FromAll([j] + js, [s] + ss) == Some([v] + vs)
  {
    assert ([j] + js)[1..] == js && ([s] + ss)[1..] == ss;
  }

  lemma {:induction false} AllBack(items: seq<Cell>)
    requires forall i :: 0 <= i < |items| ==> InRange(items[i])
    ensures FromAll(ToAll(items), ShapesOf(items)) == Some(items)
  {
    if items != [] {
      var v, vs := items[0], items[1..];
      CellBack(v);
      AllBack(vs);
      FromAllCons(ToJs(v), ToAll(vs), ShapeOf(v), ShapesOf(vs), v, vs);
      assert items == [v] + vs;
    }
  }

  lemma {:induction false} FromPairsCons(key: string, j: Js, js: seq<Js>, s: Shape, ss: seq<Shape>, v: Cell, es: seq<Entry>)
    requires FromJs(j, s) == Some(v) && FromPairs(js, ss) == Some(es)
    ensures FromPairs([JsArray([JsString(key), j])] + js, [s] + ss) == Some([Entry(key, v)] + es)
  {
    assert ([JsArray([JsString(key), j])] + js)[1..] == js && ([s] + ss)[1..] == ss;
  }

  lemma {:induction false} PairsBack(entries: seq<Entry>)
    requires forall i :: 0 <= i < |entries| ==> InRange(entries[i].value)
    ensures FromPairs(ToPairs(entries), EntryShapes(entries)) == Some(entries)
  {
    if entries != [] {
      var e, es := entries[0], entries[1..];
      CellBack(e.value);
      PairsBack(es);
      FromPairsCons(e.key, ToJs(e.value), ToPairs(es), ShapeOf(e.value), EntryShapes(es), e.value, es);
      assert entries == [e] + es;
    }
  }

  // ---- what the column type alone determines -----------------------------------------------------

  /** `Value::matches`: NULL, or a cell of the column's type. */
  predicate Matches(v: Cell, k: Kind) {
    v.Null? || KindOf(v) == k
  }

  ghost predicate Determined(k: Kind) {
    forall v, w :: Matches(v, k) && Matches(w, k) && InRange(v) && InRange(w) && ToJs(v) == ToJs(w) ==> v == w
  }

  lemma {:induction false} ScalarDetermined(k: Kind, v: Cell, w: Cell)
    requires k != KList && k != KMap
    requires Matches(v, k) && Matches(w, k) && InRange(v) && InRange(w) && ToJs(v) == ToJs(w)
    ensures v == w
  {
    NullOnly(v);
    NullOnly(w);
    if !v.Null? && !w.Null? {
      ScalarBack(v);
      ScalarBack(w);
    }
  }

  lemma {:induction false} NullOnly(v: Cell)
    ensures ToJs(v) == JsNull <==> v == Null
  {
  }

  /** Two lists, or two maps, that differ only in the width of an integer have one JS value. */
  lemma {:induction false} WidthIsLost(n: int, key: string)
    requires -0x80 <= n < 0x80
    ensures ToJs(List([I8(n)])) == ToJs(List([I16(n)]))
    ensures ToJs(Map([Entry(key, I8(n))])) == ToJs(Map([Entry(key, I16(n))]))
  {
    assert ToAll([I8(n)]) == [Num(n)] && ToAll([I16(n)]) == [Num(n)] by { assert [I8(n)][1..] == [] && [I16(n)][1..] == []; }
    var a, b := [Entry(key, I8(n))], [Entry(key, I16(n))];
    assert ToPairs(a) == ToPairs(b) by { assert a[1..] == [] && b[1..] == []; }
  }

  /** A map and the list of its pairs have one JS value too. */
  lemma {:induction false} MapIsAList(key: string, v: Cell)
    ensures ToJs(Map([Entry(key, v)])) == ToJs(List([List([Text(key), v])]))
  {
    var entries, inner := [Entry(key, v)], [Text(key), v];
    assert entries[1..] == [] && inner[1..] == [v] && [v][1..] == [] && [List(inner)][1..] == [];
    assert ToAll(inner) == [JsString(key), ToJs(v)];
    assert ToAll([List(inner)]) == [JsArray(ToAll(inner))];
  }

  lemma {:induction false} Undetermined(k: Kind, v: Cell, w: Cell)
    requires Matches(v, k) && Matches(w, k) && InRange(v) && InRange(w) && ToJs(v) == ToJs(w) && v != w
    ensures !Determined(k)
  {
  }

  lemma {:induction false} ListUndetermined(n: int, key: string)
    requires -0x80 <= n < 0x80
    ensures !Determined(KList)
  {
    WidthIsLost(n, key);
    Undetermined(KList, List([I8(n)]), List([I16(n)]));
  }

  lemma {:induction false} MapUndetermined(n: int, key: string)
    requires -0x80 <= n < 0x80
    ensures !Determined(KMap)
  {
    WidthIsLost(n, key);
    var v, w := Map([Entry(key, I8(n))]), Map([Entry(key, I16(n))]);
    assert v.entries[0] != w.entries[0];
    Undetermined(KMap, v, w);
  }

  lemma {:induction false} ScalarsDetermined(k: Kind)
    requires k != KList && k != KMap
    ensures Determined(k)
  {
    forall v, w | Matches(v, k) && Matches(w, k) && InRange(v) && InRange(w) && ToJs(v) == ToJs(w)
      ensures v == w
    {
      ScalarDetermined(k, v, w);
    }
  }

  /** The JS value determines a column's cells exactly when the column is not a list or a map. */
  lemma {:induction false} ColumnExact(k: Kind)
    ensures Determined(k) <==> k != KList && k != KMap
  {
    if k == KList {
      ListUndetermined(0, "");
    } else if k == KMap {
      MapUndetermined(0, "");
    } else {
      ScalarsDetermined(k);
    }
  }
}

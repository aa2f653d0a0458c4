/**
 Lowercase hexadecimal (section 8 of RFC 4648) as admin.rs prints and reads it, and the UUID text of a
 workspace id built on it.
 */
module Hex {
  import opened Prelude

  type Byte = n: nat | n < 256

  function Nibble(n: nat): (c: char)
    requires n < 16
    ensures NibbleValue(c) == Some(n) && c != '-' && c != 'x' && !('A' <= c <= 'F')
  {
    if n < 10 then '0' + n as char else 'a' + (n - 10) as char
  }

  /** `hex_nibble`: both cases are accepted. */
  function NibbleValue(c: char): (r: Option<nat>)
    ensures r.Some? ==> r.value < 16
  {
    if '0' <= c <= '9' then Some((c - '0') as nat)
    else if 'a' <= c <= 'f' then Some((c - 'a') as nat + 10)
    else if 'A' <= c <= 'F' then Some((c - 'A') as nat + 10)
    else None
  }

  /** The digits printed and the digits read. */
  lemma {:induction false} NibbleDigits(n: nat, c: char)
    requires n < 16
    ensures Nibble(n) == "0123456789abcdef"[n]
    ensures NibbleValue(c).Some? <==> c in "0123456789abcdefABCDEF"
  {
  }

  predicate IsHex(s: string) {
    forall i :: 0 <= i < |s| ==> NibbleValue(s[i]).Some?
  }

  function High(b: Byte): (n: nat)
    ensures n < 16
  {
    b / 16
  }

  function Low(b: Byte): (n: nat)
    ensures n < 16
  {
    b % 16
  }

  function Join(high: nat, low: nat): (b: Byte)
    requires high < 16 && low < 16
    ensures High(b) == high && Low(b) == low
  {
    16 * high + low
  }

  lemma {:induction false} JoinHalves(b: Byte)
    ensures Join(High(b), Low(b)) == b
  {
  }

  function ByteText(b: Byte): (s: string) {
    [Nibble(High(b)), Nibble(Low(b))]
  }

  function Encode(bs: seq<Byte>): (s: string) {
    if bs == [] then "" else ByteText(bs[0]) + Encode(bs[1..])
  }

  /** The bytes of the digit pairs, or a failure at the first non-digit or unpaired digit. */
  function Pairs(s: string): (r: Result<seq<Byte>>) {
    if s == "" then Ok([])
    else if |s| == 1 then Err
    else
      var high, low, rest := NibbleValue(s[0]), NibbleValue(s[1]), Pairs(s[2..]);
      if high.Some? && low.Some? && rest.Ok? then Ok([Join(high.value, low.value)] + rest.value) else Err
  }

  predicate Prefixed(s: string) {
    |s| >= 2 && s[0] == '0' && s[1] == 'x'
  }

  function Stripped(s: string): (r: string) {
    if Prefixed(s) then s[2..] else s
  }

  /** `decode_hex`. */
  function Decode(s: string): (r: Result<seq<Byte>>) {
    var t := Stripped(s);
    if |t| % 2 != 0 then Err else Pairs(t)
  }

  function LowerChar(c: char): (r: char) {
    if 'A' <= c <= 'Z' then c - 'A' + 'a' else c
  }

  function Lower(s: string): (r: string) {
    if s == "" then "" else [LowerChar(s[0])] + Lower(s[1..])
  }

  /** The number a string of digits denotes. */
  function HexNum(s: string): (r: Option<nat>) {
    if s == "" then Some(0)
    else
      var init, last := HexNum(s[..|s| - 1]), NibbleValue(s[|s| - 1]);
      if init.Some? && last.Some? then Some(init.value * 16 + last.value) else None
  }

  // ---- round trips -------------------------------------------------------------------------------

  lemma {:induction false} PairsEncode(bs: seq<Byte>)
    ensures Pairs(Encode(bs)) == Ok(bs)
  {
    if bs != [] {
      PairsEncode(bs[1..]);
      JoinHalves(bs[0]);
      assert Encode(bs)[2..] == Encode(bs[1..]);
      assert bs == [bs[0]] + bs[1..];
    }
  }

  lemma {:induction false} EncodeShape(bs: seq<Byte>)
    ensures |Encode(bs)| == 2 * |bs| && IsHex(Encode(bs)) && !Prefixed(Encode(bs))
    ensures forall i :: 0 <= i < |Encode(bs)| ==> Encode(bs)[i] != '-'
  {
    if bs != [] {
      EncodeShape(bs[1..]);
    }
  }

  /** Decoding a printed byte sequence gives it back: the `0x` strip never fires on printed output. */
  lemma {:induction false} DecodeEncode(bs: seq<Byte>)
    ensures Decode(Encode(bs)) == Ok(bs)
  {
    EncodeShape(bs);
    PairsEncode(bs);
  }

  lemma {:induction false} LowerNibble(c: char)
    requires NibbleValue(c).Some?
    ensures Nibble(NibbleValue(c).value) == LowerChar(c)
  {
  }

  lemma {:induction false} PairsExact(s: string)
    ensures Pairs(s).Ok? <==> |s| % 2 == 0 && IsHex(s)
    ensures Pairs(s).Ok? ==> Encode(Pairs(s).value) == Lower(s)
  {
    if |s| >= 2 {
      PairsExact(s[2..]);
      HexByPairs(s);
      if Pairs(s).Ok? { LowerPair(s); }
    }
  }

  lemma {:induction false} HexByPairs(s: string)
    requires |s| >= 2
    ensures IsHex(s) <==> NibbleValue(s[0]).Some? && NibbleValue(s[1]).Some? && IsHex(s[2..])
  {
    assert forall i | 2 <= i < |s| :: s[i] == s[2..][i - 2];
  }

  lemma {:induction false} LowerPair(s: string)
    requires |s| >= 2 && Pairs(s).Ok? && Encode(Pairs(s[2..]).value) == Lower(s[2..])
    ensures Encode(Pairs(s).value) == Lower(s)
  {
    LowerNibble(s[0]);
    LowerNibble(s[1]);
    assert Pairs(s).value[1..] == Pairs(s[2..]).value;
    assert s[1..][1..] == s[2..];
    assert Lower(s) == [LowerChar(s[0])] + ([LowerChar(s[1])] + Lower(s[2..]));
  }

  /**
   Decoding succeeds exactly on an even number of hex digits after at most one `0x`, and re-encoding an
   accepted text gives its lowercase form without the prefix.
   */
  lemma {:induction false} DecodeExact(s: string)
    ensures Decode(s).Ok? <==> |Stripped(s)| % 2 == 0 && IsHex(Stripped(s))
    ensures Decode(s).Ok? ==> Encode(Decode(s).value) == Lower(Stripped(s))
  {
    PairsExact(Stripped(s));
  }

  // ---- the loops ---------------------------------------------------------------------------------

  lemma {:induction false} PushTwo(out: string, a: char, b: char)
    ensures out + [a] + [b] == out + [a, b]
  {
  }

  lemma {:induction false} EncodeSnoc(bs: seq<Byte>, b: Byte)
    ensures Encode(bs + [b]) == Encode(bs) + ByteText(b)
  {
    EncodeAppend(bs, [b]);
    assert [b][1..] == [];
    assert Encode([b]) == ByteText(b) + "";
  }

  /** `hex_bytes`. */
  method HexBytes(bs: seq<Byte>) returns (out: string)
    ensures out == Encode(bs)
  {
    out := "";
    for i := 0 to |bs|
      invariant out == Encode(bs[..i])
    {
      assert bs[..i + 1] == bs[..i] + [bs[i]];
      EncodeSnoc(bs[..i], bs[i]);
      PushTwo(out, Nibble(High(bs[i])), Nibble(Low(bs[i])));
      out := out + [Nibble(High(bs[i]))];
      out := out + [Nibble(Low(bs[i]))];
    }
    assert bs[..|bs|] == bs;
  }

  function Continue(out: seq<Byte>, rest: Result<seq<Byte>>): (r: Result<seq<Byte>>) {
    if rest.Ok? then Ok(out + rest.value) else Err
  }

  /** One turn of the decoding loop. */
  lemma {:induction false} PairsTurn(out: seq<Byte>, t: string, i: nat)
    requires i + 1 < |t|
    ensures var high, low := NibbleValue(t[i]), NibbleValue(t[i + 1]);
            Continue(out, Pairs(t[i..])) ==
            if high.Some? && low.Some? then Continue(out + [Join(high.value, low.value)], Pairs(t[i + 2..])) else Err
  {
    var rest := Pairs(t[i + 2..]);
    assert t[i..][2..] == t[i + 2..] && t[i..][0] == t[i] && t[i..][1] == t[i + 1];
    var high, low := NibbleValue(t[i]), NibbleValue(t[i + 1]);
    if high.Some? && low.Some? && rest.Ok? {
      AppendAssoc(out, [Join(high.value, low.value)], rest.value);
    }
  }

  /** `decode_hex`: strip, check the length, then pairs until the first bad digit. */
  method DecodeHex(s: string) returns (r: Result<seq<Byte>>)
    ensures r == Decode(s)
  {
    var t := if |s| >= 2 && s[0] == '0' && s[1] == 'x' then s[2..] else s;
    if |t| % 2 != 0 { return Err; }
    var out: seq<Byte> := [];
    var i, pairs := 0, |t| / 2;
    assert t[0..] == t;
    assert Pairs(t).Ok? ==> out + Pairs(t).value == Pairs(t).value;
    while pairs > 0
      invariant 0 <= i && 0 <= pairs && |t| == i + 2 * pairs
      invariant Continue(out, Pairs(t[i..])) == Pairs(t)
    {
      PairsTurn(out, t, i);
      var high := NibbleValue(t[i]);
      var low := NibbleValue(t[i + 1]);
      if high.None? || low.None? { return Err; }
      out := out + [Join(high.value, low.value)];
      i, pairs := i + 2, pairs - 1;
    }
    assert Pairs(t[i..]) == Ok([]) && out + [] == out;
    r := Ok(out);
  }

  // ---- workspace ids -----------------------------------------------------------------------------

  type Id = b: seq<Byte> | |b| == 16 witness seq(16, i => 0)

  /** The UUID text: 8-4-4-4-12 digits. */
  function IdText(id: Id): (s: string) {
    Encode(id[0..4]) + ("-" + (Encode(id[4..6]) + ("-" + (Encode(id[6..8]) + ("-" + (Encode(id[8..10]) + ("-" + Encode(id[10..16]))))))))
  }

  function WithoutDashes(s: string): (r: string) {
    if s == "" then "" else if s[0] == '-' then WithoutDashes(s[1..]) else [s[0]] + WithoutDashes(s[1..])
  }

  /** `WorkspaceId::parse`: dashes are dropped, the rest must be 16 bytes of hex. */
  function ParseId(s: string): (r: Result<Id>) {
    match Pairs(WithoutDashes(s))
    case Err => Err
    case Ok(bs) => if |bs| == 16 then Ok(bs) else Err
  }

  lemma {:induction false} KeepChar(c: char, rest: string)
    requires c != '-'
    ensures WithoutDashes([c] + rest) == [c] + WithoutDashes(rest)
  {
    assert ([c] + rest)[1..] == rest;
  }

  lemma {:induction false} KeepByte(b: Byte, rest: string)
    ensures WithoutDashes(ByteText(b) + rest) == ByteText(b) + WithoutDashes(rest)
  {
    var x, y := Nibble(High(b)), Nibble(Low(b));
    assert ByteText(b) + rest == [x] + ([y] + rest);
    KeepChar(x, [y] + rest);
    KeepChar(y, rest);
    assert ByteText(b) + WithoutDashes(rest) == [x] + ([y] + WithoutDashes(rest));
  }

  /** Printed groups contain no dash, so dropping dashes keeps them whole. */
  lemma {:induction false} DropAfterGroup(g: seq<Byte>, rest: string)
    ensures WithoutDashes(Encode(g) + rest) == Encode(g) + WithoutDashes(rest)
  {
    if g == [] {
      assert Encode(g) + rest == rest;
      assert Encode(g) + WithoutDashes(rest) == WithoutDashes(rest);
    } else {
      DropAfterGroup(g[1..], rest);
      AppendAssoc(ByteText(g[0]), Encode(g[1..]), rest);
      KeepByte(g[0], Encode(g[1..]) + rest);
      AppendAssoc(ByteText(g[0]), Encode(g[1..]), WithoutDashes(rest));
    }
  }

  lemma {:induction false} DropDash(rest: string)
    ensures WithoutDashes("-" + rest) == WithoutDashes(rest)
  {
    assert ("-" + rest)[1..] == rest;
  }

  lemma {:induction false} EncodeAppend(a: seq<Byte>, b: seq<Byte>)
    ensures Encode(a + b) == Encode(a) + Encode(b)
  {
    if a == [] {
      assert a + b == b;
    } else {
      EncodeAppend(a[1..], b);
      assert (a + b)[1..] == a[1..] + b && (a + b)[0] == a[0];
      AppendAssoc(ByteText(a[0]), Encode(a[1..]), Encode(b));
    }
  }

  /** A group, a dash and a text whose digits are the following bytes. */
  lemma {:induction false} GroupDigits(g: seq<Byte>, rest: string, bs: seq<Byte>)
    requires WithoutDashes(rest) == Encode(bs)
    ensures WithoutDashes(Encode(g) + ("-" + rest)) == Encode(g + bs)
  {
    DropAfterGroup(g, "-" + rest);
    DropDash(rest);
    EncodeAppend(g, bs);
  }

  lemma {:induction false} IdGroup(id: Id, from: nat, to: nat, rest: string)
    requires from <= to <= 16 && WithoutDashes(rest) == Encode(id[to..16])
    ensures WithoutDashes(Encode(id[from..to]) + ("-" + rest)) == Encode(id[from..16])
  {
    GroupDigits(id[from..to], rest, id[to..16]);
    assert id[from..to] + id[to..16] == id[from..16];
  }

  lemma {:induction false} IdDigits(id: Id)
    ensures WithoutDashes(IdText(id)) == Encode(id)
  {
    var s5 := Encode(id[10..16]);
    assert WithoutDashes(s5) == s5 by {
      DropAfterGroup(id[10..16], "");
      assert s5 + "" == s5;
    }
    var s4 := Encode(id[8..10]) + ("-" + s5);
    IdGroup(id, 8, 10, s5);
    var s3 := Encode(id[6..8]) + ("-" + s4);
    IdGroup(id, 6, 8, s4);
    var s2 := Encode(id[4..6]) + ("-" + s3);
    IdGroup(id, 4, 6, s3);
    IdGroup(id, 0, 4, s2);
    assert id[0..16] == id;
  }

  lemma {:induction false} EncodeAscii(bs: seq<Byte>)
    ensures forall i :: 0 <= i < |Encode(bs)| ==> (Encode(bs)[i] as int) < 0x80
  {
    if bs != [] {
      EncodeAscii(bs[1..]);
    }
  }

  /** The text of an id is 36 ASCII characters. */
  /** ASCII text without a dash. */
  predicate Undashed(s: string) {
    forall i :: 0 <= i < |s| ==> (s[i] as int) < 0x80 && s[i] != '-'
  }

  lemma {:induction false} EncodeUndashed(bs: seq<Byte>)
    ensures |Encode(bs)| == 2 * |bs| && Undashed(Encode(bs))
  {
    EncodeShape(bs);
    EncodeAscii(bs);
  }

  lemma {:induction false} DashesAt(a: string, b: string, c: string, d: string, e: string)
    requires |a| == 8 && |b| == |c| == |d| == 4 && |e| == 12
    requires Undashed(a) && Undashed(b) && Undashed(c) && Undashed(d) && Undashed(e)
    ensures var t := a + ("-" + (b + ("-" + (c + ("-" + (d + ("-" + e)))))));
            && |t| == 36 && (forall i :: 0 <= i < 36 ==> (t[i] as int) < 0x80)
            && (forall i :: 0 <= i < 36 ==> (t[i] == '-' <==> i in {8, 13, 18, 23}))
  {
  }

  lemma {:induction false} IdTextAscii(id: Id)
    ensures |IdText(id)| == 36 && forall i :: 0 <= i < 36 ==> (IdText(id)[i] as int) < 0x80
    ensures forall i :: 0 <= i < 36 ==> (IdText(id)[i] == '-' <==> i in {8, 13, 18, 23})
  {
    EncodeUndashed(id[0..4]);
    EncodeUndashed(id[4..6]);
    EncodeUndashed(id[6..8]);
    EncodeUndashed(id[8..10]);
    EncodeUndashed(id[10..16]);
    DashesAt(Encode(id[0..4]), Encode(id[4..6]), Encode(id[6..8]), Encode(id[8..10]), Encode(id[10..16]));
  }

  /** `WorkspaceId::parse` inverts the UUID text. */
  lemma {:induction false} ParseIdText(id: Id)
    ensures ParseId(IdText(id)) == Ok(id)
  {
    IdDigits(id);
    PairsEncode(id);
  }
}

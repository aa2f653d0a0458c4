/**
 Opaque order keys with fractional insertion (crates/loom-types/src/order_key.rs): strings over a base-62
 alphabet whose lexicographic order is the membership order. The generator must land strictly between
 two neighbours, end in a non-minimum digit, and terminate.
 */
module OrderKey {
  import opened Prelude
  import opened StringOrder

  const BASE: nat := 62

  /** The alphabet in ascending byte order: 0-9, A-Z, a-z. */
  function Digit(d: nat): (c: char)
    requires d < BASE
    ensures DigitIndex(c) == Some(d)
  {
    if d < 10 then '0' + d as char else if d < 36 then 'A' + (d - 10) as char else 'a' + (d - 36) as char
  }

  function DigitIndex(c: char): (r: Option<nat>)
    ensures r.Some? ==> r.value < BASE
  {
    if '0' <= c <= '9' then Some((c - '0') as nat)
    else if 'A' <= c <= 'Z' then Some((c - 'A') as nat + 10)
    else if 'a' <= c <= 'z' then Some((c - 'a') as nat + 36)
    else None
  }

  predicate Digits(s: string) {
    forall i :: 0 <= i < |s| ==> DigitIndex(s[i]).Some?
  }

  /** What `OrderKey::parse` accepts. */
  predicate Canonical(s: string) {
    s != "" && Digits(s) && s[|s| - 1] != '0'
  }

  /** The digit at `i`, reading positions past the end as the minimum digit. */
  function DigitAt(s: string, i: nat): (d: nat)
    requires Digits(s)
    ensures d < BASE
  {
    if i < |s| then DigitIndex(s[i]).value else 0
  }

  function Rest(s: string, i: nat): (r: string) {
    if i < |s| then s[i..] else ""
  }

  /** On digits, comparing bytes is comparing digit values. */
  lemma DigitOrder(c: char, d: char)
    requires DigitIndex(c).Some? && DigitIndex(d).Some?
    ensures c < d <==> DigitIndex(c).value < DigitIndex(d).value
    ensures c == d <==> DigitIndex(c) == DigitIndex(d)
  {
  }

  // ---- generation --------------------------------------------------------------------------------

  /** From position `i` on, `lo` padded with minimum digits is below `hi` at some digit of `hi`. */
  predicate Below(lo: string, hi: string, i: nat)
    requires Digits(lo) && Digits(hi)
    decreases |hi| - i
  {
    i < |hi| && (DigitAt(lo, i) < DigitAt(hi, i) || (DigitAt(lo, i) == DigitAt(hi, i) && Below(lo, hi, i + 1)))
  }

  predicate Ready(lo: string, hi: Option<string>, i: nat) {
    Digits(lo) && (hi.Some? ==> Digits(hi.value) && Below(lo, hi.value, i))
  }

  function Upper(hi: Option<string>, i: nat): (d: nat)
    requires hi.Some? ==> Digits(hi.value)
  {
    if hi.Some? then DigitAt(hi.value, i) else BASE
  }

  function Measure(lo: string, hi: Option<string>, i: nat): (m: nat) {
    (if i < |lo| then |lo| - i else 0) + (if hi.Some? && i < |hi.value| then |hi.value| - i else 0)
  }

  /** The digit halfway between, or `l` itself when the two are adjacent. */
  function Middle(l: nat, h: nat): (mid: nat)
    requires l < h <= BASE
    ensures l <= mid < h
    ensures mid == l <==> h == l + 1
  {
    (l + h) / 2
  }

  /** The digits the generator emits from position `i` on. */
  function KeyFrom(lo: string, hi: Option<string>, i: nat): (r: string)
    requires Ready(lo, hi, i)
    decreases Measure(lo, hi, i)
  {
    var l, h := DigitAt(lo, i), Upper(hi, i);
    if l == h then [Digit(l)] + KeyFrom(lo, hi, i + 1)
    else
      var mid := Middle(l, h);
      if mid > l then [Digit(mid)] else [Digit(l)] + KeyFrom(lo, None, i + 1)
  }

  lemma EmitShared(lo: string, hi: Option<string>, i: nat)
    requires Ready(lo, hi, i) && DigitAt(lo, i) == Upper(hi, i)
    ensures hi.Some? && i < |hi.value| && Ready(lo, hi, i + 1) && Measure(lo, hi, i + 1) < Measure(lo, hi, i)
    ensures KeyFrom(lo, hi, i) == [Digit(DigitAt(lo, i))] + KeyFrom(lo, hi, i + 1)
  {
  }

  lemma EmitAdjacent(lo: string, hi: Option<string>, i: nat)
    requires Ready(lo, hi, i) && Upper(hi, i) == DigitAt(lo, i) + 1
    ensures Ready(lo, None, i + 1) && Measure(lo, None, i + 1) < Measure(lo, hi, i)
    ensures KeyFrom(lo, hi, i) == [Digit(DigitAt(lo, i))] + KeyFrom(lo, None, i + 1)
  {
  }

  lemma EmitMiddle(lo: string, hi: Option<string>, i: nat)
    requires Ready(lo, hi, i) && Upper(hi, i) > DigitAt(lo, i) + 1
    ensures KeyFrom(lo, hi, i) == [Digit(Middle(DigitAt(lo, i), Upper(hi, i)))]
  {
  }

  /** Prefixing the same digit keeps a string above the remainder of `lo`. */
  lemma AboveNext(lo: string, i: nat, tail: string)
    requires Digits(lo) && Less(Rest(lo, i + 1), tail)
    ensures Less(Rest(lo, i), [Digit(DigitAt(lo, i))] + tail)
  {
    var key := [Digit(DigitAt(lo, i))] + tail;
    assert key[1..] == tail;
    HeadOrder(lo, i, key);
  }

  /** Prefixing the same digit keeps a string below the remainder of `hi`. */
  lemma BelowNext(hi: string, i: nat, tail: string)
    requires Digits(hi) && i < |hi| && Less(tail, Rest(hi, i + 1))
    ensures Less([Digit(DigitAt(hi, i))] + tail, Rest(hi, i))
  {
    var key := [Digit(DigitAt(hi, i))] + tail;
    assert key[1..] == tail;
    HeadOrder(hi, i, key);
  }

  lemma BelowHead(hi: string, i: nat, d: nat, tail: string)
    requires Digits(hi) && i < |hi| && d < DigitAt(hi, i)
    ensures Less([Digit(d)] + tail, Rest(hi, i))
  {
    HeadOrder(hi, i, [Digit(d)] + tail);
  }

  lemma AboveHead(lo: string, i: nat, d: nat, tail: string)
    requires Digits(lo) && DigitAt(lo, i) < d < BASE
    ensures Less(Rest(lo, i), [Digit(d)] + tail)
  {
    HeadOrder(lo, i, [Digit(d)] + tail);
  }

  lemma CanonicalNext(d: nat, tail: string)
    requires d < BASE && Canonical(tail)
    ensures Canonical([Digit(d)] + tail)
  {
    var key := [Digit(d)] + tail;
    assert key[|key| - 1] == tail[|tail| - 1];
    assert forall j | 0 < j < |key| :: key[j] == tail[j - 1];
  }

  /** Past the common prefix, the emitted digits lie strictly between the two remainders. */
  lemma {:induction false} KeyFromBetween(lo: string, hi: Option<string>, i: nat)
    requires Ready(lo, hi, i)
    ensures Canonical(KeyFrom(lo, hi, i))
    ensures Less(Rest(lo, i), KeyFrom(lo, hi, i))
    ensures hi.Some? ==> Less(KeyFrom(lo, hi, i), Rest(hi.value, i))
    decreases Measure(lo, hi, i)
  {
    var l, h := DigitAt(lo, i), Upper(hi, i);
    if l == h {
      EmitShared(lo, hi, i);
      KeyFromBetween(lo, hi, i + 1);
      CanonicalNext(l, KeyFrom(lo, hi, i + 1));
      AboveNext(lo, i, KeyFrom(lo, hi, i + 1));
      BelowNext(hi.value, i, KeyFrom(lo, hi, i + 1));
    } else if h > l + 1 {
      EmitMiddle(lo, hi, i);
      var mid := Middle(l, h);
      DigitOrder('0', Digit(mid));
      AboveHead(lo, i, mid, "");
      if hi.Some? { BelowHead(hi.value, i, mid, ""); }
    } else {
      EmitAdjacent(lo, hi, i);
      KeyFromBetween(lo, None, i + 1);
      CanonicalNext(l, KeyFrom(lo, None, i + 1));
      AboveNext(lo, i, KeyFrom(lo, None, i + 1));
      if hi.Some? { BelowHead(hi.value, i, l, KeyFrom(lo, None, i + 1)); }
    }
  }

  /** The remainder at `i` starts with the digit at `i`, and its tail is the remainder at `i + 1`. */
  lemma HeadOrder(s: string, i: nat, key: string)
    requires Digits(s) && key != "" && DigitIndex(key[0]).Some?
    ensures i < |s| ==> Rest(s, i) != "" && Rest(s, i)[1..] == Rest(s, i + 1)
    ensures i < |s| ==> && (Rest(s, i)[0] < key[0] <==> DigitAt(s, i) < DigitIndex(key[0]).value)
                        && (key[0] < Rest(s, i)[0] <==> DigitIndex(key[0]).value < DigitAt(s, i))
                        && (Rest(s, i)[0] == key[0] <==> DigitAt(s, i) == DigitIndex(key[0]).value)
  {
    if i < |s| {
      DigitOrder(s[i], key[0]);
      DigitOrder(key[0], s[i]);
    }
  }

  /** A canonical upper bound is separated from every smaller string even after padding it with zeros. */
  lemma {:induction false} CanonicalBelow(lo: string, hi: string, i: nat)
    requires Digits(lo) && Canonical(hi)
    requires Less(Rest(lo, i), Rest(hi, i))
    ensures Below(lo, hi, i)
    decreases |hi| - i
  {
    assert i < |hi|;
    HeadOrder(lo, i, Rest(hi, i));
    assert hi[i..][1..] == hi[i + 1..];
    if i < |lo| {
      assert lo[i..][1..] == lo[i + 1..];
    }
    if DigitAt(lo, i) == DigitAt(hi, i) {
      if i + 1 == |hi| {
        DigitOrder(hi[i], '0');
        assert false;
      } else {
        CanonicalBelow(lo, hi, i + 1);
      }
    } else if i >= |lo| {
      DigitOrder('0', hi[i]);
    }
  }

  /** `key_between`, as a function of its bounds. */
  function Midkey(lo: string, hi: Option<string>): (key: string)
    requires Digits(lo)
    requires hi.Some? ==> Canonical(hi.value) && Less(lo, hi.value)
    ensures Canonical(key) && Less(lo, key)
    ensures hi.Some? ==> Less(key, hi.value)
  {
    assert Rest(lo, 0) == lo && (hi.Some? ==> Rest(hi.value, 0) == hi.value);
    StartReady(lo, hi);
    KeyFromBetween(lo, hi, 0);
    KeyFrom(lo, hi, 0)
  }

  lemma StartReady(lo: string, hi: Option<string>)
    requires Digits(lo)
    requires hi.Some? ==> Canonical(hi.value) && Less(lo, hi.value)
    ensures Ready(lo, hi, 0)
  {
    assert Rest(lo, 0) == lo;
    if hi.Some? {
      assert Rest(hi.value, 0) == hi.value;
      CanonicalBelow(lo, hi.value, 0);
    }
  }

  /** The loop of `key_between`. */
  method KeyBetween(lo: string, hi: Option<string>) returns (result: string)
    requires Digits(lo)
    requires hi.Some? ==> Canonical(hi.value) && Less(lo, hi.value)
    ensures result == Midkey(lo, hi)
  {
    StartReady(lo, hi);
    ghost var key := KeyFrom(lo, hi, 0);
    result := "";
    var upper, i := hi, 0;
    while true
      invariant Ready(lo, upper, i)
      invariant result + KeyFrom(lo, upper, i) == key
      decreases Measure(lo, upper, i)
    {
      var l, h := DigitAt(lo, i), Upper(upper, i);
      if l == h {
        EmitShared(lo, upper, i);
        Shift(result, Digit(l), KeyFrom(lo, upper, i + 1));
        result := result + [Digit(l)];
        i := i + 1;
        continue;
      }
      var mid := Middle(l, h);
      if mid > l {
        EmitMiddle(lo, upper, i);
        result := result + [Digit(mid)];
        return;
      }
      EmitAdjacent(lo, upper, i);
      Shift(result, Digit(l), KeyFrom(lo, None, i + 1));
      result := result + [Digit(l)];
      upper := None;
      i := i + 1;
    }
  }

  lemma Shift(a: string, c: char, b: string)
    ensures a + ([c] + b) == (a + [c]) + b
  {
  }

  /** A bound that ends in the minimum digit can leave no room: this is why parse refuses such keys. */
  lemma NoRoomWithoutCanonical()
    ensures Digits("A") && Digits("A0") && Less("A", "A0")
    ensures forall key: string :: Canonical(key) && Less("A", key) ==> !Less(key, "A0")
  {
    assert "A"[1..] == "" && "A0"[1..] == "0" && "0"[1..] == "";
    forall key: string | Canonical(key) && Less("A", key)
      ensures !Less(key, "A0")
    {
      if key[0] == 'A' {
        var tail := key[1..];
        var a: string := ['A'];
        assert a == "A" && a[0] == key[0];
        assert Less(a[1..], tail);
        assert DigitIndex(key[1]).Some? && tail[0] == key[1];
        var zero: string := ['0'];
        assert !Less(tail[1..], zero[1..]);
        assert tail[0] >= zero[0];
        assert !Less(tail, zero);
        assert "A0"[1..] == zero;
      }
    }
  }
}

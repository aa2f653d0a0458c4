/**
 Calendar window bounds, `YYYYMMDDTHHMMSS` (`parse_window_bound`, `format_window_bound`).

 The argument is a Rust `str`, modelled by its UTF-8 bytes. The parser slices it by byte ranges, and a slice
 that starts or ends inside a character stops the process: `PanicExact` says for which texts that happens.
 On the texts it accepts, formatting is the inverse of parsing (`FormatParse`, `ParseFormat`), and comparing
 two of them byte by byte is comparing the instants they denote (`OrderIsChronological`).
 */
module Window {
  import opened Hex
  import Prelude

  /** `Panic` is the end of the process, `Bad` the INVALID_ARGUMENT error. */
  datatype Outcome<+T> = Panic | Bad | At(value: T) {
    predicate IsFailure() { !At? }
    function PropagateFailure<U>(): (r: Outcome<U>)
      requires IsFailure()
    {
      if Panic? then Outcome<U>.Panic else Outcome<U>.Bad
    }
    function Extract(): (r: T)
      requires !IsFailure()
    {
      value
    }
  }

  datatype DateTime = DateTime(year: int, month: nat, day: nat, hour: nat, minute: nat, second: nat)

  const T: Byte := 0x54
  const MINUS: Byte := 0x2d

  // ---- the calendar (proleptic Gregorian, years -9999 to 9999) -----------------------------------

  predicate Leap(year: int) {
    year % 4 == 0 && (year % 100 != 0 || year % 400 == 0)
  }

  function MonthLength(year: int, month: nat): (n: nat)
    requires 1 <= month <= 12
    ensures 28 <= n <= 31
  {
    if month == 2 then (if Leap(year) then 29 else 28)
    else if month == 4 || month == 6 || month == 9 || month == 11 then 30
    else 31
  }

  predicate Valid(dt: DateTime) {
    && -9999 <= dt.year <= 9999
    && 1 <= dt.month <= 12
    && 1 <= dt.day <= MonthLength(dt.year, dt.month)
    && dt.hour < 24 && dt.minute < 60 && dt.second < 60
  }

  // ---- UTF-8 (RFC 3629, section 4) ---------------------------------------------------------------

  predicate Continuation(x: Byte) {
    0x80 <= x < 0xC0
  }

  predicate SecondOfThree(x: Byte, y: Byte) {
    if x == 0xE0 then 0xA0 <= y < 0xC0
    else if x == 0xED then 0x80 <= y < 0xA0
    else Continuation(y)
  }

  predicate SecondOfFour(x: Byte, y: Byte) {
    if x == 0xF0 then 0x90 <= y < 0xC0
    else if x == 0xF4 then 0x80 <= y < 0x90
    else Continuation(y)
  }

  /** The bytes of some `str`. */
  predicate Utf8(b: seq<Byte>) {
    if b == [] then true
    else if b[0] < 0x80 then Utf8(b[1..])
    else if 0xC2 <= b[0] < 0xE0 then |b| >= 2 && Continuation(b[1]) && Utf8(b[2..])
    else if 0xE0 <= b[0] < 0xF0 then |b| >= 3 && SecondOfThree(b[0], b[1]) && Continuation(b[2]) && Utf8(b[3..])
    else if 0xF0 <= b[0] < 0xF5 then
      |b| >= 4 && SecondOfFour(b[0], b[1]) && Continuation(b[2]) && Continuation(b[3]) && Utf8(b[4..])
    else false
  }

  /** The encoding of one character (RFC 3629, section 3). */
  function CharBytes(c: char): (b: seq<Byte>) {
    var n := c as int;
    if n < 0x80 then [n]
    else if n < 0x800 then [0xC0 + n / 64, 0x80 + n % 64]
    else if n < 0x1_0000 then [0xE0 + n / 4096, 0x80 + n / 64 % 64, 0x80 + n % 64]
    else [0xF0 + n / 262144, 0x80 + n / 4096 % 64, 0x80 + n / 64 % 64, 0x80 + n % 64]
  }

  function TextBytes(s: string): (b: seq<Byte>) {
    if s == "" then [] else CharBytes(s[0]) + TextBytes(s[1..])
  }

  lemma {:induction false} CharThenText(c: char, rest: seq<Byte>)
    requires Utf8(rest)
    ensures Utf8(CharBytes(c) + rest)
  {
    var n, b := |CharBytes(c)|, CharBytes(c) + rest;
    assert b[n..] == rest;
  }

  /** The bytes of a text are well formed. */
  lemma {:induction false} TextIsUtf8(s: string)
    ensures Utf8(TextBytes(s))
  {
    if s != "" {
      TextIsUtf8(s[1..]);
      CharThenText(s[0], TextBytes(s[1..]));
    }
  }

  /** Quotient and remainder of the powers of 64 a code is cut by. */
  lemma {:induction false} Cut(q: int, k: int, r: int)
    requires k in {64, 4096, 262144} && 0 <= r < k
    ensures (q * k + r) / k == q && (q * k + r) % k == r
  {
  }

  /** A character by its code, two to four bytes long. */
  lemma {:induction false} TwoBytes(a: int, x: int) returns (c: char)
    requires 2 <= a < 32 && 0 <= x < 64
    ensures CharBytes(c) == [0xC0 + a, 0x80 + x]
  {
    Cut(a, 64, x);
    c := (a * 64 + x) as char;
  }

  lemma {:induction false} ThreeBytes(a: int, x: int, y: int) returns (c: char)
    requires 0 <= a < 16 && 0 <= x < 64 && 0 <= y < 64 && (a == 0 ==> x >= 32) && (a == 13 ==> x < 32)
    ensures CharBytes(c) == [0xE0 + a, 0x80 + x, 0x80 + y]
  {
    var n := a * 4096 + (x * 64 + y);
    Cut(a, 4096, x * 64 + y);
    Cut(a * 64 + x, 64, y);
    Cut(a, 64, x);
    assert n == (a * 64 + x) * 64 + y;
    c := n as char;
  }

  lemma {:induction false} FourBytes(a: int, x: int, y: int, z: int) returns (c: char)
    requires 0 <= a < 5 && 0 <= x < 64 && 0 <= y < 64 && 0 <= z < 64 && (a == 0 ==> x >= 16) && (a == 4 ==> x < 16)
    ensures CharBytes(c) == [0xF0 + a, 0x80 + x, 0x80 + y, 0x80 + z]
  {
    var n := a * 262144 + (x * 4096 + (y * 64 + z));
    Cut(a, 262144, x * 4096 + (y * 64 + z));
    Cut(a * 64 + x, 4096, y * 64 + z);
    Cut(a, 64, x);
    Cut(a * 4096 + x * 64 + y, 64, z);
    Cut(a * 64 + x, 64, y);
    assert n == (a * 64 + x) * 4096 + (y * 64 + z) && n == (a * 4096 + x * 64 + y) * 64 + z;
    c := n as char;
  }

  /** The first character of well-formed bytes. */
  lemma {:induction false} FirstChar(b: seq<Byte>) returns (c: char)
    requires Utf8(b) && b != []
    ensures CharBytes(c) <= b && Utf8(b[|CharBytes(c)|..])
  {
    var lead: int := b[0];
    if lead < 0x80 {
      c := lead as char;
    } else if lead < 0xE0 {
      c := TwoBytes(lead - 0xC0, b[1] as int - 0x80);
    } else if lead < 0xF0 {
      c := ThreeBytes(lead - 0xE0, b[1] as int - 0x80, b[2] as int - 0x80);
    } else {
      c := FourBytes(lead - 0xF0, b[1] as int - 0x80, b[2] as int - 0x80, b[3] as int - 0x80);
    }
  }

  /** Well-formed bytes are the bytes of a text. */
  lemma {:induction false} Utf8IsText(b: seq<Byte>) returns (s: string)
    requires Utf8(b)
    ensures TextBytes(s) == b
    decreases |b|
  {
    if b == [] {
      s := "";
    } else {
      var c := FirstChar(b);
      var rest := Utf8IsText(b[|CharBytes(c)|..]);
      s := [c] + rest;
      assert s[1..] == rest;
    }
  }

  /** The length of a text in bytes, as the engine's limits count it. */
  lemma {:induction false} TextLength(s: string)
    ensures |TextBytes(s)| == Prelude.Utf8Length(s)
  {
    if s != "" { TextLength(s[1..]); }
  }

  /** `str::is_char_boundary`. */
  predicate Boundary(b: seq<Byte>, i: nat)
    requires i <= |b|
  {
    i == 0 || i == |b| || !Continuation(b[i])
  }

  /** A character starts after every ASCII byte. */
  lemma {:induction false} AfterAscii(b: seq<Byte>, i: nat)
    requires Utf8(b) && i + 1 < |b| && b[i] < 0x80
    ensures !Continuation(b[i + 1])
    decreases |b|
  {
    var n := if b[0] < 0x80 then 1 else if b[0] < 0xE0 then 2 else if b[0] < 0xF0 then 3 else 4;
    if i >= n {
      AfterAscii(b[n..], i - n);
    } else {
      assert i == 0 && n == 1;
      assert Utf8(b[1..]) && b[1..][0] == b[1];
    }
  }

  // ---- digits ------------------------------------------------------------------------------------

  predicate IsDigit(x: Byte) {
    0x30 <= x <= 0x39
  }

  predicate Digits(p: seq<Byte>) {
    forall i :: 0 <= i < |p| ==> IsDigit(p[i])
  }

  /** The number a digit string denotes. */
  function Num(p: seq<Byte>): (n: nat)
    requires Digits(p)
  {
    if p == [] then 0 else Num(p[..|p| - 1]) * 10 + (p[|p| - 1] - 0x30)
  }

  /** `n` in `width` digits. */
  function Pad(n: nat, width: nat): (p: seq<Byte>)
    ensures |p| == width && Digits(p)
  {
    if width == 0 then [] else Pad(n / 10, width - 1) + [0x30 + n % 10]
  }

  function Bound(width: nat): (n: nat)
    ensures n > 0
  {
    if width == 0 then 1 else 10 * Bound(width - 1)
  }

  lemma {:induction false} NumPad(n: nat, width: nat)
    requires n < Bound(width)
    ensures Num(Pad(n, width)) == n
  {
    if width > 0 {
      NumPad(n / 10, width - 1);
      var p := Pad(n, width);
      assert p[..|p| - 1] == Pad(n / 10, width - 1);
    }
  }

  lemma {:induction false} PadNum(p: seq<Byte>)
    requires Digits(p)
    ensures Num(p) < Bound(|p|) && Pad(Num(p), |p|) == p
  {
    if p != [] {
      var init := p[..|p| - 1];
      PadNum(init);
      assert Num(p) / 10 == Num(init) && Num(p) % 10 == p[|p| - 1] - 0x30;
      assert p == init + [p[|p| - 1]];
    }
  }

  // ---- the two functions -------------------------------------------------------------------------

  /** The number in one byte range: slice, check the digits, parse. */
  function Field(b: seq<Byte>, lo: nat, hi: nat): (r: Outcome<nat>)
    requires lo <= hi <= |b|
  {
    if !Boundary(b, lo) || !Boundary(b, hi) then Panic
    else if Digits(b[lo..hi]) then At(Num(b[lo..hi]))
    else Bad
  }

  /** `parse_window_bound`. */
  function Parse(b: seq<Byte>): (r: Outcome<DateTime>) {
    if |b| != 15 || b[8] != T then Bad
    else
      var year :- Field(b, 0, 4);
      var month :- Field(b, 4, 6);
      var day :- Field(b, 6, 8);
      var hour :- Field(b, 9, 11);
      var minute :- Field(b, 11, 13);
      var second :- Field(b, 13, 15);
      var dt := DateTime(year, month, day, hour, minute, second);
      if Valid(dt) then At(dt) else Bad
  }

  /** A year in at least four places, the sign counting as one. */
  function Year(y: int): (p: seq<Byte>)
    requires -9999 <= y <= 9999
  {
    if y >= 0 then Pad(y, 4) else [MINUS] + Pad(-y, if y > -1000 then 3 else 4)
  }

  /** A year prints in four digits, a negative one as a sign and the digits of its amount, in four places or five. */
  lemma {:induction false} YearText(y: int)
    requires -9999 <= y <= 9999
    ensures y >= 0 ==> |Year(y)| == 4 && Digits(Year(y)) && Num(Year(y)) == y
    ensures y < 0 ==> && Year(y)[0] == MINUS && Digits(Year(y)[1..]) && Num(Year(y)[1..]) == -y
                      && |Year(y)| == if y > -1000 then 4 else 5
  {
    assert Bound(3) == 1000 && Bound(4) == 10000 by { assert Bound(1) == 10 && Bound(2) == 100; }
    if y >= 0 {
      NumPad(y, 4);
    } else {
      NumPad(-y, if y > -1000 then 3 else 4);
      assert Year(y)[1..] == Pad(-y, if y > -1000 then 3 else 4);
    }
  }

  /** `format_window_bound`. */
  function Format(dt: DateTime): (b: seq<Byte>)
    requires Valid(dt)
  {
    Year(dt.year) + Pad(dt.month, 2) + Pad(dt.day, 2) + [T] + Pad(dt.hour, 2) + Pad(dt.minute, 2) + Pad(dt.second, 2)
  }

  // ---- when it is total --------------------------------------------------------------------------

  /** The process stops exactly when the shape test passes and the end of the first field that is not all digits
      falls inside a character. */
  lemma {:induction false} PanicExact(b: seq<Byte>)
    requires Utf8(b)
    ensures Parse(b).Panic? <==>
            && |b| == 15 && b[8] == T
            && (|| Continuation(b[4])
                || (Digits(b[0..4]) && Continuation(b[6]))
                || (Digits(b[0..4]) && Digits(b[4..6]) && Digits(b[6..8]) && Continuation(b[11]))
                || (Digits(b[0..4]) && Digits(b[4..6]) && Digits(b[6..8]) && Digits(b[9..11]) && Continuation(b[13])))
  {
    if |b| == 15 && b[8] == T {
      AfterAscii(b, 8);
      AsciiEnds(b, 0, 4);
      AsciiEnds(b, 4, 6);
      AsciiEnds(b, 9, 11);
      AsciiEnds(b, 11, 13);
    }
  }

  /** A two-byte character across the end of the year: `000` and U+00E9, then digits in the right places. */
  const SPLIT_YEAR: seq<Byte> := [0x30, 0x30, 0x30, 0xC3, 0xA9, 0x30, 0x30, 0x30, T, 0x30, 0x30, 0x30, 0x30, 0x30, 0x30]

  /** So there is a text of the right length with the `T` in place on which the process stops. */
  lemma {:induction false} SplitYearPanics()
    ensures Utf8(SPLIT_YEAR) && Parse(SPLIT_YEAR).Panic?
  {
    AsciiUtf8(SPLIT_YEAR[5..]);
    assert SPLIT_YEAR[1..][1..][1..][2..] == SPLIT_YEAR[5..];
    assert Utf8(SPLIT_YEAR[1..][1..][1..]);
    assert Utf8(SPLIT_YEAR[1..][1..]);
    assert Utf8(SPLIT_YEAR[1..]);
  }

  lemma {:induction false} AsciiUtf8(b: seq<Byte>)
    requires forall i :: 0 <= i < |b| ==> b[i] < 0x80
    ensures Utf8(b)
  {
    if b != [] { AsciiUtf8(b[1..]); }
  }

  lemma {:induction false} AsciiEnds(b: seq<Byte>, lo: nat, hi: nat)
    requires Utf8(b) && lo < hi < |b|
    ensures Digits(b[lo..hi]) ==> !Continuation(b[hi])
  {
    if Digits(b[lo..hi]) {
      assert b[lo..hi][hi - 1 - lo] == b[hi - 1];
      AfterAscii(b, hi - 1);
    }
  }

  /** On ASCII text the parser is total, and it accepts exactly the digit strings that name a valid date and time. */
  lemma {:induction false} AcceptExact(b: seq<Byte>)
    requires forall i :: 0 <= i < |b| ==> b[i] < 0x80
    ensures !Parse(b).Panic?
    ensures Parse(b).At? <==>
            && |b| == 15 && b[8] == T
            && Digits(b[0..4]) && Digits(b[4..6]) && Digits(b[6..8])
            && Digits(b[9..11]) && Digits(b[11..13]) && Digits(b[13..15])
            && Valid(DateTime(Num(b[0..4]), Num(b[4..6]), Num(b[6..8]), Num(b[9..11]), Num(b[11..13]), Num(b[13..15])))
  {
  }

  // ---- inverses ----------------------------------------------------------------------------------

  predicate Splits(b: seq<Byte>, dt: DateTime) {
    && |b| == 15 && b[8] == T
    && Digits(b[0..4]) && Digits(b[4..6]) && Digits(b[6..8])
    && Digits(b[9..11]) && Digits(b[11..13]) && Digits(b[13..15])
    && dt == DateTime(Num(b[0..4]), Num(b[4..6]), Num(b[6..8]), Num(b[9..11]), Num(b[11..13]), Num(b[13..15]))
  }

  lemma {:induction false} ParseSplits(b: seq<Byte>)
    requires Parse(b).At?
    ensures Splits(b, Parse(b).value) && Valid(Parse(b).value)
  {
  }

  lemma {:induction false} SplitsParse(b: seq<Byte>, dt: DateTime)
    requires Splits(b, dt) && Valid(dt)
    ensures Parse(b) == At(dt)
  {
    assert b[4] == b[4..6][0] && b[6] == b[6..8][0];
    assert b[9] == b[9..11][0] && b[11] == b[11..13][0] && b[13] == b[13..15][0];
  }

  lemma {:induction false} Parts(b: seq<Byte>)
    requires |b| == 15 && b[8] == T
    ensures b == b[0..4] + b[4..6] + b[6..8] + [T] + b[9..11] + b[11..13] + b[13..15]
  {
  }

  /** Formatting what was parsed gives the text back. */
  lemma {:induction false} FormatParse(b: seq<Byte>)
    requires Parse(b).At?
    ensures Valid(Parse(b).value) && Format(Parse(b).value) == b
  {
    ParseSplits(b);
    PadNum(b[0..4]);
    PadNum(b[4..6]);
    PadNum(b[6..8]);
    PadNum(b[9..11]);
    PadNum(b[11..13]);
    PadNum(b[13..15]);
    Parts(b);
  }

  lemma {:induction false} Slices(y: seq<Byte>, m: seq<Byte>, d: seq<Byte>, h: seq<Byte>, n: seq<Byte>, s: seq<Byte>)
    requires |y| == 4 && |m| == 2 && |d| == 2 && |h| == 2 && |n| == 2 && |s| == 2
    ensures var b := y + m + d + [T] + h + n + s;
            && |b| == 15 && b[8] == T && b[0..4] == y && b[4..6] == m && b[6..8] == d
            && b[9..11] == h && b[11..13] == n && b[13..15] == s
  {
  }

  /** Parsing what was formatted gives the date and time back exactly when the year is not negative. */
  lemma {:induction false} ParseFormat(dt: DateTime)
    requires Valid(dt)
    ensures Parse(Format(dt)) == if dt.year >= 0 then At(dt) else Bad
  {
    assert Bound(2) == 100 && Bound(4) == 10000 by { assert Bound(1) == 10 && Bound(3) == 1000; }
    var m, d, h, n, s := Pad(dt.month, 2), Pad(dt.day, 2), Pad(dt.hour, 2), Pad(dt.minute, 2), Pad(dt.second, 2);
    if dt.year >= 0 {
      NumPad(dt.year, 4);
      NumPad(dt.month, 2);
      NumPad(dt.day, 2);
      NumPad(dt.hour, 2);
      NumPad(dt.minute, 2);
      NumPad(dt.second, 2);
      Slices(Year(dt.year), m, d, h, n, s);
      SplitsParse(Format(dt), dt);
    } else if dt.year > -1000 {
      Slices(Year(dt.year), m, d, h, n, s);
      SignIsNoDigit(Format(dt), m);
    }
  }

  /** A sign in front of the year: the first field is sliced whole and is no number. */
  lemma {:induction false} SignIsNoDigit(b: seq<Byte>, m: seq<Byte>)
    requires |b| == 15 && b[8] == T && b[0] == MINUS && b[4..6] == m && |m| == 2 && Digits(m)
    ensures Parse(b) == Bad
  {
    assert b[4] == m[0];
    assert b[0..4][0] == MINUS;
  }

  // ---- order -------------------------------------------------------------------------------------

  /** Byte-lexicographic order. */
  predicate Less(a: seq<Byte>, b: seq<Byte>) {
    if b == [] then false
    else if a == [] then true
    else a[0] < b[0] || (a[0] == b[0] && Less(a[1..], b[1..]))
  }

  lemma {:induction false} LessAppend(a: seq<Byte>, x: seq<Byte>, b: seq<Byte>, y: seq<Byte>)
    requires |a| == |b|
    ensures Less(a + x, b + y) <==> Less(a, b) || (a == b && Less(x, y))
  {
    if a == [] {
      assert a + x == x && b + y == y;
    } else {
      assert (a + x)[1..] == a[1..] + x && (b + y)[1..] == b[1..] + y;
      LessAppend(a[1..], x, b[1..], y);
      assert a == [a[0]] + a[1..] && b == [b[0]] + b[1..];
    }
  }

  /** On digit strings of one width, byte order is numeric order. */
  lemma {:induction false} LessNum(a: seq<Byte>, b: seq<Byte>)
    requires |a| == |b| && Digits(a) && Digits(b)
    ensures Less(a, b) <==> Num(a) < Num(b)
    ensures a == b <==> Num(a) == Num(b)
  {
    if a == [] {
      assert b == [];
    } else {
      var i, j := a[..|a| - 1], b[..|b| - 1];
      var x, y := a[|a| - 1], b[|b| - 1];
      LessNum(i, j);
      LessAppend(i, [x], j, [y]);
      assert a == i + [x] && b == j + [y];
      assert Less([x], [y]) <==> x < y by { assert [x][1..] == [] && [y][1..] == []; }
    }
  }

  /** The order the date-time type derives: field by field. */
  predicate Before(a: DateTime, b: DateTime) {
    a.year < b.year || (a.year == b.year && BeforeInYear(a, b))
  }

  predicate BeforeInYear(a: DateTime, b: DateTime) {
    a.month < b.month || (a.month == b.month && (a.day < b.day || (a.day == b.day && BeforeInDay(a, b))))
  }

  predicate BeforeInDay(a: DateTime, b: DateTime) {
    a.hour < b.hour || (a.hour == b.hour && (a.minute < b.minute || (a.minute == b.minute && a.second < b.second)))
  }

  lemma {:induction false} LessPair(a: seq<Byte>, x: seq<Byte>, b: seq<Byte>, y: seq<Byte>)
    requires |a| == |b| && Digits(a) && Digits(b)
    ensures Less(a + x, b + y) <==> Num(a) < Num(b) || (Num(a) == Num(b) && Less(x, y))
  {
    LessAppend(a, x, b, y);
    LessNum(a, b);
  }

  /** Comparing from byte `i`: first the digits up to `j`, then the rest. */
  lemma {:induction false} LessFrom(a: seq<Byte>, b: seq<Byte>, i: nat, j: nat)
    requires i <= j <= |a| && |a| == |b| && Digits(a[i..j]) && Digits(b[i..j])
    ensures Less(a[i..], b[i..]) <==>
            Num(a[i..j]) < Num(b[i..j]) || (Num(a[i..j]) == Num(b[i..j]) && Less(a[j..], b[j..]))
  {
    LessPair(a[i..j], a[j..], b[i..j], b[j..]);
    assert a[i..] == a[i..j] + a[j..] && b[i..] == b[i..j] + b[j..];
  }

  lemma {:induction false} TimeOrder(a: seq<Byte>, s: DateTime, b: seq<Byte>, t: DateTime)
    requires Splits(a, s) && Splits(b, t)
    ensures Less(a[9..], b[9..]) <==> BeforeInDay(s, t)
  {
    LessFrom(a, b, 9, 11);
    LessFrom(a, b, 11, 13);
    LessFrom(a, b, 13, 15);
    assert a[15..] == [] && b[15..] == [];
  }

  lemma {:induction false} DateOrder(a: seq<Byte>, s: DateTime, b: seq<Byte>, t: DateTime)
    requires Splits(a, s) && Splits(b, t)
    ensures Less(a, b) <==> Before(s, t)
  {
    TimeOrder(a, s, b, t);
    LessFrom(a, b, 0, 4);
    LessFrom(a, b, 4, 6);
    LessFrom(a, b, 6, 8);
    SameHead(a[8..], b[8..]);
    assert a == a[0..] && b == b[0..] && a[8..][1..] == a[9..] && b[8..][1..] == b[9..];
  }

  lemma {:induction false} SameHead(a: seq<Byte>, b: seq<Byte>)
    requires a != [] && b != [] && a[0] == b[0]
    ensures Less(a, b) <==> Less(a[1..], b[1..])
  {
  }

  // ---- instants: seconds since the start of year 0 -----------------------------------------------

  function YearStart(year: nat): (days: nat) {
    if year == 0 then 0 else YearStart(year - 1) + (if Leap(year - 1) then 366 else 365)
  }

  function MonthStart(year: int, month: nat): (days: nat)
    requires 1 <= month <= 12
  {
    if month == 1 then 0 else MonthStart(year, month - 1) + MonthLength(year, month - 1)
  }

  function DayOf(dt: DateTime): (day: int)
    requires Valid(dt) && dt.year >= 0
  {
    YearStart(dt.year) + MonthStart(dt.year, dt.month) + dt.day - 1
  }

  function Instant(dt: DateTime): (seconds: int)
    requires Valid(dt) && dt.year >= 0
  {
    DayOf(dt) * 86400 + dt.hour * 3600 + dt.minute * 60 + dt.second
  }

  lemma {:induction false} YearFits(year: int)
    ensures MonthStart(year, 12) + 31 == (if Leap(year) then 366 else 365) && MonthLength(year, 12) == 31
    ensures var n := if Leap(year) then 29 else 28;
            forall m :: 1 <= m <= 12 ==>
              MonthStart(year, m) == [0, 31, 31 + n, 62 + n, 92 + n, 123 + n, 153 + n, 184 + n, 215 + n, 245 + n, 276 + n, 306 + n][m - 1]
  {
    var february := MonthLength(year, 2);
    assert MonthStart(year, 2) == 31;
    assert MonthStart(year, 3) == 31 + february;
    assert MonthStart(year, 4) == 62 + february;
    assert MonthStart(year, 5) == 92 + february;
    assert MonthStart(year, 6) == 123 + february;
    assert MonthStart(year, 7) == 153 + february;
    assert MonthStart(year, 8) == 184 + february;
    assert MonthStart(year, 9) == 215 + february;
    assert MonthStart(year, 10) == 245 + february;
    assert MonthStart(year, 11) == 276 + february;
  }

  /** The days before a year in closed form: a cycle of 400 years has 97 leap days. */
  lemma {:induction false} YearStartIs(year: nat)
    ensures YearStart(year) == 365 * year + (year + 3) / 4 - (year + 99) / 100 + (year + 399) / 400
    ensures YearStart(year + 400) == YearStart(year) + 146097
  {
    YearStartClosed(year);
    YearStartClosed(year + 400);
    Cycle(year);
  }

  lemma {:induction false} Cycle(y: nat)
    ensures (y + 403) / 4 == (y + 3) / 4 + 100 && (y + 499) / 100 == (y + 99) / 100 + 4 && (y + 799) / 400 == (y + 399) / 400 + 1
  {
  }

  lemma {:induction false} YearStartClosed(year: nat)
    ensures YearStart(year) == 365 * year + (year + 3) / 4 - (year + 99) / 100 + (year + 399) / 400
  {
    if year > 0 {
      YearStartClosed(year - 1);
      LeapStep(year - 1);
    }
  }

  /** What a year adds to the count of leap days. */
  lemma {:induction false} LeapStep(y: nat)
    ensures (y + 4) / 4 - (y + 100) / 100 + (y + 400) / 400
            == (y + 3) / 4 - (y + 99) / 100 + (y + 399) / 400 + if Leap(y) then 1 else 0
  {
    Quotient(y, 4);
    Quotient(y, 100);
    Quotient(y, 400);
    Multiple(y);
  }

  lemma {:induction false} Quotient(y: nat, k: nat)
    requires k == 4 || k == 100 || k == 400
    ensures (y + k) / k == (y + k - 1) / k + if y % k == 0 then 1 else 0
  {
  }

  lemma {:induction false} Multiple(y: nat)
    ensures y % 400 == 0 ==> y % 100 == 0
    ensures y % 100 == 0 ==> y % 4 == 0
  {
    var q, t := y / 100, y / 400;
    if y % 400 == 0 { assert y == 100 * (4 * t); }
    if y % 100 == 0 { assert y == 4 * (25 * q); }
  }

  /** The number of the day in the usual closed form, counted over years that start in March. */
  lemma {:induction false} DayNumber(dt: DateTime)
    requires Valid(dt) && dt.year >= 0
    ensures var y := if dt.month <= 2 then dt.year - 1 else dt.year;
            var m := if dt.month <= 2 then dt.month + 9 else dt.month - 3;
            DayOf(dt) == 60 + 365 * y + y / 4 - y / 100 + y / 400 + (153 * m + 2) / 5 + dt.day - 1
  {
    MarchYear(dt.year);
    MarchMonth(dt.year, dt.month);
  }

  /** The days before a year, counted from the March before it and from the March in it. */
  lemma {:induction false} MarchYear(y: nat)
    ensures YearStart(y) == 1 + 365 * y + (y - 1) / 4 - (y - 1) / 100 + (y - 1) / 400
    ensures YearStart(y) + (if Leap(y) then 1 else 0) == 1 + 365 * y + y / 4 - y / 100 + y / 400
  {
    YearStartClosed(y);
    LeapStep(y);
    Shifted(y, 4);
    Shifted(y, 100);
    Shifted(y, 400);
  }

  /** The days before a month of a year, by the March table. */
  lemma {:induction false} MarchMonth(year: int, month: nat)
    requires 1 <= month <= 12
    ensures month <= 2 ==> MonthStart(year, month) == (153 * (month + 9) + 2) / 5 - 306
    ensures month > 2 ==> MonthStart(year, month) == (153 * (month - 3) + 2) / 5 + 59 + if Leap(year) then 1 else 0
  {
    YearFits(year);
    MarchTable(month);
  }

  /** The days from March 1 to the first of a month. */
  lemma {:induction false} MarchTable(month: nat)
    requires 1 <= month <= 12
    ensures (153 * (if month <= 2 then month + 9 else month - 3) + 2) / 5
            == [306, 337, 0, 31, 61, 92, 122, 153, 184, 214, 245, 275][month - 1]
  {
  }

  lemma {:induction false} Shifted(y: nat, k: nat)
    requires k == 4 || k == 100 || k == 400
    ensures (y + k - 1) / k == (y - 1) / k + 1 && (y + k) / k == y / k + 1
  {
  }

  lemma {:induction false} MonthsGrow(year: int, m: nat, n: nat)
    requires 1 <= m < n <= 12
    ensures MonthStart(year, m) + MonthLength(year, m) <= MonthStart(year, n)
    decreases n
  {
    if m < n - 1 { MonthsGrow(year, m, n - 1); }
  }

  lemma {:induction false} YearsGrow(y: nat, z: nat)
    requires y < z
    ensures YearStart(y) + (if Leap(y) then 366 else 365) <= YearStart(z)
    decreases z
  {
    if y < z - 1 { YearsGrow(y, z - 1); }
  }

  /** A day of an earlier month or year is an earlier day. */
  lemma {:induction false} DaysGrow(a: DateTime, b: DateTime)
    requires Valid(a) && Valid(b) && a.year >= 0 && b.year >= 0
    requires a.year < b.year || (a.year == b.year && a.month < b.month)
    ensures DayOf(a) < DayOf(b)
  {
    if a.year < b.year {
      YearsGrow(a.year, b.year);
      YearFits(a.year);
      if a.month < 12 { MonthsGrow(a.year, a.month, 12); }
    } else {
      MonthsGrow(a.year, a.month, b.month);
    }
  }

  lemma {:induction false} BeforeInstant(a: DateTime, b: DateTime)
    requires Valid(a) && Valid(b) && a.year >= 0 && b.year >= 0
    ensures Before(a, b) ==> Instant(a) < Instant(b)
  {
    if a.year < b.year || (a.year == b.year && a.month < b.month) {
      DaysGrow(a, b);
    }
  }

  /** The derived order is the order of instants. */
  lemma {:induction false} BeforeIsEarlier(a: DateTime, b: DateTime)
    requires Valid(a) && Valid(b) && a.year >= 0 && b.year >= 0
    ensures Before(a, b) <==> Instant(a) < Instant(b)
  {
    BeforeInstant(a, b);
    BeforeInstant(b, a);
    assert a == b || Before(a, b) || Before(b, a);
  }

  /** The last instant of the calendar. */
  const LAST := DateTime(9999, 12, 31, 23, 59, 59)

  /** The day after a valid date, at midnight. */
  lemma {:induction false} Tomorrow(dt: DateTime) returns (e: DateTime)
    requires Valid(dt) && dt.year >= 0 && (dt.year, dt.month, dt.day) != (9999, 12, 31)
    ensures Valid(e) && e.year >= 0 && DayOf(e) == DayOf(dt) + 1 && (e.hour, e.minute, e.second) == (0, 0, 0)
  {
    if dt.day < MonthLength(dt.year, dt.month) {
      e := DateTime(dt.year, dt.month, dt.day + 1, 0, 0, 0);
    } else if dt.month < 12 {
      e := DateTime(dt.year, dt.month + 1, 1, 0, 0, 0);
    } else {
      YearFits(dt.year);
      e := DateTime(dt.year + 1, 1, 1, 0, 0, 0);
    }
  }

  /** The valid dates and times are the seconds of the calendar, none left out: every one but the last is followed
      by one that is a second later. */
  lemma {:induction false} NextSecond(dt: DateTime) returns (e: DateTime)
    requires Valid(dt) && dt.year >= 0 && dt != LAST
    ensures Valid(e) && e.year >= 0 && Instant(e) == Instant(dt) + 1
  {
    if dt.hour == 23 && dt.minute == 59 && dt.second == 59 {
      e := Tomorrow(dt);
    } else {
      e := SameDay(dt);
    }
  }

  lemma {:induction false} SameDay(dt: DateTime) returns (e: DateTime)
    requires Valid(dt) && dt.year >= 0 && (dt.hour, dt.minute, dt.second) != (23, 59, 59)
    ensures Valid(e) && e.year >= 0 && Instant(e) == Instant(dt) + 1
  {
    if dt.second < 59 {
      e := dt.(second := dt.second + 1);
    } else if dt.minute < 59 {
      e := dt.(minute := dt.minute + 1, second := 0);
    } else {
      e := dt.(hour := dt.hour + 1, minute := 0, second := 0);
    }
    assert DayOf(e) == DayOf(dt);
  }

  /** Accepted texts compare, byte by byte, as the instants they denote. */
  lemma {:induction false} OrderIsChronological(a: seq<Byte>, b: seq<Byte>)
    requires Parse(a).At? && Parse(b).At?
    ensures Valid(Parse(a).value) && Parse(a).value.year >= 0 && Valid(Parse(b).value) && Parse(b).value.year >= 0
    ensures Less(a, b) <==> Instant(Parse(a).value) < Instant(Parse(b).value)
  {
    ParseSplits(a);
    ParseSplits(b);
    DateOrder(a, Parse(a).value, b, Parse(b).value);
    BeforeIsEarlier(Parse(a).value, Parse(b).value);
  }
}

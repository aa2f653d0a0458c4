/**
 JSON texts: the hand-written string escaper shared by the printers, the compact rendering they follow,
 and a reader for the grammar of RFC 8259 (section 2 for structure and whitespace, 4 for objects, 5 for
 arrays, 7 for strings). `ReadRender` shows that the reader recovers every rendered value and leaves
 the text after it untouched.
 */
module Json {
  import opened Prelude
  import Hex

  /** The values the printers produce; none of them prints a number. */
  datatype Json =
    | Null
    | Bool(b: bool)
    | Str(s: string)
    | Arr(items: seq<Json>)
    | Obj(fields: seq<Field>)

  datatype Field = Field(key: string, value: Json)

  // ---- writing -----------------------------------------------------------------------------------

  /** One character of a JSON string as `json_string` writes it. */
  function Escaped(c: char): (s: string)
    ensures s != ""
  {
    if c == '"' then "\\\""
    else if c == '\\' then "\\\\"
    else if c == '\n' then "\\n"
    else if c == '\r' then "\\r"
    else if c == '\t' then "\\t"
    else if (c as int) < 0x20 then ['\\', 'u', '0', '0', Hex.Nibble(c as int / 16), Hex.Nibble(c as int % 16)]
    else [c]
  }

  function EscapedAll(s: string): (r: string) {
    Flat(seq(|s|, i requires 0 <= i < |s| => Escaped(s[i])))
  }

  function Quoted(s: string): (r: string) {
    ['"'] + (EscapedAll(s) + ['"'])
  }

  function JoinTexts(ts: seq<string>): (r: string) {
    if ts == [] then "" else if |ts| == 1 then ts[0] else ts[0] + ([','] + JoinTexts(ts[1..]))
  }

  function Member(k: string, text: string): (r: string) {
    Quoted(k) + ([':'] + text)
  }

  function Render(j: Json): (r: string) {
    match j
    case Null => "null"
    case Bool(b) => if b then "true" else "false"
    case Str(s) => Quoted(s)
    case Arr(items) => ['['] + (JoinTexts(RenderAll(items)) + [']'])
    case Obj(fields) => ['{'] + (JoinTexts(RenderMembers(fields)) + ['}'])
  }

  function RenderAll(items: seq<Json>): (r: seq<string>)
    ensures |r| == |items|
  {
    if items == [] then [] else [Render(items[0])] + RenderAll(items[1..])
  }

  function RenderMembers(fields: seq<Field>): (r: seq<string>)
    ensures |r| == |fields|
  {
    if fields == [] then [] else [Member(fields[0].key, Render(fields[0].value))] + RenderMembers(fields[1..])
  }

  // ---- reading -----------------------------------------------------------------------------------

  /** Four hexadecimal digits. */
  function ReadHex4(t: string): (r: Result<nat>)
    ensures r.Ok? ==> |t| >= 4 && r.value < 0x10000
  {
    if |t| < 4 then Err
    else
      var a, b, c, d := Hex.NibbleValue(t[0]), Hex.NibbleValue(t[1]), Hex.NibbleValue(t[2]), Hex.NibbleValue(t[3]);
      if a.Some? && b.Some? && c.Some? && d.Some?
      then Ok(a.value * 4096 + b.value * 256 + c.value * 16 + d.value) else Err
  }

  /** The character after a backslash-u, and how many characters of text it took. */
  function ReadUnicode(t: string): (r: Result<(char, nat)>)
    ensures r.Ok? ==> 4 <= r.value.1 <= |t|
  {
    match ReadHex4(t)
    case Err => Err
    case Ok(n) =>
      if n < 0xD800 || 0xE000 <= n then Ok((n as char, 4))
      else if n < 0xDC00 && |t| >= 6 && t[4] == '\\' && t[5] == 'u' then
        match ReadHex4(t[6..])
        case Err => Err
        case Ok(m) =>
          if 0xDC00 <= m < 0xE000
          then Ok(((0x10000 + (n - 0xD800) * 0x400 + (m - 0xDC00)) as char, 10)) else Err
      else Err
  }

  /** The character denoted by the escape that starts after the backslash, and its length. */
  function ReadEscape(t: string): (r: Result<(char, nat)>)
    ensures r.Ok? ==> 1 <= r.value.1 <= |t|
  {
    if t == "" then Err
    else
      var c := t[0];
      if c == '"' || c == '\\' || c == '/' then Ok((c, 1))
      else if c == 'b' then Ok((8 as char, 1))
      else if c == 'f' then Ok((12 as char, 1))
      else if c == 'n' then Ok(('\n', 1))
      else if c == 'r' then Ok(('\r', 1))
      else if c == 't' then Ok(('\t', 1))
      else if c == 'u' then
        match ReadUnicode(t[1..])
        case Err => Err
        case Ok((u, n)) => Ok((u, n + 1))
      else Err
  }

  /** The rest of a string after its opening quote. */
  function ReadChars(t: string): (r: Result<(string, string)>)
    ensures r.Ok? ==> |r.value.1| < |t|
    decreases |t|
  {
    if t == "" then Err
    else if t[0] == '"' then Ok(("", t[1..]))
    else if t[0] == '\\' then
      match ReadEscape(t[1..])
      case Err => Err
      case Ok((c, n)) => Prepend(c, ReadChars(t[1 + n..]))
    else if (t[0] as int) < 0x20 then Err
    else Prepend(t[0], ReadChars(t[1..]))
  }

  function Prepend(c: char, r: Result<(string, string)>): (res: Result<(string, string)>) {
    if r.Ok? then Ok(([c] + r.value.0, r.value.1)) else Err
  }

  function ReadString(t: string): (r: Result<(string, string)>)
    ensures r.Ok? ==> |r.value.1| < |t|
  {
    if t != "" && t[0] == '"' then ReadChars(t[1..]) else Err
  }

  predicate IsSpace(c: char) {
    c == ' ' || c == '\t' || c == '\n' || c == '\r'
  }

  function SkipSpace(t: string): (r: string)
    ensures |r| <= |t|
  {
    if t != "" && IsSpace(t[0]) then SkipSpace(t[1..]) else t
  }

  predicate StartsWith(t: string, p: string) {
    |t| >= |p| && t[..|p|] == p
  }

  function ReadValue(text: string): (r: Result<(Json, string)>)
    ensures r.Ok? ==> |r.value.1| < |text|
    decreases |text|, 0
  {
    var t := SkipSpace(text);
    if t == "" then Err
    else if t[0] == '"' then
      match ReadString(t)
      case Err => Err
      case Ok((s, rest)) => Ok((Str(s), rest))
    else if t[0] == '[' then
      (var u := SkipSpace(t[1..]);
       if u != "" && u[0] == ']' then Ok((Arr([]), u[1..]))
       else
         match ReadItems(t[1..])
         case Err => Err
         case Ok((items, rest)) => Ok((Arr(items), rest)))
    else if t[0] == '{' then
      (var u := SkipSpace(t[1..]);
       if u != "" && u[0] == '}' then Ok((Obj([]), u[1..]))
       else
         match ReadMembers(t[1..])
         case Err => Err
         case Ok((fields, rest)) => Ok((Obj(fields), rest)))
    else if StartsWith(t, "null") then Ok((Null, t[4..]))
    else if StartsWith(t, "true") then Ok((Bool(true), t[4..]))
    else if StartsWith(t, "false") then Ok((Bool(false), t[5..]))
    else Err
  }

  /** One or more values and the closing bracket. */
  function ReadItems(text: string): (r: Result<(seq<Json>, string)>)
    ensures r.Ok? ==> |r.value.1| < |text|
    decreases |text|, 1
  {
    match ReadValue(text)
    case Err => Err
    case Ok((v, after)) =>
      var t := SkipSpace(after);
      if t == "" then Err
      else if t[0] == ']' then Ok(([v], t[1..]))
      else if t[0] == ',' then
        match ReadItems(t[1..])
        case Err => Err
        case Ok((vs, rest)) => Ok(([v] + vs, rest))
      else Err
  }

  /** One or more members and the closing brace. */
  function ReadMembers(text: string): (r: Result<(seq<Field>, string)>)
    ensures r.Ok? ==> |r.value.1| < |text|
    decreases |text|, 1
  {
    match ReadString(SkipSpace(text))
    case Err => Err
    case Ok((k, afterKey)) =>
      var t := SkipSpace(afterKey);
      if t == "" || t[0] != ':' then Err
      else
        match ReadValue(t[1..])
        case Err => Err
        case Ok((v, afterValue)) =>
          var u := SkipSpace(afterValue);
          if u == "" then Err
          else if u[0] == '}' then Ok(([Field(k, v)], u[1..]))
          else if u[0] == ',' then
            match ReadMembers(u[1..])
            case Err => Err
            case Ok((fs, rest)) => Ok(([Field(k, v)] + fs, rest))
          else Err
  }

  // ---- strings round trip ------------------------------------------------------------------------

  lemma {:induction false} ControlEscape(c: char, rest: string)
    requires (c as int) < 0x20
    ensures ReadUnicode(['0', '0', Hex.Nibble(c as int / 16), Hex.Nibble(c as int % 16)] + rest) == Ok((c, 4))
  {
    var n := c as int;
    var t := ['0', '0', Hex.Nibble(n / 16), Hex.Nibble(n % 16)] + rest;
    assert n == (n / 16) * 16 + n % 16;
    assert ReadHex4(t) == Ok(n);
  }

  lemma {:induction false} ReadEscapedChar(c: char, rest: string)
    ensures ReadChars(Escaped(c) + rest) == Prepend(c, ReadChars(rest))
  {
    var e := Escaped(c);
    var t := e + rest;
    if (c as int) < 0x20 && c != '\n' && c != '\r' && c != '\t' {
      var u := ['0', '0', Hex.Nibble(c as int / 16), Hex.Nibble(c as int % 16)] + rest;
      ControlEscape(c, rest);
      assert t[1..] == ['u'] + u && t[1..][1..] == u;
      assert ReadEscape(t[1..]) == Ok((c, 5));
      assert t[6..] == rest;
    } else if |e| == 2 {
      assert t[1..] == [e[1]] + rest && t[2..] == rest;
      assert ReadEscape(t[1..]) == Ok((c, 1));
    } else {
      assert t[1..] == rest;
    }
  }

  lemma {:induction false} EscapedCons(s: string)
    ensures EscapedAll(s) == if s == "" then "" else Escaped(s[0]) + EscapedAll(s[1..])
  {
    var ts := seq(|s|, i requires 0 <= i < |s| => Escaped(s[i]));
    if s == "" {
      assert ts == [];
    } else {
      var t := s[1..];
      assert ts[1..] == seq(|t|, i requires 0 <= i < |t| => Escaped(t[i]));
    }
  }

  lemma {:induction false} ReadEscapedAll(s: string, rest: string)
    ensures ReadChars(EscapedAll(s) + (['"'] + rest)) == Ok((s, rest))
  {
    var tail := ['"'] + rest;
    EscapedCons(s);
    if s == "" {
      assert EscapedAll(s) + tail == tail && tail[1..] == rest;
    } else {
      ReadEscapedAll(s[1..], rest);
      AppendAssoc(Escaped(s[0]), EscapedAll(s[1..]), tail);
      ReadEscapedChar(s[0], EscapedAll(s[1..]) + tail);
      assert s == [s[0]] + s[1..];
    }
  }

  /** The string rule applied to an escaped string and any following text yields the string and the text. */
  lemma {:induction false} ReadQuoted(s: string, rest: string)
    ensures ReadString(Quoted(s) + rest) == Ok((s, rest))
  {
    var t := Quoted(s) + rest;
    ReadEscapedAll(s, rest);
    assert t[1..] == EscapedAll(s) + (['"'] + rest);
  }

  // ---- values round trip -------------------------------------------------------------------------

  lemma {:induction false} NoSpace(t: string)
    requires t != "" && !IsSpace(t[0])
    ensures SkipSpace(t) == t
  {
  }

  /** A rendered value starts with a character that is neither space nor a closing bracket. */
  lemma {:induction false} RenderHead(j: Json)
    ensures Render(j) != "" && !IsSpace(Render(j)[0]) && Render(j)[0] != ']' && Render(j)[0] != '}'
  {
  }

  lemma {:induction false} JoinHead(ts: seq<string>)
    requires ts != [] && ts[0] != ""
    ensures JoinTexts(ts) != "" && JoinTexts(ts)[0] == ts[0][0]
  {
  }

  lemma {:induction false} ReadRender(j: Json, rest: string)
    ensures ReadValue(Render(j) + rest) == Ok((j, rest))
    decreases j, 1
  {
    var t := Render(j) + rest;
    RenderHead(j);
    NoSpace(t);
    match j
    case Null => assert t[..4] == "null" && t[4..] == rest;
    case Bool(b) =>
      if b { assert t[..4] == "true" && t[4..] == rest; } else { assert t[..5] == "false" && t[5..] == rest; }
    case Str(s) => ReadQuoted(s, rest);
    case Arr(items) => ReadArray(items, rest);
    case Obj(fields) => ReadObject(fields, rest);
  }

  lemma {:induction false} ReadArray(items: seq<Json>, rest: string)
    ensures ReadValue(Render(Arr(items)) + rest) == Ok((Arr(items), rest))
    decreases items, 1
  {
    var t := Render(Arr(items)) + rest;
    NoSpace(t);
    var inner := JoinTexts(RenderAll(items)) + ([']'] + rest);
    assert t[1..] == inner;
    if items == [] {
      assert inner == [']'] + rest;
      NoSpace(inner);
      assert inner[1..] == rest;
    } else {
      RenderHead(items[0]);
      JoinHead(RenderAll(items));
      NoSpace(inner);
      ReadRenderedItems(items, rest);
    }
  }

  lemma {:induction false} ReadRenderedItems(items: seq<Json>, rest: string)
    requires items != []
    ensures ReadItems(JoinTexts(RenderAll(items)) + ([']'] + rest)) == Ok((items, rest))
    decreases items, 0
  {
    var close := [']'] + rest;
    if |items| == 1 {
      ReadRender(items[0], close);
      NoSpace(close);
      assert close[1..] == rest && items == [items[0]];
    } else {
      var more := JoinTexts(RenderAll(items[1..])) + close;
      var after := [','] + more;
      ItemsSplit(items, close);
      ReadRender(items[0], after);
      NoSpace(after);
      assert after[1..] == more;
      ReadRenderedItems(items[1..], rest);
      assert items == [items[0]] + items[1..];
    }
  }

  lemma {:induction false} ItemsSplit(items: seq<Json>, close: string)
    requires |items| > 1
    ensures JoinTexts(RenderAll(items)) + close ==
            Render(items[0]) + ([','] + (JoinTexts(RenderAll(items[1..])) + close))
  {
    assert RenderAll(items)[1..] == RenderAll(items[1..]);
  }

  lemma {:induction false} ReadBraced(inner: string, fields: seq<Field>, rest: string)
    requires inner != "" && inner[0] == '"' && ReadMembers(inner) == Ok((fields, rest))
    ensures ReadValue(['{'] + inner) == Ok((Obj(fields), rest))
  {
    var t := ['{'] + inner;
    NoSpace(t);
    NoSpace(inner);
    assert t[1..] == inner;
  }

  lemma {:induction false} ReadEmptyBraces(rest: string)
    ensures ReadValue(['{', '}'] + rest) == Ok((Obj([]), rest))
  {
    var t := ['{', '}'] + rest;
    NoSpace(t);
    assert t[1..] == ['}'] + rest;
    NoSpace(t[1..]);
    assert t[1..][1..] == rest;
  }

  lemma {:induction false} ReadObject(fields: seq<Field>, rest: string)
    ensures ReadValue(Render(Obj(fields)) + rest) == Ok((Obj(fields), rest))
    decreases fields, 1
  {
    var t := Render(Obj(fields)) + rest;
    if fields == [] {
      assert t == ['{', '}'] + rest;
      ReadEmptyBraces(rest);
    } else {
      var inner := JoinTexts(RenderMembers(fields)) + (['}'] + rest);
      assert t == ['{'] + inner;
      JoinHead(RenderMembers(fields));
      ReadRenderedMembers(fields, rest);
      ReadBraced(inner, fields, rest);
    }
  }

  lemma {:induction false} ReadRenderedMembers(fields: seq<Field>, rest: string)
    requires fields != []
    ensures ReadMembers(JoinTexts(RenderMembers(fields)) + (['}'] + rest)) == Ok((fields, rest))
    decreases fields, 0
  {
    var close := ['}'] + rest;
    var f := fields[0];
    if |fields| == 1 {
      MembersLast(f.key, f.value, rest);
      assert fields == [f];
    } else {
      MembersSplit(fields, close);
      MembersMore(f.key, f.value, JoinTexts(RenderMembers(fields[1..])) + close);
      ReadRenderedMembers(fields[1..], rest);
      assert fields == [f] + fields[1..];
    }
  }

  lemma {:induction false} MembersLast(k: string, v: Json, rest: string)
    ensures ReadMembers(Member(k, Render(v)) + (['}'] + rest)) == Ok(([Field(k, v)], rest))
    decreases v, 3
  {
    var close := ['}'] + rest;
    ReadMember(k, v, close);
    NoSpace(close);
    assert close[1..] == rest;
  }

  lemma {:induction false} MembersMore(k: string, v: Json, more: string)
    ensures ReadMembers(Member(k, Render(v)) + ([','] + more)) ==
            if ReadMembers(more).Ok? then Ok(([Field(k, v)] + ReadMembers(more).value.0, ReadMembers(more).value.1)) else Err
    decreases v, 3
  {
    var after := [','] + more;
    ReadMember(k, v, after);
    NoSpace(after);
    assert after[1..] == more;
  }

  lemma {:induction false} MembersSplit(fields: seq<Field>, close: string)
    requires |fields| > 1
    ensures JoinTexts(RenderMembers(fields)) + close ==
            Member(fields[0].key, Render(fields[0].value)) + ([','] + (JoinTexts(RenderMembers(fields[1..])) + close))
  {
    assert RenderMembers(fields)[1..] == RenderMembers(fields[1..]);
  }

  /** Reading one rendered member: its key, the colon, its value. */
  lemma {:induction false} ReadMember(k: string, v: Json, after: string)
    ensures var t := Member(k, Render(v)) + after;
            var colon := [':'] + (Render(v) + after);
            && SkipSpace(t) == t && ReadString(t) == Ok((k, colon))
            && SkipSpace(colon) == colon && colon[1..] == Render(v) + after
            && ReadValue(Render(v) + after) == Ok((v, after))
    decreases v, 2
  {
    var colon := [':'] + (Render(v) + after);
    var t := Member(k, Render(v)) + after;
    assert t == Quoted(k) + colon;
    NoSpace(t);
    ReadQuoted(k, colon);
    NoSpace(colon);
    ReadRender(v, after);
  }

  // ---- the loops ---------------------------------------------------------------------------------

  lemma {:induction false} EscapedSnoc(s: string, c: char)
    ensures EscapedAll(s + [c]) == EscapedAll(s) + Escaped(c)
  {
    EscapedCons(s);
    EscapedCons(s + [c]);
    if s == "" {
      EscapedCons([c][1..]);
      assert s + [c] == [c];
    } else {
      EscapedSnoc(s[1..], c);
      assert (s + [c])[1..] == s[1..] + [c];
      AppendAssoc(Escaped(s[0]), EscapedAll(s[1..]), Escaped(c));
    }
  }

  /** `json_string`, and the two copies of it in lib.rs. */
  method JsonString(s: string) returns (out: string)
    ensures out == Quoted(s)
  {
    out := ['"'];
    EscapedCons(s[..0]);
    for i := 0 to |s|
      invariant out == ['"'] + EscapedAll(s[..i])
    {
      var c := s[i];
      assert s[..i + 1] == s[..i] + [c];
      EscapedSnoc(s[..i], c);
      AppendAssoc(['"'], EscapedAll(s[..i]), Escaped(c));
      if c == '"' { out := out + "\\\""; }
      else if c == '\\' { out := out + "\\\\"; }
      else if c == '\n' { out := out + "\\n"; }
      else if c == '\r' { out := out + "\\r"; }
      else if c == '\t' { out := out + "\\t"; }
      else if (c as int) < 0x20 { out := out + ['\\', 'u', '0', '0', Hex.Nibble(c as int / 16), Hex.Nibble(c as int % 16)]; }
      else { out := out + [c]; }
    }
    assert s[..|s|] == s;
    AppendAssoc(['"'], EscapedAll(s), ['"']);
    out := out + ['"'];
  }

  lemma {:induction false} JoinSnoc(ts: seq<string>, t: string)
    ensures JoinTexts(ts + [t]) == if ts == [] then t else JoinTexts(ts) + ([','] + t)
  {
    if |ts| > 1 {
      JoinSnoc(ts[1..], t);
      assert (ts + [t])[1..] == ts[1..] + [t];
      JoinAssoc(ts[0], JoinTexts(ts[1..]), t);
    } else if |ts| == 1 {
      assert (ts + [t])[1..] == [t];
    } else {
      assert ts + [t] == [t];
    }
  }

  lemma {:induction false} JoinAssoc(a: string, b: string, t: string)
    ensures a + ([','] + (b + ([','] + t))) == (a + ([','] + b)) + ([','] + t)
  {
  }

  /** The comma-separated list loop that every list printer contains. */
  method JoinList(ts: seq<string>) returns (out: string)
    ensures out == JoinTexts(ts)
  {
    out := "";
    for i := 0 to |ts|
      invariant out == JoinTexts(ts[..i])
    {
      assert ts[..i + 1] == ts[..i] + [ts[i]];
      JoinSnoc(ts[..i], ts[i]);
      AppendAssoc(out, [','], ts[i]);
      if i > 0 {
        out := out + [','];
      }
      out := out + ts[i];
    }
    assert ts[..|ts|] == ts;
  }
}

/**
 The printed replay outcome (`replay_json`). It writes strings with Rust's debug escaping, which is not JSON:
 NUL becomes a backslash and `0`, and characters the standard library does not show become a braced unicode
 escape. `ReplayReads` says exactly what a JSON reader makes of the text: the outcome when every string in it
 is free of such characters, and a syntax error otherwise.

 `hidden` is the standard library's table of characters that debug formatting does not print as they are.
 Nothing is assumed of it beyond that it covers the control characters below U+0020.
 */
module ReplayJson {
  import opened Prelude
  import opened Json
  import opened JsonPrinters
  import Hex

  datatype Replay = Replayed(tip: string) | Clean | Empty | Conflicts(paths: seq<string>)

  function HexText(n: nat): (s: string) {
    if n < 16 then [Hex.Nibble(n)] else HexText(n / 16) + [Hex.Nibble(n % 16)]
  }

  /** The digits denote the number and start with no needless zero. */
  lemma {:induction false} HexTextBack(n: nat)
    ensures Hex.HexNum(HexText(n)) == Some(n) && HexText(n) != "" && (n > 0 ==> HexText(n)[0] != '0')
  {
    var s := HexText(n);
    if n < 16 {
      assert s[..|s| - 1] == "";
    } else {
      HexTextBack(n / 16);
      assert s[..|s| - 1] == HexText(n / 16);
    }
  }

  /** One character inside a debug-formatted string. */
  function DebugChar(c: char, hidden: char -> bool): (s: string) {
    if c == '\0' then "\\0"
    else if c == '\t' then "\\t"
    else if c == '\r' then "\\r"
    else if c == '\n' then "\\n"
    else if c == '"' then "\\\""
    else if c == '\\' then "\\\\"
    else if hidden(c) then ['\\', 'u', '{'] + (HexText(c as nat) + ['}'])
    else [c]
  }

  function DebugAll(s: string, hidden: char -> bool): (r: string) {
    Flat(seq(|s|, i requires 0 <= i < |s| => DebugChar(s[i], hidden)))
  }

  function DebugQuoted(s: string, hidden: char -> bool): (r: string) {
    ['"'] + (DebugAll(s, hidden) + ['"'])
  }

  ghost predicate CoversControls(hidden: char -> bool) {
    forall c: char :: (c as int) < 0x20 ==> hidden(c)
  }

  /** A character debug formatting writes the way JSON does. */
  predicate Readable(c: char, hidden: char -> bool) {
    c == '\t' || c == '\r' || c == '\n' || c == '"' || c == '\\' || (c != '\0' && !hidden(c))
  }

  predicate AllReadable(s: string, hidden: char -> bool) {
    forall i :: 0 <= i < |s| ==> Readable(s[i], hidden)
  }

  // ---- one string --------------------------------------------------------------------------------

  lemma {:induction false} DebugCons(s: string, hidden: char -> bool)
    requires s != ""
    ensures DebugAll(s, hidden) == DebugChar(s[0], hidden) + DebugAll(s[1..], hidden)
  {
    var t := s[1..];
    var ts := seq(|s|, i requires 0 <= i < |s| => DebugChar(s[i], hidden));
    assert ts[1..] == seq(|t|, i requires 0 <= i < |t| => DebugChar(t[i], hidden));
  }

  /** On readable characters the two escapings agree. */
  lemma {:induction false} DebugIsJson(s: string, hidden: char -> bool)
    requires CoversControls(hidden) && AllReadable(s, hidden)
    ensures DebugQuoted(s, hidden) == Quoted(s)
  {
    var ds := seq(|s|, i requires 0 <= i < |s| => DebugChar(s[i], hidden));
    var es := seq(|s|, i requires 0 <= i < |s| => Escaped(s[i]));
    assert ds == es;
  }

  /** Any other character is a syntax error inside a JSON string. */
  lemma {:induction false} UnreadableChar(c: char, hidden: char -> bool, rest: string)
    requires !Readable(c, hidden)
    ensures ReadChars(DebugChar(c, hidden) + rest) == Err
  {
    var t := DebugChar(c, hidden) + rest;
    if c == '\0' {
      assert t[1..][0] == '0';
    } else {
      assert t[1..][0] == 'u' && t[1..][1..][0] == '{';
      assert ReadHex4(t[1..][1..]) == Err;
    }
  }

  lemma {:induction false} ReadDebugChar(c: char, hidden: char -> bool, rest: string)
    requires CoversControls(hidden)
    ensures ReadChars(DebugChar(c, hidden) + rest) == if Readable(c, hidden) then Prepend(c, ReadChars(rest)) else Err
  {
    if !Readable(c, hidden) {
      UnreadableChar(c, hidden, rest);
    } else {
      assert DebugChar(c, hidden) == Escaped(c);
      ReadEscapedChar(c, rest);
    }
  }

  lemma {:induction false} ReadableCons(s: string, hidden: char -> bool)
    requires s != ""
    ensures AllReadable(s, hidden) <==> Readable(s[0], hidden) && AllReadable(s[1..], hidden)
  {
    assert forall i :: 1 <= i < |s| ==> s[i] == s[1..][i - 1];
  }

  lemma {:induction false} ReadDebugAll(s: string, hidden: char -> bool, rest: string)
    requires CoversControls(hidden)
    ensures ReadChars(DebugAll(s, hidden) + (['"'] + rest)) == if AllReadable(s, hidden) then Ok((s, rest)) else Err
  {
    var tail := ['"'] + rest;
    if s == "" {
      assert DebugAll(s, hidden) + tail == tail && tail[1..] == rest;
    } else {
      DebugCons(s, hidden);
      ReadableCons(s, hidden);
      AppendAssoc(DebugChar(s[0], hidden), DebugAll(s[1..], hidden), tail);
      ReadDebugChar(s[0], hidden, DebugAll(s[1..], hidden) + tail);
      ReadDebugAll(s[1..], hidden, rest);
      assert s == [s[0]] + s[1..];
    }
  }

  /** The JSON string rule recovers a debug-formatted string exactly when all its characters are readable. */
  lemma {:induction false} ReadDebug(s: string, hidden: char -> bool, rest: string)
    requires CoversControls(hidden)
    ensures ReadString(DebugQuoted(s, hidden) + rest) == if AllReadable(s, hidden) then Ok((s, rest)) else Err
  {
    var t := DebugQuoted(s, hidden) + rest;
    ReadDebugAll(s, hidden, rest);
    assert t[1..] == DebugAll(s, hidden) + (['"'] + rest);
  }

  // ---- what debug escaping keeps -----------------------------------------------------------------

  /** The text up to the closing brace, and what follows it. */
  function Braced(t: string): (r: Option<(string, string)>)
    ensures r.Some? ==> |r.value.1| < |t|
  {
    if t == "" then None
    else if t[0] == '}' then Some(("", t[1..]))
    else
      match Braced(t[1..])
      case None => None
      case Some((digits, rest)) => Some(([t[0]] + digits, rest))
  }

  function Consed(code: nat, codes: Option<seq<nat>>): (r: Option<seq<nat>>) {
    if codes.Some? then Some([code] + codes.value) else None
  }

  /** The code points a Rust string literal with these contents denotes. */
  function Unescape(t: string): (r: Option<seq<nat>>)
    decreases |t|
  {
    if t == "" then Some([])
    else if t[0] != '\\' then Consed(t[0] as nat, Unescape(t[1..]))
    else if |t| == 1 then None
    else
      match t[1]
      case '0' => Consed(0, Unescape(t[2..]))
      case 't' => Consed(9, Unescape(t[2..]))
      case 'n' => Consed(10, Unescape(t[2..]))
      case 'r' => Consed(13, Unescape(t[2..]))
      case '"' => Consed(34, Unescape(t[2..]))
      case '\\' => Consed(92, Unescape(t[2..]))
      case 'u' =>
        if |t| == 2 || t[2] != '{' then None
        else
          (match Braced(t[3..])
           case None => None
           case Some((digits, rest)) => if Hex.HexNum(digits).None? then None else Consed(Hex.HexNum(digits).value, Unescape(rest)))
      case _ => None
  }

  function Codes(s: string): (r: seq<nat>) {
    seq(|s|, i requires 0 <= i < |s| => s[i] as nat)
  }

  lemma {:induction false} BracedBack(h: string, rest: string)
    requires '}' !in h
    ensures Braced(h + (['}'] + rest)) == Some((h, rest))
  {
    var t := h + (['}'] + rest);
    if h == "" {
      assert t[1..] == rest;
    } else {
      assert t[1..] == h[1..] + (['}'] + rest);
      assert h[0] in h && forall c :: c in h[1..] ==> c in h;
      BracedBack(h[1..], rest);
      assert h == [h[0]] + h[1..];
    }
  }

  lemma {:induction false} NoBrace(n: nat)
    ensures '}' !in HexText(n)
  {
    if n >= 16 { NoBrace(n / 16); }
  }

  lemma {:induction false} UnescapeHidden(c: char, rest: string)
    ensures Unescape(['\\', 'u', '{'] + (HexText(c as nat) + ['}']) + rest) == Consed(c as nat, Unescape(rest))
  {
    var h := HexText(c as nat);
    var t := ['\\', 'u', '{'] + (h + ['}']) + rest;
    assert t[3..] == h + (['}'] + rest);
    NoBrace(c as nat);
    BracedBack(h, rest);
    HexTextBack(c as nat);
  }

  lemma {:induction false} UnescapeChar(c: char, hidden: char -> bool, rest: string)
    ensures Unescape(DebugChar(c, hidden) + rest) == Consed(c as nat, Unescape(rest))
  {
    var t := DebugChar(c, hidden) + rest;
    if c in {'\0', '\t', '\r', '\n', '"', '\\'} {
      assert t[2..] == rest;
    } else if hidden(c) {
      UnescapeHidden(c, rest);
    } else {
      assert t[1..] == rest;
    }
  }

  /** As a Rust literal the debug form denotes the string, whatever is hidden. */
  lemma {:induction false} DebugDenotes(s: string, hidden: char -> bool)
    ensures Unescape(DebugAll(s, hidden)) == Some(Codes(s))
  {
    if s == "" {
      assert DebugAll(s, hidden) == "";
    } else {
      DebugCons(s, hidden);
      UnescapeChar(s[0], hidden, DebugAll(s[1..], hidden));
      DebugDenotes(s[1..], hidden);
      assert Codes(s) == [s[0] as nat] + Codes(s[1..]);
    }
  }

  // ---- the outcome -------------------------------------------------------------------------------

  function DebugTexts(ss: seq<string>, hidden: char -> bool): (r: seq<string>)
    ensures |r| == |ss|
  {
    seq(|ss|, i requires 0 <= i < |ss| => DebugQuoted(ss[i], hidden))
  }

  /** The start every outcome shares. */
  function Tagged(outcome: string, tail: string): (t: string) {
    "{\"outcome\":\"" + (outcome + tail)
  }

  function TipText(tip: string, hidden: char -> bool): (t: string) {
    "\"tip\":" + (DebugQuoted(tip, hidden) + "}")
  }

  function PathsText(paths: seq<string>, hidden: char -> bool): (t: string) {
    "\"paths\":[" + (JoinTexts(DebugTexts(paths, hidden)) + "]}")
  }

  /** `replay_json`. */
  function ReplayText(o: Replay, hidden: char -> bool): (t: string) {
    match o
    case Replayed(tip) => Tagged("replayed", "\"," + TipText(tip, hidden))
    case Clean => Tagged("clean", "\"}")
    case Empty => Tagged("empty", "\"}")
    case Conflicts(paths) => Tagged("conflicts", "\"," + PathsText(paths, hidden))
  }

  /** What the text is meant to say. */
  function ReplayValue(o: Replay): (j: Json) {
    match o
    case Replayed(tip) => Obj([Field("outcome", Str("replayed")), Field("tip", Str(tip))])
    case Clean => Obj([Field("outcome", Str("clean"))])
    case Empty => Obj([Field("outcome", Str("empty"))])
    case Conflicts(paths) => Obj([Field("outcome", Str("conflicts")), Field("paths", Arr(Strings(paths)))])
  }

  predicate ReadableOutcome(o: Replay, hidden: char -> bool) {
    match o
    case Replayed(tip) => AllReadable(tip, hidden)
    case Clean => true
    case Empty => true
    case Conflicts(paths) => forall i :: 0 <= i < |paths| ==> AllReadable(paths[i], hidden)
  }

  // ---- reading it --------------------------------------------------------------------------------

  lemma {:induction false} TaggedMember(outcome: string, more: string)
    requires PlainKey(outcome)
    ensures Tagged(outcome, "\"," + more) == ['{'] + (Member("outcome", Render(Str(outcome))) + ([','] + more))
  {
    PlainEscaped("outcome");
    PlainEscaped(outcome);
  }

  /** After the outcome member, the reader's verdict is the verdict on the second member. */
  lemma {:induction false} SecondMember(outcome: string, more: string)
    requires PlainKey(outcome)
    ensures ReadValue(Tagged(outcome, "\"," + more)) ==
            if ReadMembers(more).Ok?
            then Ok((Obj([Field("outcome", Str(outcome))] + ReadMembers(more).value.0), ReadMembers(more).value.1)) else Err
  {
    var t := Tagged(outcome, "\"," + more);
    var inner := Member("outcome", Render(Str(outcome))) + ([','] + more);
    TaggedMember(outcome, more);
    MembersMore("outcome", Str(outcome), more);
    assert inner[0] == '"';
    NoSpace(t);
    NoSpace(inner);
    assert t[1..] == inner;
  }

  lemma {:induction false} OnlyMember(outcome: string)
    requires PlainKey(outcome)
    ensures ReadValue(Tagged(outcome, "\"}")) == Ok((Obj([Field("outcome", Str(outcome))]), ""))
  {
    var t := Tagged(outcome, "\"}");
    PlainEscaped("outcome");
    PlainEscaped(outcome);
    var inner := Member("outcome", Render(Str(outcome))) + (['}'] + "");
    assert t == ['{'] + inner;
    MembersLast("outcome", Str(outcome), "");
    ReadBraced(inner, [Field("outcome", Str(outcome))], "");
  }

  lemma {:induction false} ReadKey(key: string, after: string)
    requires PlainKey(key)
    ensures var t := ['"'] + (key + (['"', ':'] + after));
            && SkipSpace(t) == t && ReadString(t) == Ok((key, [':'] + after)) && SkipSpace([':'] + after) == [':'] + after
  {
    var t := ['"'] + (key + (['"', ':'] + after));
    PlainEscaped(key);
    assert t == Quoted(key) + ([':'] + after);
    ReadQuoted(key, [':'] + after);
    NoSpace(t);
    NoSpace([':'] + after);
  }

  /** The reader's verdict on a last member is its verdict on the value. */
  lemma {:induction false} LastMember(key: string, after: string, value: Option<Json>)
    requires PlainKey(key) && ReadValue(after) == if value.Some? then Ok((value.value, ['}'])) else Err
    ensures ReadMembers(['"'] + (key + (['"', ':'] + after))) ==
            if value.Some? then Ok(([Field(key, value.value)], "")) else Err
  {
    ReadKey(key, after);
    assert ([':'] + after)[1..] == after;
    NoSpace(['}']);
    assert ['}'][1..] == "";
  }

  lemma {:induction false} ReadTip(tip: string, hidden: char -> bool)
    requires CoversControls(hidden)
    ensures ReadMembers(TipText(tip, hidden)) ==
            if AllReadable(tip, hidden) then Ok(([Field("tip", Str(tip))], "")) else Err
  {
    var after := DebugQuoted(tip, hidden) + ['}'];
    ReadDebug(tip, hidden, ['}']);
    NoSpace(after);
    LastMember("tip", after, if AllReadable(tip, hidden) then Some(Str(tip)) else None);
    assert TipText(tip, hidden) == ['"'] + ("tip" + (['"', ':'] + after));
  }

  lemma {:induction false} DebugSplit(paths: seq<string>, hidden: char -> bool, close: string)
    requires |paths| > 1
    ensures JoinTexts(DebugTexts(paths, hidden)) + close ==
            DebugQuoted(paths[0], hidden) + ([','] + (JoinTexts(DebugTexts(paths[1..], hidden)) + close))
  {
    assert DebugTexts(paths, hidden)[1..] == DebugTexts(paths[1..], hidden);
  }

  /** One unreadable path anywhere in the list makes the whole list a syntax error. */
  lemma {:induction false} ItemsFail(paths: seq<string>, hidden: char -> bool, rest: string)
    requires CoversControls(hidden) && exists i :: 0 <= i < |paths| && !AllReadable(paths[i], hidden)
    ensures ReadItems(JoinTexts(DebugTexts(paths, hidden)) + ([']'] + rest)) == Err
  {
    var close := [']'] + rest;
    var t := JoinTexts(DebugTexts(paths, hidden)) + close;
    if |paths| == 1 {
      ReadDebug(paths[0], hidden, close);
      NoSpace(t);
    } else {
      var more := JoinTexts(DebugTexts(paths[1..], hidden)) + close;
      DebugSplit(paths, hidden, close);
      ReadDebug(paths[0], hidden, [','] + more);
      NoSpace(t);
      if AllReadable(paths[0], hidden) {
        var i :| 0 <= i < |paths| && !AllReadable(paths[i], hidden);
        assert paths[1..][i - 1] == paths[i];
        ItemsFail(paths[1..], hidden, rest);
        NoSpace([','] + more);
        assert ([','] + more)[1..] == more;
      }
    }
  }

  lemma {:induction false} ArrayFails(paths: seq<string>, hidden: char -> bool, rest: string)
    requires CoversControls(hidden) && exists i :: 0 <= i < |paths| && !AllReadable(paths[i], hidden)
    ensures ReadValue(['['] + (JoinTexts(DebugTexts(paths, hidden)) + ([']'] + rest))) == Err
  {
    var inner := JoinTexts(DebugTexts(paths, hidden)) + ([']'] + rest);
    ItemsFail(paths, hidden, rest);
    JoinHead(DebugTexts(paths, hidden));
    assert inner[0] == '"';
    NoSpace(['['] + inner);
    NoSpace(inner);
    assert (['['] + inner)[1..] == inner;
  }

  lemma {:induction false} ArrayReads(paths: seq<string>, hidden: char -> bool, rest: string)
    requires CoversControls(hidden) && forall i :: 0 <= i < |paths| ==> AllReadable(paths[i], hidden)
    ensures ReadValue(['['] + (JoinTexts(DebugTexts(paths, hidden)) + ([']'] + rest))) == Ok((Arr(Strings(paths)), rest))
  {
    forall i | 0 <= i < |paths|
      ensures DebugTexts(paths, hidden)[i] == Quoted(paths[i])
    {
      DebugIsJson(paths[i], hidden);
    }
    RenderStrings(paths);
    assert DebugTexts(paths, hidden) == RenderAll(Strings(paths));
    ReadArray(Strings(paths), rest);
    AppendAssoc(JoinTexts(RenderAll(Strings(paths))), [']'], rest);
    AppendAssoc(['['], JoinTexts(RenderAll(Strings(paths))) + [']'], rest);
  }

  lemma {:induction false} RenderStrings(ss: seq<string>)
    ensures RenderAll(Strings(ss)) == seq(|ss|, i requires 0 <= i < |ss| => Quoted(ss[i]))
  {
    if ss != [] {
      RenderStrings(ss[1..]);
      assert Strings(ss)[1..] == Strings(ss[1..]);
      assert RenderAll(Strings(ss)) == [Quoted(ss[0])] + RenderAll(Strings(ss[1..]));
    }
  }

  lemma {:induction false} ListShape(x: string)
    ensures "\"paths\":[" + (x + "]}") == ['"'] + ("paths" + (['"', ':'] + (['['] + (x + ([']'] + ['}'])))))
  {
    assert "]}" == [']'] + ['}'] && "\"paths\":[" == ['"'] + "paths" + ['"', ':'] + ['['];
  }

  lemma {:induction false} ReadPaths(paths: seq<string>, hidden: char -> bool)
    requires CoversControls(hidden)
    ensures ReadMembers(PathsText(paths, hidden)) ==
            if forall i :: 0 <= i < |paths| ==> AllReadable(paths[i], hidden)
            then Ok(([Field("paths", Arr(Strings(paths)))], "")) else Err
  {
    var after := ['['] + (JoinTexts(DebugTexts(paths, hidden)) + ([']'] + ['}']));
    ListShape(JoinTexts(DebugTexts(paths, hidden)));
    if forall i :: 0 <= i < |paths| ==> AllReadable(paths[i], hidden) {
      ArrayReads(paths, hidden, ['}']);
      LastMember("paths", after, Some(Arr(Strings(paths))));
    } else {
      ArrayFails(paths, hidden, ['}']);
      LastMember("paths", after, None);
    }
  }

  lemma {:induction false} ReplayedReads(tip: string, hidden: char -> bool)
    requires CoversControls(hidden)
    ensures ReadValue(ReplayText(Replayed(tip), hidden)) ==
            if AllReadable(tip, hidden) then Ok((ReplayValue(Replayed(tip)), "")) else Err
  {
    var first, second := Field("outcome", Str("replayed")), Field("tip", Str(tip));
    assert [first] + [second] == [first, second];
    SecondMember("replayed", TipText(tip, hidden));
    ReadTip(tip, hidden);
  }

  lemma {:induction false} ConflictsRead(paths: seq<string>, hidden: char -> bool)
    requires CoversControls(hidden)
    ensures ReadValue(ReplayText(Conflicts(paths), hidden)) ==
            if ReadableOutcome(Conflicts(paths), hidden) then Ok((ReplayValue(Conflicts(paths)), "")) else Err
  {
    var first, second := Field("outcome", Str("conflicts")), Field("paths", Arr(Strings(paths)));
    assert [first] + [second] == [first, second];
    SecondMember("conflicts", PathsText(paths, hidden));
    ReadPaths(paths, hidden);
  }

  /** A JSON reader recovers the outcome exactly when every string in it is readable; otherwise it fails. */
  lemma {:induction false} ReplayReads(o: Replay, hidden: char -> bool)
    requires CoversControls(hidden)
    ensures ReadValue(ReplayText(o, hidden)) == if ReadableOutcome(o, hidden) then Ok((ReplayValue(o), "")) else Err
  {
    match o
    case Clean => OnlyMember("clean");
    case Empty => OnlyMember("empty");
    case Replayed(tip) => ReplayedReads(tip, hidden);
    case Conflicts(paths) => ConflictsRead(paths, hidden);
  }

  /** A conflict on a path holding a NUL is such a text, whatever the standard library's table says. */
  lemma {:induction false} NulPathFails(before: string, after: string, hidden: char -> bool)
    requires CoversControls(hidden)
    ensures ReadValue(ReplayText(Conflicts([before + ['\0'] + after]), hidden)) == Err
  {
    var path := before + ['\0'] + after;
    assert path[|before|] == '\0';
    assert !AllReadable(path, hidden);
    assert !ReadableOutcome(Conflicts([path]), hidden) by { assert [path][0] == path; }
    ReplayReads(Conflicts([path]), hidden);
  }
}

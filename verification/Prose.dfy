/**
 The text of a ProseMirror document (`prosemirror_text`): the tree walk, then Python's split and a join by
 single spaces. `space` is the set of characters `str.split` separates at; the newline and the blank are two
 of them.

 `NormalExact` characterises the normalised texts, `ProseNormal` says when the result is one, and
 `BlockWords` that words never fuse across block nodes.
 */
module Prose {
  import opened Prelude
  import opened PyValues

  ghost predicate Separates(space: char -> bool) {
    space(' ') && space('\n')
  }

  // ---- split and join ----------------------------------------------------------------------------

  /** `s.split()`. */
  function Split(s: string, space: char -> bool): (ws: seq<string>)
    ensures s != "" && !space(s[0]) ==> ws != []
  {
    if s == "" then []
    else if space(s[0]) then Split(s[1..], space)
    else if |s| == 1 || space(s[1]) then [[s[0]]] + Split(s[1..], space)
    else
      var rest := Split(s[1..], space);
      [[s[0]] + rest[0]] + rest[1..]
  }

  /** `" ".join(ws)`. */
  function Join(ws: seq<string>): (s: string) {
    if ws == [] then "" else if |ws| == 1 then ws[0] else ws[0] + ([' '] + Join(ws[1..]))
  }

  function Normal(s: string, space: char -> bool): (t: string) {
    Join(Split(s, space))
  }

  predicate IsWord(w: string, space: char -> bool) {
    w != "" && forall i :: 0 <= i < |w| ==> !space(w[i])
  }

  predicate AllWords(ws: seq<string>, space: char -> bool) {
    forall i :: 0 <= i < |ws| ==> IsWord(ws[i], space)
  }

  lemma {:induction false} SplitIsWords(s: string, space: char -> bool)
    ensures AllWords(Split(s, space), space)
  {
    if s != "" {
      SplitIsWords(s[1..], space);
      if !space(s[0]) && |s| > 1 && !space(s[1]) {
        var rest := Split(s[1..], space);
        assert IsWord(rest[0], space) && IsWord([s[0]] + rest[0], space);
      }
    }
  }

  /** A separator splits the words before it from the words after it. */
  lemma {:induction false} SplitAt(a: string, c: char, b: string, space: char -> bool)
    requires space(c)
    ensures Split(a + ([c] + b), space) == Split(a, space) + Split(b, space)
  {
    var s := a + ([c] + b);
    if a == "" {
      assert s == [c] + b && s[1..] == b;
    } else {
      assert s[1..] == a[1..] + ([c] + b);
      SplitAt(a[1..], c, b, space);
      if !space(a[0]) && |a| == 1 {
        assert a[1..] == "" && s[1] == c;
      }
    }
  }

  lemma {:induction false} SplitWord(w: string, space: char -> bool)
    requires IsWord(w, space)
    ensures Split(w, space) == [w]
  {
    if |w| == 1 {
      assert w[1..] == "" && w == [w[0]];
    } else {
      assert IsWord(w[1..], space);
      SplitWord(w[1..], space);
      assert w == [w[0]] + w[1..];
    }
  }

  lemma {:induction false} SplitJoin(ws: seq<string>, space: char -> bool)
    requires Separates(space) && AllWords(ws, space)
    ensures Split(Join(ws), space) == ws
  {
    if ws != [] {
      SplitWord(ws[0], space);
      if |ws| > 1 {
        SplitJoin(ws[1..], space);
        SplitAt(ws[0], ' ', Join(ws[1..]), space);
      }
      assert ws == [ws[0]] + ws[1..];
    }
  }

  /** The words survive normalisation; in particular it is idempotent. */
  lemma {:induction false} NormalKeepsWords(s: string, space: char -> bool)
    requires Separates(space)
    ensures Split(Normal(s, space), space) == Split(s, space)
    ensures Normal(Normal(s, space), space) == Normal(s, space)
  {
    SplitIsWords(s, space);
    SplitJoin(Split(s, space), space);
  }

  /** No outer separators, and inside only single blanks. */
  predicate SingleSpaced(t: string, space: char -> bool) {
    forall i :: 0 <= i < |t| && space(t[i]) ==> t[i] == ' ' && 0 < i < |t| - 1 && !space(t[i + 1])
  }

  lemma {:induction false} JoinSingleSpaced(ws: seq<string>, space: char -> bool)
    requires AllWords(ws, space)
    ensures SingleSpaced(Join(ws), space)
    ensures ws != [] ==> Join(ws) != "" && !space(Join(ws)[0])
  {
    if |ws| > 1 {
      var w, t := ws[0], Join(ws[1..]);
      JoinSingleSpaced(ws[1..], space);
      var s := w + ([' '] + t);
      assert forall i :: |w| < i < |s| ==> s[i] == t[i - |w| - 1];
      assert forall i :: 0 <= i < |w| ==> s[i] == w[i];
    }
  }

  lemma {:induction false} SingleSpacedFixed(t: string, space: char -> bool)
    requires SingleSpaced(t, space)
    ensures Normal(t, space) == t
  {
    if t != "" {
      assert !space(t[0]);
      if |t| == 1 {
        assert t == [t[0]];
        SplitWord(t, space);
      } else if space(t[1]) {
        var u := t[2..];
        assert t[1] == ' ' && !space(t[2]);
        assert forall i :: 0 <= i < |u| ==> u[i] == t[i + 2];
        SingleSpacedFixed(u, space);
        assert t[1..][1..] == u;
        assert Split(t, space)[1..] == Split(u, space);
        assert t == [t[0]] + ([' '] + u);
      } else {
        var u := t[1..];
        assert forall i :: 0 <= i < |u| ==> u[i] == t[i + 1];
        SingleSpacedFixed(u, space);
        Prefixed(t[0], Split(u, space));
        assert t == [t[0]] + u;
      }
    }
  }

  lemma {:induction false} Prefixed(c: char, ws: seq<string>)
    requires ws != []
    ensures Join([[c] + ws[0]] + ws[1..]) == [c] + Join(ws)
  {
    var longer := [[c] + ws[0]] + ws[1..];
    assert longer[1..] == ws[1..];
  }

  /** A text is left alone exactly when it has no outer separators and only single blanks inside. */
  lemma {:induction false} NormalExact(t: string, space: char -> bool)
    requires Separates(space)
    ensures SingleSpaced(Normal(t, space), space)
    ensures Normal(t, space) == t <==> SingleSpaced(t, space)
  {
    SplitIsWords(t, space);
    JoinSingleSpaced(Split(t, space), space);
    if SingleSpaced(t, space) { SingleSpacedFixed(t, space); }
  }

  // ---- the walk ----------------------------------------------------------------------------------

  /** What `for child in node.get("content", []) or []` visits that the walk does not ignore; iterating a number
      or `True` is an error. */
  predicate Iterable(v: Value) {
    !Truthy(v) || v.PyList? || v.PyDict? || v.PyStr?
  }

  function OwnText(d: seq<Pair>): (r: seq<string>) {
    var t := Get(d, "text");
    if t.PyStr? then [t.s] else []
  }

  predicate Breaks(t: Value) {
    t == PyStr("paragraph") || t == PyStr("heading") || t == PyStr("listItem")
  }

  function Newline(d: seq<Pair>): (r: seq<string>) {
    if Breaks(Get(d, "type")) then ["\n"] else []
  }

  /** The lines the walk appends; an error for content that cannot be iterated or a type that cannot be hashed. */
  function Lines(node: Value): (r: Result<seq<string>>)
    decreases node
  {
    match node
    case PyDict(d) =>
      GetMember(d, "content");
      var content, kind := Get(d, "content"), Get(d, "type");
      var kids := if content.PyList? then LinesAll(content.items) else Ok([]);
      if !Iterable(content) || kids.Err? || kind.PyList? || kind.PyDict? then Err
      else Ok(OwnText(d) + kids.value + Newline(d))
    case PyList(items) => LinesAll(items)
    case _ => Ok([])
  }

  function LinesAll(items: seq<Value>): (r: Result<seq<string>>)
    decreases items
  {
    if items == [] then Ok([])
    else
      var head, tail := Lines(items[0]), LinesAll(items[1..]);
      if head.Ok? && tail.Ok? then Ok(head.value + tail.value) else Err
  }

  lemma {:induction false} LinesSnoc(items: seq<Value>, x: Value)
    ensures LinesAll(items + [x]) ==
            if LinesAll(items).Ok? && Lines(x).Ok? then Ok(LinesAll(items).value + Lines(x).value) else Err
  {
    if items == [] {
      assert items + [x] == [x] && [x][1..] == [] && LinesAll([x][1..]) == Ok([]);
      if Lines(x).Ok? {
        assert Lines(x).value + [] == Lines(x).value && [] + Lines(x).value == Lines(x).value;
      }
    } else {
      LinesSnoc(items[1..], x);
      assert (items + [x])[1..] == items[1..] + [x];
      if LinesAll(items).Ok? && Lines(x).Ok? {
        AppendAssoc(Lines(items[0]).value, LinesAll(items[1..]).value, Lines(x).value);
      }
    }
  }

  lemma {:induction false} LinesPrefix(items: seq<Value>, n: nat)
    requires n <= |items| && LinesAll(items[..n]).Err?
    ensures LinesAll(items).Err?
    decreases |items| - n
  {
    if n < |items| {
      assert items[..n + 1] == items[..n] + [items[n]];
      LinesSnoc(items[..n], items[n]);
      LinesPrefix(items, n + 1);
    } else {
      assert items[..n] == items;
    }
  }

  /** `walk`, which appends to one shared list. */
  method Walk(node: Value, lines0: seq<string>) returns (ok: bool, lines: seq<string>)
    ensures ok <==> Lines(node).Ok?
    ensures ok ==> lines == lines0 + Lines(node).value
    decreases node
  {
    ok, lines := true, lines0;
    match node
    case PyDict(d) => {
      var text := Get(d, "text");
      if text.PyStr? { lines := lines + [text.s]; }
      var content := Get(d, "content");
      if !Iterable(content) { return false, lines; }
      if content.PyList? {
        GetMember(d, "content");
        ok, lines := WalkAll(content.items, lines);
        if !ok { return; }
      }
      var kind := Get(d, "type");
      if kind.PyList? || kind.PyDict? { return false, lines; }
      if kind.PyStr? && kind.s in {"paragraph", "heading", "listItem"} { lines := lines + ["\n"]; }
    }
    case PyList(items) => { ok, lines := WalkAll(items, lines0); }
    case _ => { }
  }

  method WalkAll(items: seq<Value>, lines0: seq<string>) returns (ok: bool, lines: seq<string>)
    ensures ok <==> LinesAll(items).Ok?
    ensures ok ==> lines == lines0 + LinesAll(items).value
    decreases items
  {
    ok, lines := true, lines0;
    for i := 0 to |items|
      invariant LinesAll(items[..i]).Ok? && lines == lines0 + LinesAll(items[..i]).value
    {
      assert items[..i + 1] == items[..i] + [items[i]];
      LinesSnoc(items[..i], items[i]);
      ok, lines := Walk(items[i], lines);
      if !ok {
        LinesPrefix(items, i + 1);
        return;
      }
    }
    assert items[..|items|] == items;
  }

  // ---- the text leaves ---------------------------------------------------------------------------

  /** A piece of the document's text: a text of its own, or the end of a block. */
  datatype Piece = Leaf(text: string) | BlockEnd

  predicate Ends(kind: Value) {
    kind.PyStr? && kind.s in {"paragraph", "heading", "listItem"}
  }

  /** The pieces of a tree in document order, in front of those that come after it. */
  function Pieces(node: Value, after: seq<Piece>): (r: seq<Piece>)
    decreases node
  {
    match node
    case PyDict(d) =>
      GetMember(d, "content");
      var content := Get(d, "content");
      var end := if Ends(Get(d, "type")) then [BlockEnd] + after else after;
      var body := if content.PyList? then PiecesAll(content.items, end) else end;
      if Get(d, "text").PyStr? then [Leaf(Get(d, "text").s)] + body else body
    case PyList(items) => PiecesAll(items, after)
    case _ => after
  }

  function PiecesAll(items: seq<Value>, after: seq<Piece>): (r: seq<Piece>)
    decreases items
  {
    if items == [] then after else Pieces(items[0], PiecesAll(items[1..], after))
  }

  function PieceText(p: Piece): (s: string) {
    if p.Leaf? then p.text else "\n"
  }

  function PieceTexts(ps: seq<Piece>): (r: seq<string>) {
    seq(|ps|, i requires 0 <= i < |ps| => PieceText(ps[i]))
  }

  lemma {:induction false} PieceTextsCons(p: Piece, ps: seq<Piece>)
    ensures PieceTexts([p] + ps) == [PieceText(p)] + PieceTexts(ps)
  {
  }

  /** The end of a node: a newline after a block, nothing after any other. */
  lemma {:induction false} EndTexts(d: seq<Pair>, after: seq<Piece>)
    ensures PieceTexts(if Ends(Get(d, "type")) then [BlockEnd] + after else after) == Newline(d) + PieceTexts(after)
  {
    if Ends(Get(d, "type")) {
      PieceTextsCons(BlockEnd, after);
    } else {
      assert Newline(d) + PieceTexts(after) == PieceTexts(after);
    }
  }

  /** What the walk appends is the text leaves in document order, with one newline at the end of each block. */
  lemma {:induction false} LinesArePieces(node: Value, after: seq<Piece>)
    requires Lines(node).Ok?
    ensures PieceTexts(Pieces(node, after)) == Lines(node).value + PieceTexts(after)
    decreases node
  {
    match node
    case PyDict(d) =>
      GetMember(d, "content");
      DictPieces(d, after);
    case PyList(items) => AllPieces(items, after);
    case _ =>
  }

  lemma {:induction false} DictPieces(d: seq<Pair>, after: seq<Piece>)
    requires Lines(PyDict(d)).Ok?
    ensures PieceTexts(Pieces(PyDict(d), after)) == Lines(PyDict(d)).value + PieceTexts(after)
    decreases PyDict(d), 0
  {
    GetMember(d, "content");
    var content := Get(d, "content");
    var end := if Ends(Get(d, "type")) then [BlockEnd] + after else after;
    EndTexts(d, after);
    var kids := if content.PyList? then LinesAll(content.items).value else [];
    var body := if content.PyList? then PiecesAll(content.items, end) else end;
    if content.PyList? { AllPieces(content.items, end); }
    assert PieceTexts(body) == kids + PieceTexts(end);
    AppendAssoc(kids, Newline(d), PieceTexts(after));
    AppendAssoc(OwnText(d), kids, Newline(d));
    AppendAssoc(OwnText(d), kids + Newline(d), PieceTexts(after));
    if Get(d, "text").PyStr? {
      PieceTextsCons(Leaf(Get(d, "text").s), body);
    } else {
      assert OwnText(d) + PieceTexts(body) == PieceTexts(body);
    }
  }

  lemma {:induction false} AllPieces(items: seq<Value>, after: seq<Piece>)
    requires LinesAll(items).Ok?
    ensures PieceTexts(PiecesAll(items, after)) == LinesAll(items).value + PieceTexts(after)
    decreases items
  {
    if items != [] {
      AllPieces(items[1..], after);
      LinesArePieces(items[0], PiecesAll(items[1..], after));
      AppendAssoc(Lines(items[0]).value, LinesAll(items[1..]).value, PieceTexts(after));
    }
  }

  /** A tree the walk fails on: some node of it has a number or `True` for content, or a list or a dictionary for
      its type. */
  predicate Broken(node: Value)
    decreases node
  {
    match node
    case PyDict(d) =>
      GetMember(d, "content");
      match Get(d, "content") {
        case PyBool(b) => b || Unhashable(Get(d, "type"))
        case PyInt(n) => n != 0 || Unhashable(Get(d, "type"))
        case PyFloat(_, zero) => !zero || Unhashable(Get(d, "type"))
        case PyList(items) => Unhashable(Get(d, "type")) || exists i :: 0 <= i < |items| && Broken(items[i])
        case _ => Unhashable(Get(d, "type"))
      }
    case PyList(items) => exists i :: 0 <= i < |items| && Broken(items[i])
    case _ => false
  }

  predicate Unhashable(v: Value) {
    v.PyList? || v.PyDict?
  }

  /** The walk fails on exactly the broken trees. */
  lemma {:induction false} LinesFail(node: Value)
    ensures Lines(node).Err? <==> Broken(node)
    decreases node
  {
    match node
    case PyDict(d) =>
      GetMember(d, "content");
      if Get(d, "content").PyList? { LinesAllFail(Get(d, "content").items); }
    case PyList(items) => LinesAllFail(items);
    case _ =>
  }

  lemma {:induction false} LinesAllFail(items: seq<Value>)
    ensures LinesAll(items).Err? <==> exists i :: 0 <= i < |items| && Broken(items[i])
    decreases items
  {
    if items != [] {
      LinesFail(items[0]);
      LinesAllFail(items[1..]);
      forall i | 0 <= i < |items[1..]|
        ensures items[1..][i] == items[i + 1]
      {
      }
      if i :| 0 <= i < |items| && Broken(items[i]) && i > 0 {
        assert Broken(items[1..][i - 1]);
      }
    }
  }

  // ---- the result --------------------------------------------------------------------------------

  function Text(v: Value, space: char -> bool): (r: Result<string>) {
    match Lines(v)
    case Err => Err
    case Ok(lines) => Ok(Normal(Flat(lines), space))
  }

  /** `prosemirror_text`: a string that is not JSON is returned as it is. */
  function ProseText(v: Value, parse: string -> Option<Value>, space: char -> bool): (r: Result<string>) {
    if v.PyStr? then
      match parse(v.s)
      case None => Ok(v.s)
      case Some(u) => Text(u, space)
    else Text(v, space)
  }

  /** The body of `prosemirror_text`: parse, walk, split and join. */
  method ProsemirrorText(v: Value, parse: string -> Option<Value>, space: char -> bool) returns (r: Result<string>)
    ensures r == ProseText(v, parse, space)
  {
    var value := v;
    if v.PyStr? {
      var parsed := parse(v.s);
      if parsed.None? { return Ok(v.s); }
      value := parsed.value;
    }
    var ok, lines := Walk(value, []);
    if !ok { return Err; }
    assert lines == Lines(value).value;
    return Ok(Join(Split(Flat(lines), space)));
  }

  /** Single-space-separated words without outer separators, except that a string that is not JSON passes
      through unchanged, whatever its spacing. */
  lemma {:induction false} ProseNormal(v: Value, parse: string -> Option<Value>, space: char -> bool)
    requires Separates(space) && ProseText(v, parse, space).Ok?
    ensures SingleSpaced(ProseText(v, parse, space).value, space) <==>
            !(v.PyStr? && parse(v.s).None? && !SingleSpaced(v.s, space))
  {
    var u := if v.PyStr? && parse(v.s).Some? then parse(v.s).value else v;
    if !(v.PyStr? && parse(v.s).None?) {
      NormalExact(Flat(Lines(u).value), space);
    }
  }

  // ---- blocks ------------------------------------------------------------------------------------

  /** A paragraph, heading or list item whose walk succeeds. */
  predicate IsBlock(v: Value) {
    v.PyDict? && Ends(Get(v.entries, "type")) && Lines(v).Ok?
  }

  /** The text a node contributes. */
  function TextOf(v: Value): (s: string) {
    if Lines(v).Ok? then Flat(Lines(v).value) else ""
  }

  /** The words of every block, one block after the other. */
  function WordsOfAll(blocks: seq<Value>, space: char -> bool): (ws: seq<string>) {
    if blocks == [] then [] else Split(TextOf(blocks[0]), space) + WordsOfAll(blocks[1..], space)
  }

  lemma {:induction false} FlatAppend(a: seq<string>, b: seq<string>)
    ensures Flat(a + b) == Flat(a) + Flat(b)
  {
    if a == [] {
      assert a + b == b;
    } else {
      FlatAppend(a[1..], b);
      assert (a + b)[1..] == a[1..] + b;
      AppendAssoc(a[0], Flat(a[1..]), Flat(b));
    }
  }

  /** A block's text ends with a newline. */
  lemma {:induction false} BlockEnds(v: Value) returns (body: string)
    requires IsBlock(v)
    ensures Flat(Lines(v).value) == body + ['\n']
  {
    var lines := Lines(v).value;
    var init := lines[..|lines| - 1];
    assert lines == init + ["\n"];
    FlatAppend(init, ["\n"]);
    assert ["\n"][1..] == [] && Flat(["\n"]) == "\n" + "";
    body := Flat(init);
  }

  /** Whatever follows a block, its words stay apart. */
  lemma {:induction false} BlockThen(v: Value, after: string, space: char -> bool)
    requires space('\n') && IsBlock(v)
    ensures Split(TextOf(v) + after, space) == Split(TextOf(v), space) + Split(after, space)
  {
    var body := BlockEnds(v);
    AppendAssoc(body, ['\n'], after);
    SplitAt(body, '\n', after, space);
    SplitAt(body, '\n', "", space);
    assert body + (['\n'] + "") == body + ['\n'];
  }

  lemma {:induction false} BlocksWalk(blocks: seq<Value>, space: char -> bool)
    requires space('\n') && forall i :: 0 <= i < |blocks| ==> IsBlock(blocks[i])
    ensures LinesAll(blocks).Ok? && Split(Flat(LinesAll(blocks).value), space) == WordsOfAll(blocks, space)
  {
    if blocks != [] {
      var v, rest := blocks[0], blocks[1..];
      BlocksWalk(rest, space);
      assert IsBlock(v);
      FlatAppend(Lines(v).value, LinesAll(rest).value);
      BlockThen(v, Flat(LinesAll(rest).value), space);
    }
  }

  /** The words of a list of blocks are the words of each, one block after the other. */
  lemma {:induction false} BlockWords(blocks: seq<Value>, space: char -> bool)
    requires Separates(space) && forall i :: 0 <= i < |blocks| ==> IsBlock(blocks[i])
    ensures Text(PyList(blocks), space) == Ok(Join(WordsOfAll(blocks, space)))
    ensures Split(Text(PyList(blocks), space).value, space) == WordsOfAll(blocks, space)
  {
    BlocksWalk(blocks, space);
    NormalKeepsWords(Flat(LinesAll(blocks).value), space);
  }

  /** A text node: `{"type": "text", "text": t}` and whatever else does not concern the walk. */
  predicate IsTextNode(v: Value, t: string) {
    && v.PyDict? && Get(v.entries, "text") == PyStr(t) && !Truthy(Get(v.entries, "content"))
    && Get(v.entries, "type").PyStr? && !Ends(Get(v.entries, "type"))
  }

  lemma {:induction false} TextNodeLines(nodes: seq<Value>, ts: seq<string>)
    requires |nodes| == |ts| && forall i :: 0 <= i < |ts| ==> IsTextNode(nodes[i], ts[i])
    ensures LinesAll(nodes) == Ok(ts)
  {
    if nodes == [] {
      assert ts == [];
    } else {
      assert IsTextNode(nodes[0], ts[0]);
      TextNodeLines(nodes[1..], ts[1..]);
      if Get(nodes[0].entries, "content").PyList? {
        assert Get(nodes[0].entries, "content").items == [];
      }
      assert [ts[0]] + [] + [] == [ts[0]];
      assert Lines(nodes[0]) == Ok([ts[0]]);
      assert ts == [ts[0]] + ts[1..];
    }
  }

  /** A block that holds text nodes has the words of their texts, run together. */
  lemma {:induction false} ParagraphWords(d: seq<Pair>, nodes: seq<Value>, ts: seq<string>, space: char -> bool)
    requires space('\n') && Ends(Get(d, "type")) && !Get(d, "text").PyStr? && Get(d, "content") == PyList(nodes)
    requires |nodes| == |ts| && forall i :: 0 <= i < |ts| ==> IsTextNode(nodes[i], ts[i])
    ensures IsBlock(PyDict(d)) && Split(TextOf(PyDict(d)), space) == Split(Flat(ts), space)
  {
    TextNodeLines(nodes, ts);
    assert [] + ts + ["\n"] == ts + ["\n"];
    FlatAppend(ts, ["\n"]);
    assert ["\n"][1..] == [] && Flat(["\n"]) == "\n" + "";
    SplitAt(Flat(ts), '\n', "", space);
    assert Flat(ts) + (['\n'] + "") == Flat(ts) + "\n";
  }

  /** A node that only holds a list: no text of its own, a hashable type that is not a block's. */
  predicate Wraps(d: seq<Pair>, blocks: seq<Value>) {
    && Get(d, "content") == PyList(blocks)
    && !Get(d, "text").PyStr?
    && !Ends(Get(d, "type")) && !Get(d, "type").PyList? && !Get(d, "type").PyDict?
  }

  lemma {:induction false} WrapLines(d: seq<Pair>, blocks: seq<Value>)
    requires Wraps(d, blocks)
    ensures Lines(PyDict(d)) == LinesAll(blocks)
  {
    if LinesAll(blocks).Ok? {
      var kids := LinesAll(blocks).value;
      assert [] + kids + [] == kids;
    }
  }

  /** Hence the words of a whole document: a wrapping node, such as `doc`, adds nothing to those of its blocks. */
  lemma {:induction false} DocumentWords(d: seq<Pair>, blocks: seq<Value>, space: char -> bool)
    requires Separates(space) && Wraps(d, blocks) && forall i :: 0 <= i < |blocks| ==> IsBlock(blocks[i])
    ensures Text(PyDict(d), space) == Ok(Join(WordsOfAll(blocks, space)))
    ensures Split(Text(PyDict(d), space).value, space) == WordsOfAll(blocks, space)
  {
    BlockWords(blocks, space);
    WrapLines(d, blocks);
    assert Text(PyDict(d), space) == Text(PyList(blocks), space);
  }

  /** The usual form of a document. */
  lemma {:induction false} DocWraps(blocks: seq<Value>)
    ensures Wraps([Pair("type", PyStr("doc")), Pair("content", PyList(blocks))], blocks)
  {
    var type_, content := Pair("type", PyStr("doc")), Pair("content", PyList(blocks));
    var d := [type_, content];
    assert d[1..] == [content] && [content][1..] == [];
    assert |"type"| == 4 && |"content"| == 7 && |"text"| == 4 && "type"[1] == 'y' && "text"[1] == 'e';
    assert Get([content], "text") == Get([], "text") == PyNone;
    assert |"doc"| == 3 && |"paragraph"| == 9 && |"heading"| == 7 && |"listItem"| == 8;
  }
}

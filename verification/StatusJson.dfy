/**
 The printed working-tree status (`status_to_json`): the generic JSON reader recovers the same four lists.
 */
module StatusJson {
  import opened Prelude
  import opened Json
  import opened JsonPrinters

  datatype ChangeKind = Added | Modified | Deleted
  datatype Change = Change(path: string, kind: ChangeKind)
  datatype Status = Status(staged: seq<Change>, unstaged: seq<Change>, untracked: seq<string>, conflicts: seq<string>)

  function KindText(k: ChangeKind): (s: string) {
    match k case Added => "added" case Modified => "modified" case Deleted => "deleted"
  }

  function KindFrom(j: Json): (r: Option<ChangeKind>) {
    if j == Str("added") then Some(Added)
    else if j == Str("modified") then Some(Modified)
    else if j == Str("deleted") then Some(Deleted)
    else None
  }

  function ChangeFields(c: Change): (fs: seq<Field>) {
    [Field("path", Str(c.path)), Field("kind", Str(KindText(c.kind)))]
  }

  function ChangeValue(c: Change): (j: Json) {
    Obj(ChangeFields(c))
  }

  function StatusFields(s: Status): (fs: seq<Field>) {
    [Field("staged", Arr(Values(s.staged, ChangeValue))),
     Field("unstaged", Arr(Values(s.unstaged, ChangeValue))),
     Field("untracked", Arr(Strings(s.untracked))),
     Field("conflicts", Arr(Strings(s.conflicts)))]
  }

  // ---- printing ----------------------------------------------------------------------------------

  method PushChange(c: Change) returns (out: string, ghost fs: seq<Field>)
    ensures fs == ChangeFields(c) && out == OpenObject(fs)
  {
    out, fs := "{", [];
    out, fs := PushString(out, fs, true, "path", c.path);
    out, fs := PushString(out, fs, false, "kind", KindText(c.kind));
  }

  method ChangeJson(c: Change) returns (out: string)
    ensures out == Render(ChangeValue(c))
  {
    ghost var fs;
    out, fs := PushChange(c);
    out := CloseObject(out, fs);
  }

  method ChangeList(cs: seq<Change>) returns (out: string)
    ensures out == Render(Arr(Values(cs, ChangeValue)))
  {
    var texts: seq<string> := [];
    for i := 0 to |cs|
      invariant |texts| == i && Shows(texts, cs, ChangeValue)
    {
      var text := ChangeJson(At(cs, i));
      texts := AddText(texts, text, cs, ChangeValue);
    }
    out := ListText(texts, cs, ChangeValue);
  }

  method PushStatus(s: Status) returns (out: string, ghost fs: seq<Field>)
    ensures fs == StatusFields(s) && out == OpenObject(fs)
  {
    out, fs := "{", [];
    var staged := ChangeList(s.staged);
    out, fs := PushField(out, fs, true, "staged", staged, Arr(Values(s.staged, ChangeValue)));
    var unstaged := ChangeList(s.unstaged);
    out, fs := PushField(out, fs, false, "unstaged", unstaged, Arr(Values(s.unstaged, ChangeValue)));
    out, fs := PushStrings(out, fs, false, "untracked", s.untracked);
    out, fs := PushStrings(out, fs, false, "conflicts", s.conflicts);
  }

  /** `status_to_json`. */
  method StatusToJson(s: Status) returns (out: string)
    ensures out == Render(Obj(StatusFields(s)))
  {
    ghost var fs;
    out, fs := PushStatus(s);
    out := CloseObject(out, fs);
  }

  // ---- reading back ------------------------------------------------------------------------------

  function ChangeFrom(j: Json): (r: Option<Change>) {
    if !j.Obj? || !HasKeys(j.fields, ["path", "kind"]) then None
    else
      var path, kind := AsString(j.fields[0].value), KindFrom(j.fields[1].value);
      if path.Some? && kind.Some? then Some(Change(path.value, kind.value)) else None
  }

  function StatusFrom(j: Json): (r: Option<Status>) {
    if !j.Obj? || !HasKeys(j.fields, ["staged", "unstaged", "untracked", "conflicts"]) then None
    else
      var a, b, c, d := j.fields[0].value, j.fields[1].value, j.fields[2].value, j.fields[3].value;
      if !a.Arr? || !b.Arr? || !c.Arr? || !d.Arr? then None
      else
        var staged, unstaged := All(a.items, ChangeFrom), All(b.items, ChangeFrom);
        var untracked, conflicts := All(c.items, AsString), All(d.items, AsString);
        if staged.Some? && unstaged.Some? && untracked.Some? && conflicts.Some?
        then Some(Status(staged.value, unstaged.value, untracked.value, conflicts.value)) else None
  }

  function ReadStatus(text: string): (r: Option<Status>) {
    match ReadValue(text)
    case Err => None
    case Ok((j, rest)) => if rest == "" then StatusFrom(j) else None
  }

  lemma {:induction false} ChangeBack(c: Change)
    ensures ChangeFrom(ChangeValue(c)) == Some(c)
  {
    assert |"added"| == 5 && |"modified"| == 8 && |"deleted"| == 7;
  }

  lemma {:induction false} ChangesBack(cs: seq<Change>)
    ensures All(Values(cs, ChangeValue), ChangeFrom) == Some(cs)
  {
    forall c: Change
      ensures ChangeFrom(ChangeValue(c)) == Some(c)
    {
      ChangeBack(c);
    }
    AllBack(cs, ChangeValue, ChangeFrom);
  }

  /** The printed status, read by the generic reader, is the status. */
  lemma {:induction false} StatusReadsBack(s: Status)
    ensures ReadStatus(Render(Obj(StatusFields(s)))) == Some(s)
  {
    var j := Obj(StatusFields(s));
    ReadRender(j, "");
    assert Render(j) + "" == Render(j);
    ChangesBack(s.staged);
    ChangesBack(s.unstaged);
    StringsBack(s.untracked);
    StringsBack(s.conflicts);
  }
}

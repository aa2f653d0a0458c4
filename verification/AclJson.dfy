/**
 The printed ACL list (`acl_list_json_inner` and the printers under it). `AclListReadsBack` applies the
 generic JSON reader to the printed text and recovers every grant, field by field and in order, for
 arbitrary strings and scope prefixes; subjects and ids come back through the binding's own parsers.
 */
module AclJson {
  import opened Prelude
  import opened Json
  import opened JsonPrinters
  import Hex

  datatype Effect = Allow | Deny
  datatype Subject = Everyone | Principal(id: Hex.Id) | Role(id: Hex.Id)
  datatype Right = Read | Write | Advance | Merge | Execute | Admin
  datatype ScopeKind = RefScope | Collection | Path | Key | Table | Exec
  datatype Scope = All | Prefix(kind: ScopeKind, prefix: seq<Hex.Byte>)
  datatype Predicate = Predicate(language: string, expression: string)

  /** `rights` is the ordered set, listed in its iteration order; `domain` is carried by its name. */
  datatype Grant = Grant(
    subject: Subject,
    workspace: Option<Hex.Id>,
    domain: Option<string>,
    refGlob: Option<string>,
    scopes: seq<Scope>,
    rights: seq<Right>,
    effect: Effect,
    predicate_: Option<Predicate>)

  // ---- names of the enumerations -----------------------------------------------------------------

  function EffectText(e: Effect): (s: string) {
    match e case Allow => "allow" case Deny => "deny"
  }

  function ParseEffect(s: string): (r: Option<Effect>) {
    if s == "allow" then Some(Allow) else if s == "deny" then Some(Deny) else None
  }

  function RightText(r: Right): (s: string) {
    match r
    case Read => "read"
    case Write => "write"
    case Advance => "advance"
    case Merge => "merge"
    case Execute => "execute"
    case Admin => "admin"
  }

  function ParseRight(s: string): (r: Option<Right>) {
    if s == "read" then Some(Read)
    else if s == "write" then Some(Write)
    else if s == "advance" then Some(Advance)
    else if s == "merge" then Some(Merge)
    else if s == "execute" then Some(Execute)
    else if s == "admin" then Some(Admin)
    else None
  }

  function ScopeKindText(k: ScopeKind): (s: string) {
    match k
    case RefScope => "ref"
    case Collection => "collection"
    case Path => "path"
    case Key => "key"
    case Table => "table"
    case Exec => "exec"
  }

  function ParseScopeKind(s: string): (r: Option<ScopeKind>) {
    if s == "ref" then Some(RefScope)
    else if s == "collection" then Some(Collection)
    else if s == "path" then Some(Path)
    else if s == "key" then Some(Key)
    else if s == "table" then Some(Table)
    else if s == "exec" then Some(Exec)
    else None
  }

  // ---- subjects ----------------------------------------------------------------------------------

  function SubjectText(s: Subject): (t: string) {
    match s
    case Everyone => "*"
    case Principal(id) => Hex.IdText(id)
    case Role(id) => "role:" + Hex.IdText(id)
  }

  function SubjectKindText(s: Subject): (t: string) {
    match s case Everyone => "everyone" case Principal(_) => "principal" case Role(_) => "role"
  }

  /** `parse_acl_subject`. */
  function ParseSubject(t: string): (r: Result<Subject>) {
    if t == "*" || t == "everyone" then Ok(Everyone)
    else if |t| >= 5 && t[..5] == "role:" then
      match Hex.ParseId(t[5..]) case Err => Err case Ok(id) => Ok(Role(id))
    else
      match Hex.ParseId(t) case Err => Err case Ok(id) => Ok(Principal(id))
  }

  // ---- values ------------------------------------------------------------------------------------

  function ScopeFields(s: Scope): (fs: seq<Field>) {
    match s
    case All => [Field("kind", Str("all"))]
    case Prefix(kind, prefix) =>
      [Field("kind", Str(ScopeKindText(kind))), Field("prefix_hex", Str(Hex.Encode(prefix)))]
  }

  function ScopeValue(s: Scope): (j: Json) {
    Obj(ScopeFields(s))
  }

  function PredicateFields(p: Predicate): (fs: seq<Field>) {
    [Field("language", Str(p.language)), Field("expression", Str(p.expression))]
  }

  function PredicateValue(p: Option<Predicate>): (j: Json) {
    if p.None? then Null else Obj(PredicateFields(p.value))
  }

  function RightTexts(rs: seq<Right>): (ss: seq<string>) {
    seq(|rs|, i requires 0 <= i < |rs| => RightText(rs[i]))
  }

  function GrantValue(g: Grant): (j: Json) {
    Obj(WhoFields(g) + WhereFields(g) + WhatFields(g))
  }

  // ---- printers ----------------------------------------------------------------------------------

  method PushScope(s: Scope) returns (out: string, ghost fs: seq<Field>)
    ensures fs == ScopeFields(s) && out == OpenObject(fs)
  {
    out, fs := "{", [];
    if s.All? {
      out, fs := PushString(out, fs, true, "kind", "all");
    } else {
      out, fs := PushString(out, fs, true, "kind", ScopeKindText(s.kind));
      var hex := Hex.HexBytes(s.prefix);
      out, fs := PushString(out, fs, false, "prefix_hex", hex);
    }
  }

  /** `acl_scope_json`. */
  method ScopeJson(s: Scope) returns (out: string)
    ensures out == Render(ScopeValue(s))
  {
    ghost var fs;
    out, fs := PushScope(s);
    out := CloseObject(out, fs);
  }

  method PushPredicate(p: Predicate) returns (out: string, ghost fs: seq<Field>)
    ensures fs == PredicateFields(p) && out == OpenObject(fs)
  {
    out, fs := "{", [];
    out, fs := PushString(out, fs, true, "language", p.language);
    out, fs := PushString(out, fs, false, "expression", p.expression);
  }

  method PredicateJson(p: Option<Predicate>) returns (out: string)
    ensures out == Render(PredicateValue(p))
  {
    if p.None? { return "null"; }
    ghost var fs;
    out, fs := PushPredicate(p.value);
    out := CloseObject(out, fs);
  }

  function WhoFields(g: Grant): (fs: seq<Field>) {
    [Field("effect", Str(EffectText(g.effect))),
     Field("subject", Str(SubjectText(g.subject))),
     Field("subject_kind", Str(SubjectKindText(g.subject)))]
  }

  function WhereFields(g: Grant): (fs: seq<Field>) {
    [Field("workspace", OptionValue(IdOption(g.workspace))),
     Field("domain", OptionValue(g.domain)),
     Field("ref_glob", OptionValue(g.refGlob))]
  }

  function WhatFields(g: Grant): (fs: seq<Field>) {
    [Field("rights", Arr(Strings(RightTexts(g.rights)))),
     Field("scopes", Arr(Values(g.scopes, ScopeValue))),
     Field("predicate", PredicateValue(g.predicate_))]
  }

  /** Effect, subject and subject kind. */
  method PushWho(g: Grant) returns (out: string, ghost fs: seq<Field>)
    ensures fs == WhoFields(g) && out == OpenObject(fs)
  {
    out, fs := "{", [];
    out, fs := PushString(out, fs, true, "effect", EffectText(g.effect));
    out, fs := PushString(out, fs, false, "subject", SubjectText(g.subject));
    out, fs := PushString(out, fs, false, "subject_kind", SubjectKindText(g.subject));
  }

  /** Workspace, domain and ref glob, each possibly `null`. */
  method PushWhere(g: Grant, out0: string, ghost fs0: seq<Field>) returns (out: string, ghost fs: seq<Field>)
    requires out0 == OpenObject(fs0) && fs0 != []
    ensures fs == fs0 + WhereFields(g) && out == OpenObject(fs)
  {
    out, fs := PushOption(out0, fs0, false, "workspace", IdOption(g.workspace));
    out, fs := PushOption(out, fs, false, "domain", g.domain);
    out, fs := PushOption(out, fs, false, "ref_glob", g.refGlob);
  }

  method PushScopes(g: Grant, out0: string, ghost fs0: seq<Field>) returns (out: string, ghost fs: seq<Field>)
    requires out0 == OpenObject(fs0) && fs0 != []
    ensures fs == fs0 + [Field("scopes", Arr(Values(g.scopes, ScopeValue)))] && out == OpenObject(fs)
  {
    var texts: seq<string> := [];
    for i := 0 to |g.scopes|
      invariant |texts| == i && Shows(texts, g.scopes, ScopeValue)
    {
      var text := ScopeJson(At(g.scopes, i));
      texts := AddText(texts, text, g.scopes, ScopeValue);
    }
    out, fs := PushList(out0, fs0, false, "scopes", texts, g.scopes, ScopeValue);
  }

  method PushCondition(g: Grant, out0: string, ghost fs0: seq<Field>) returns (out: string, ghost fs: seq<Field>)
    requires out0 == OpenObject(fs0) && fs0 != []
    ensures fs == fs0 + [Field("predicate", PredicateValue(g.predicate_))] && out == OpenObject(fs)
  {
    var text := PredicateJson(g.predicate_);
    out, fs := PushField(out0, fs0, false, "predicate", text, PredicateValue(g.predicate_));
  }

  /** Rights, scopes and predicate. */
  method PushWhat(g: Grant, out0: string, ghost fs0: seq<Field>) returns (out: string, ghost fs: seq<Field>)
    requires out0 == OpenObject(fs0) && fs0 != []
    ensures fs == fs0 + WhatFields(g) && out == OpenObject(fs)
  {
    out, fs := PushStrings(out0, fs0, false, "rights", RightTexts(g.rights));
    out, fs := PushScopes(g, out, fs);
    out, fs := PushCondition(g, out, fs);
  }

  /** `acl_grant_json`. */
  method GrantJson(g: Grant) returns (out: string)
    ensures out == Render(GrantValue(g))
  {
    ghost var fs;
    out, fs := PushWho(g);
    out, fs := PushWhere(g, out, fs);
    out, fs := PushWhat(g, out, fs);
    out := CloseObject(out, fs);
  }

  /** `acl_list_json_inner`. */
  method AclListJson(gs: seq<Grant>) returns (out: string)
    ensures out == Render(Arr(Values(gs, GrantValue)))
  {
    var texts: seq<string> := [];
    for i := 0 to |gs|
      invariant |texts| == i && Shows(texts, gs, GrantValue)
    {
      var text := GrantJson(At(gs, i));
      texts := AddText(texts, text, gs, GrantValue);
    }
    out := ListText(texts, gs, GrantValue);
  }

  // ---- reading back ------------------------------------------------------------------------------

  function ScopeFrom(j: Json): (r: Option<Scope>) {
    if !j.Obj? then None
    else
      var fs := j.fields;
      if |fs| == 1 && fs[0] == Field("kind", Str("all")) then Some(Scope.All)
      else if |fs| == 2 && fs[0].key == "kind" && fs[0].value.Str? && fs[1].key == "prefix_hex" && fs[1].value.Str? then
        var kind, prefix := ParseScopeKind(fs[0].value.s), Hex.Decode(fs[1].value.s);
        if kind.Some? && prefix.Ok? then Some(Prefix(kind.value, prefix.value)) else None
      else None
  }

  function PredicateFrom(j: Json): (r: Option<Option<Predicate>>) {
    if j.Null? then Some(None)
    else if j.Obj? && |j.fields| == 2 && j.fields[0].key == "language" && j.fields[0].value.Str?
            && j.fields[1].key == "expression" && j.fields[1].value.Str?
    then Some(Some(Predicate(j.fields[0].value.s, j.fields[1].value.s)))
    else None
  }

  function RightFrom(j: Json): (r: Option<Right>) {
    if j.Str? then ParseRight(j.s) else None
  }

  const GRANT_KEYS := ["effect", "subject", "subject_kind", "workspace", "domain", "ref_glob", "rights", "scopes", "predicate"]

  /** Whether a printed subject kind names the kind of a subject. */
  predicate IsKindOf(kind: string, s: Subject) {
    if kind == "everyone" then s.Everyone?
    else if kind == "principal" then s.Principal?
    else if kind == "role" then s.Role?
    else false
  }

  /** Whether a grant applies to whom: effect and subject, the latter read by `parse_acl_subject`. */
  function WhoFrom(effect: Json, subject: Json, kind: Json): (r: Option<(Effect, Subject)>) {
    if !effect.Str? || !subject.Str? || !kind.Str? then None
    else
      var e, s := ParseEffect(effect.s), ParseSubject(subject.s);
      if e.Some? && s.Ok? && IsKindOf(kind.s, s.value) then Some((e.value, s.value)) else None
  }

  function WhereFrom(workspace: Json, domain: Json, refGlob: Json): (r: Option<(Option<Hex.Id>, Option<string>, Option<string>)>) {
    var w, d, g := IdOptionFrom(workspace), StringOptionFrom(domain), StringOptionFrom(refGlob);
    if w.Some? && d.Some? && g.Some? then Some((w.value, d.value, g.value)) else None
  }

  function WhatFrom(rights: Json, scopes: Json, pred: Json): (r: Option<(seq<Right>, seq<Scope>, Option<Predicate>)>) {
    if !rights.Arr? || !scopes.Arr? then None
    else
      var rs, ss, p := JsonPrinters.All(rights.items, RightFrom), JsonPrinters.All(scopes.items, ScopeFrom), PredicateFrom(pred);
      if rs.Some? && ss.Some? && p.Some? then Some((rs.value, ss.value, p.value)) else None
  }

  /** A grant from its nine fields. */
  function GrantFrom(j: Json): (r: Option<Grant>) {
    if !j.Obj? || !HasKeys(j.fields, GRANT_KEYS) then None
    else
      var fs := j.fields;
      var who := WhoFrom(fs[0].value, fs[1].value, fs[2].value);
      var place := WhereFrom(fs[3].value, fs[4].value, fs[5].value);
      var what := WhatFrom(fs[6].value, fs[7].value, fs[8].value);
      if who.Some? && place.Some? && what.Some?
      then Some(Grant(who.value.1, place.value.0, place.value.1, place.value.2, what.value.1, what.value.0,
                      who.value.0, what.value.2))
      else None
  }

  /** The generic reader followed by the field decoders. */
  function ReadAclList(text: string): (r: Option<seq<Grant>>) {
    match ReadValue(text)
    case Err => None
    case Ok((j, rest)) => if j.Arr? && rest == "" then JsonPrinters.All(j.items, GrantFrom) else None
  }

  // ---- inverses ----------------------------------------------------------------------------------

  lemma {:induction false} IdHead(id: Hex.Id)
    ensures |Hex.IdText(id)| >= 8 && Hex.NibbleValue(Hex.IdText(id)[0]).Some?
  {
    Hex.EncodeShape(id[0..4]);
  }

  lemma {:induction false} SubjectBack(s: Subject)
    ensures ParseSubject(SubjectText(s)) == Ok(s) && ParseSubject("everyone") == Ok(Everyone)
  {
    match s
    case Everyone =>
    case Principal(id) =>
      IdHead(id);
      Hex.ParseIdText(id);
      var t := Hex.IdText(id);
      assert t[0] != '*' && t[0] != 'r';
      if t == "everyone" || t[..5] == "role:" {
        EveryoneIsNoId(id);
      }
    case Role(id) =>
      Hex.ParseIdText(id);
      var t := "role:" + Hex.IdText(id);
      assert t[..5] == "role:" && t[5..] == Hex.IdText(id);
  }

  /** The printed kind names the subject's own kind and no other. */
  lemma {:induction false} SubjectKindBack(s: Subject)
    ensures IsKindOf(SubjectKindText(s), s)
    ensures forall o: Subject :: IsKindOf(SubjectKindText(s), o) <==> o.Everyone? == s.Everyone? && o.Role? == s.Role?
  {
    assert "everyone"[0] == 'e' && "principal"[0] == 'p' && "role"[0] == 'r';
  }

  /** "everyone" starts with a hexadecimal digit but is not the text of an id. */
  lemma {:induction false} EveryoneIsNoId(id: Hex.Id)
    ensures Hex.IdText(id) != "everyone" && Hex.IdText(id)[..5] != "role:"
  {
    Hex.EncodeShape(id[0..4]);
    IdHead(id);
    var t := Hex.IdText(id);
    assert t[1] == Hex.Encode(id[0..4])[1];
    assert Hex.NibbleValue(t[1]).Some?;
    assert t[..5][0] == t[0];
  }

  lemma {:induction false} ScopeKindBack(k: ScopeKind)
    ensures ParseScopeKind(ScopeKindText(k)) == Some(k)
  {
    assert |"ref"| == 3 && |"collection"| == 10 && |"path"| == 4 && |"key"| == 3 && |"table"| == 5 && |"exec"| == 4;
    assert "ref"[0] == 'r' && "path"[0] == 'p' && "key"[0] == 'k' && "exec"[0] == 'e';
  }

  lemma {:induction false} ScopeBack(s: Scope)
    ensures ScopeFrom(ScopeValue(s)) == Some(s)
  {
    if s.Prefix? {
      ScopeKindBack(s.kind);
      Hex.DecodeEncode(s.prefix);
    }
  }

  lemma {:induction false} RightsBack(rs: seq<Right>)
    ensures JsonPrinters.All(Strings(RightTexts(rs)), RightFrom) == Some(rs)
  {
    if rs != [] {
      RightsBack(rs[1..]);
      assert Strings(RightTexts(rs))[1..] == Strings(RightTexts(rs[1..]));
      assert RightFrom(Str(RightText(rs[0]))) == Some(rs[0]);
      assert rs == [rs[0]] + rs[1..];
    }
  }

  lemma {:induction false} ScopesBack(ss: seq<Scope>)
    ensures JsonPrinters.All(Values(ss, ScopeValue), ScopeFrom) == Some(ss)
  {
    forall s: Scope
      ensures ScopeFrom(ScopeValue(s)) == Some(s)
    {
      ScopeBack(s);
    }
    AllBack(ss, ScopeValue, ScopeFrom);
  }

  lemma {:induction false} GrantShape(g: Grant)
    ensures var fs := GrantValue(g).fields;
            && HasKeys(fs, GRANT_KEYS)
            && fs[0].value == Str(EffectText(g.effect)) && fs[1].value == Str(SubjectText(g.subject))
            && fs[2].value == Str(SubjectKindText(g.subject)) && fs[3].value == OptionValue(IdOption(g.workspace))
            && fs[4].value == OptionValue(g.domain) && fs[5].value == OptionValue(g.refGlob)
            && fs[6].value == Arr(Strings(RightTexts(g.rights))) && fs[7].value == Arr(Values(g.scopes, ScopeValue))
            && fs[8].value == PredicateValue(g.predicate_)
  {
  }

  lemma {:induction false} WhoBack(g: Grant)
    ensures WhoFrom(Str(EffectText(g.effect)), Str(SubjectText(g.subject)), Str(SubjectKindText(g.subject))) ==
            Some((g.effect, g.subject))
  {
    SubjectBack(g.subject);
    SubjectKindBack(g.subject);
    assert ParseEffect(EffectText(g.effect)) == Some(g.effect);
  }

  lemma {:induction false} WhereBack(g: Grant)
    ensures WhereFrom(OptionValue(IdOption(g.workspace)), OptionValue(g.domain), OptionValue(g.refGlob)) ==
            Some((g.workspace, g.domain, g.refGlob))
  {
    if g.workspace.Some? { Hex.ParseIdText(g.workspace.value); }
  }

  lemma {:induction false} WhatBack(g: Grant)
    ensures WhatFrom(Arr(Strings(RightTexts(g.rights))), Arr(Values(g.scopes, ScopeValue)), PredicateValue(g.predicate_)) ==
            Some((g.rights, g.scopes, g.predicate_))
  {
    RightsBack(g.rights);
    ScopesBack(g.scopes);
    assert PredicateFrom(PredicateValue(g.predicate_)) == Some(g.predicate_);
  }

  lemma {:induction false} GrantBack(g: Grant)
    ensures GrantFrom(GrantValue(g)) == Some(g)
  {
    GrantShape(g);
    WhoBack(g);
    WhereBack(g);
    WhatBack(g);
  }

  /** The printed list, read by the generic reader, is the list. */
  lemma {:induction false} AclListReadsBack(gs: seq<Grant>)
    ensures ReadAclList(Render(Arr(Values(gs, GrantValue)))) == Some(gs)
  {
    var text := Render(Arr(Values(gs, GrantValue)));
    ReadRender(Arr(Values(gs, GrantValue)), "");
    assert text + "" == text;
    forall g: Grant
      ensures GrantFrom(GrantValue(g)) == Some(g)
    {
      GrantBack(g);
    }
    AllBack(gs, GrantValue, GrantFrom);
  }

  /** Hence the printer is injective. */
  lemma {:induction false} AclListInjective(a: seq<Grant>, b: seq<Grant>)
    requires Render(Arr(Values(a, GrantValue))) == Render(Arr(Values(b, GrantValue)))
    ensures a == b
  {
    AclListReadsBack(a);
    AclListReadsBack(b);
  }
}

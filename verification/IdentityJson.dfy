/**
 The printed identity store (`identity_list_json_inner` and the record printers under it).
 `IdentityReadsBack` applies the generic JSON reader to the printed text and recovers the mode, the root and
 every principal, role, credential and key, in order and with arbitrary strings; ids and key material come
 back through the binding's own parsers.
 */
module IdentityJson {
  import opened Prelude
  import opened Json
  import opened JsonPrinters
  import Hex

  datatype PrincipalKind = Root | User | Service
  datatype ExternalKind = PublicKeyKind | MtlsCertificate | Passkey | OidcSubject | SamlSubject

  datatype Role = Role(id: Hex.Id, name: string, enabled: bool)
  datatype Principal = Principal(
    id: Hex.Id, handle: string, name: string, kind: PrincipalKind,
    enabled: bool, hasPassphrase: bool, roles: seq<Hex.Id>)
  datatype AppCredential = AppCredential(id: Hex.Id, principal: Hex.Id, label_: string, enabled: bool)
  datatype ExternalCredential = ExternalCredential(
    id: Hex.Id, principal: Hex.Id, kind: ExternalKind, label_: string,
    issuer: string, subject: string, materialDigest: Option<string>, enabled: bool)
  datatype PublicKey = PublicKey(
    id: Hex.Id, principal: Hex.Id, label_: string, algorithm: string,
    key: seq<Hex.Byte>, enabled: bool)

  /** The store as its iterators list it. */
  datatype Identity = Identity(
    authenticatedMode: bool, root: Option<Hex.Id>, principals: seq<Principal>, roles: seq<Role>,
    appCredentials: seq<AppCredential>, externalCredentials: seq<ExternalCredential>, publicKeys: seq<PublicKey>)

  // ---- kinds -------------------------------------------------------------------------------------

  function PrincipalKindText(k: PrincipalKind): (s: string) {
    match k case Root => "root" case User => "user" case Service => "service"
  }

  /** `parse_principal_kind`. */
  function PrincipalKindFrom(j: Json): (r: Option<PrincipalKind>) {
    if j == Str("root") then Some(Root)
    else if j == Str("user") then Some(User)
    else if j == Str("service") then Some(Service)
    else None
  }

  function ExternalKindText(k: ExternalKind): (s: string) {
    match k
    case PublicKeyKind => "public_key"
    case MtlsCertificate => "mtls_certificate"
    case Passkey => "passkey"
    case OidcSubject => "oidc_subject"
    case SamlSubject => "saml_subject"
  }

  /** `ExternalCredentialKind::parse` on its canonical spellings. */
  function ExternalKindFrom(j: Json): (r: Option<ExternalKind>) {
    if j == Str("public_key") then Some(PublicKeyKind)
    else if j == Str("mtls_certificate") then Some(MtlsCertificate)
    else if j == Str("passkey") then Some(Passkey)
    else if j == Str("oidc_subject") then Some(OidcSubject)
    else if j == Str("saml_subject") then Some(SamlSubject)
    else None
  }

  function BytesFrom(j: Json): (r: Option<seq<Hex.Byte>>) {
    if j.Str? && Hex.Decode(j.s).Ok? then Some(Hex.Decode(j.s).value) else None
  }

  function IdsFrom(j: Json): (r: Option<seq<Hex.Id>>) {
    if j.Arr? then All(j.items, AsId) else None
  }

  lemma {:induction false} PrincipalKindBack(k: PrincipalKind)
    ensures PrincipalKindFrom(Str(PrincipalKindText(k))) == Some(k)
  {
    assert |"root"| == 4 && |"user"| == 4 && "root"[0] == 'r' && "user"[0] == 'u' && |"service"| == 7;
  }

  lemma {:induction false} ExternalKindBack(k: ExternalKind)
    ensures ExternalKindFrom(Str(ExternalKindText(k))) == Some(k)
  {
    assert |"public_key"| == 10 && |"mtls_certificate"| == 16 && |"passkey"| == 7;
    assert |"oidc_subject"| == 12 && |"saml_subject"| == 12 && "oidc_subject"[0] == 'o' && "saml_subject"[0] == 's';
  }

  // ---- `role_json` -------------------------------------------------------------------------------

  function RoleFields(r: Role): (fs: seq<Field>) {
    [Field("id", Str(Hex.IdText(r.id))),
     Field("name", Str(r.name)),
     Field("enabled", Bool(r.enabled))]
  }

  function RoleValue(r: Role): (j: Json) {
    Obj(RoleFields(r))
  }

  method PushRoleFields(r: Role) returns (out: string, ghost fs: seq<Field>)
    ensures fs == RoleFields(r) && out == OpenObject(fs)
  {
    out, fs := "{", [];
    out, fs := PushString(out, fs, true, "id", Hex.IdText(r.id));
    out, fs := PushString(out, fs, false, "name", r.name);
    out, fs := PushBool(out, fs, false, "enabled", r.enabled);
  }

  method RoleJson(r: Role) returns (out: string)
    ensures out == Render(RoleValue(r))
  {
    ghost var fs;
    out, fs := PushRoleFields(r);
    out := CloseObject(out, fs);
  }

  const ROLE_KEYS := ["id", "name", "enabled"]

  function RoleFrom(j: Json): (r: Option<Role>) {
    if !j.Obj? || !HasKeys(j.fields, ROLE_KEYS) then None
    else
      var fs := j.fields;
      var id := AsId(fs[0].value);
      var name := AsString(fs[1].value);
      var enabled := AsBool(fs[2].value);
      if id.Some? && name.Some? && enabled.Some?
      then Some(Role(id.value, name.value, enabled.value))
      else None
  }

  lemma {:induction false} RoleBack(r: Role)
    ensures RoleFrom(RoleValue(r)) == Some(r)
  {
    Hex.ParseIdText(r.id);
  }

  method RoleTexts(xs: seq<Role>) returns (texts: seq<string>)
    ensures |texts| == |xs| && Shows(texts, xs, RoleValue)
  {
    texts := [];
    for i := 0 to |xs|
      invariant |texts| == i && Shows(texts, xs, RoleValue)
    {
      var text := RoleJson(At(xs, i));
      texts := AddText(texts, text, xs, RoleValue);
    }
  }

  // ---- `principal_json` --------------------------------------------------------------------------

  function PrincipalHead(p: Principal): (fs: seq<Field>) {
    [Field("id", Str(Hex.IdText(p.id))),
     Field("handle", Str(p.handle)),
     Field("name", Str(p.name)),
     Field("kind", Str(PrincipalKindText(p.kind)))]
  }

  function PrincipalTail(p: Principal): (fs: seq<Field>) {
    [Field("enabled", Bool(p.enabled)),
     Field("has_passphrase", Bool(p.hasPassphrase)),
     Field("roles", Arr(Strings(IdTexts(p.roles))))]
  }

  function PrincipalValue(p: Principal): (j: Json) {
    Obj(PrincipalHead(p) + PrincipalTail(p))
  }

  method PushPrincipalHead(p: Principal) returns (out: string, ghost fs: seq<Field>)
    ensures fs == PrincipalHead(p) && out == OpenObject(fs)
  {
    out, fs := "{", [];
    out, fs := PushString(out, fs, true, "id", Hex.IdText(p.id));
    out, fs := PushString(out, fs, false, "handle", p.handle);
    out, fs := PushString(out, fs, false, "name", p.name);
    out, fs := PushString(out, fs, false, "kind", PrincipalKindText(p.kind));
  }

  method PushPrincipalTail(p: Principal, out0: string, ghost fs0: seq<Field>)
    returns (out: string, ghost fs: seq<Field>)
    requires out0 == OpenObject(fs0) && fs0 != []
    ensures fs == fs0 + PrincipalTail(p) && out == OpenObject(fs)
  {
    out, fs := PushBool(out0, fs0, false, "enabled", p.enabled);
    out, fs := PushBool(out, fs, false, "has_passphrase", p.hasPassphrase);
    out, fs := PushStrings(out, fs, false, "roles", IdTexts(p.roles));
  }

  method PrincipalJson(p: Principal) returns (out: string)
    ensures out == Render(PrincipalValue(p))
  {
    ghost var fs;
    out, fs := PushPrincipalHead(p);
    out, fs := PushPrincipalTail(p, out, fs);
    out := CloseObject(out, fs);
  }

  const PRINCIPAL_KEYS := ["id", "handle", "name", "kind", "enabled", "has_passphrase", "roles"]

  function PrincipalFrom(j: Json): (r: Option<Principal>) {
    if !j.Obj? || !HasKeys(j.fields, PRINCIPAL_KEYS) then None
    else
      var fs := j.fields;
      var id := AsId(fs[0].value);
      var handle := AsString(fs[1].value);
      var name := AsString(fs[2].value);
      var kind := PrincipalKindFrom(fs[3].value);
      var enabled := AsBool(fs[4].value);
      var hasPassphrase := AsBool(fs[5].value);
      var roles := IdsFrom(fs[6].value);
      if id.Some? && handle.Some? && name.Some? && kind.Some? && enabled.Some? && hasPassphrase.Some? && roles.Some?
      then Some(Principal(id.value, handle.value, name.value, kind.value, enabled.value, hasPassphrase.value, roles.value))
      else None
  }

  lemma {:induction false} PrincipalShape(p: Principal)
    ensures var fs := PrincipalValue(p).fields;
            && HasKeys(fs, PRINCIPAL_KEYS)
            && fs[0].value == Str(Hex.IdText(p.id))
            && fs[1].value == Str(p.handle)
            && fs[2].value == Str(p.name)
            && fs[3].value == Str(PrincipalKindText(p.kind))
            && fs[4].value == Bool(p.enabled)
            && fs[5].value == Bool(p.hasPassphrase)
            && fs[6].value == Arr(Strings(IdTexts(p.roles)))
  {
  }

  lemma {:induction false} PrincipalBack(p: Principal)
    ensures PrincipalFrom(PrincipalValue(p)) == Some(p)
  {
    PrincipalShape(p);
    Hex.ParseIdText(p.id);
    PrincipalKindBack(p.kind);
    IdsBack(p.roles);
  }

  method PrincipalTexts(xs: seq<Principal>) returns (texts: seq<string>)
    ensures |texts| == |xs| && Shows(texts, xs, PrincipalValue)
  {
    texts := [];
    for i := 0 to |xs|
      invariant |texts| == i && Shows(texts, xs, PrincipalValue)
    {
      var text := PrincipalJson(At(xs, i));
      texts := AddText(texts, text, xs, PrincipalValue);
    }
  }

  // ---- `app_credential_json` ---------------------------------------------------------------------

  function AppCredentialHead(a: AppCredential): (fs: seq<Field>) {
    [Field("id", Str(Hex.IdText(a.id))),
     Field("principal", Str(Hex.IdText(a.principal)))]
  }

  function AppCredentialTail(a: AppCredential): (fs: seq<Field>) {
    [Field("label", Str(a.label_)),
     Field("enabled", Bool(a.enabled))]
  }

  function AppCredentialValue(a: AppCredential): (j: Json) {
    Obj(AppCredentialHead(a) + AppCredentialTail(a))
  }

  method PushAppCredentialHead(a: AppCredential) returns (out: string, ghost fs: seq<Field>)
    ensures fs == AppCredentialHead(a) && out == OpenObject(fs)
  {
    out, fs := "{", [];
    out, fs := PushString(out, fs, true, "id", Hex.IdText(a.id));
    out, fs := PushString(out, fs, false, "principal", Hex.IdText(a.principal));
  }

  method PushAppCredentialTail(a: AppCredential, out0: string, ghost fs0: seq<Field>)
    returns (out: string, ghost fs: seq<Field>)
    requires out0 == OpenObject(fs0) && fs0 != []
    ensures fs == fs0 + AppCredentialTail(a) && out == OpenObject(fs)
  {
    out, fs := PushString(out0, fs0, false, "label", a.label_);
    out, fs := PushBool(out, fs, false, "enabled", a.enabled);
  }

  method AppCredentialJson(a: AppCredential) returns (out: string)
    ensures out == Render(AppCredentialValue(a))
  {
    ghost var fs;
    out, fs := PushAppCredentialHead(a);
    out, fs := PushAppCredentialTail(a, out, fs);
    out := CloseObject(out, fs);
  }

  const APP_CREDENTIAL_KEYS := ["id", "principal", "label", "enabled"]

  function AppCredentialFrom(j: Json): (r: Option<AppCredential>) {
    if !j.Obj? || !HasKeys(j.fields, APP_CREDENTIAL_KEYS) then None
    else
      var fs := j.fields;
      var id := AsId(fs[0].value);
      var principal := AsId(fs[1].value);
      var label_ := AsString(fs[2].value);
      var enabled := AsBool(fs[3].value);
      if id.Some? && principal.Some? && label_.Some? && enabled.Some?
      then Some(AppCredential(id.value, principal.value, label_.value, enabled.value))
      else None
  }

  lemma {:induction false} AppCredentialShape(a: AppCredential)
    ensures var fs := AppCredentialValue(a).fields;
            && HasKeys(fs, APP_CREDENTIAL_KEYS)
            && fs[0].value == Str(Hex.IdText(a.id))
            && fs[1].value == Str(Hex.IdText(a.principal))
            && fs[2].value == Str(a.label_)
            && fs[3].value == Bool(a.enabled)
  {
  }

  lemma {:induction false} AppCredentialBack(a: AppCredential)
    ensures AppCredentialFrom(AppCredentialValue(a)) == Some(a)
  {
    AppCredentialShape(a);
    Hex.ParseIdText(a.id);
    Hex.ParseIdText(a.principal);
  }

  method AppCredentialTexts(xs: seq<AppCredential>) returns (texts: seq<string>)
    ensures |texts| == |xs| && Shows(texts, xs, AppCredentialValue)
  {
    texts := [];
    for i := 0 to |xs|
      invariant |texts| == i && Shows(texts, xs, AppCredentialValue)
    {
      var text := AppCredentialJson(At(xs, i));
      texts := AddText(texts, text, xs, AppCredentialValue);
    }
  }

  // ---- `external_credential_json` ----------------------------------------------------------------

  function ExternalCredentialHead(e: ExternalCredential): (fs: seq<Field>) {
    [Field("id", Str(Hex.IdText(e.id))),
     Field("principal", Str(Hex.IdText(e.principal))),
     Field("kind", Str(ExternalKindText(e.kind)))]
  }

  function ExternalCredentialMiddle(e: ExternalCredential): (fs: seq<Field>) {
    [Field("label", Str(e.label_)),
     Field("issuer", Str(e.issuer)),
     Field("subject", Str(e.subject))]
  }

  function ExternalCredentialTail(e: ExternalCredential): (fs: seq<Field>) {
    [Field("material_digest", OptionValue(e.materialDigest)),
     Field("enabled", Bool(e.enabled))]
  }

  function ExternalCredentialValue(e: ExternalCredential): (j: Json) {
    Obj(ExternalCredentialHead(e) + ExternalCredentialMiddle(e) + ExternalCredentialTail(e))
  }

  method PushExternalCredentialHead(e: ExternalCredential) returns (out: string, ghost fs: seq<Field>)
    ensures fs == ExternalCredentialHead(e) && out == OpenObject(fs)
  {
    out, fs := "{", [];
    out, fs := PushString(out, fs, true, "id", Hex.IdText(e.id));
    out, fs := PushString(out, fs, false, "principal", Hex.IdText(e.principal));
    out, fs := PushString(out, fs, false, "kind", ExternalKindText(e.kind));
  }

  method PushExternalCredentialMiddle(e: ExternalCredential, out0: string, ghost fs0: seq<Field>)
    returns (out: string, ghost fs: seq<Field>)
    requires out0 == OpenObject(fs0) && fs0 != []
    ensures fs == fs0 + ExternalCredentialMiddle(e) && out == OpenObject(fs)
  {
    out, fs := PushString(out0, fs0, false, "label", e.label_);
    out, fs := PushString(out, fs, false, "issuer", e.issuer);
    out, fs := PushString(out, fs, false, "subject", e.subject);
  }

  method PushExternalCredentialTail(e: ExternalCredential, out0: string, ghost fs0: seq<Field>)
    returns (out: string, ghost fs: seq<Field>)
    requires out0 == OpenObject(fs0) && fs0 != []
    ensures fs == fs0 + ExternalCredentialTail(e) && out == OpenObject(fs)
  {
    out, fs := PushOption(out0, fs0, false, "material_digest", e.materialDigest);
    out, fs := PushBool(out, fs, false, "enabled", e.enabled);
  }

  method ExternalCredentialJson(e: ExternalCredential) returns (out: string)
    ensures out == Render(ExternalCredentialValue(e))
  {
    ghost var fs;
    out, fs := PushExternalCredentialHead(e);
    out, fs := PushExternalCredentialMiddle(e, out, fs);
    out, fs := PushExternalCredentialTail(e, out, fs);
    out := CloseObject(out, fs);
  }

  const EXTERNAL_CREDENTIAL_KEYS := ["id", "principal", "kind", "label", "issuer", "subject", "material_digest", "enabled"]

  function ExternalCredentialFrom(j: Json): (r: Option<ExternalCredential>) {
    if !j.Obj? || !HasKeys(j.fields, EXTERNAL_CREDENTIAL_KEYS) then None
    else
      var fs := j.fields;
      var id := AsId(fs[0].value);
      var principal := AsId(fs[1].value);
      var kind := ExternalKindFrom(fs[2].value);
      var label_ := AsString(fs[3].value);
      var issuer := AsString(fs[4].value);
      var subject := AsString(fs[5].value);
      var materialDigest := StringOptionFrom(fs[6].value);
      var enabled := AsBool(fs[7].value);
      if id.Some? && principal.Some? && kind.Some? && label_.Some? && issuer.Some? && subject.Some? && materialDigest.Some? && enabled.Some?
      then Some(ExternalCredential(id.value, principal.value, kind.value, label_.value, issuer.value, subject.value, materialDigest.value, enabled.value))
      else None
  }

  lemma {:induction false} ExternalCredentialNamed(e: ExternalCredential)
    ensures HasKeys(ExternalCredentialValue(e).fields, EXTERNAL_CREDENTIAL_KEYS)
  {
  }

  lemma {:induction false} ExternalCredentialShape(e: ExternalCredential)
    ensures var fs := ExternalCredentialValue(e).fields;
            && |fs| == 8
            && fs[0].value == Str(Hex.IdText(e.id))
            && fs[1].value == Str(Hex.IdText(e.principal))
            && fs[2].value == Str(ExternalKindText(e.kind))
            && fs[3].value == Str(e.label_)
            && fs[4].value == Str(e.issuer)
            && fs[5].value == Str(e.subject)
            && fs[6].value == OptionValue(e.materialDigest)
            && fs[7].value == Bool(e.enabled)
  {
  }

  lemma {:induction false} ExternalCredentialBack(e: ExternalCredential)
    ensures ExternalCredentialFrom(ExternalCredentialValue(e)) == Some(e)
  {
    ExternalCredentialNamed(e);
    ExternalCredentialShape(e);
    Hex.ParseIdText(e.id);
    Hex.ParseIdText(e.principal);
    ExternalKindBack(e.kind);
  }

  method ExternalCredentialTexts(xs: seq<ExternalCredential>) returns (texts: seq<string>)
    ensures |texts| == |xs| && Shows(texts, xs, ExternalCredentialValue)
  {
    texts := [];
    for i := 0 to |xs|
      invariant |texts| == i && Shows(texts, xs, ExternalCredentialValue)
    {
      var text := ExternalCredentialJson(At(xs, i));
      texts := AddText(texts, text, xs, ExternalCredentialValue);
    }
  }

  // ---- `identity_public_key_json` ----------------------------------------------------------------

  function PublicKeyHead(p: PublicKey): (fs: seq<Field>) {
    [Field("id", Str(Hex.IdText(p.id))),
     Field("principal", Str(Hex.IdText(p.principal))),
     Field("label", Str(p.label_))]
  }

  function PublicKeyTail(p: PublicKey): (fs: seq<Field>) {
    [Field("algorithm", Str(p.algorithm)),
     Field("public_key_hex", Str(Hex.Encode(p.key))),
     Field("enabled", Bool(p.enabled))]
  }

  function PublicKeyValue(p: PublicKey): (j: Json) {
    Obj(PublicKeyHead(p) + PublicKeyTail(p))
  }

  method PushPublicKeyHead(p: PublicKey) returns (out: string, ghost fs: seq<Field>)
    ensures fs == PublicKeyHead(p) && out == OpenObject(fs)
  {
    out, fs := "{", [];
    out, fs := PushString(out, fs, true, "id", Hex.IdText(p.id));
    out, fs := PushString(out, fs, false, "principal", Hex.IdText(p.principal));
    out, fs := PushString(out, fs, false, "label", p.label_);
  }

  method PushPublicKeyTail(p: PublicKey, out0: string, ghost fs0: seq<Field>)
    returns (out: string, ghost fs: seq<Field>)
    requires out0 == OpenObject(fs0) && fs0 != []
    ensures fs == fs0 + PublicKeyTail(p) && out == OpenObject(fs)
  {
    out, fs := PushString(out0, fs0, false, "algorithm", p.algorithm);
    var hex := Hex.HexBytes(p.key);
    out, fs := PushString(out, fs, false, "public_key_hex", hex);
    out, fs := PushBool(out, fs, false, "enabled", p.enabled);
  }

  method PublicKeyJson(p: PublicKey) returns (out: string)
    ensures out == Render(PublicKeyValue(p))
  {
    ghost var fs;
    out, fs := PushPublicKeyHead(p);
    out, fs := PushPublicKeyTail(p, out, fs);
    out := CloseObject(out, fs);
  }

  const PUBLIC_KEY_KEYS := ["id", "principal", "label", "algorithm", "public_key_hex", "enabled"]

  function PublicKeyFrom(j: Json): (r: Option<PublicKey>) {
    if !j.Obj? || !HasKeys(j.fields, PUBLIC_KEY_KEYS) then None
    else
      var fs := j.fields;
      var id := AsId(fs[0].value);
      var principal := AsId(fs[1].value);
      var label_ := AsString(fs[2].value);
      var algorithm := AsString(fs[3].value);
      var key := BytesFrom(fs[4].value);
      var enabled := AsBool(fs[5].value);
      if id.Some? && principal.Some? && label_.Some? && algorithm.Some? && key.Some? && enabled.Some?
      then Some(PublicKey(id.value, principal.value, label_.value, algorithm.value, key.value, enabled.value))
      else None
  }

  lemma {:induction false} PublicKeyNamed(p: PublicKey)
    ensures HasKeys(PublicKeyValue(p).fields, PUBLIC_KEY_KEYS)
  {
  }

  lemma {:induction false} PublicKeyShape(p: PublicKey)
    ensures var fs := PublicKeyValue(p).fields;
            && |fs| == 6
            && fs[0].value == Str(Hex.IdText(p.id))
            && fs[1].value == Str(Hex.IdText(p.principal))
            && fs[2].value == Str(p.label_)
            && fs[3].value == Str(p.algorithm)
            && fs[4].value == Str(Hex.Encode(p.key))
            && fs[5].value == Bool(p.enabled)
  {
  }

  lemma {:induction false} PublicKeyBack(p: PublicKey)
    ensures PublicKeyFrom(PublicKeyValue(p)) == Some(p)
  {
    PublicKeyNamed(p);
    PublicKeyShape(p);
    Hex.ParseIdText(p.id);
    Hex.ParseIdText(p.principal);
    Hex.DecodeEncode(p.key);
  }

  method PublicKeyTexts(xs: seq<PublicKey>) returns (texts: seq<string>)
    ensures |texts| == |xs| && Shows(texts, xs, PublicKeyValue)
  {
    texts := [];
    for i := 0 to |xs|
      invariant |texts| == i && Shows(texts, xs, PublicKeyValue)
    {
      var text := PublicKeyJson(At(xs, i));
      texts := AddText(texts, text, xs, PublicKeyValue);
    }
  }

  // ---- `identity_list_json_inner` ----------------------------------------------------------------

  function IdentityHead(s: Identity): (fs: seq<Field>) {
    [Field("authenticated_mode", Bool(s.authenticatedMode)), Field("root", OptionValue(IdOption(s.root)))]
  }

  function IdentityPeople(s: Identity): (fs: seq<Field>) {
    [Field("principals", Arr(Values(s.principals, PrincipalValue))), Field("roles", Arr(Values(s.roles, RoleValue)))]
  }

  function IdentityCredentials(s: Identity): (fs: seq<Field>) {
    [Field("app_credentials", Arr(Values(s.appCredentials, AppCredentialValue))),
     Field("external_credentials", Arr(Values(s.externalCredentials, ExternalCredentialValue))),
     Field("public_keys", Arr(Values(s.publicKeys, PublicKeyValue)))]
  }

  function IdentityValue(s: Identity): (j: Json) {
    Obj(IdentityHead(s) + IdentityPeople(s) + IdentityCredentials(s))
  }

  method PushIdentityHead(s: Identity) returns (out: string, ghost fs: seq<Field>)
    ensures fs == IdentityHead(s) && out == OpenObject(fs)
  {
    out, fs := "{", [];
    out, fs := PushBool(out, fs, true, "authenticated_mode", s.authenticatedMode);
    out, fs := PushOption(out, fs, false, "root", IdOption(s.root));
  }

  lemma {:induction false} ListKeysPlain()
    ensures PlainKey("principals") && PlainKey("roles") && PlainKey("app_credentials")
    ensures PlainKey("external_credentials") && PlainKey("public_keys")
  {
  }

  method PushIdentityPeople(s: Identity, out0: string, ghost fs0: seq<Field>)
    returns (out: string, ghost fs: seq<Field>)
    requires out0 == OpenObject(fs0) && fs0 != []
    ensures fs == fs0 + IdentityPeople(s) && out == OpenObject(fs)
  {
    ListKeysPlain();
    var texts := PrincipalTexts(s.principals);
    out, fs := PushList(out0, fs0, false, "principals", texts, s.principals, PrincipalValue);
    texts := RoleTexts(s.roles);
    out, fs := PushList(out, fs, false, "roles", texts, s.roles, RoleValue);
  }

  method PushIdentityCredentials(s: Identity, out0: string, ghost fs0: seq<Field>)
    returns (out: string, ghost fs: seq<Field>)
    requires out0 == OpenObject(fs0) && fs0 != []
    ensures fs == fs0 + IdentityCredentials(s) && out == OpenObject(fs)
  {
    ListKeysPlain();
    var texts := AppCredentialTexts(s.appCredentials);
    out, fs := PushList(out0, fs0, false, "app_credentials", texts, s.appCredentials, AppCredentialValue);
    texts := ExternalCredentialTexts(s.externalCredentials);
    out, fs := PushList(out, fs, false, "external_credentials", texts, s.externalCredentials, ExternalCredentialValue);
    texts := PublicKeyTexts(s.publicKeys);
    out, fs := PushList(out, fs, false, "public_keys", texts, s.publicKeys, PublicKeyValue);
  }

  method IdentityListJson(s: Identity) returns (out: string)
    ensures out == Render(IdentityValue(s))
  {
    ghost var fs;
    out, fs := PushIdentityHead(s);
    out, fs := PushIdentityPeople(s, out, fs);
    out, fs := PushIdentityCredentials(s, out, fs);
    out := CloseObject(out, fs);
  }

  const IDENTITY_KEYS := ["authenticated_mode", "root", "principals", "roles", "app_credentials", "external_credentials", "public_keys"]

  function ListFrom<T>(j: Json, f: Json -> Option<T>): (r: Option<seq<T>>) {
    if j.Arr? then All(j.items, f) else None
  }

  function IdentityFrom(j: Json): (r: Option<Identity>) {
    if !j.Obj? || !HasKeys(j.fields, IDENTITY_KEYS) then None
    else
      var fs := j.fields;
      var mode, root := AsBool(fs[0].value), IdOptionFrom(fs[1].value);
      var principals, roles := ListFrom(fs[2].value, PrincipalFrom), ListFrom(fs[3].value, RoleFrom);
      var apps, externals := ListFrom(fs[4].value, AppCredentialFrom), ListFrom(fs[5].value, ExternalCredentialFrom);
      var keys := ListFrom(fs[6].value, PublicKeyFrom);
      if mode.Some? && root.Some? && principals.Some? && roles.Some? && apps.Some? && externals.Some? && keys.Some?
      then Some(Identity(mode.value, root.value, principals.value, roles.value, apps.value, externals.value, keys.value))
      else None
  }

  /** The generic reader followed by the field decoders. */
  function ReadIdentity(text: string): (r: Option<Identity>) {
    match ReadValue(text)
    case Err => None
    case Ok((j, rest)) => if rest == "" then IdentityFrom(j) else None
  }

  lemma {:induction false} IdentityNamed(s: Identity)
    ensures HasKeys(IdentityValue(s).fields, IDENTITY_KEYS)
  {
  }

  lemma {:induction false} IdentityShape(s: Identity)
    ensures var fs := IdentityValue(s).fields;
            && |fs| == 7
            && fs[0].value == Bool(s.authenticatedMode) && fs[1].value == OptionValue(IdOption(s.root))
            && fs[2].value == Arr(Values(s.principals, PrincipalValue))
            && fs[3].value == Arr(Values(s.roles, RoleValue))
            && fs[4].value == Arr(Values(s.appCredentials, AppCredentialValue))
            && fs[5].value == Arr(Values(s.externalCredentials, ExternalCredentialValue))
            && fs[6].value == Arr(Values(s.publicKeys, PublicKeyValue))
  {
  }

  /** Every record list comes back. */
  lemma {:induction false} ListsBack(s: Identity)
    ensures All(Values(s.principals, PrincipalValue), PrincipalFrom) == Some(s.principals)
    ensures All(Values(s.roles, RoleValue), RoleFrom) == Some(s.roles)
    ensures All(Values(s.appCredentials, AppCredentialValue), AppCredentialFrom) == Some(s.appCredentials)
    ensures All(Values(s.externalCredentials, ExternalCredentialValue), ExternalCredentialFrom) == Some(s.externalCredentials)
    ensures All(Values(s.publicKeys, PublicKeyValue), PublicKeyFrom) == Some(s.publicKeys)
  {
    assert forall x :: PrincipalFrom(PrincipalValue(x)) == Some(x) by { forall x { PrincipalBack(x); } }
    AllBack(s.principals, PrincipalValue, PrincipalFrom);
    assert forall x :: RoleFrom(RoleValue(x)) == Some(x) by { forall x { RoleBack(x); } }
    AllBack(s.roles, RoleValue, RoleFrom);
    assert forall x :: AppCredentialFrom(AppCredentialValue(x)) == Some(x) by { forall x { AppCredentialBack(x); } }
    AllBack(s.appCredentials, AppCredentialValue, AppCredentialFrom);
    assert forall x :: ExternalCredentialFrom(ExternalCredentialValue(x)) == Some(x) by { forall x { ExternalCredentialBack(x); } }
    AllBack(s.externalCredentials, ExternalCredentialValue, ExternalCredentialFrom);
    assert forall x :: PublicKeyFrom(PublicKeyValue(x)) == Some(x) by { forall x { PublicKeyBack(x); } }
    AllBack(s.publicKeys, PublicKeyValue, PublicKeyFrom);
  }

  lemma {:induction false} IdentityBack(s: Identity)
    ensures IdentityFrom(IdentityValue(s)) == Some(s)
  {
    IdentityNamed(s);
    IdentityShape(s);
    if s.root.Some? { Hex.ParseIdText(s.root.value); }
    ListsBack(s);
  }

  /** The printed store, read by the generic reader, is the store. */
  lemma {:induction false} IdentityReadsBack(s: Identity)
    ensures ReadIdentity(Render(IdentityValue(s))) == Some(s)
  {
    ReadRender(IdentityValue(s), "");
    assert Render(IdentityValue(s)) + "" == Render(IdentityValue(s));
    IdentityBack(s);
  }

  /** Hence the printer is injective. */
  lemma {:induction false} IdentityInjective(a: Identity, b: Identity)
    requires Render(IdentityValue(a)) == Render(IdentityValue(b))
    ensures a == b
  {
    IdentityReadsBack(a);
    IdentityReadsBack(b);
  }
}

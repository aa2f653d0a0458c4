/**
 Protected-ref policies and their audit trail (`protected_ref_set`, `protected_ref_remove`).

 A call opens the file, changes the held policies, publishes them, and only then appends an audit record.
 Each of these steps can fail. `RunLog` says what every run writes and in which order, `CallAudited` when a
 published change is recorded, and `StepTracks` exactly when a call leaves the set of protected refs that the
 audit trail tells different from the set in the file.
 */
module Audit {
  import opened Prelude
  import Hex

  datatype Policy = Policy(
    fastForwardOnly: bool, signedCommits: bool, signedRefAdvance: bool, reviews: nat, retention: bool, governance: bool)
  datatype Key = Key(ws: Hex.Id, name: string)
  datatype Action = SetAction | RemoveAction
  datatype Record = Record(actor: Option<Hex.Id>, action: Action, target: string)

  /** The durable state: the published policies and the audit chain. */
  datatype File = File(refs: map<Key, Policy>, audit: seq<Record>)

  /** What a call asks for; its workspace argument has been resolved. */
  datatype Call =
    | Set(actor: Option<Hex.Id>, key: Key, policy: Policy)
    | Remove(actor: Option<Hex.Id>, key: Key)

  /** Where the environment fails: before the change (opening, authenticating, resolving, authorizing), when
      the state is published, or when the audit record is committed. */
  datatype Fault = NoFault | Early | AtSave | AtAudit

  datatype Outcome = Failed | Done(changed: bool)

  /** The durable writes of a call. */
  datatype Write = Saved(actor: Option<Hex.Id>, key: Key, policy: Option<Policy>) | Audited(record: Record)

  datatype Attempt = Attempt(call: Call, fault: Fault)

  // ---- names and targets -------------------------------------------------------------------------

  /** `validate_protected_ref_name` after the `branch/` or `tag/`. No length is imposed. */
  predicate ValidShortName(n: string) {
    && n != "" && n != "HEAD" && !("refs/" <= n) && n[0] != '.' && n[|n| - 1] != '.'
    && (forall i :: 0 <= i < |n| - 1 ==> !(n[i] == '.' && n[i + 1] == '.'))
    && (forall i :: 0 <= i < |n| ==> n[i] != '/' && n[i] != '\\' && !IsControl(n[i]))
  }

  predicate ValidName(name: string) {
    || ("branch/" <= name && ValidShortName(name[7..]))
    || ("tag/" <= name && ValidShortName(name[4..]))
  }

  /** Whether `validate_protected_ref_name` accepts what follows the slash. */
  method ValidateShortName(n: string) returns (ok: bool)
    ensures ok <==> ValidShortName(n)
  {
    if n == "" || n == "HEAD" || "refs/" <= n || n[0] == '.' || n[|n| - 1] == '.' { return false; }
    for i := 0 to |n|
      invariant forall j :: 0 <= j < i ==> n[j] != '/' && n[j] != '\\' && !IsControl(n[j])
      invariant forall j :: 0 <= j < i && j < |n| - 1 ==> !(n[j] == '.' && n[j + 1] == '.')
    {
      if n[i] == '/' || n[i] == '\\' || IsControl(n[i]) { return false; }
      if i + 1 < |n| && n[i] == '.' && n[i + 1] == '.' { return false; }
    }
    ok := true;
  }

  /** `validate_protected_ref_name`: split at the first slash, then check both parts. */
  method ValidateName(name: string) returns (ok: bool)
    ensures ok <==> ValidName(name)
  {
    for i := 0 to |name|
      invariant '/' !in name[..i]
    {
      if name[i] == '/' {
        var kind, rest := name[..i], name[i + 1..];
        SlashAt(name, i);
        if kind != "branch" && kind != "tag" { return false; }
        ok := ValidateShortName(rest);
        return;
      }
    }
    assert name[..|name|] == name;
    NoSlash(name);
    ok := false;
  }

  lemma {:induction false} NoSlash(name: string)
    ensures "branch/" <= name || "tag/" <= name ==> '/' in name
  {
    if "branch/" <= name { assert name[6] == '/'; }
    if "tag/" <= name { assert name[3] == '/'; }
  }

  /** The first slash decides which prefix a name has. */
  lemma {:induction false} SlashAt(name: string, i: nat)
    requires i < |name| && name[i] == '/' && '/' !in name[..i]
    ensures "branch/" <= name <==> i == 6 && name[..i] == "branch"
    ensures "tag/" <= name <==> i == 3 && name[..i] == "tag"
    ensures name[..i] == "branch" ==> i == 6
    ensures name[..i] == "tag" ==> i == 3
  {
    assert forall j :: 0 <= j < i ==> name[j] == name[..i][j];
    if "branch/" <= name { PrefixSlash("branch", name, i); }
    if "tag/" <= name { PrefixSlash("tag", name, i); }
    if name[..i] == "branch" { assert name[..7] == "branch" + "/"; }
    if name[..i] == "tag" { assert name[..4] == "tag" + "/"; }
  }

  lemma {:induction false} PrefixSlash(kind: string, name: string, i: nat)
    requires kind + "/" <= name && '/' !in kind && i < |name| && name[i] == '/' && '/' !in name[..i]
    ensures i == |kind| && name[..i] == kind
  {
    assert name[|kind|] == (kind + "/")[|kind|] == '/';
    assert forall j :: 0 <= j < |kind| ==> name[j] == (kind + "/")[j] == kind[j];
  }

  const TARGET_LIMIT := 1024

  /** The audit target `workspace=<id>;ref=<name>`. */
  function Target(k: Key): (t: string) {
    "workspace=" + (Hex.IdText(k.ws) + (";ref=" + k.name))
  }

  lemma {:induction false} AsciiPrefix(p: string, s: string)
    requires forall c :: c in p ==> (c as int) < 0x80
    ensures Utf8Length(p + s) == |p| + Utf8Length(s)
  {
    if p == "" {
      assert p + s == s;
    } else {
      assert p[0] in p && forall c :: c in p[1..] ==> c in p;
      AsciiPrefix(p[1..], s);
      assert (p + s)[1..] == p[1..] + s;
    }
  }

  lemma {:induction false} TargetLength(k: Key)
    ensures Utf8Length(Target(k)) == 51 + Utf8Length(k.name)
  {
    Hex.IdTextAscii(k.ws);
    AsciiPrefix(";ref=", k.name);
    AsciiPrefix(Hex.IdText(k.ws), ";ref=" + k.name);
    AsciiPrefix("workspace=", Hex.IdText(k.ws) + (";ref=" + k.name));
  }

  /** A target names one workspace and one ref. */
  lemma {:induction false} TargetInjective(a: Key, b: Key)
    requires Target(a) == Target(b)
    ensures a == b
  {
    Hex.IdTextAscii(a.ws);
    Hex.IdTextAscii(b.ws);
    var s, t := Hex.IdText(a.ws) + (";ref=" + a.name), Hex.IdText(b.ws) + (";ref=" + b.name);
    assert Target(a)[10..] == s && Target(b)[10..] == t;
    assert s[..36] == Hex.IdText(a.ws) && t[..36] == Hex.IdText(b.ws);
    assert s[41..] == a.name && t[41..] == b.name;
    Hex.ParseIdText(a.ws);
    Hex.ParseIdText(b.ws);
  }

  // ---- one call ----------------------------------------------------------------------------------

  function RecordOf(c: Call): (r: Record) {
    Record(c.actor, if c.Set? then SetAction else RemoveAction, Target(c.key))
  }

  function NewPolicy(c: Call): (p: Option<Policy>) {
    if c.Set? then Some(c.policy) else None
  }

  function Put(refs: map<Key, Policy>, key: Key, p: Option<Policy>): (r: map<Key, Policy>) {
    if p.Some? then refs[key := p.value] else refs - {key}
  }

  /** The held policies change, so there is something to publish. */
  predicate Publishes(f: File, a: Attempt) {
    !a.fault.Early? && ValidName(a.call.key.name) && (a.call.Set? || a.call.key in f.refs)
  }

  predicate AuditFails(a: Attempt) {
    a.fault.AtAudit? || Utf8Length(Target(a.call.key)) > TARGET_LIMIT
  }

  function Step(f: File, a: Attempt): (r: (File, Outcome)) {
    var c := a.call;
    if a.fault.Early? || !ValidName(c.key.name) then (f, Failed)
    else if c.Remove? && c.key !in f.refs then (f, Done(false))
    else if a.fault.AtSave? then (f, Failed)
    else
      var saved := f.(refs := Put(f.refs, c.key, NewPolicy(c)));
      if AuditFails(a) then (saved, Failed)
      else (saved.(audit := f.audit + [RecordOf(c)]), Done(true))
  }

  /** The writes that reached the file, in order. */
  function Writes(f: File, a: Attempt): (w: seq<Write>) {
    if !Publishes(f, a) || a.fault.AtSave? then []
    else if AuditFails(a) then [Saved(a.call.actor, a.call.key, NewPolicy(a.call))]
    else [Saved(a.call.actor, a.call.key, NewPolicy(a.call)), Audited(RecordOf(a.call))]
  }

  /** Without an environment fault, a published change is recorded exactly when the ref name has at most 973
      bytes: name validation sets no such limit, so a longer name is always published and never recorded. */
  lemma {:induction false} CallAudited(f: File, a: Attempt)
    requires Publishes(f, a) && a.fault.NoFault?
    ensures Step(f, a).0.refs == Put(f.refs, a.call.key, NewPolicy(a.call))
    ensures Utf8Length(a.call.key.name) <= 973 ==>
              Step(f, a).0.audit == f.audit + [RecordOf(a.call)] && Step(f, a).1 == Done(true)
    ensures Utf8Length(a.call.key.name) > 973 ==> Step(f, a).0.audit == f.audit && Step(f, a).1 == Failed
  {
    TargetLength(a.call.key);
  }

  /** A branch name of `n` letters. */
  function LongName(n: nat): (name: string) {
    "branch/" + seq(n, _ => 'a')
  }

  lemma {:induction false} LongNameLength(n: nat)
    requires n > 0
    ensures Utf8Length(LongName(n)) == n + 7
  {
    var letters := seq(n, _ => 'a');
    AsciiPrefix(letters, "");
    assert letters + "" == letters;
    AsciiPrefix("branch/", letters);
  }

  lemma {:induction false} LongNameValid(n: nat)
    requires n > 4
    ensures ValidName(LongName(n))
  {
    var name := LongName(n);
    var letters := seq(n, _ => 'a');
    assert name[7..] == letters && |letters| != |"HEAD"|;
    assert letters[0] == 'a' && "refs/"[0] == 'r';
  }

  /** On every file, without any fault: protecting a branch whose name has 967 letters or more is published,
      reported as failed, and not recorded. */
  lemma {:induction false} LongNameUnrecorded(f: File, actor: Option<Hex.Id>, ws: Hex.Id, n: nat, p: Policy)
    requires n >= 967
    ensures var key := Key(ws, LongName(n));
            Step(f, Attempt(Set(actor, key, p), NoFault)) == (File(f.refs[key := p], f.audit), Failed)
  {
    LongNameLength(n);
    LongNameValid(n);
    CallAudited(f, Attempt(Set(actor, Key(ws, LongName(n)), p), NoFault));
  }

  // ---- runs --------------------------------------------------------------------------------------

  function Run(f: File, attempts: seq<Attempt>): (r: File)
    decreases |attempts|
  {
    if attempts == [] then f else Run(Step(f, attempts[0]).0, attempts[1..])
  }

  /** The writes of a run, in order. */
  function Log(f: File, attempts: seq<Attempt>): (w: seq<Write>)
    decreases |attempts|
  {
    if attempts == [] then [] else Writes(f, attempts[0]) + Log(Step(f, attempts[0]).0, attempts[1..])
  }

  /** The calls that return an error although something of theirs reached the file. */
  function HalfDone(f: File, attempts: seq<Attempt>): (n: nat)
    decreases |attempts|
  {
    if attempts == [] then 0
    else
      var half := Step(f, attempts[0]).1.Failed? && Writes(f, attempts[0]) != [];
      (if half then 1 else 0) + HalfDone(Step(f, attempts[0]).0, attempts[1..])
  }

  /** What a log leaves in the file. */
  function Replay(f: File, log: seq<Write>): (r: File)
    decreases |log|
  {
    if log == [] then f
    else
      var w := log[0];
      var g := if w.Saved? then f.(refs := Put(f.refs, w.key, w.policy)) else f.(audit := f.audit + [w.record]);
      Replay(g, log[1..])
  }

  function Saves(log: seq<Write>): (n: nat) {
    if log == [] then 0 else (if log[0].Saved? then 1 else 0) + Saves(log[1..])
  }

  function Audits(log: seq<Write>): (n: nat) {
    if log == [] then 0 else (if log[0].Audited? then 1 else 0) + Audits(log[1..])
  }

  /** The record describes the saved change. */
  predicate Describes(r: Record, w: Write) {
    w.Saved? && r.actor == w.actor && r.target == Target(w.key) && (r.action.SetAction? <==> w.policy.Some?)
  }

  /** The write is one the call asks for, in its caller's name. */
  predicate Asked(c: Call, w: Write) {
    match w
    case Saved(actor, key, policy) =>
      actor == c.actor && key == c.key && (policy == match c case Set(_, _, p) => Some(p) case Remove(_, _) => None)
    case Audited(r) => r.actor == c.actor && r.target == Target(c.key) && (r.action.SetAction? <==> c.Set?)
  }

  /** Every record comes right after the saved change it describes. */
  predicate Ordered(log: seq<Write>) {
    forall i :: 0 <= i < |log| && log[i].Audited? ==> i > 0 && Describes(log[i].record, log[i - 1])
  }

  lemma {:induction false} ReplayAppend(f: File, a: seq<Write>, b: seq<Write>)
    ensures Replay(f, a + b) == Replay(Replay(f, a), b)
    decreases |a|
  {
    if a == [] {
      assert a + b == b;
    } else {
      var w := a[0];
      var g := if w.Saved? then f.(refs := Put(f.refs, w.key, w.policy)) else f.(audit := f.audit + [w.record]);
      assert (a + b)[1..] == a[1..] + b;
      ReplayAppend(g, a[1..], b);
    }
  }

  lemma {:induction false} CountAppend(a: seq<Write>, b: seq<Write>)
    ensures Saves(a + b) == Saves(a) + Saves(b) && Audits(a + b) == Audits(a) + Audits(b)
  {
    if a == [] {
      assert a + b == b;
    } else {
      assert (a + b)[1..] == a[1..] + b;
      CountAppend(a[1..], b);
    }
  }

  lemma {:induction false} OrderedAppend(a: seq<Write>, b: seq<Write>)
    requires Ordered(a) && Ordered(b)
    ensures Ordered(a + b)
  {
    forall i | 0 <= i < |a + b| && (a + b)[i].Audited?
      ensures i > 0 && Describes((a + b)[i].record, (a + b)[i - 1])
    {
      if i >= |a| {
        assert b[i - |a|].Audited?;
      }
    }
  }

  /** A log of a saved change and, perhaps, its record. */
  lemma {:induction false} ShortLog(f: File, w: Write, r: Record)
    requires w.Saved?
    ensures var g := f.(refs := Put(f.refs, w.key, w.policy));
            && Replay(f, [w]) == g && Replay(f, [w, Audited(r)]) == g.(audit := g.audit + [r])
    ensures Saves([w]) == 1 && Audits([w]) == 0 && Saves([w, Audited(r)]) == 1 && Audits([w, Audited(r)]) == 1
  {
    var x := Audited(r);
    var g := f.(refs := Put(f.refs, w.key, w.policy));
    assert [w][1..] == [] && [x][1..] == [] && [w, x][1..] == [x];
    assert Replay(g, []) == g && Replay(g, [x]) == g.(audit := g.audit + [r]);
    assert Saves([x]) == 0 && Audits([x]) == 1;
  }

  lemma {:induction false} StepReplays(f: File, a: Attempt)
    ensures Step(f, a).0 == Replay(f, Writes(f, a))
  {
    ShortLog(f, Saved(a.call.actor, a.call.key, NewPolicy(a.call)), RecordOf(a.call));
  }

  /** One call: a failure leaves at most one saved change without a record, a success leaves none, and a remove
      that finds nothing writes nothing. */
  lemma {:induction false} StepLog(f: File, a: Attempt)
    ensures Ordered(Writes(f, a)) && forall w :: w in Writes(f, a) ==> Asked(a.call, w)
    ensures Audits(Writes(f, a)) <= Saves(Writes(f, a)) <= 1
    ensures Saves(Writes(f, a)) > Audits(Writes(f, a)) <==> Step(f, a).1.Failed? && Writes(f, a) != []
    ensures a.call.Remove? && a.call.key !in f.refs ==> Writes(f, a) == []
  {
    ShortLog(f, Saved(a.call.actor, a.call.key, NewPolicy(a.call)), RecordOf(a.call));
  }

  /** Every run, whatever fails and where: the file is its log replayed, every record comes right after the
      saved change it describes, every write is one that a call asked for in its caller's name, and the
      saved changes without a record are as many as the calls that failed after a write. */
  lemma {:induction false} RunLog(f: File, attempts: seq<Attempt>)
    ensures Run(f, attempts) == Replay(f, Log(f, attempts))
    ensures Ordered(Log(f, attempts))
    ensures forall w :: w in Log(f, attempts) ==> exists i :: 0 <= i < |attempts| && Asked(attempts[i].call, w)
    ensures Saves(Log(f, attempts)) == Audits(Log(f, attempts)) + HalfDone(f, attempts)
    decreases |attempts|
  {
    if attempts != [] {
      var a, g, rest := attempts[0], Step(f, attempts[0]).0, attempts[1..];
      StepReplays(f, a);
      StepLog(f, a);
      RunLog(g, rest);
      ReplayAppend(f, Writes(f, a), Log(g, rest));
      CountAppend(Writes(f, a), Log(g, rest));
      OrderedAppend(Writes(f, a), Log(g, rest));
      forall w | w in Log(f, attempts)
        ensures exists i :: 0 <= i < |attempts| && Asked(attempts[i].call, w)
      {
        if w in Log(g, rest) {
          var i :| 0 <= i < |rest| && Asked(rest[i].call, w);
          assert attempts[i + 1] == rest[i];
        } else {
          assert w in Writes(f, a);
        }
      }
    }
  }

  // ---- what the trail tells ----------------------------------------------------------------------

  /** The targets that are protected according to the records alone. */
  function Told(audit: seq<Record>): (targets: set<string>) {
    if audit == [] then {}
    else
      var r := audit[|audit| - 1];
      if r.action.SetAction? then Told(audit[..|audit| - 1]) + {r.target} else Told(audit[..|audit| - 1]) - {r.target}
  }

  /** The trail tells exactly the refs that are protected. */
  ghost predicate Tracks(f: File) {
    forall k :: k in f.refs <==> Target(k) in Told(f.audit)
  }

  /** A change that is published, not recorded, and protects or unprotects a ref. */
  predicate Untold(f: File, a: Attempt) {
    Publishes(f, a) && !a.fault.AtSave? && AuditFails(a) && (a.call.Set? ==> a.call.key !in f.refs)
  }

  lemma {:induction false} ToldSnoc(audit: seq<Record>, r: Record)
    ensures Told(audit + [r]) == if r.action.SetAction? then Told(audit) + {r.target} else Told(audit) - {r.target}
  {
    assert (audit + [r])[..|audit|] == audit;
  }

  lemma {:induction false} RecordedTracks(f: File, a: Attempt)
    requires Tracks(f) && Publishes(f, a) && !a.fault.AtSave? && !AuditFails(a)
    ensures Tracks(Step(f, a).0)
  {
    var g, c := Step(f, a).0, a.call;
    ToldSnoc(f.audit, RecordOf(c));
    forall k
      ensures k in g.refs <==> Target(k) in Told(g.audit)
    {
      if Target(k) == Target(c.key) { TargetInjective(k, c.key); }
    }
  }

  /** A call keeps the trail telling the truth exactly when its change is not an untold one. */
  lemma {:induction false} StepTracks(f: File, a: Attempt)
    requires Tracks(f)
    ensures Tracks(Step(f, a).0) <==> !Untold(f, a)
  {
    if Publishes(f, a) && !a.fault.AtSave? {
      if !AuditFails(a) {
        RecordedTracks(f, a);
      } else if Untold(f, a) {
        var k := a.call.key;
        assert (k in Step(f, a).0.refs) != (k in f.refs);
      } else {
        assert forall k :: k in Step(f, a).0.refs <==> k in f.refs;
      }
    }
  }

  /** Hence in a run where every name has at most 973 bytes and no record is refused, the trail tells the truth
      at the end. */
  lemma {:induction false} RunTracks(f: File, attempts: seq<Attempt>)
    requires Tracks(f)
    requires forall i :: 0 <= i < |attempts| ==>
               !attempts[i].fault.AtAudit? && Utf8Length(attempts[i].call.key.name) <= 973
    ensures Tracks(Run(f, attempts))
    decreases |attempts|
  {
    if attempts != [] {
      var a := attempts[0];
      TargetLength(a.call.key);
      StepTracks(f, a);
      RunTracks(Step(f, a).0, attempts[1..]);
    }
  }

  // ---- in place ----------------------------------------------------------------------------------

  /** The control file as a call changes it. */
  class ControlFile {
    var refs: map<Key, Policy>
    var audit: seq<Record>

    function Value(): (f: File)
      reads this
    {
      File(refs, audit)
    }

    /** `audit_append`: the field limit first, then the commit. */
    method Append(r: Record, commits: bool) returns (ok: bool)
      modifies this`audit
      ensures ok <==> commits && Utf8Length(r.target) <= TARGET_LIMIT
      ensures audit == if ok then old(audit) + [r] else old(audit)
    {
      ok := commits && Utf8Length(r.target) <= TARGET_LIMIT;
      if ok { audit := audit + [r]; }
    }

    /** `protected_ref_set`. */
    method SetPolicy(actor: Option<Hex.Id>, key: Key, policy: Policy, fault: Fault) returns (o: Outcome)
      modifies this
      ensures (Value(), o) == Step(old(Value()), Attempt(Set(actor, key, policy), fault))
    {
      var valid := ValidateName(key.name);
      if fault.Early? || !valid { return Failed; }
      var held := refs[key := policy];
      if fault.AtSave? { return Failed; }
      refs := held;
      var ok := Append(Record(actor, SetAction, Target(key)), !fault.AtAudit?);
      o := if ok then Done(true) else Failed;
    }

    /** `protected_ref_remove`. */
    method RemovePolicy(actor: Option<Hex.Id>, key: Key, fault: Fault) returns (o: Outcome)
      modifies this
      ensures (Value(), o) == Step(old(Value()), Attempt(Remove(actor, key), fault))
    {
      var valid := ValidateName(key.name);
      if fault.Early? || !valid { return Failed; }
      var removed := key in refs;
      var held := refs - {key};
      if !removed { return Done(false); }
      if fault.AtSave? { return Failed; }
      refs := held;
      var ok := Append(Record(actor, RemoveAction, Target(key)), !fault.AtAudit?);
      o := if ok then Done(removed) else Failed;
    }
  }
}

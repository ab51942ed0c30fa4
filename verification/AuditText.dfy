/**
 What an audit entry's hash covers: `prevHash + canonical(entry, prevHash, createdAt)`, and the
 proof that this text determines every covered field.
 */
module AuditText {
  import opened Text
  import opened Json

  const GENESIS := "GENESIS"

  /** What the caller asks to record; `meta` JNull stands for an absent one. */
  datatype Entry = Entry(tenantId: string, actorId: Option<string>, actorEmail: Option<string>,
                         action: string, target: Option<string>, meta: Json, ip: Option<string>)

  /** The fields that reach the hash. */
  datatype Hashed = Hashed(tenantId: string, actorId: Option<string>, action: string,
                           target: Option<string>, meta: Json, createdAt: string)

  function OrNull(s: Option<string>): Json { if s.Some? then JStr(s.value) else JNull }

  /** The object `canonical` serialises, members in source order. */
  function Canonical(f: Hashed, prevHash: string): Json {
    JObj([Field("tenantId", JStr(f.tenantId)), Field("actorId", OrNull(f.actorId)),
          Field("action", JStr(f.action)), Field("target", OrNull(f.target)),
          Field("meta", f.meta), Field("createdAt", JStr(f.createdAt)), Field("prevHash", JStr(prevHash))])
  }

  function Preimage(f: Hashed, prevHash: string): string { prevHash + Print(Canonical(f, prevHash)) }

  // ------------------------------------------------------------- injectivity

  lemma {:induction false} FirstBrace(p: string, x: string, q: string, y: string)
    requires '{' !in p && '{' !in q && p + ("{" + x) == q + ("{" + y)
    ensures p == q
  {
    var s, t := p + ("{" + x), q + ("{" + y);
    assert p != "" ==> s[0] == p[0];
    assert q != "" ==> t[0] == q[0];
    if p != "" && q != "" {
      assert s[1..] == p[1..] + ("{" + x) && t[1..] == q[1..] + ("{" + y);
      FirstBrace(p[1..], x, q[1..], y);
      assert [p[0]] + p[1..] == p && [q[0]] + q[1..] == q;
    }
  }

  lemma CanonicalInjective(f: Hashed, p: string, g: Hashed, q: string)
    requires Canonical(f, p) == Canonical(g, q)
    ensures f == g && p == q
  {
    var a, b := Canonical(f, p).fields, Canonical(g, q).fields;
    assert a[0] == b[0] && a[1] == b[1] && a[2] == b[2] && a[3] == b[3] && a[4] == b[4] && a[5] == b[5] && a[6] == b[6];
  }

  /** The hashed text determines the previous hash and every hashed field. */
  lemma PreimageInjective(f: Hashed, p: string, g: Hashed, q: string)
    requires '{' !in p && '{' !in q && Preimage(f, p) == Preimage(g, q)
    ensures f == g && p == q
  {
    var s, t := Print(Canonical(f, p)), Print(Canonical(g, q));
    assert s == "{" + s[1..] && t == "{" + t[1..];
    FirstBrace(p, s[1..], q, t[1..]);
    Peel(p, s, q, t);
    PrintInjective(Canonical(f, p), Canonical(g, q));
    CanonicalInjective(f, p, g, q);
  }

  // ----------------------------------------------------------- the text itself

  /** A member with a plain name, its value's text, and what follows. */
  function Member(name: string, text: string, rest: string): string { "\"" + name + "\":" + (text + rest) }

  /** A string or null, as JSON. */
  function Nullable(s: Option<string>): string { if s.Some? then "\"" + Escape(s.value) + "\"" else "null" }

  function Quoted(s: string): string { "\"" + Escape(s) + "\"" }

  /** The hashed object written out: its members in order, without spaces. */
  function ObjectText(tenantId: string, actorId: Option<string>, action: string, target: Option<string>,
                      meta: Json, createdAt: string, prevHash: string): string
  {
    "{" + Member("tenantId", Quoted(tenantId),
    "," + Member("actorId", Nullable(actorId),
    "," + Member("action", Quoted(action),
    "," + Member("target", Nullable(target),
    "," + Member("meta", Print(meta),
    "," + Member("createdAt", Quoted(createdAt),
    "," + Member("prevHash", Quoted(prevHash), "}")))))))
  }

  lemma {:induction false} EscapePlain(s: string)
    requires forall i :: 0 <= i < |s| ==> s[i] as int >= 32 && s[i] != '"' && s[i] != '\\'
    ensures Escape(s) == s
  {
    if s != "" {
      EscapeLength(s[0]);
      EscapePlain(s[1..]);
      assert [s[0]] + s[1..] == s;
    }
  }

  predicate PlainName(s: string) {
    forall i :: 0 <= i < |s| ==> s[i] as int >= 32 && s[i] != '"' && s[i] != '\\'
  }

  /** The member names need no escaping. */
  lemma NamesPlain()
    ensures PlainName("tenantId") && PlainName("actorId") && PlainName("action") && PlainName("target")
    ensures PlainName("meta") && PlainName("createdAt") && PlainName("prevHash")
  {
  }

  lemma MemberText(name: string, v: Json, rest: string)
    requires PlainName(name)
    ensures PrintField(Field(name, v)) + rest == Member(name, Print(v), rest)
  {
    EscapePlain(name);
    Associate("\"" + name, "\"", ":");
    assert "\"" + ":" == "\":";
    Associate(Quote(name) + ":", Print(v), rest);
  }

  /** One more member in front of printed ones. */
  lemma NextMember(name: string, v: Json, more: seq<Field>, rest: string)
    requires PlainName(name) && PrintFields(more) == rest
    ensures PrintFields([Field(name, v)] + more) == "," + Member(name, Print(v), rest)
    ensures Print(JObj([Field(name, v)] + more)) == "{" + Member(name, Print(v), rest)
  {
    var f := Field(name, v);
    assert ([f] + more)[1..] == more && ([f] + more)[0] == f;
    MemberText(name, v, rest);
    Associate(",", PrintField(f), rest);
  }

  // The members from one on, and their text, last one first.

  function PrevOn(f: Hashed, p: string): seq<Field> { [Field("prevHash", JStr(p))] + [] }

  function PrevText(f: Hashed, p: string): string { "," + Member("prevHash", Quoted(p), "}") }

  lemma PrevReads(f: Hashed, p: string)
    ensures PrintFields(PrevOn(f, p)) == PrevText(f, p)
  {
    NamesPlain();
    NextMember("prevHash", JStr(p), [], "}");
  }

  function CreatedOn(f: Hashed, p: string): seq<Field> { [Field("createdAt", JStr(f.createdAt))] + PrevOn(f, p) }

  function CreatedText(f: Hashed, p: string): string { "," + Member("createdAt", Quoted(f.createdAt), PrevText(f, p)) }

  lemma CreatedReads(f: Hashed, p: string)
    ensures PrintFields(CreatedOn(f, p)) == CreatedText(f, p)
  {
    PrevReads(f, p);
    NamesPlain();
    NextMember("createdAt", JStr(f.createdAt), PrevOn(f, p), PrevText(f, p));
  }

  function MetaOn(f: Hashed, p: string): seq<Field> { [Field("meta", f.meta)] + CreatedOn(f, p) }

  function MetaText(f: Hashed, p: string): string { "," + Member("meta", Print(f.meta), CreatedText(f, p)) }

  lemma MetaReads(f: Hashed, p: string)
    ensures PrintFields(MetaOn(f, p)) == MetaText(f, p)
  {
    CreatedReads(f, p);
    NamesPlain();
    NextMember("meta", f.meta, CreatedOn(f, p), CreatedText(f, p));
  }

  function TargetOn(f: Hashed, p: string): seq<Field> { [Field("target", OrNull(f.target))] + MetaOn(f, p) }

  function TargetText(f: Hashed, p: string): string { "," + Member("target", Nullable(f.target), MetaText(f, p)) }

  lemma TargetReads(f: Hashed, p: string)
    ensures PrintFields(TargetOn(f, p)) == TargetText(f, p)
  {
    MetaReads(f, p);
    NamesPlain();
    NextMember("target", OrNull(f.target), MetaOn(f, p), MetaText(f, p));
  }

  function ActionOn(f: Hashed, p: string): seq<Field> { [Field("action", JStr(f.action))] + TargetOn(f, p) }

  function ActionText(f: Hashed, p: string): string { "," + Member("action", Quoted(f.action), TargetText(f, p)) }

  lemma ActionReads(f: Hashed, p: string)
    ensures PrintFields(ActionOn(f, p)) == ActionText(f, p)
  {
    TargetReads(f, p);
    NamesPlain();
    NextMember("action", JStr(f.action), TargetOn(f, p), TargetText(f, p));
  }

  function ActorOn(f: Hashed, p: string): seq<Field> { [Field("actorId", OrNull(f.actorId))] + ActionOn(f, p) }

  function ActorText(f: Hashed, p: string): string { "," + Member("actorId", Nullable(f.actorId), ActionText(f, p)) }

  lemma ActorReads(f: Hashed, p: string)
    ensures PrintFields(ActorOn(f, p)) == ActorText(f, p)
  {
    ActionReads(f, p);
    NamesPlain();
    NextMember("actorId", OrNull(f.actorId), ActionOn(f, p), ActionText(f, p));
  }

  lemma CanonicalShape(f: Hashed, p: string)
    ensures Canonical(f, p) == JObj([Field("tenantId", JStr(f.tenantId))] + ActorOn(f, p))
  {
  }

  lemma ObjectShape(f: Hashed, p: string)
    ensures ObjectText(f.tenantId, f.actorId, f.action, f.target, f.meta, f.createdAt, p) ==
            "{" + Member("tenantId", Quoted(f.tenantId), ActorText(f, p))
  {
  }

  /** The canonical text of the covered fields. */
  lemma CanonicalText(f: Hashed, p: string)
    ensures Print(Canonical(f, p)) == ObjectText(f.tenantId, f.actorId, f.action, f.target, f.meta, f.createdAt, p)
  {
    ActorReads(f, p);
    NamesPlain();
    NextMember("tenantId", JStr(f.tenantId), ActorOn(f, p), ActorText(f, p));
    CanonicalShape(f, p);
    ObjectShape(f, p);
  }
}

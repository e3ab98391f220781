/** What the rows of a restore candidate say, and when it is safe to cut over, in terms of table
    attributes and decoded values alone: nothing here calls a reader of the verifier. */
module RestoreMeaning {
  import opened DynamoItems
  import opened Framing
  import opened RestoreCutover
  import opened RestoreRows
  import opened Wrappers

  /** The table of audit events, which outlive their tenants. */
  const EVENTS: string := "security_events"

  // ---------- Attributes and members ----------

  ghost predicate TextAt(item: Item, name: string, s: string) {
    name in item && item[name] == S(s)
  }

  ghost predicate TextOrNothing(item: Item, name: string) {
    name in item ==> item[name].S?
  }

  ghost predicate NumberAt(env: Env, item: Item, name: string, n: int) {
    name in item && item[name].N? && env.parseInt(item[name].digits) == Some(n)
  }

  /** A text, a set of texts, or a list of entries that are all tagged as texts. */
  ghost predicate ListOrNothing(item: Item, name: string) {
    name in item ==>
      || item[name].S? || item[name].SS?
      || (item[name].L? && forall i :: 0 <= i < |item[name].entries| ==> item[name].entries[i].Tagged?)
  }

  ghost predicate EntryAt(item: Item, name: string, v: Json) {
    && name in item
    && match item[name]
       case S(s) => v == JString(s)
       case SS(members) => v.JString? && v.s in members
       case L(entries) => Tagged(v) in entries
       case _ => false
  }

  /** The member of a decoded object; the first one counts. */
  ghost predicate Member(fields: seq<(string, Json)>, name: string, v: Json) {
    exists i :: 0 <= i < |fields| && fields[i] == (name, v) && forall j :: 0 <= j < i ==> fields[j].0 != name
  }

  ghost predicate Missing(fields: seq<(string, Json)>, name: string) {
    forall i :: 0 <= i < |fields| ==> fields[i].0 != name
  }

  /** The attribute holds a text, not empty, that decodes to the value. */
  ghost predicate Decodes(env: Env, item: Item, name: string, v: Json) {
    exists text :: text != "" && TextAt(item, name, text) && env.decode(text) == Some(v)
  }

  ghost predicate IsInteger(v: Json, n: int) {
    v == JInt(n) || (v == JBool(true) && n == 1) || (v == JBool(false) && n == 0)
  }

  ghost predicate IsNumber(v: Json, n: int) {
    IsInteger(v, n) || v == JFloat(n as real)
  }

  // ---------- Identities and tenants ----------

  /** The text is the tenant, a separator and the name, and no other tenant could be meant. */
  ghost predicate IsIdentity(tenants: seq<string>, text: string, id: Identity) {
    && id.0 in tenants && id.1 != "" && text == id.0 + "\U{1F}" + id.1
    && forall t :: t in tenants && t + "\U{1F}" <= text ==> t == id.0
  }

  /** What stands before the first separator. */
  ghost predicate TextClaims(s: string, t: string) {
    '\U{1F}' !in t && t + "\U{1F}" <= s
  }

  /** Nothing stands after the first separator. */
  ghost predicate TextIsBroken(s: string) {
    exists t :: '\U{1F}' !in t && s == t + "\U{1F}"
  }

  function Children(v: Json): seq<Json> {
    match v
    case JArray(items) => items
    case JObject(fields) => seq(|fields|, i requires 0 <= i < |fields| => fields[i].1)
    case _ => []
  }

  ghost function At(v: Json, path: seq<nat>): Option<Json> {
    if path == [] then Some(v)
    else if path[0] < |Children(v)| then At(Children(v)[path[0]], path[1..])
    else None
  }

  /** A value occurs in another one, at any depth. */
  ghost predicate Inside(w: Json, v: Json) {
    exists path :: At(v, path) == Some(w)
  }

  ghost predicate IsTenantName(w: Json, t: string) {
    w.JObject? && exists i :: 0 <= i < |w.fields| && w.fields[i].0 in {"tenant", "tenant_id"} && w.fields[i].1 == JString(t)
  }

  ghost predicate ClaimsHere(w: Json, t: string) {
    (w.JString? && TextClaims(w.s, t)) || IsTenantName(w, t)
  }

  ghost predicate ValueClaims(v: Json, t: string) {
    exists w :: Inside(w, v) && ClaimsHere(w, t)
  }

  ghost predicate ValueIsBroken(v: Json) {
    exists w :: Inside(w, v) && w.JString? && TextIsBroken(w.s)
  }

  ghost predicate IsPrefixed(name: string) {
    name in {"binding_id", "client_id", "credential_id", "email", "grant_id", "pk", "tenant_kind", "user_id"}
  }

  ghost predicate IsEncoded(name: string) {
    name in {"grant_json", "record", "record_json"}
  }

  /** An entry in which a separator cannot be looked for, or is found where no tenant can stand. */
  ghost predicate EntryIsBroken(v: Json) {
    match v
    case JString(s) => TextIsBroken(s)
    case JArray(items) => JString("\U{1F}") in items
    case JObject(fields) => !Missing(fields, "\U{1F}")
    case _ => true
  }

  /** The row names the tenant, known or not. */
  ghost predicate Claims(env: Env, item: Item, t: string) {
    || (t != "" && (TextAt(item, "tenant", t) || TextAt(item, "tenant_id", t)))
    || (exists name, s :: IsPrefixed(name) && EntryAt(item, name, JString(s)) && TextClaims(s, t))
    || (exists name, v :: IsEncoded(name) && Decodes(env, item, name, v) && ValueClaims(v, t))
  }

  ghost predicate IsLegible(env: Env, item: Item) {
    && TextOrNothing(item, "tenant") && TextOrNothing(item, "tenant_id")
    && (forall name :: IsPrefixed(name) ==> ListOrNothing(item, name))
    && (forall name, v :: IsPrefixed(name) && EntryAt(item, name, v) ==> !EntryIsBroken(v))
    && (forall name :: IsEncoded(name) ==> TextOrNothing(item, name))
    && (forall name, s :: IsEncoded(name) && TextAt(item, name, s) && s != "" ==>
          env.decode(s).Some? && !ValueIsBroken(env.decode(s).value))
  }

  /** The row belongs to the tenant: it names that configured tenant and no other. */
  ghost predicate Owns(ctx: Context, t: string, item: Item) {
    && IsLegible(ctx.env, item) && t in ctx.tenants
    && Claims(ctx.env, item, t) && forall u :: Claims(ctx.env, item, u) ==> u == t
  }

  ghost predicate IsOwned(ctx: Context, item: Item) {
    exists t :: Owns(ctx, t, item)
  }

  // ---------- Suppressions ----------

  ghost predicate HeadAt(env: Env, item: Item, pk: string) {
    && pk != "" && TextAt(item, "pk", pk) && NumberAt(env, item, "epoch", 0)
    && TextAt(item, "record_type", "suppression_head")
  }

  /** The code of an alias in a tenant, under the key of the version. */
  function CodeOf(ctx: Context, k: int, tenant: string, targetClass: string, aliasKind: string, value: string): string
    requires k in ctx.keys
  {
    var e := ctx.env.encode;
    ctx.env.mac(ctx.keys[k], SuppressionMessage([e(tenant), e(targetClass), e(aliasKind), e(value)], 1))
  }

  ghost predicate RecordSays(fields: seq<(string, Json)>, s: Suppression, k: int, isFloat: bool, epoch: int) {
    && (forall name :: !Missing(fields, name) <==>
          name in {"tenant_id", "target_class", "key_version", "normalization_version", "digest", "target_epoch", "created_at"})
    && Member(fields, "tenant_id", JString(s.tenant)) && Member(fields, "target_class", JString(s.targetClass))
    && Member(fields, "digest", JString(s.digest))
    && (exists v :: Member(fields, "key_version", v) && IsInteger(v, k))
    && (if isFloat then Member(fields, "normalization_version", JFloat(1.0))
        else exists v :: Member(fields, "normalization_version", v) && IsInteger(v, 1))
    && (exists v :: Member(fields, "target_epoch", v) && IsNumber(v, epoch))
  }

  /** A record of a suppression, filed under its own key and epoch, that the verifier may trust. */
  ghost predicate EpochAt(ctx: Context, item: Item, s: Suppression, k: int, isFloat: bool) {
    && s.tenant in ctx.tenants && s.tenant != "" && s.digest != "" && k in ctx.keys
    && TextAt(item, "pk", s.tenant + "\U{1F}" + s.targetClass + "\U{1F}" + s.digest)
    && (exists epoch, fields :: epoch > 0 && NumberAt(ctx.env, item, "epoch", epoch)
          && Decodes(ctx.env, item, "record", JObject(fields)) && RecordSays(fields, s, k, isFloat, epoch))
    && (|| s.targetClass == "user"
        || (s.targetClass == "tenant" && !isFloat && s.digest == CodeOf(ctx, k, s.tenant, "tenant", "tenant_id", s.tenant)))
  }

  // ---------- Lifecycles ----------

  ghost predicate LifecycleAt(ctx: Context, item: Item, t: string, state: string) {
    && TextAt(item, "record_type", "tenant_lifecycle") && TextAt(item, "pk", t) && TextAt(item, "sk", "LIFECYCLE")
    && t in ctx.tenants && t != "" && state in {"active", "offboarding"}
    && exists fields :: Decodes(ctx.env, item, "record", JObject(fields))
                        && Member(fields, "tenant_id", JString(t)) && Member(fields, "state", JString(state))
  }

  ghost predicate IsNoLifecycle(item: Item) {
    TextOrNothing(item, "record_type") && !TextAt(item, "record_type", "tenant_lifecycle")
  }

  // ---------- Restored rows ----------

  ghost predicate FieldsSayGone(fields: seq<(string, Json)>, t: string) {
    && Member(fields, "tenant_id", JString(t)) && Member(fields, "lifecycle", JString("offboarded"))
    && (forall name, v :: name in {"served_snapshot", "operation", "last_failure"} && Member(fields, name, v) ==> v == JNull)
    && (forall v :: Member(fields, "pending_deletion_arns", v) ==> v == JArray([]))
    && exists operation :: operation != "" && Member(fields, "offboarding_operation_id", JString(operation))
  }

  /** A key row that only says that its tenant is gone. */
  ghost predicate SaysGone(env: Env, item: Item, t: string) {
    exists fields :: Decodes(env, item, "record_json", JObject(fields)) && FieldsSayGone(fields, t)
  }

  ghost predicate IsAsciiAlnum(c: char) {
    48 <= c as int <= 57 || 65 <= c as int <= 90 || 97 <= c as int <= 122
  }

  ghost predicate IsEventName(event: string) {
    1 <= |event| <= 64 && forall i :: 0 <= i < |event| ==> IsAsciiAlnum(event[i]) || event[i] in {'-', '_', '.'}
  }

  ghost predicate IsTenantLabel(tenant: string) {
    1 <= |tenant| <= 63 && forall i :: 0 <= i < |tenant| ==> IsAsciiAlnum(tenant[i]) || tenant[i] == '-'
  }

  ghost predicate IsKeptEvent(item: Item) {
    && (exists event :: TextAt(item, "event_id", event) && IsEventName(event))
    && exists tenant :: TextAt(item, "tenant_id", tenant) && IsTenantLabel(tenant)
  }

  ghost predicate CountsAgainst(ctx: Context, role: string, item: Item, t: string) {
    role != EVENTS && Owns(ctx, t, item) && !(role == "tenant_keys" && SaysGone(ctx.env, item, t))
  }

  /** The aliases under which a canonical user can have been suppressed. */
  ghost predicate HasAlias(item: Item, id: Identity, kind: string, v: string) {
    || (kind == "canonical_id" && v == id.1)
    || (kind == "email" && v != "" && TextAt(item, "email", id.0 + "\U{1F}" + v))
    || (kind == "scim_external_id" && v != "" && TextAt(item, "scim_external_id", v))
    || (kind == "scim_user_name" && v != "" && TextAt(item, "scim_user_name", v))
  }

  ghost predicate IsUser(ctx: Context, item: Item, id: Identity) {
    && "record_type" !in item
    && (exists text :: TextAt(item, "user_id", text) && IsIdentity(ctx.tenants, text, id))
    && TextOrNothing(item, "email") && TextOrNothing(item, "scim_external_id") && TextOrNothing(item, "scim_user_name")
    && forall text :: TextAt(item, "email", text) && text != "" ==>
         exists name :: IsIdentity(ctx.tenants, text, (id.0, name))
  }

  /** A row of the users table that is no user, and refers to one or to none. */
  ghost predicate IsSecondary(ctx: Context, item: Item) {
    && (exists recordType :: TextAt(item, "record_type", recordType))
    && TextOrNothing(item, "canonical_user_id")
    && forall text :: TextAt(item, "canonical_user_id", text) && text != "" ==> exists id :: IsIdentity(ctx.tenants, text, id)
  }

  ghost predicate IsFalse(v: Json) {
    || v == JNull || v == JBool(false) || v == JInt(0) || v == JFloat(0.0)
    || v == JString("") || v == JArray([]) || v == JObject([])
  }

  ghost predicate IsAnAdmin(item: Item) {
    exists t :: t != "" && TextAt(item, "tenant_id", t) && TextAt(item, "record_type", "config")
                && TextAt(item, "key", "config#" + t)
  }

  /** The row of the role refers to the user. */
  ghost predicate Refers(ctx: Context, role: string, item: Item, id: Identity) {
    || (role in {"passkeys", "password_credentials"}
        && exists text :: TextAt(item, "user_id", text) && IsIdentity(ctx.tenants, text, id))
    || (role == "grants"
        && (exists text :: TextAt(item, "user_id", text) && IsIdentity(ctx.tenants, text, id))
        && exists fields :: Decodes(ctx.env, item, "grant_json", JObject(fields)) && Member(fields, "user_id", JString(id.1)))
    || (role == "scim_groups" && Owns(ctx, id.0, item) && id.1 != "" && EntryAt(item, "members", JString(id.1)))
    || (role == "users" && "record_type" in item
        && exists text :: TextAt(item, "canonical_user_id", text) && IsIdentity(ctx.tenants, text, id))
  }

  /** The row of the role is formed as the verifier demands. */
  ghost predicate IsFormed(ctx: Context, role: string, item: Item) {
    && (role in {"passkeys", "password_credentials", "grants"} ==> exists id :: Refers(ctx, role, item, id))
    && (role == "scim_groups" ==>
          && ListOrNothing(item, "members")
          && ((exists v :: EntryAt(item, "members", v)) ==> exists t :: Owns(ctx, t, item))
          && forall v :: EntryAt(item, "members", v) ==> v.JString? || IsFalse(v))
    && (role == "users" ==> IsSecondary(ctx, item) || exists id :: IsUser(ctx, item, id))
    && (role == "admin_auth" ==> IsAnAdmin(item))
  }

  // ---------- Safe to cut over ----------

  ghost predicate IsComplete(m: Manifest, keys: map<int, bytes>) {
    && m.schemaVersion == 1 && keys != map[]
    && m.tenants != [] && (forall t :: t in m.tenants ==> t != "")
    && (forall i, j :: 0 <= i < j < |m.tenants| ==> m.tenants[i] != m.tenants[j])
    && m.governance.Complete? && m.suppressions.Complete?
    && m.restored.Keys == {"admin_auth", "clients", "domain_map", "federation_config", "grants", "passkeys",
                           "password_credentials", "scim_groups", "security_events", "tenant_keys", "users", "workload_trust"}
    && forall role :: role in m.restored ==> m.restored[role].Complete?
  }

  ghost predicate NoUserTwice(ctx: Context, users: seq<Item>) {
    forall i, j, id :: 0 <= i < j < |users| && IsUser(ctx, users[i], id) ==> !IsUser(ctx, users[j], id)
  }

  ghost predicate LifecyclesAreFormed(ctx: Context, rows: seq<Item>) {
    && (forall x :: x in rows ==> IsNoLifecycle(x) || exists t, state :: LifecycleAt(ctx, x, t, state))
    && forall i, j, t, a, b :: 0 <= i < j < |rows| && LifecycleAt(ctx, rows[i], t, a) ==> !LifecycleAt(ctx, rows[j], t, b)
  }

  /** Each row is a head or a record, and each record has its head. */
  ghost predicate SuppressionsAreFormed(ctx: Context, rows: seq<Item>) {
    && (forall x :: x in rows ==> (exists pk :: HeadAt(ctx.env, x, pk)) || exists s, k, isFloat :: EpochAt(ctx, x, s, k, isFloat))
    && (forall x, s, k, isFloat :: x in rows && EpochAt(ctx, x, s, k, isFloat) ==>
          exists y :: y in rows && HeadAt(ctx.env, y, s.tenant + "\U{1F}" + s.targetClass + "\U{1F}" + s.digest))
  }

  ghost predicate RowsAreFormed(ctx: Context, m: Manifest)
    requires forall role :: role in m.restored ==> m.restored[role].Complete?
  {
    forall role, x :: role in m.restored && x in m.restored[role].items ==> IsFormed(ctx, role, x)
  }

  ghost predicate EventsAreKept(ctx: Context, m: Manifest)
    requires forall role :: role in m.restored ==> m.restored[role].Complete?
  {
    EVENTS in m.restored ==> forall x :: x in m.restored[EVENTS].items ==> IsKeptEvent(x)
  }

  ghost predicate RowsHaveOwners(ctx: Context, m: Manifest)
    requires forall role :: role in m.restored ==> m.restored[role].Complete?
  {
    forall role, x :: role in m.restored && role != EVENTS && x in m.restored[role].items ==> IsOwned(ctx, x)
  }

  ghost predicate RestoredIsFormed(ctx: Context, m: Manifest)
    requires "users" in m.restored && forall role :: role in m.restored ==> m.restored[role].Complete?
  {
    && RowsAreFormed(ctx, m) && EventsAreKept(ctx, m) && RowsHaveOwners(ctx, m)
    && NoUserTwice(ctx, m.restored["users"].items)
  }

  ghost predicate ScansAreFormed(ctx: Context, m: Manifest)
    requires m.governance.Complete? && m.suppressions.Complete? && "users" in m.restored
    requires forall role :: role in m.restored ==> m.restored[role].Complete?
  {
    && SuppressionsAreFormed(ctx, m.suppressions.items) && LifecyclesAreFormed(ctx, m.governance.items)
    && RestoredIsFormed(ctx, m)
  }

  ghost predicate IsKeyAt(ctx: Context, x: Item, k: int) {
    exists s, isFloat :: EpochAt(ctx, x, s, k, isFloat)
  }

  ghost predicate IsFloatAt(ctx: Context, x: Item, k: int) {
    exists s :: EpochAt(ctx, x, s, k, true)
  }

  /** The first record under each key version has an integer as its normalization version. */
  ghost predicate FirstVersionsAreIntegers(ctx: Context, rows: seq<Item>) {
    forall i, k :: 0 <= i < |rows| && IsFloatAt(ctx, rows[i], k) ==> exists j :: 0 <= j < i && IsKeyAt(ctx, rows[j], k)
  }

  /** The tenant has a tenant suppression, or is being offboarded. */
  ghost predicate MustBeGone(ctx: Context, m: Manifest, t: string)
    requires m.governance.Complete? && m.suppressions.Complete?
  {
    || (exists digest :: IsRecorded(ctx, m.suppressions.items, Suppression(t, "tenant", digest)))
    || (exists x :: x in m.governance.items && LifecycleAt(ctx, x, t, "offboarding"))
  }

  /** A suppression of the user's tenant carries the code of the alias under a key that is in use. */
  ghost predicate AliasIsSuppressed(ctx: Context, rows: seq<Item>, tenant: string, kind: string, v: string) {
    exists k :: k in ctx.keys && IsKeyOfSome(ctx, rows, k)
      && IsRecorded(ctx, rows, Suppression(tenant, "user", CodeOf(ctx, k, tenant, "user", kind, v)))
  }

  ghost predicate IsRecorded(ctx: Context, rows: seq<Item>, s: Suppression) {
    exists x, k, isFloat :: x in rows && EpochAt(ctx, x, s, k, isFloat)
  }

  ghost predicate IsKeyOfSome(ctx: Context, rows: seq<Item>, k: int) {
    exists x :: x in rows && IsKeyAt(ctx, x, k)
  }

  ghost predicate NothingGoneIsBack(ctx: Context, m: Manifest)
    requires m.governance.Complete? && m.suppressions.Complete? && "users" in m.restored
    requires forall role :: role in m.restored ==> m.restored[role].Complete?
  {
    && (forall t, role, x :: MustBeGone(ctx, m, t) && role in m.restored && x in m.restored[role].items ==>
          !CountsAgainst(ctx, role, x, t))
    && (forall role, x, id :: role in m.restored && x in m.restored[role].items && Refers(ctx, role, x, id) ==>
          exists u :: u in m.restored["users"].items && IsUser(ctx, u, id))
    && (forall u, id, kind, v :: u in m.restored["users"].items && IsUser(ctx, u, id) && HasAlias(u, id, kind, v) ==>
          !AliasIsSuppressed(ctx, m.suppressions.items, id.0, kind, v))
  }

  /** The candidate may go live. */
  ghost predicate SafeToCutOver(m: Manifest, keys: map<int, bytes>, env: Env) {
    && IsComplete(m, keys)
    && var ctx := Context(keys, m.tenants, env);
    && ScansAreFormed(ctx, m) && FirstVersionsAreIntegers(ctx, m.suppressions.items) && NothingGoneIsBack(ctx, m)
  }
}

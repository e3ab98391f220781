/** What the restore verifier reads from one row of each scan. */
module RestoreRows {
  import opened DynamoItems
  import opened Framing
  import opened Lists
  import opened MachineInts
  import opened Wrappers

  const SEP: char := '\U{1F}'
  const NORMALIZATION_VERSION: u32 := 1

  /** Libraries the verifier calls: the JSON decoder, the integer parser, the UTF-8 encoder, and the
      keyed digest of a message. */
  datatype Env = Env(decode: string -> Option<Json>, parseInt: string -> Option<int>,
                     encode: string -> bytes, mac: (bytes, bytes) -> string)

  datatype Context = Context(keys: map<int, bytes>, tenants: seq<string>, env: Env)

  function Digest(ctx: Context, keyVersion: int, tenant: string, targetClass: string, aliasKind: string, value: string): string
    requires keyVersion in ctx.keys
  {
    var e := ctx.env.encode;
    ctx.env.mac(ctx.keys[keyVersion],
                SuppressionMessage([e(tenant), e(targetClass), e(aliasKind), e(value)], NORMALIZATION_VERSION))
  }

  function Pk(tenant: string, targetClass: string, digest: string): string {
    tenant + [SEP] + targetClass + [SEP] + digest
  }

  /** An identity: tenant and name within the tenant. */
  type Identity = (string, string)

  function PhysicalIdentity(value: string, tenants: seq<string>): Option<Identity> {
    var matches := Filter(tenants, (t: string) => t + [SEP] <= value);
    if |matches| != 1 || |value| <= |matches[0]| + 1 then None
    else Some((matches[0], value[|matches[0]| + 1..]))
  }

  // ---------- The tenants a row names ----------

  function Both(a: Option<set<string>>, b: Option<set<string>>): Option<set<string>> {
    match (a, b)
    case (Some(x), Some(y)) => Some(x + y)
    case _ => None
  }

  /** A text with a separator must start with a known tenant and continue after it. */
  function PrefixTenant(s: string, tenants: seq<string>): Option<set<string>> {
    var n := FirstIndex(s, SEP);
    if n == |s| then Some({})
    else if n + 1 == |s| || s[..n] !in tenants then None
    else Some({s[..n]})
  }

  /** Looking for a separator in a list or an object looks at its entries or names; finding one there,
      or looking in anything else that is not a text, is an error. */
  function PrefixTenantOf(value: Json, tenants: seq<string>): Option<set<string>> {
    match value
    case JString(s) => PrefixTenant(s, tenants)
    case JArray(items) => if JString([SEP]) in items then None else Some({})
    case JObject(fields) => if [SEP] in Names(fields) then None else Some({})
    case _ => None
  }

  function PrefixTenants(values: seq<Json>, tenants: seq<string>): Option<set<string>> {
    if values == [] then Some({}) else Both(PrefixTenantOf(values[0], tenants), PrefixTenants(values[1..], tenants))
  }

  function KnownTenant(s: string, tenants: seq<string>): Option<set<string>> {
    if s in tenants then Some({s}) else None
  }

  function JsonTenants(v: Json, tenants: seq<string>): Option<set<string>>
    decreases v
  {
    match v
    case JObject(fields) =>
      if forall i :: 0 <= i < |fields| ==> FieldTenants(fields[i].0, fields[i].1, JsonTenants(fields[i].1, tenants), tenants).Some? then
        Some(set i, t | 0 <= i < |fields| && t in FieldTenants(fields[i].0, fields[i].1, JsonTenants(fields[i].1, tenants), tenants).value :: t)
      else None
    case JArray(items) =>
      if forall i :: 0 <= i < |items| ==> JsonTenants(items[i], tenants).Some? then
        Some(set i, t | 0 <= i < |items| && t in JsonTenants(items[i], tenants).value :: t)
      else None
    case JString(s) => PrefixTenant(s, tenants)
    case _ => Some({})
  }

  function FieldTenants(name: string, entry: Json, inner: Option<set<string>>, tenants: seq<string>): Option<set<string>> {
    if name in {"tenant", "tenant_id"} && entry.JString? then Both(KnownTenant(entry.s, tenants), inner) else inner
  }

  function TenantAttribute(ctx: Context, item: Item, name: string): Option<set<string>> {
    var value := AttrString(item, name);
    if value.Raises? then None
    else if NonEmpty(value) then KnownTenant(value.value, ctx.tenants)
    else Some({})
  }

  function PrefixAttribute(ctx: Context, item: Item, name: string): Option<set<string>> {
    match AttrStrings(item, name)
    case Some(values) => PrefixTenants(values, ctx.tenants)
    case None => None
  }

  function JsonAttribute(ctx: Context, item: Item, name: string): Option<set<string>> {
    var encoded := AttrString(item, name);
    if encoded.Raises? then None
    else if !NonEmpty(encoded) then Some({})
    else match ctx.env.decode(encoded.value)
      case Some(v) => JsonTenants(v, ctx.tenants)
      case None => None
  }

  /** Where a row can name a tenant: in an attribute, as its prefix, or inside its decoded JSON. */
  datatype Place = Whole(name: string) | Prefix(name: string) | Encoded(name: string)

  const PLACES: seq<Place> :=
    [Whole("tenant"), Whole("tenant_id"),
     Prefix("binding_id"), Prefix("client_id"), Prefix("credential_id"), Prefix("email"),
     Prefix("grant_id"), Prefix("pk"), Prefix("tenant_kind"), Prefix("user_id"),
     Encoded("grant_json"), Encoded("record"), Encoded("record_json")]

  function TenantsAt(ctx: Context, item: Item, place: Place): Option<set<string>> {
    match place
    case Whole(name) => TenantAttribute(ctx, item, name)
    case Prefix(name) => PrefixAttribute(ctx, item, name)
    case Encoded(name) => JsonAttribute(ctx, item, name)
  }

  function TenantsAtAll(ctx: Context, item: Item, places: seq<Place>): Option<set<string>> {
    if places == [] then Some({})
    else Both(TenantsAt(ctx, item, places[0]), TenantsAtAll(ctx, item, places[1..]))
  }

  /** Every tenant the row names. */
  function ItemTenants(ctx: Context, item: Item): Option<set<string>> {
    TenantsAtAll(ctx, item, PLACES)
  }

  /** The one tenant that was found, if there is exactly one. */
  function TheOnly(found: Option<set<string>>, tenants: seq<string>): Option<string> {
    if tenants == [] then None
    else if found == Some({tenants[0]}) then Some(tenants[0])
    else TheOnly(found, tenants[1..])
  }

  /** The one tenant the row belongs to, if it names exactly one. */
  function OwnerOf(ctx: Context, item: Item): Option<string> {
    TheOnly(ItemTenants(ctx, item), ctx.tenants)
  }

  lemma {:induction false} TheOnlyIs(found: Option<set<string>>, tenants: seq<string>, t: string)
    ensures TheOnly(found, tenants) == Some(t) <==> t in tenants && found == Some({t})
  {
    if tenants == [] {
    } else {
      TheOnlyIs(found, tenants[1..], t);
      assert tenants == [tenants[0]] + tenants[1..];
      if found == Some({tenants[0]}) && found == Some({t}) {
        assert t in {tenants[0]};
      }
    }
  }

  lemma OwnerIsTheOnlyTenant(ctx: Context, item: Item, t: string)
    ensures OwnerOf(ctx, item) == Some(t) <==> t in ctx.tenants && ItemTenants(ctx, item) == Some({t})
  {
    TheOnlyIs(ItemTenants(ctx, item), ctx.tenants, t);
  }

  // ---------- Suppression rows ----------

  datatype Suppression = Suppression(tenant: string, targetClass: string, digest: string)

  datatype SuppressionRow =
    | BadSuppression
    | Head(pk: string)
    | Epoch(record: Suppression, keyVersion: int, floatVersion: bool)

  const RECORD_FIELDS: set<string> :=
    {"tenant_id", "target_class", "key_version", "normalization_version", "digest", "target_epoch", "created_at"}

  function ReadRecord(ctx: Context, fields: seq<(string, Json)>, pk: string, epoch: int): SuppressionRow {
    var tenant, targetClass, digest :=
      Lookup(fields, "tenant_id"), Lookup(fields, "target_class"), Lookup(fields, "digest");
    var keyVersion, version := AsInt(Lookup(fields, "key_version")), Lookup(fields, "normalization_version");
    if Names(fields) != RECORD_FIELDS
       || !tenant.JString? || tenant.s == "" || tenant.s !in ctx.tenants
       || (targetClass != JString("tenant") && targetClass != JString("user"))
       || keyVersion.None? || keyVersion.value !in ctx.keys
       || !EqualsInt(version, NORMALIZATION_VERSION)
       || !digest.JString? || digest.s == ""
       || !EqualsInt(Lookup(fields, "target_epoch"), epoch)
       || pk != Pk(tenant.s, targetClass.s, digest.s)
    then BadSuppression
    else if targetClass.s == "tenant"
            && (version.JFloat? || Digest(ctx, keyVersion.value, tenant.s, "tenant", "tenant_id", tenant.s) != digest.s)
    then BadSuppression
    else Epoch(Suppression(tenant.s, targetClass.s, digest.s), keyVersion.value, version.JFloat?)
  }

  /** The decoded record of an epoch row: it has the seven fields and names the row's epoch, the record
      read from it, and the key it was written under. */
  ghost predicate DecodesTo(ctx: Context, item: Item, epoch: int, row: SuppressionRow)
    requires row.Epoch?
  {
    var encoded := AttrString(item, "record");
    && NonEmpty(encoded)
    && var decoded := ctx.env.decode(encoded.value);
    && decoded.Some? && decoded.value.JObject?
    && var fields := decoded.value.fields;
    && Names(fields) == RECORD_FIELDS
    && Lookup(fields, "tenant_id") == JString(row.record.tenant)
    && Lookup(fields, "target_class") == JString(row.record.targetClass)
    && Lookup(fields, "digest") == JString(row.record.digest)
    && AsInt(Lookup(fields, "key_version")) == Some(row.keyVersion)
    && EqualsInt(Lookup(fields, "normalization_version"), NORMALIZATION_VERSION)
    && Lookup(fields, "normalization_version").JFloat? == row.floatVersion
    && EqualsInt(Lookup(fields, "target_epoch"), epoch)
  }

  /** A record that can be trusted under the configured tenants and keys. */
  ghost predicate IsTrusted(ctx: Context, row: SuppressionRow)
    requires row.Epoch?
  {
    var s := row.record;
    && s.tenant in ctx.tenants && s.tenant != "" && s.digest != "" && row.keyVersion in ctx.keys
    && (s.targetClass == "user"
        || (s.targetClass == "tenant" && !row.floatVersion
            && s.digest == Digest(ctx, row.keyVersion, s.tenant, "tenant", "tenant_id", s.tenant)))
  }

  /** A head is filed under epoch 0, an epoch under its own number and the key of its record. */
  ghost predicate IsFiled(ctx: Context, item: Item, row: SuppressionRow) {
    var pk, epoch := AttrString(item, "pk"), AttrNumber(item, "epoch", ctx.env.parseInt);
    match row
    case BadSuppression => false
    case Head(key) =>
      key != "" && pk == Got(key) && epoch == Got(0) && AttrString(item, "record_type") == Got("suppression_head")
    case Epoch(s, _, _) =>
      && pk == Got(Pk(s.tenant, s.targetClass, s.digest))
      && epoch.Got? && epoch.value > 0 && DecodesTo(ctx, item, epoch.value, row)
  }

  function ReadSuppression(ctx: Context, item: Item): (r: SuppressionRow)
    ensures r.Epoch? ==> IsTrusted(ctx, r)
    ensures !r.BadSuppression? ==> IsFiled(ctx, item, r)
  {
    var pk, epoch := AttrString(item, "pk"), AttrNumber(item, "epoch", ctx.env.parseInt);
    if !NonEmpty(pk) || !epoch.Got? || epoch.value < 0 then BadSuppression
    else if epoch.value == 0 then
      if AttrString(item, "record_type") == Got("suppression_head") then Head(pk.value) else BadSuppression
    else
      var encoded := AttrString(item, "record");
      if !NonEmpty(encoded) then BadSuppression
      else match ctx.env.decode(encoded.value)
        case Some(JObject(fields)) => ReadRecord(ctx, fields, pk.value, epoch.value)
        case _ => BadSuppression
  }

  /** Nothing else is refused: what is filed and can be trusted is read. */
  lemma FiledIsRead(ctx: Context, item: Item, row: SuppressionRow)
    ensures IsFiled(ctx, item, row) && (row.Epoch? ==> IsTrusted(ctx, row)) <==>
      row == ReadSuppression(ctx, item) && !row.BadSuppression?
  {
  }

  // ---------- Lifecycle rows ----------

  datatype LifecycleRow = NoLifecycle | BadLifecycle | Lifecycle(tenant: string, state: string)

  function ReadLifecycle(ctx: Context, item: Item): LifecycleRow {
    var recordType, encoded := AttrString(item, "record_type"), AttrString(item, "record");
    if recordType.Raises? then BadLifecycle
    else if recordType != Got("tenant_lifecycle") then NoLifecycle
    else if !NonEmpty(encoded) then BadLifecycle
    else match ctx.env.decode(encoded.value)
      case Some(JObject(fields)) =>
        var tenant, state := Lookup(fields, "tenant_id"), Lookup(fields, "state");
        if !tenant.JString? || tenant.s == "" || tenant.s !in ctx.tenants
           || (state != JString("active") && state != JString("offboarding"))
           || AttrString(item, "pk") != Got(tenant.s) || AttrString(item, "sk") != Got("LIFECYCLE")
        then BadLifecycle
        else Lifecycle(tenant.s, state.s)
      case _ => BadLifecycle
  }

  // ---------- Restored rows ----------

  predicate RecordsOffboarding(fields: seq<(string, Json)>, tenant: string) {
    && Lookup(fields, "tenant_id") == JString(tenant)
    && Lookup(fields, "lifecycle") == JString("offboarded")
    && Lookup(fields, "served_snapshot") == JNull
    && Lookup(fields, "operation") == JNull
    && Lookup(fields, "last_failure") == JNull
    && ("pending_deletion_arns" !in Names(fields) || Lookup(fields, "pending_deletion_arns") == JArray([]))
    && var operation := Lookup(fields, "offboarding_operation_id");
    operation.JString? && operation.s != ""
  }

  /** A key row that only records a finished offboarding. Its JSON has been decoded before. */
  predicate IsControlOnly(ctx: Context, item: Item, tenant: string) {
    var encoded := AttrString(item, "record_json");
    && NonEmpty(encoded)
    && match ctx.env.decode(encoded.value)
       case Some(JObject(fields)) => RecordsOffboarding(fields, tenant)
       case _ => false
  }

  predicate IsAlnum(c: char) {
    'a' <= c <= 'z' || 'A' <= c <= 'Z' || '0' <= c <= '9'
  }

  /** An audit event that outlives its tenant. */
  predicate IsRetainedEvent(item: Item) {
    var event, tenant := AttrString(item, "event_id"), AttrString(item, "tenant_id");
    && NonEmpty(event) && |event.value| <= 64
    && (forall i :: 0 <= i < |event.value| ==> IsAlnum(event.value[i]) || event.value[i] in "-_.")
    && NonEmpty(tenant) && |tenant.value| <= 63
    && forall i :: 0 <= i < |tenant.value| ==> IsAlnum(tenant.value[i]) || tenant.value[i] == '-'
  }

  type Alias = (string, string)

  datatype UserRow = BadUser | Canonical(id: Identity, aliases: set<Alias>) | Secondary(refersTo: set<Identity>)

  function TextAlias(item: Item, kind: string): Option<set<Alias>> {
    var value := AttrString(item, kind);
    if value.Raises? then None else Some(if NonEmpty(value) then {(kind, value.value)} else {})
  }

  function EmailAlias(ctx: Context, item: Item, tenant: string): Option<set<Alias>> {
    var email := AttrString(item, "email");
    if email.Raises? then None
    else if !NonEmpty(email) then Some({})
    else match PhysicalIdentity(email.value, ctx.tenants)
      case Some((owner, logical)) => if owner == tenant then Some({("email", logical)}) else None
      case None => None
  }

  function ReadUser(ctx: Context, item: Item): UserRow {
    var recordType := AttrString(item, "record_type");
    if recordType.Raises? then BadUser
    else if recordType.Absent? then
      var physical := AttrString(item, "user_id");
      if !NonEmpty(physical) then BadUser
      else match PhysicalIdentity(physical.value, ctx.tenants)
        case None => BadUser
        case Some(id) =>
          match (EmailAlias(ctx, item, id.0), TextAlias(item, "scim_external_id"), TextAlias(item, "scim_user_name"))
          case (Some(a), Some(b), Some(c)) => Canonical(id, {("canonical_id", id.1)} + a + b + c)
          case _ => BadUser
    else
      var canonical := AttrString(item, "canonical_user_id");
      if canonical.Raises? then BadUser
      else if !NonEmpty(canonical) then Secondary({})
      else match PhysicalIdentity(canonical.value, ctx.tenants)
        case Some(id) => Secondary({id})
        case None => BadUser
  }

  function ReadCredential(ctx: Context, item: Item): Option<set<Identity>> {
    var user := AttrString(item, "user_id");
    if !NonEmpty(user) then None
    else match PhysicalIdentity(user.value, ctx.tenants)
      case Some(id) => Some({id})
      case None => None
  }

  function ReadGrant(ctx: Context, item: Item): Option<set<Identity>> {
    var encoded, physical := AttrString(item, "grant_json"), AttrString(item, "user_id");
    if !NonEmpty(encoded) || !NonEmpty(physical) then None
    else match (ctx.env.decode(encoded.value), PhysicalIdentity(physical.value, ctx.tenants))
      case (Some(JObject(grant)), Some(id)) =>
        if Lookup(grant, "user_id") == JString(id.1) then Some({id}) else None
      case _ => None
  }

  /** Empty members are skipped. A member that is neither empty nor a text is no user's name; the row
      is refused, as the reference would never resolve. */
  function ReadGroup(ctx: Context, item: Item): Option<set<Identity>> {
    match AttrStrings(item, "members")
    case None => None
    case Some(members) =>
      if members == [] then Some({})
      else match OwnerOf(ctx, item)
        case None => None
        case Some(tenant) =>
          if exists m :: m in members && IsTrue(m) && !m.JString? then None
          else Some(set m | m in members && m.JString? && m.s != "" :: (tenant, m.s))
  }

  function ReadAdmin(item: Item): Option<set<Identity>> {
    var tenant := AttrString(item, "tenant_id");
    if NonEmpty(tenant) && AttrString(item, "record_type") == Got("config")
       && AttrString(item, "key") == Got("config#" + tenant.value)
    then Some({}) else None
  }

  /** The users a row of the role refers to; `None` when the row is refused. */
  function ReadReferences(ctx: Context, role: string, item: Item): Option<set<Identity>> {
    if role == "admin_auth" then ReadAdmin(item)
    else if role == "passkeys" || role == "password_credentials" then ReadCredential(ctx, item)
    else if role == "grants" then ReadGrant(ctx, item)
    else if role == "scim_groups" then ReadGroup(ctx, item)
    else if role == "users" then
      match ReadUser(ctx, item)
      case BadUser => None
      case Canonical(_, _) => Some({})
      case Secondary(refersTo) => Some(refersTo)
    else Some({})
  }
}

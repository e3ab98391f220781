/** The multi-pass check of a restore candidate, and when exactly it lets a cutover go ahead. */
module RestoreCutover {
  import opened DynamoItems
  import opened Framing
  import opened Lists
  import opened RestoreRows
  import opened Wrappers

  const ROLES: seq<string> :=
    ["admin_auth", "clients", "domain_map", "federation_config", "grants", "passkeys", "password_credentials",
     "scim_groups", "security_events", "tenant_keys", "users", "workload_trust"]

  const RETAINED_ROLE: string := "security_events"

  /** A scan that is malformed or was not read to the end is unusable. */
  datatype Scan = Complete(items: seq<Item>) | Unusable

  datatype Manifest = Manifest(schemaVersion: int, tenants: seq<string>, governance: Scan, suppressions: Scan,
                               restored: map<string, Scan>)

  predicate ManifestIsValid(m: Manifest, keys: map<int, bytes>) {
    && m.schemaVersion == 1
    && m.tenants != [] && "" !in m.tenants && Distinct(m.tenants)
    && m.restored.Keys == (set role | role in ROLES)
    && keys != map[]
    && m.governance.Complete? && m.suppressions.Complete?
    && forall role :: role in m.restored ==> m.restored[role].Complete?
  }

  function Rows(m: Manifest, role: string): seq<Item> {
    if role in m.restored && m.restored[role].Complete? then m.restored[role].items else []
  }

  // ---------- The control tables ----------

  ghost predicate HasHead(ctx: Context, items: seq<Item>, pk: string) {
    exists x :: x in items && ReadSuppression(ctx, x) == Head(pk)
  }

  ghost predicate IsEpochOf(ctx: Context, x: Item, keyVersion: int) {
    ReadSuppression(ctx, x).Epoch? && ReadSuppression(ctx, x).keyVersion == keyVersion
  }

  ghost predicate Recorded(ctx: Context, items: seq<Item>, s: Suppression) {
    exists x :: x in items && ReadSuppression(ctx, x).Epoch? && ReadSuppression(ctx, x).record == s
  }

  ghost predicate KeyInUse(ctx: Context, items: seq<Item>, keyVersion: int) {
    exists x :: x in items && IsEpochOf(ctx, x, keyVersion)
  }

  /** Equal version numbers are one set member, and the first one added stays. */
  ghost predicate FirstIsFloat(ctx: Context, items: seq<Item>, keyVersion: int) {
    exists i :: 0 <= i < |items| && IsEpochOf(ctx, items[i], keyVersion) && ReadSuppression(ctx, items[i]).floatVersion
                && forall j :: 0 <= j < i ==> !IsEpochOf(ctx, items[j], keyVersion)
  }

  ghost predicate SuppressionsAreValid(ctx: Context, items: seq<Item>) {
    && (forall x :: x in items ==> !ReadSuppression(ctx, x).BadSuppression?)
    && forall s: Suppression :: Recorded(ctx, items, s) ==> HasHead(ctx, items, Pk(s.tenant, s.targetClass, s.digest))
  }

  function TenantReader(ctx: Context): Item -> Option<string> {
    (x: Item) => match ReadLifecycle(ctx, x) case Lifecycle(t, _) => Some(t) case _ => None
  }

  function LifecycleTenants(ctx: Context, items: seq<Item>): seq<string> {
    Gather(items, TenantReader(ctx))
  }

  ghost predicate LifecyclesAreValid(ctx: Context, items: seq<Item>) {
    && (forall x :: x in items ==> !ReadLifecycle(ctx, x).BadLifecycle?)
    && Distinct(LifecycleTenants(ctx, items))
  }

  ghost predicate HasState(ctx: Context, items: seq<Item>, tenant: string, state: string) {
    exists x :: x in items && ReadLifecycle(ctx, x) == Lifecycle(tenant, state)
  }

  datatype Suppressions = Suppressions(records: set<Suppression>, heads: set<string>, versions: map<int, bool>)

  ghost predicate Collected(ctx: Context, items: seq<Item>, s: Suppressions) {
    && (forall r: Suppression :: r in s.records <==> Recorded(ctx, items, r))
    && (forall pk :: pk in s.heads <==> HasHead(ctx, items, pk))
    && (forall k :: k in s.versions <==> KeyInUse(ctx, items, k))
    && (forall k :: k in s.versions ==> (s.versions[k] <==> FirstIsFloat(ctx, items, k)))
  }

  function AddRow(s: Suppressions, row: SuppressionRow): Suppressions {
    match row
    case BadSuppression => s
    case Head(pk) => s.(heads := s.heads + {pk})
    case Epoch(r, k, isFloat) =>
      s.(records := s.records + {r}, versions := if k in s.versions then s.versions else s.versions[k := isFloat])
  }

  method ParseSuppressions(ctx: Context, items: seq<Item>) returns (r: Option<Suppressions>)
    ensures r.Some? <==> SuppressionsAreValid(ctx, items)
    ensures r.Some? ==> Collected(ctx, items, r.value)
  {
    var s := Suppressions({}, {}, map[]);
    for i := 0 to |items|
      invariant forall x :: x in items[..i] ==> !ReadSuppression(ctx, x).BadSuppression?
      invariant Collected(ctx, items[..i], s)
    {
      var row := ReadSuppression(ctx, items[i]);
      if row.BadSuppression? {
        return None;
      }
      assert items[..i + 1] == items[..i] + [items[i]];
      RowIsCollected(ctx, items[..i], items[i], s);
      s := AddRow(s, row);
    }
    assert items[..|items|] == items;
    var missing := (set x | x in s.records :: Pk(x.tenant, x.targetClass, x.digest)) - s.heads;
    MissingHeads(ctx, items, s, missing);
    if missing != {} {
      return None;
    }
    r := Some(s);
  }

  lemma RowIsCollected(ctx: Context, items: seq<Item>, x: Item, s: Suppressions)
    requires Collected(ctx, items, s)
    ensures Collected(ctx, items + [x], AddRow(s, ReadSuppression(ctx, x)))
  {
    var more, s' := items + [x], AddRow(s, ReadSuppression(ctx, x));
    assert x in more && forall y :: y in more <==> y in items || y == x;
    forall k | k in s'.versions
      ensures s'.versions[k] <==> FirstIsFloat(ctx, more, k)
    {
      FirstFloatGrows(ctx, items, x, k);
    }
  }

  lemma FirstFloatGrows(ctx: Context, items: seq<Item>, x: Item, k: int)
    ensures FirstIsFloat(ctx, items + [x], k) <==>
      || FirstIsFloat(ctx, items, k)
      || (!KeyInUse(ctx, items, k) && IsEpochOf(ctx, x, k) && ReadSuppression(ctx, x).floatVersion)
  {
    var more := items + [x];
    assert more[|items|] == x && forall i :: 0 <= i < |items| ==> more[i] == items[i];
    assert forall i :: 0 <= i < |items| ==> items[i] in items;
  }

  lemma MissingHeads(ctx: Context, items: seq<Item>, s: Suppressions, missing: set<string>)
    requires Collected(ctx, items, s)
    requires forall x :: x in items ==> !ReadSuppression(ctx, x).BadSuppression?
    requires missing == (set x | x in s.records :: Pk(x.tenant, x.targetClass, x.digest)) - s.heads
    ensures missing == {} <==> SuppressionsAreValid(ctx, items)
  {
    if missing == {} {
      forall x: Suppression | Recorded(ctx, items, x)
        ensures HasHead(ctx, items, Pk(x.tenant, x.targetClass, x.digest))
      {
        assert x in s.records;
        assert Pk(x.tenant, x.targetClass, x.digest) !in missing;
      }
    } else {
      var pk :| pk in missing;
      var x :| x in s.records && pk == Pk(x.tenant, x.targetClass, x.digest);
      assert Recorded(ctx, items, x) && !HasHead(ctx, items, pk);
    }
  }

  method ParseLifecycles(ctx: Context, items: seq<Item>) returns (r: Option<map<string, string>>)
    ensures r.Some? <==> LifecyclesAreValid(ctx, items)
    ensures r.Some? ==> forall t, state :: (t in r.value && r.value[t] == state) <==> HasState(ctx, items, t, state)
  {
    var lifecycles: map<string, string> := map[];
    for i := 0 to |items|
      invariant LifecyclesAreValid(ctx, items[..i])
      invariant forall t :: t in lifecycles <==> t in LifecycleTenants(ctx, items[..i])
      invariant forall t, state :: (t in lifecycles && lifecycles[t] == state) <==> HasState(ctx, items[..i], t, state)
    {
      var row := ReadLifecycle(ctx, items[i]);
      LifecyclesGrow(ctx, items, i);
      if row.BadLifecycle? || (row.Lifecycle? && row.tenant in lifecycles) {
        return None;
      }
      if row.Lifecycle? {
        lifecycles := lifecycles[row.tenant := row.state];
      }
    }
    assert items[..|items|] == items;
    r := Some(lifecycles);
  }

  lemma LifecyclesGrow(ctx: Context, items: seq<Item>, i: nat)
    requires i < |items|
    ensures var row, before, after := ReadLifecycle(ctx, items[i]), items[..i], items[..i + 1];
      && (LifecyclesAreValid(ctx, after) <==>
            LifecyclesAreValid(ctx, before) && !row.BadLifecycle?
            && (row.Lifecycle? ==> row.tenant !in LifecycleTenants(ctx, before)))
      && (forall t :: t in LifecycleTenants(ctx, after) <==>
            t in LifecycleTenants(ctx, before) || (row.Lifecycle? && row.tenant == t))
      && (forall t, state :: HasState(ctx, after, t, state) <==>
            HasState(ctx, before, t, state) || row == Lifecycle(t, state))
    ensures LifecyclesAreValid(ctx, items) ==> LifecyclesAreValid(ctx, items[..i + 1])
  {
    var before, after := items[..i], items[..i + 1];
    assert after == before + [items[i]];
    assert forall y :: y in after <==> y in before || y == items[i];
    GatherSnoc(items, i, TenantReader(ctx));
    if ReadLifecycle(ctx, items[i]).Lifecycle? {
      DistinctSnoc(LifecycleTenants(ctx, before), ReadLifecycle(ctx, items[i]).tenant);
    }
    PrefixIsValid(ctx, items, i + 1);
  }

  lemma PrefixIsValid(ctx: Context, items: seq<Item>, n: nat)
    requires n <= |items|
    ensures LifecyclesAreValid(ctx, items) ==> LifecyclesAreValid(ctx, items[..n])
  {
    GatherPrefix(items[..n], items, TenantReader(ctx));
    if Distinct(LifecycleTenants(ctx, items)) {
      PrefixIsDistinct(LifecycleTenants(ctx, items[..n]), LifecycleTenants(ctx, items));
    }
  }

  // ---------- The restored tables ----------

  /** A row of a live role belongs to one tenant; audit events are only checked for their form. */
  predicate RowIsOwned(ctx: Context, role: string, item: Item) {
    if role == RETAINED_ROLE then IsRetainedEvent(item) else OwnerOf(ctx, item).Some?
  }

  predicate IsLive(ctx: Context, role: string, item: Item, tenant: string) {
    && role != RETAINED_ROLE && OwnerOf(ctx, item) == Some(tenant)
    && !(role == "tenant_keys" && IsControlOnly(ctx, item, tenant))
  }

  function LiveRows(ctx: Context, role: string, items: seq<Item>, tenant: string): nat {
    if items == [] then 0
    else
      var n := |items| - 1;
      LiveRows(ctx, role, items[..n], tenant) + if IsLive(ctx, role, items[n], tenant) then 1 else 0
  }

  /** The live rows of a tenant, role by role. */
  function LiveCounts(ctx: Context, m: Manifest, roles: seq<string>, tenant: string): seq<nat> {
    seq(|roles|, k requires 0 <= k < |roles| => LiveRows(ctx, roles[k], Rows(m, roles[k]), tenant))
  }

  ghost predicate HasLiveRow(ctx: Context, m: Manifest, tenant: string) {
    exists role, x :: role in ROLES && x in Rows(m, role) && IsLive(ctx, role, x, tenant)
  }

  ghost predicate RowsAreOwned(ctx: Context, m: Manifest) {
    forall role, x :: role in ROLES && x in Rows(m, role) ==> RowIsOwned(ctx, role, x)
  }

  ghost predicate RowsAreRead(ctx: Context, m: Manifest) {
    forall role, x :: role in ROLES && x in Rows(m, role) ==> ReadReferences(ctx, role, x).Some?
  }

  function IdReader(ctx: Context): Item -> Option<Identity> {
    (x: Item) => match ReadUser(ctx, x) case Canonical(id, _) => Some(id) case _ => None
  }

  function CanonicalIds(ctx: Context, users: seq<Item>): seq<Identity> {
    Gather(users, IdReader(ctx))
  }

  ghost predicate InventoryIsValid(ctx: Context, m: Manifest) {
    RowsAreOwned(ctx, m) && RowsAreRead(ctx, m) && Distinct(CanonicalIds(ctx, Rows(m, "users")))
  }

  ghost predicate RefersTo(ctx: Context, role: string, items: seq<Item>, id: Identity) {
    exists x :: x in items && ReadReferences(ctx, role, x).Some? && id in ReadReferences(ctx, role, x).value
  }

  ghost predicate IsReferenced(ctx: Context, m: Manifest, id: Identity) {
    exists role :: role in ROLES && RefersTo(ctx, role, Rows(m, role), id)
  }

  ghost predicate IsCanonical(ctx: Context, users: seq<Item>, id: Identity, aliases: set<Alias>) {
    exists x :: x in users && ReadUser(ctx, x) == Canonical(id, aliases)
  }

  ghost predicate Counted(ctx: Context, m: Manifest, roles: seq<string>, live: map<string, nat>, k: nat)
    requires k <= |roles|
  {
    forall t :: t in ctx.tenants ==> t in live && live[t] == Sum(LiveCounts(ctx, m, roles, t)[..k])
  }

  method CountLive(ctx: Context, m: Manifest, roles: seq<string>) returns (r: Option<map<string, nat>>)
    ensures r.Some? <==> forall role, x :: role in roles && x in Rows(m, role) ==> RowIsOwned(ctx, role, x)
    ensures r.Some? ==> forall t :: t in ctx.tenants ==> t in r.value && r.value[t] == Sum(LiveCounts(ctx, m, roles, t))
  {
    var live: map<string, nat> := map t | t in ctx.tenants :: 0;
    for k := 0 to |roles|
      invariant forall j, x :: 0 <= j < k && x in Rows(m, roles[j]) ==> RowIsOwned(ctx, roles[j], x)
      invariant Counted(ctx, m, roles, live, k)
    {
      var counted := CountRole(ctx, roles[k], Rows(m, roles[k]), live);
      if counted.None? {
        return None;
      }
      CountedGrows(ctx, m, roles, live, counted.value, k);
      live := counted.value;
    }
    CountedAll(ctx, m, roles, live);
    r := Some(live);
  }

  lemma CountedGrows(ctx: Context, m: Manifest, roles: seq<string>, live: map<string, nat>, live': map<string, nat>, k: nat)
    requires k < |roles| && Counted(ctx, m, roles, live, k)
    requires forall t :: t in ctx.tenants ==>
      t in live' && live'[t] == live[t] + LiveRows(ctx, roles[k], Rows(m, roles[k]), t)
    ensures Counted(ctx, m, roles, live', k + 1)
  {
    forall t | t in ctx.tenants
      ensures live'[t] == Sum(LiveCounts(ctx, m, roles, t)[..k + 1])
    {
      SumGrows(LiveCounts(ctx, m, roles, t), k);
    }
  }

  lemma CountedAll(ctx: Context, m: Manifest, roles: seq<string>, live: map<string, nat>)
    requires Counted(ctx, m, roles, live, |roles|)
    ensures forall t :: t in ctx.tenants ==> t in live && live[t] == Sum(LiveCounts(ctx, m, roles, t))
  {
    assert forall t :: LiveCounts(ctx, m, roles, t)[..|roles|] == LiveCounts(ctx, m, roles, t);
  }

  method CountRole(ctx: Context, role: string, items: seq<Item>, before: map<string, nat>) returns (r: Option<map<string, nat>>)
    requires forall t :: t in ctx.tenants ==> t in before
    ensures r.Some? <==> forall x :: x in items ==> RowIsOwned(ctx, role, x)
    ensures r.Some? ==> forall t :: t in ctx.tenants ==> t in r.value && r.value[t] == before[t] + LiveRows(ctx, role, items, t)
  {
    var live := before;
    for i := 0 to |items|
      invariant forall x :: x in items[..i] ==> RowIsOwned(ctx, role, x)
      invariant forall t :: t in ctx.tenants ==> t in live && live[t] == before[t] + LiveRows(ctx, role, items[..i], t)
    {
      var item := items[i];
      RoleGrows(ctx, role, items, i);
      if !RowIsOwned(ctx, role, item) {
        return None;
      }
      if role != RETAINED_ROLE {
        var tenant := OwnerOf(ctx, item).value;
        OwnerIsTheOnlyTenant(ctx, item, tenant);
        if !(role == "tenant_keys" && IsControlOnly(ctx, item, tenant)) {
          live := live[tenant := live[tenant] + 1];
        }
      }
    }
    assert items[..|items|] == items;
    r := Some(live);
  }

  lemma RoleGrows(ctx: Context, role: string, items: seq<Item>, i: nat)
    requires i < |items|
    ensures items[i] in items
    ensures forall x :: x in items[..i + 1] <==> x in items[..i] || x == items[i]
    ensures forall t :: LiveRows(ctx, role, items[..i + 1], t) ==
                        LiveRows(ctx, role, items[..i], t) + if IsLive(ctx, role, items[i], t) then 1 else 0
  {
    assert items[..i + 1] == items[..i] + [items[i]] && items[..i + 1][..i] == items[..i];
  }

  lemma {:induction false} SomeLiveRow(ctx: Context, role: string, items: seq<Item>, tenant: string)
    ensures LiveRows(ctx, role, items, tenant) > 0 <==> exists x :: x in items && IsLive(ctx, role, x, tenant)
  {
    if items == [] {
    } else {
      var n := |items| - 1;
      SomeLiveRow(ctx, role, items[..n], tenant);
      assert items == items[..n] + [items[n]];
    }
  }

  method CollectReferences(ctx: Context, m: Manifest, roles: seq<string>) returns (r: Option<set<Identity>>)
    ensures r.Some? <==> forall role, x :: role in roles && x in Rows(m, role) ==> ReadReferences(ctx, role, x).Some?
    ensures r.Some? ==> forall id :: id in r.value <==> exists role :: role in roles && RefersTo(ctx, role, Rows(m, role), id)
  {
    var references := {};
    for k := 0 to |roles|
      invariant forall j, x :: 0 <= j < k && x in Rows(m, roles[j]) ==> ReadReferences(ctx, roles[j], x).Some?
      invariant forall id :: id in references <==> exists j :: 0 <= j < k && RefersTo(ctx, roles[j], Rows(m, roles[j]), id)
    {
      var found := RoleReferences(ctx, roles[k], Rows(m, roles[k]));
      if found.None? {
        return None;
      }
      references := references + found.value;
    }
    r := Some(references);
  }

  method RoleReferences(ctx: Context, role: string, items: seq<Item>) returns (r: Option<set<Identity>>)
    ensures r.Some? <==> forall x :: x in items ==> ReadReferences(ctx, role, x).Some?
    ensures r.Some? ==> forall id :: id in r.value <==> RefersTo(ctx, role, items, id)
  {
    var references := {};
    for i := 0 to |items|
      invariant forall x :: x in items[..i] ==> ReadReferences(ctx, role, x).Some?
      invariant forall id :: id in references <==> RefersTo(ctx, role, items[..i], id)
    {
      var found := ReadReferences(ctx, role, items[i]);
      assert items[..i + 1] == items[..i] + [items[i]];
      if found.None? {
        return None;
      }
      references := references + found.value;
    }
    assert items[..|items|] == items;
    r := Some(references);
  }

  method CollectAliases(ctx: Context, users: seq<Item>) returns (r: Option<map<Identity, set<Alias>>>)
    requires forall x :: x in users ==> !ReadUser(ctx, x).BadUser?
    ensures r.Some? <==> Distinct(CanonicalIds(ctx, users))
    ensures r.Some? ==> forall id, a :: (id in r.value && r.value[id] == a) <==> IsCanonical(ctx, users, id, a)
  {
    var aliases: map<Identity, set<Alias>> := map[];
    for i := 0 to |users|
      invariant Distinct(CanonicalIds(ctx, users[..i]))
      invariant forall id :: id in aliases <==> id in CanonicalIds(ctx, users[..i])
      invariant forall id, a :: (id in aliases && aliases[id] == a) <==> IsCanonical(ctx, users[..i], id, a)
    {
      UsersGrow(ctx, users, i);
      match ReadUser(ctx, users[i])
      case Canonical(id, a) =>
        if id in aliases {
          return None;
        }
        aliases := aliases[id := a];
      case _ =>
    }
    assert users[..|users|] == users;
    r := Some(aliases);
  }

  lemma UsersGrow(ctx: Context, users: seq<Item>, i: nat)
    requires i < |users|
    ensures var row, before, after := ReadUser(ctx, users[i]), users[..i], users[..i + 1];
      && (Distinct(CanonicalIds(ctx, after)) <==>
            Distinct(CanonicalIds(ctx, before)) && (row.Canonical? ==> row.id !in CanonicalIds(ctx, before)))
      && (forall id :: id in CanonicalIds(ctx, after) <==>
            id in CanonicalIds(ctx, before) || (row.Canonical? && row.id == id))
      && (forall id, a :: IsCanonical(ctx, after, id, a) <==>
            IsCanonical(ctx, before, id, a) || row == Canonical(id, a))
    ensures Distinct(CanonicalIds(ctx, users)) ==> Distinct(CanonicalIds(ctx, users[..i + 1]))
  {
    var before, after := users[..i], users[..i + 1];
    assert after == before + [users[i]];
    assert forall y :: y in after <==> y in before || y == users[i];
    GatherSnoc(users, i, IdReader(ctx));
    GatherPrefix(after, users, IdReader(ctx));
    if ReadUser(ctx, users[i]).Canonical? {
      DistinctSnoc(CanonicalIds(ctx, before), ReadUser(ctx, users[i]).id);
    }
    if Distinct(CanonicalIds(ctx, users)) {
      PrefixIsDistinct(CanonicalIds(ctx, after), CanonicalIds(ctx, users));
    }
  }

  // ---------- The verdict ----------

  function Ctx(m: Manifest, keys: map<int, bytes>, env: Env): Context {
    Context(keys, m.tenants, env)
  }

  function SuppressionRows(m: Manifest): seq<Item> {
    if m.suppressions.Complete? then m.suppressions.items else []
  }

  function GovernanceRows(m: Manifest): seq<Item> {
    if m.governance.Complete? then m.governance.items else []
  }

  /** A tenant is to be gone: it has a tenant suppression, or it is being offboarded. */
  ghost predicate IsBlocked(ctx: Context, m: Manifest, tenant: string) {
    || (exists s :: Recorded(ctx, SuppressionRows(m), s) && s.tenant == tenant && s.targetClass == "tenant")
    || HasState(ctx, GovernanceRows(m), tenant, "offboarding")
  }

  /** The record that suppresses an alias in a tenant, under one key version. */
  function ErasureOf(ctx: Context, k: int, tenant: string, alias: Alias): Suppression
    requires k in ctx.keys
  {
    Suppression(tenant, "user", Digest(ctx, k, tenant, "user", alias.0, alias.1))
  }

  ghost predicate AliasIsErased(ctx: Context, items: seq<Item>, tenant: string, alias: Alias) {
    exists k :: k in ctx.keys && KeyInUse(ctx, items, k) && Recorded(ctx, items, ErasureOf(ctx, k, tenant, alias))
  }

  /** A user is to be gone: one of its aliases is suppressed under a key version in use. */
  ghost predicate IsErased(ctx: Context, m: Manifest, id: Identity, aliases: set<Alias>) {
    exists a: Alias :: a in aliases && AliasIsErased(ctx, SuppressionRows(m), id.0, a)
  }

  /** It is safe to cut over: blocked tenants have no live row, every user reference resolves, and no
      erased user is back. */
  ghost predicate IsSafe(ctx: Context, m: Manifest) {
    && (forall t :: t in m.tenants && IsBlocked(ctx, m, t) ==> !HasLiveRow(ctx, m, t))
    && (forall id :: IsReferenced(ctx, m, id) ==> exists a :: IsCanonical(ctx, Rows(m, "users"), id, a))
    && forall id, a :: IsCanonical(ctx, Rows(m, "users"), id, a) ==> !IsErased(ctx, m, id, a)
  }

  /** The inputs are well-formed, each scan on its own. */
  ghost predicate IsWellFormed(m: Manifest, keys: map<int, bytes>, env: Env) {
    && ManifestIsValid(m, keys)
    && SuppressionsAreValid(Ctx(m, keys, env), SuppressionRows(m))
    && LifecyclesAreValid(Ctx(m, keys, env), GovernanceRows(m))
    && InventoryIsValid(Ctx(m, keys, env), m)
  }

  /** No key version was first recorded with a float normalization version, which the digest refuses. */
  ghost predicate VersionsAreIntegers(m: Manifest, keys: map<int, bytes>, env: Env) {
    forall k :: !FirstIsFloat(Ctx(m, keys, env), SuppressionRows(m), k)
  }

  ghost predicate Passes(m: Manifest, keys: map<int, bytes>, env: Env) {
    IsWellFormed(m, keys, env) && VersionsAreIntegers(m, keys, env) && IsSafe(Ctx(m, keys, env), m)
  }

  method Verify(m: Manifest, keys: map<int, bytes>, env: Env) returns (passed: bool)
    ensures passed <==> Passes(m, keys, env)
  {
    if !ManifestIsValid(m, keys) {
      return false;
    }
    var ctx := Ctx(m, keys, env);
    var suppressions := ParseSuppressions(ctx, SuppressionRows(m));
    var lifecycles := ParseLifecycles(ctx, GovernanceRows(m));
    var inventory := CollectRestoredInventory(ctx, m);
    if suppressions.None? || lifecycles.None? || inventory.None? {
      return false;
    }
    var Inventory(aliases, references, live) := inventory.value;
    var blocked := BlockedTenants(ctx, m, suppressions.value, lifecycles.value);
    if blocked.None? {
      return false;
    }
    VersionsHaveKeys(ctx, SuppressionRows(m), suppressions.value);
    SafeIffCounted(ctx, m, suppressions.value, blocked.value, inventory.value);
    if exists t :: t in blocked.value && live[t] > 0 {
      return false;
    }
    if references - aliases.Keys != {} {
      return false;
    }
    var suppressedUsers := CountSuppressed(ctx, suppressions.value, aliases);
    passed := suppressedUsers == 0;
  }

  datatype Inventory = Inventory(aliases: map<Identity, set<Alias>>, references: set<Identity>, live: map<string, nat>)

  ghost predicate IsInventory(ctx: Context, m: Manifest, inventory: Inventory) {
    && (forall id, a :: (id in inventory.aliases && inventory.aliases[id] == a) <==> IsCanonical(ctx, Rows(m, "users"), id, a))
    && (forall id :: id in inventory.references <==> IsReferenced(ctx, m, id))
    && forall t :: t in ctx.tenants ==> t in inventory.live && inventory.live[t] == Sum(LiveCounts(ctx, m, ROLES, t))
  }

  method CollectRestoredInventory(ctx: Context, m: Manifest) returns (r: Option<Inventory>)
    ensures r.Some? <==> InventoryIsValid(ctx, m)
    ensures r.Some? ==> IsInventory(ctx, m, r.value)
  {
    var live := CountLive(ctx, m, ROLES);
    var references := CollectReferences(ctx, m, ROLES);
    if live.None? || references.None? {
      return None;
    }
    UsersAreRead(ctx, m);
    var aliases := CollectAliases(ctx, Rows(m, "users"));
    if aliases.None? {
      return None;
    }
    r := Some(Inventory(aliases.value, references.value, live.value));
  }

  /** What the last three checks look at decides whether the cutover is safe. */
  lemma SafeIffCounted(ctx: Context, m: Manifest, s: Suppressions, blocked: set<string>, i: Inventory)
    requires Collected(ctx, SuppressionRows(m), s) && IsInventory(ctx, m, i)
    requires forall k :: k in s.versions ==> k in ctx.keys
    requires forall t :: t in blocked <==> t in ctx.tenants && IsBlocked(ctx, m, t)
    requires ctx.tenants == m.tenants
    ensures IsSafe(ctx, m) <==>
      && (forall t :: t in blocked ==> i.live[t] == 0)
      && i.references - i.aliases.Keys == {}
      && |SuppressedUsers(ctx, s, i.aliases, {})| == 0
  {
    NobodyLive(ctx, m, blocked, i.live);
    NobodyDangles(ctx, m, i.references, i.aliases);
    NobodyErased(ctx, m, s, i.aliases);
  }

  lemma UsersAreRead(ctx: Context, m: Manifest)
    requires RowsAreRead(ctx, m)
    ensures forall x :: x in Rows(m, "users") ==> !ReadUser(ctx, x).BadUser?
  {
    assert ROLES[10] == "users";
    assert forall x :: x in Rows(m, "users") ==> ReadReferences(ctx, "users", x).Some?;
  }

  lemma LiveIffCounted(ctx: Context, m: Manifest, roles: seq<string>, tenant: string)
    ensures Sum(LiveCounts(ctx, m, roles, tenant)) > 0 <==>
      exists role, x :: role in roles && x in Rows(m, role) && IsLive(ctx, role, x, tenant)
  {
    SumIsPositive(LiveCounts(ctx, m, roles, tenant));
    forall k | 0 <= k < |roles|
      ensures LiveCounts(ctx, m, roles, tenant)[k] > 0 <==>
        exists x :: x in Rows(m, roles[k]) && IsLive(ctx, roles[k], x, tenant)
    {
      SomeLiveRow(ctx, roles[k], Rows(m, roles[k]), tenant);
    }
    assert forall role :: role in roles <==> exists k :: 0 <= k < |roles| && roles[k] == role;
  }

  lemma LiveIffTotal(ctx: Context, m: Manifest)
    ensures forall t :: Sum(LiveCounts(ctx, m, ROLES, t)) > 0 <==> HasLiveRow(ctx, m, t)
  {
    forall t
      ensures Sum(LiveCounts(ctx, m, ROLES, t)) > 0 <==> HasLiveRow(ctx, m, t)
    {
      LiveIffCounted(ctx, m, ROLES, t);
    }
  }

  lemma NobodyLive(ctx: Context, m: Manifest, blocked: set<string>, live: map<string, nat>)
    requires forall t :: t in blocked <==> t in m.tenants && IsBlocked(ctx, m, t)
    requires forall t :: t in m.tenants ==> t in live && live[t] == Sum(LiveCounts(ctx, m, ROLES, t))
    ensures (forall t :: t in m.tenants && IsBlocked(ctx, m, t) ==> !HasLiveRow(ctx, m, t)) <==>
      forall t :: t in blocked ==> live[t] == 0
  {
    LiveIffTotal(ctx, m);
  }

  lemma NobodyDangles(ctx: Context, m: Manifest, references: set<Identity>, aliases: map<Identity, set<Alias>>)
    requires forall id :: id in references <==> IsReferenced(ctx, m, id)
    requires forall id, a :: (id in aliases && aliases[id] == a) <==> IsCanonical(ctx, Rows(m, "users"), id, a)
    ensures (forall id :: IsReferenced(ctx, m, id) ==> exists a :: IsCanonical(ctx, Rows(m, "users"), id, a)) <==>
      references - aliases.Keys == {}
  {
    forall id
      ensures id in aliases <==> exists a :: IsCanonical(ctx, Rows(m, "users"), id, a)
    {
      assert id in aliases ==> IsCanonical(ctx, Rows(m, "users"), id, aliases[id]);
    }
    assert references - aliases.Keys == {} <==> forall id :: id in references ==> id in aliases;
  }

  predicate TenantIsSuppressed(ctx: Context, s: Suppressions, tenant: string)
    requires forall k :: k in s.versions ==> k in ctx.keys
  {
    exists k :: (
      k in s.versions
      && Suppression(tenant, "tenant", Digest(ctx, k, tenant, "tenant", "tenant_id", tenant)) in s.records)
  }

  predicate UserIsSuppressed(ctx: Context, s: Suppressions, id: Identity, aliases: set<Alias>)
    requires forall k :: k in s.versions ==> k in ctx.keys
  {
    exists a, k :: (
      a in aliases && k in s.versions
      && Suppression(id.0, "user", Digest(ctx, k, id.0, "user", a.0, a.1)) in s.records)
  }

  /** Digests are recomputed for each tenant and each version; a float version makes that fail. */
  method BlockedTenants(ctx: Context, m: Manifest, s: Suppressions, lifecycles: map<string, string>)
    returns (r: Option<set<string>>)
    requires ctx.tenants == m.tenants != [] && Collected(ctx, SuppressionRows(m), s)
    requires forall t, state :: (t in lifecycles && lifecycles[t] == state) <==> HasState(ctx, GovernanceRows(m), t, state)
    ensures r.Some? <==> forall k :: !FirstIsFloat(ctx, SuppressionRows(m), k)
    ensures r.Some? ==> forall t :: t in r.value <==> t in m.tenants && IsBlocked(ctx, m, t)
  {
    VersionsHaveKeys(ctx, SuppressionRows(m), s);
    FloatIffFirst(ctx, SuppressionRows(m), s);
    var blocked := {};
    for i := 0 to |m.tenants|
      invariant i > 0 ==> !HasFloatVersion(s)
      invariant BlockedSoFar(ctx, m, blocked, i)
    {
      var tenant := m.tenants[i];
      if HasFloatVersion(s) {
        return None;
      }
      IsBlockedIffFound(ctx, m, s, lifecycles, tenant);
      BlockedGrows(ctx, m, blocked, i);
      if TenantIsSuppressed(ctx, s, tenant) || (tenant in lifecycles && lifecycles[tenant] == "offboarding") {
        blocked := blocked + {tenant};
      }
    }
    assert m.tenants[..|m.tenants|] == m.tenants;
    r := Some(blocked);
  }

  predicate HasFloatVersion(s: Suppressions) {
    exists k :: k in s.versions && s.versions[k]
  }

  lemma FloatIffFirst(ctx: Context, items: seq<Item>, s: Suppressions)
    requires Collected(ctx, items, s)
    ensures HasFloatVersion(s) <==> exists k :: FirstIsFloat(ctx, items, k)
  {
    FloatIsInUse(ctx, items);
  }

  ghost predicate BlockedSoFar(ctx: Context, m: Manifest, blocked: set<string>, i: nat)
    requires i <= |m.tenants|
  {
    forall t :: t in blocked <==> t in m.tenants[..i] && IsBlocked(ctx, m, t)
  }

  lemma BlockedGrows(ctx: Context, m: Manifest, blocked: set<string>, i: nat)
    requires i < |m.tenants| && BlockedSoFar(ctx, m, blocked, i)
    ensures BlockedSoFar(ctx, m, if IsBlocked(ctx, m, m.tenants[i]) then blocked + {m.tenants[i]} else blocked, i + 1)
  {
    assert m.tenants[..i + 1] == m.tenants[..i] + [m.tenants[i]];
  }

  lemma IsBlockedIffFound(ctx: Context, m: Manifest, s: Suppressions, lifecycles: map<string, string>, tenant: string)
    requires Collected(ctx, SuppressionRows(m), s) && forall k :: k in s.versions ==> k in ctx.keys
    requires forall t, state :: (t in lifecycles && lifecycles[t] == state) <==> HasState(ctx, GovernanceRows(m), t, state)
    ensures IsBlocked(ctx, m, tenant) <==>
      TenantIsSuppressed(ctx, s, tenant) || (tenant in lifecycles && lifecycles[tenant] == "offboarding")
  {
    BlockedIffRecorded(ctx, m, s, tenant);
  }

  lemma VersionsHaveKeys(ctx: Context, items: seq<Item>, s: Suppressions)
    requires Collected(ctx, items, s)
    ensures forall k :: k in s.versions ==> k in ctx.keys
  {
  }

  lemma FloatIsInUse(ctx: Context, items: seq<Item>)
    ensures forall k :: FirstIsFloat(ctx, items, k) ==> KeyInUse(ctx, items, k)
  {
  }

  /** Recomputing the tenant digest under every version in use finds exactly the recorded tenants. */
  lemma BlockedIffRecorded(ctx: Context, m: Manifest, s: Suppressions, tenant: string)
    requires Collected(ctx, SuppressionRows(m), s)
    requires forall k :: k in s.versions ==> k in ctx.keys
    ensures TenantIsSuppressed(ctx, s, tenant) <==>
      exists r :: Recorded(ctx, SuppressionRows(m), r) && r.tenant == tenant && r.targetClass == "tenant"
  {
    if r :| Recorded(ctx, SuppressionRows(m), r) && r.tenant == tenant && r.targetClass == "tenant" {
      var x :| x in SuppressionRows(m) && ReadSuppression(ctx, x).Epoch? && ReadSuppression(ctx, x).record == r;
      var k := ReadSuppression(ctx, x).keyVersion;
      assert IsEpochOf(ctx, x, k);
      assert k in s.versions && r in s.records;
      assert r == Suppression(tenant, "tenant", Digest(ctx, k, tenant, "tenant", "tenant_id", tenant));
    }
  }

  method CountSuppressed(ctx: Context, s: Suppressions, aliases: map<Identity, set<Alias>>) returns (suppressedUsers: nat)
    requires forall k :: k in s.versions ==> k in ctx.keys
    ensures suppressedUsers == |SuppressedUsers(ctx, s, aliases, {})|
  {
    var pending := aliases.Keys;
    assert SuppressedUsers(ctx, s, aliases, pending) == {};
    suppressedUsers := 0;
    while pending != {}
      invariant suppressedUsers == |SuppressedUsers(ctx, s, aliases, pending)| && pending <= aliases.Keys
      decreases pending
    {
      var id :| id in pending;
      CountOne(ctx, s, aliases, pending, id);
      if UserIsSuppressed(ctx, s, id, aliases[id]) {
        suppressedUsers := suppressedUsers + 1;
      }
      pending := pending - {id};
    }
  }

  /** The users found suppressed, leaving out those that are still to be looked at. */
  ghost function SuppressedUsers(ctx: Context, s: Suppressions, aliases: map<Identity, set<Alias>>, pending: set<Identity>): set<Identity>
    requires forall k :: k in s.versions ==> k in ctx.keys
  {
    set id | id in aliases && id !in pending && UserIsSuppressed(ctx, s, id, aliases[id])
  }

  lemma CountOne(ctx: Context, s: Suppressions, aliases: map<Identity, set<Alias>>, pending: set<Identity>, id: Identity)
    requires forall k :: k in s.versions ==> k in ctx.keys
    requires id in pending && id in aliases
    ensures |SuppressedUsers(ctx, s, aliases, pending - {id})| ==
      |SuppressedUsers(ctx, s, aliases, pending)| + if UserIsSuppressed(ctx, s, id, aliases[id]) then 1 else 0
  {
    var before, after := SuppressedUsers(ctx, s, aliases, pending), SuppressedUsers(ctx, s, aliases, pending - {id});
    if UserIsSuppressed(ctx, s, id, aliases[id]) {
      assert after == before + {id};
    } else {
      assert after == before;
    }
  }

  /** The users that the search finds are those that are erased. */
  lemma SearchFindsErased(ctx: Context, m: Manifest, s: Suppressions, aliases: map<Identity, set<Alias>>)
    requires Collected(ctx, SuppressionRows(m), s)
    requires forall k :: k in s.versions ==> k in ctx.keys
    ensures forall id :: id in SuppressedUsers(ctx, s, aliases, {}) <==> id in aliases && IsErased(ctx, m, id, aliases[id])
  {
    forall id | id in aliases
      ensures id in SuppressedUsers(ctx, s, aliases, {}) <==> IsErased(ctx, m, id, aliases[id])
    {
      ErasedIffFound(ctx, m, s, id, aliases[id]);
    }
  }

  lemma NobodyErased(ctx: Context, m: Manifest, s: Suppressions, aliases: map<Identity, set<Alias>>)
    requires Collected(ctx, SuppressionRows(m), s)
    requires forall k :: k in s.versions ==> k in ctx.keys
    requires forall id, a :: (id in aliases && aliases[id] == a) <==> IsCanonical(ctx, Rows(m, "users"), id, a)
    ensures |SuppressedUsers(ctx, s, aliases, {})| == 0 <==>
      forall id, a :: IsCanonical(ctx, Rows(m, "users"), id, a) ==> !IsErased(ctx, m, id, a)
  {
    SearchFindsErased(ctx, m, s, aliases);
    var suppressed := SuppressedUsers(ctx, s, aliases, {});
    assert suppressed == {} <==> forall id :: id in aliases ==> id !in suppressed;
  }

  lemma ErasedIffFound(ctx: Context, m: Manifest, s: Suppressions, id: Identity, aliases: set<Alias>)
    requires Collected(ctx, SuppressionRows(m), s)
    requires forall k :: k in s.versions ==> k in ctx.keys
    ensures IsErased(ctx, m, id, aliases) <==> UserIsSuppressed(ctx, s, id, aliases)
  {
  }
}

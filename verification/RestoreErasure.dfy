/** What the suppression digests stand for: a user is erased exactly when one of its aliases was
    suppressed for its tenant, under whichever key that was recorded. */
module RestoreErasure {
  import opened DynamoItems
  import opened Framing
  import opened RestoreCutover
  import opened RestoreExact
  import opened RestoreMeaning
  import opened RestoreRows

  /** Each user suppression was written for one alias in its tenant, under the key it names. */
  ghost predicate WrittenFor(ctx: Context, rows: seq<Item>, aliasOf: Item -> Alias) {
    forall x, s, k, isFloat :: x in rows && EpochAt(ctx, x, s, k, isFloat) && s.targetClass == "user" ==>
      s.digest == CodeOf(ctx, k, s.tenant, "user", aliasOf(x).0, aliasOf(x).1)
  }

  /** The alias was suppressed in the tenant. */
  ghost predicate WasSuppressed(ctx: Context, rows: seq<Item>, aliasOf: Item -> Alias, tenant: string, alias: Alias) {
    exists x, s, k, isFloat :: x in rows && EpochAt(ctx, x, s, k, isFloat)
      && s.targetClass == "user" && s.tenant == tenant && aliasOf(x) == alias
  }

  /** No two messages share a code, whatever the keys, and no two texts share their bytes. */
  ghost predicate NoCollisions(env: Env) {
    && (forall k, m, l, n :: env.mac(k, m) == env.mac(l, n) ==> m == n)
    && forall s, t :: env.encode(s) == env.encode(t) ==> s == t
  }

  /** The fields of a message, each to be short enough for a length in eight bytes. */
  function Fields(env: Env, tenant: string, alias: Alias): seq<bytes> {
    [env.encode(tenant), env.encode("user"), env.encode(alias.0), env.encode(alias.1)]
  }

  lemma CodesAreDistinct(ctx: Context, k: int, l: int, tenant: string, a: Alias, b: Alias)
    requires k in ctx.keys && l in ctx.keys && NoCollisions(ctx.env)
    requires Fit(Fields(ctx.env, tenant, a)) && Fit(Fields(ctx.env, tenant, b))
    requires CodeOf(ctx, k, tenant, "user", a.0, a.1) == CodeOf(ctx, l, tenant, "user", b.0, b.1)
    ensures a == b
  {
    var xs, ys := Fields(ctx.env, tenant, a), Fields(ctx.env, tenant, b);
    SuppressionMessageIsInjective(xs, 1, ys, 1);
    assert xs[2] == ys[2] && xs[3] == ys[3];
  }

  lemma SuppressedIsRecorded(ctx: Context, rows: seq<Item>, aliasOf: Item -> Alias, tenant: string, alias: Alias)
    requires WrittenFor(ctx, rows, aliasOf) && WasSuppressed(ctx, rows, aliasOf, tenant, alias)
    ensures AliasIsSuppressed(ctx, rows, tenant, alias.0, alias.1)
  {
    var x, s, k, isFloat :| x in rows && EpochAt(ctx, x, s, k, isFloat)
      && s.targetClass == "user" && s.tenant == tenant && aliasOf(x) == alias;
    assert IsKeyAt(ctx, x, k) && IsKeyOfSome(ctx, rows, k);
    assert s == Suppression(tenant, "user", CodeOf(ctx, k, tenant, "user", alias.0, alias.1));
    assert IsRecorded(ctx, rows, s);
  }

  lemma FindKey(ctx: Context, rows: seq<Item>, tenant: string, alias: Alias) returns (k: int)
    requires AliasIsSuppressed(ctx, rows, tenant, alias.0, alias.1)
    ensures k in ctx.keys
    ensures IsRecorded(ctx, rows, Suppression(tenant, "user", CodeOf(ctx, k, tenant, "user", alias.0, alias.1)))
  {
    k :| k in ctx.keys && IsKeyOfSome(ctx, rows, k)
         && IsRecorded(ctx, rows, Suppression(tenant, "user", CodeOf(ctx, k, tenant, "user", alias.0, alias.1)));
  }

  lemma FindRow(ctx: Context, rows: seq<Item>, s: Suppression) returns (x: Item, k: int, isFloat: bool)
    requires IsRecorded(ctx, rows, s)
    ensures x in rows && k in ctx.keys && EpochAt(ctx, x, s, k, isFloat)
  {
    x, k, isFloat :| x in rows && EpochAt(ctx, x, s, k, isFloat);
  }

  lemma WrittenAt(ctx: Context, rows: seq<Item>, aliasOf: Item -> Alias, x: Item, s: Suppression, k: int, isFloat: bool)
    requires WrittenFor(ctx, rows, aliasOf) && x in rows && EpochAt(ctx, x, s, k, isFloat) && s.targetClass == "user"
    ensures k in ctx.keys && s.digest == CodeOf(ctx, k, s.tenant, "user", aliasOf(x).0, aliasOf(x).1)
  {
  }

  lemma SameCodeSameAlias(ctx: Context, rows: seq<Item>, aliasOf: Item -> Alias, tenant: string, alias: Alias,
                          x: Item, s: Suppression, l: int, isFloat: bool, k: int)
    requires NoCollisions(ctx.env) && WrittenFor(ctx, rows, aliasOf) && k in ctx.keys
    requires Fit(Fields(ctx.env, tenant, alias)) && Fit(Fields(ctx.env, tenant, aliasOf(x)))
    requires s == Suppression(tenant, "user", CodeOf(ctx, k, tenant, "user", alias.0, alias.1))
    requires x in rows && EpochAt(ctx, x, s, l, isFloat)
    ensures aliasOf(x) == alias
  {
    WrittenAt(ctx, rows, aliasOf, x, s, l, isFloat);
    CodesAreDistinct(ctx, k, l, tenant, alias, aliasOf(x));
  }

  lemma RecordedIsSuppressed(ctx: Context, rows: seq<Item>, aliasOf: Item -> Alias, tenant: string, alias: Alias)
    requires NoCollisions(ctx.env) && WrittenFor(ctx, rows, aliasOf)
    requires Fit(Fields(ctx.env, tenant, alias)) && forall x :: x in rows ==> Fit(Fields(ctx.env, tenant, aliasOf(x)))
    requires AliasIsSuppressed(ctx, rows, tenant, alias.0, alias.1)
    ensures WasSuppressed(ctx, rows, aliasOf, tenant, alias)
  {
    var k := FindKey(ctx, rows, tenant, alias);
    var s := Suppression(tenant, "user", CodeOf(ctx, k, tenant, "user", alias.0, alias.1));
    var x, l, isFloat := FindRow(ctx, rows, s);
    SameCodeSameAlias(ctx, rows, aliasOf, tenant, alias, x, s, l, isFloat, k);
    ThisSuppresses(ctx, rows, aliasOf, x, s, l, isFloat);
  }

  lemma ThisSuppresses(ctx: Context, rows: seq<Item>, aliasOf: Item -> Alias, x: Item, s: Suppression, k: int, isFloat: bool)
    requires x in rows && EpochAt(ctx, x, s, k, isFloat) && s.targetClass == "user"
    ensures WasSuppressed(ctx, rows, aliasOf, s.tenant, aliasOf(x))
  {
  }

  /** The verifier's search for the codes of an alias finds it exactly when it was suppressed. */
  lemma SearchIsExact(ctx: Context, rows: seq<Item>, aliasOf: Item -> Alias, tenant: string, alias: Alias)
    requires NoCollisions(ctx.env) && WrittenFor(ctx, rows, aliasOf)
    requires Fit(Fields(ctx.env, tenant, alias)) && forall x :: x in rows ==> Fit(Fields(ctx.env, tenant, aliasOf(x)))
    ensures AliasIsSuppressed(ctx, rows, tenant, alias.0, alias.1) <==> WasSuppressed(ctx, rows, aliasOf, tenant, alias)
  {
    if AliasIsSuppressed(ctx, rows, tenant, alias.0, alias.1) {
      RecordedIsSuppressed(ctx, rows, aliasOf, tenant, alias);
    }
    if WasSuppressed(ctx, rows, aliasOf, tenant, alias) {
      SuppressedIsRecorded(ctx, rows, aliasOf, tenant, alias);
    }
  }

  /** A cutover goes ahead only if no row of the restored users table belongs to a user one of whose
      aliases, as its attributes give them, was ever suppressed. */
  lemma PassedMeansNobodyIsBack(m: Manifest, keys: map<int, bytes>, env: Env, aliasOf: Item -> Alias,
                                u: Item, id: Identity, kind: string, v: string)
    requires Passes(m, keys, env) && u in Rows(m, "users")
    requires WrittenFor(Context(keys, m.tenants, env), SuppressionRows(m), aliasOf)
    requires IsUser(Context(keys, m.tenants, env), u, id) && HasAlias(u, id, kind, v)
    ensures !WasSuppressed(Context(keys, m.tenants, env), SuppressionRows(m), aliasOf, id.0, (kind, v))
  {
    PassesIffSafe(m, keys, env);
    var ctx := Context(keys, m.tenants, env);
    if WasSuppressed(ctx, SuppressionRows(m), aliasOf, id.0, (kind, v)) {
      SuppressedIsRecorded(ctx, SuppressionRows(m), aliasOf, id.0, (kind, v));
    }
  }
}

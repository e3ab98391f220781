/** Three suppression rows for which the order decides whether a cutover goes ahead. */
module RestoreCutoverExample {
  import opened DynamoItems
  import opened Framing
  import opened RestoreCutover
  import opened RestoreCutoverOrder
  import opened RestoreRows
  import opened Wrappers

  // ---------- One record, recorded twice ----------

  lemma NothingIsRestored(ctx: Context, m: Manifest)
    requires m.governance == Complete([]) && forall role :: Rows(m, role) == []
    ensures LifecyclesAreValid(ctx, GovernanceRows(m)) && InventoryIsValid(ctx, m)
    ensures forall t :: !HasLiveRow(ctx, m, t)
    ensures forall id :: !IsReferenced(ctx, m, id)
    ensures forall id, a :: !IsCanonical(ctx, Rows(m, "users"), id, a)
  {
  }

  /** Heads for all epochs of one record and nothing restored: everything but the versions is in order. */
  lemma OneRecordIsInOrder(m: Manifest, keys: map<int, bytes>, env: Env, head: Item, s: Suppression)
    requires ManifestIsValid(m, keys) && m.governance == Complete([]) && forall role :: Rows(m, role) == []
    requires head in SuppressionRows(m)
    requires ReadSuppression(Ctx(m, keys, env), head) == Head(Pk(s.tenant, s.targetClass, s.digest))
    requires forall x :: x in SuppressionRows(m) && x != head ==>
      ReadSuppression(Ctx(m, keys, env), x).Epoch? && ReadSuppression(Ctx(m, keys, env), x).record == s
    ensures IsWellFormed(m, keys, env) && IsSafe(Ctx(m, keys, env), m)
  {
    var ctx := Ctx(m, keys, env);
    assert HasHead(ctx, SuppressionRows(m), Pk(s.tenant, s.targetClass, s.digest));
    NothingIsRestored(ctx, m);
  }

  lemma SecondDecides(ctx: Context, head: Item, x: Item, y: Item)
    requires ReadSuppression(ctx, head).Head? && ReadSuppression(ctx, x).Epoch? && ReadSuppression(ctx, y).Epoch?
    requires ReadSuppression(ctx, x).keyVersion == ReadSuppression(ctx, y).keyVersion
    ensures (exists k :: FirstIsFloat(ctx, [head, x, y], k)) <==> ReadSuppression(ctx, x).floatVersion
  {
    var rows := [head, x, y];
    assert rows[0] == head && rows[1] == x && rows[2] == y;
    if ReadSuppression(ctx, x).floatVersion {
      assert IsEpochOf(ctx, rows[1], ReadSuppression(ctx, x).keyVersion);
      assert FirstIsFloat(ctx, rows, ReadSuppression(ctx, x).keyVersion);
    }
    forall k | FirstIsFloat(ctx, rows, k)
      ensures ReadSuppression(ctx, x).floatVersion
    {
      var i :| 0 <= i < 3 && IsEpochOf(ctx, rows[i], k) && ReadSuppression(ctx, rows[i]).floatVersion
        && forall j :: 0 <= j < i ==> !IsEpochOf(ctx, rows[j], k);
    }
  }

  /** One tenant, nothing restored, and the suppression rows given. */
  function SmallManifest(rows: seq<Item>): Manifest {
    Manifest(1, ["t"], Complete([]), Complete(rows), map role | role in ROLES :: Complete([]))
  }

  lemma SmallIsValid(rows: seq<Item>, key: bytes)
    ensures ManifestIsValid(SmallManifest(rows), map[1 := key])
    ensures forall role :: Rows(SmallManifest(rows), role) == []
  {
    var m := SmallManifest(rows);
    assert m.restored.Keys == (set role | role in ROLES);
    var keys: map<int, bytes> := map[1 := key];
    assert 1 in keys;
  }

  lemma SecondDecidesVerdict(key: bytes, env: Env, head: Item, x: Item, y: Item, s: Suppression)
    requires var ctx := Context(map[1 := key], ["t"], env);
      && ReadSuppression(ctx, head) == Head(Pk(s.tenant, s.targetClass, s.digest))
      && (exists isFloat :: ReadSuppression(ctx, x) == Epoch(s, 1, isFloat))
      && (exists isFloat :: ReadSuppression(ctx, y) == Epoch(s, 1, isFloat))
    ensures Passes(SmallManifest([head, x, y]), map[1 := key], env) <==>
      !ReadSuppression(Context(map[1 := key], ["t"], env), x).floatVersion
  {
    var m := SmallManifest([head, x, y]);
    SmallIsValid([head, x, y], key);
    OneRecordIsInOrder(m, map[1 := key], env, head, s);
    SecondDecides(Ctx(m, map[1 := key], env), head, x, y);
  }

  // ---------- The rows ----------

  function RecordFields(epoch: int, version: Json): seq<(string, Json)> {
    [("tenant_id", JString("t")), ("target_class", JString("user")), ("digest", JString("d")),
     ("key_version", JInt(1)), ("normalization_version", version), ("target_epoch", JInt(epoch)),
     ("created_at", JInt(0))]
  }

  function HeadRow(pk: string): Item {
    map["pk" := S(pk), "epoch" := N("0"), "record_type" := S("suppression_head")]
  }

  function EpochRow(pk: string, digits: string, record: string): Item {
    map["pk" := S(pk), "epoch" := N(digits), "record" := S(record)]
  }

  /** The two JSON texts differ in the normalization version, 1 or 1.0, and in the epoch. */
  const INTEGER_TEXT: string :=
    @"{""tenant_id"":""t"",""target_class"":""user"",""digest"":""d"",""key_version"":1,""normalization_version"":1,""target_epoch"":1,""created_at"":0}"
  const FLOAT_TEXT: string :=
    @"{""tenant_id"":""t"",""target_class"":""user"",""digest"":""d"",""key_version"":1,""normalization_version"":1.0,""target_epoch"":2,""created_at"":0}"

  /** Any libraries that decode the two JSON texts and three digits as they should. */
  ghost predicate DecodesTexts(env: Env) {
    && env.decode(INTEGER_TEXT) == Some(JObject(RecordFields(1, JInt(1))))
    && env.decode(FLOAT_TEXT) == Some(JObject(RecordFields(2, JFloat(1.0))))
    && env.parseInt("0") == Some(0) && env.parseInt("1") == Some(1) && env.parseInt("2") == Some(2)
  }

  lemma {:induction false} LookupAt(fields: seq<(string, Json)>, k: nat)
    requires k < |fields| && forall i :: 0 <= i < k ==> fields[i].0 != fields[k].0
    ensures Lookup(fields, fields[k].0) == fields[k].1
  {
    if k == 0 {
    } else {
      LookupAt(fields[1..], k - 1);
    }
  }

  lemma FieldsAreRead(fields: seq<(string, Json)>)
    requires |fields| == 7 && fields[0].0 == "tenant_id" && fields[1].0 == "target_class" && fields[2].0 == "digest"
    requires fields[3].0 == "key_version" && fields[4].0 == "normalization_version" && fields[5].0 == "target_epoch"
    requires fields[6].0 == "created_at"
    ensures Names(fields) == RECORD_FIELDS
    ensures Lookup(fields, "tenant_id") == fields[0].1 && Lookup(fields, "target_class") == fields[1].1
    ensures Lookup(fields, "digest") == fields[2].1 && Lookup(fields, "key_version") == fields[3].1
    ensures Lookup(fields, "normalization_version") == fields[4].1 && Lookup(fields, "target_epoch") == fields[5].1
  {
    assert forall k :: 0 <= k < |fields| ==> fields[k] in fields;
    LookupAt(fields, 0);
    LookupAt(fields, 1);
    LookupAt(fields, 2);
    LookupAt(fields, 3);
    LookupAt(fields, 4);
    LookupAt(fields, 5);
  }

  lemma FieldsDecide(ctx: Context, fields: seq<(string, Json)>, epoch: int, version: Json)
    requires "t" in ctx.tenants && 1 in ctx.keys && EqualsInt(version, 1) && Names(fields) == RECORD_FIELDS
    requires Lookup(fields, "tenant_id") == JString("t") && Lookup(fields, "target_class") == JString("user")
    requires Lookup(fields, "digest") == JString("d") && Lookup(fields, "key_version") == JInt(1)
    requires Lookup(fields, "normalization_version") == version && Lookup(fields, "target_epoch") == JInt(epoch)
    ensures ReadRecord(ctx, fields, Pk("t", "user", "d"), epoch) ==
            Epoch(Suppression("t", "user", "d"), 1, version.JFloat?)
  {
  }

  lemma RecordIsRead(ctx: Context, epoch: int, version: Json)
    requires "t" in ctx.tenants && 1 in ctx.keys && EqualsInt(version, 1)
    ensures ReadRecord(ctx, RecordFields(epoch, version), Pk("t", "user", "d"), epoch) ==
            Epoch(Suppression("t", "user", "d"), 1, version.JFloat?)
  {
    FieldsAreRead(RecordFields(epoch, version));
    FieldsDecide(ctx, RecordFields(epoch, version), epoch, version);
  }

  lemma HeadIsRead(ctx: Context, pk: string)
    requires pk != "" && ctx.env.parseInt("0") == Some(0)
    ensures ReadSuppression(ctx, HeadRow(pk)) == Head(pk)
  {
  }

  lemma EpochIsRead(ctx: Context, pk: string, digits: string, epoch: int, record: string, fields: seq<(string, Json)>)
    requires pk != "" && record != "" && epoch > 0
    requires ctx.env.parseInt(digits) == Some(epoch) && ctx.env.decode(record) == Some(JObject(fields))
    ensures ReadSuppression(ctx, EpochRow(pk, digits, record)) == ReadRecord(ctx, fields, pk, epoch)
  {
    var row := EpochRow(pk, digits, record);
    assert AttrString(row, "pk") == Got(pk) && AttrString(row, "record") == Got(record);
    assert AttrNumber(row, "epoch", ctx.env.parseInt) == Got(epoch);
  }

  lemma VersionIsRead(ctx: Context, digits: string, epoch: int, record: string, version: Json)
    requires "t" in ctx.tenants && 1 in ctx.keys && EqualsInt(version, 1) && record != "" && epoch > 0
    requires ctx.env.parseInt(digits) == Some(epoch)
    requires ctx.env.decode(record) == Some(JObject(RecordFields(epoch, version)))
    ensures ReadSuppression(ctx, EpochRow(Pk("t", "user", "d"), digits, record)) ==
            Epoch(Suppression("t", "user", "d"), 1, version.JFloat?)
  {
    RecordIsRead(ctx, epoch, version);
    EpochIsRead(ctx, Pk("t", "user", "d"), digits, epoch, record, RecordFields(epoch, version));
  }

  lemma Swapped(m: Manifest, n: Manifest, x: Item, y: Item, z: Item)
    requires m == SmallManifest([x, y, z]) && n == SmallManifest([x, z, y])
    ensures Reordered(m, n)
  {
  }

  lemma TextsAreNotEmpty()
    ensures INTEGER_TEXT != "" && FLOAT_TEXT != ""
  {
    assert |INTEGER_TEXT| > 0 && |FLOAT_TEXT| > 0;
  }

  /** The two epoch rows as the verifier reads them. */
  lemma EpochsAreRead(ctx: Context, i: Item, f: Item)
    requires "t" in ctx.tenants && 1 in ctx.keys && DecodesTexts(ctx.env)
    requires i == EpochRow(Pk("t", "user", "d"), "1", INTEGER_TEXT)
    requires f == EpochRow(Pk("t", "user", "d"), "2", FLOAT_TEXT)
    ensures ReadSuppression(ctx, i) == Epoch(Suppression("t", "user", "d"), 1, false)
    ensures ReadSuppression(ctx, f) == Epoch(Suppression("t", "user", "d"), 1, true)
  {
    TextsAreNotEmpty();
    VersionIsRead(ctx, "1", 1, INTEGER_TEXT, JInt(1));
    VersionIsRead(ctx, "2", 2, FLOAT_TEXT, JFloat(1.0));
  }

  lemma OrderDecides(key: bytes, env: Env, head: Item, i: Item, f: Item)
    requires var ctx := Context(map[1 := key], ["t"], env);
      && ReadSuppression(ctx, head) == Head(Pk("t", "user", "d"))
      && ReadSuppression(ctx, i) == Epoch(Suppression("t", "user", "d"), 1, false)
      && ReadSuppression(ctx, f) == Epoch(Suppression("t", "user", "d"), 1, true)
    ensures var a, b := SmallManifest([head, i, f]), SmallManifest([head, f, i]);
      Reordered(a, b) && Passes(a, map[1 := key], env) && !Passes(b, map[1 := key], env)
  {
    SecondDecidesVerdict(key, env, head, i, f, Suppression("t", "user", "d"));
    SecondDecidesVerdict(key, env, head, f, i, Suppression("t", "user", "d"));
    Swapped(SmallManifest([head, i, f]), SmallManifest([head, f, i]), head, i, f);
  }

  /** A head and two epochs under the key version 1: the cutover is let through with the integer
      version first, and stopped with the float first. */
  lemma OrderCanMatter(key: bytes, env: Env, head: Item, i: Item, f: Item)
    requires DecodesTexts(env)
    requires head == HeadRow(Pk("t", "user", "d"))
    requires i == EpochRow(Pk("t", "user", "d"), "1", INTEGER_TEXT)
    requires f == EpochRow(Pk("t", "user", "d"), "2", FLOAT_TEXT)
    ensures var a, b := SmallManifest([head, i, f]), SmallManifest([head, f, i]);
      Reordered(a, b) && Passes(a, map[1 := key], env) && !Passes(b, map[1 := key], env)
  {
    var ctx := Context(map[1 := key], ["t"], env);
    HeadIsRead(ctx, Pk("t", "user", "d"));
    EpochsAreRead(ctx, i, f);
    OrderDecides(key, env, head, i, f);
  }
}

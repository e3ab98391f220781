/** The verifier passes exactly the candidates that are safe to cut over, read off their attributes. */
module RestoreExact {
  import opened DynamoItems
  import opened Framing
  import opened Lists
  import opened RestoreCutover
  import opened RestoreMeaning
  import opened RestoreOwners
  import opened RestoreReaders
  import opened RestoreRows
  import opened Wrappers

  // ---------- Suppression rows ----------

  lemma HeadIs(ctx: Context, item: Item, pk: string)
    ensures ReadSuppression(ctx, item) == Head(pk) <==> HeadAt(ctx.env, item, pk)
  {
    FiledIsRead(ctx, item, Head(pk));
    AttrStringIs(item, "pk");
    AttrStringIs(item, "record_type");
    NumberIs(ctx.env, item, "epoch");
  }

  lemma TextMember(fields: seq<(string, Json)>, name: string, s: string)
    ensures Member(fields, name, JString(s)) == (Lookup(fields, name) == JString(s))
  {
    LookupIs(fields, name);
  }

  lemma IntegerMember(fields: seq<(string, Json)>, name: string, n: int)
    ensures (exists v :: Member(fields, name, v) && IsInteger(v, n)) == (AsInt(Lookup(fields, name)) == Some(n))
  {
    LookupIs(fields, name);
    NumbersAre(Lookup(fields, name), n);
  }

  lemma NumberMember(fields: seq<(string, Json)>, name: string, n: int)
    ensures (exists v :: Member(fields, name, v) && IsNumber(v, n)) == EqualsInt(Lookup(fields, name), n)
  {
    LookupIs(fields, name);
    NumbersAre(Lookup(fields, name), n);
  }

  lemma VersionMember(fields: seq<(string, Json)>, isFloat: bool)
    ensures (if isFloat then Member(fields, "normalization_version", JFloat(1.0))
             else exists v :: Member(fields, "normalization_version", v) && IsInteger(v, 1))
      == (EqualsInt(Lookup(fields, "normalization_version"), 1) && Lookup(fields, "normalization_version").JFloat? == isFloat)
  {
    LookupIs(fields, "normalization_version");
    NumbersAre(Lookup(fields, "normalization_version"), 1);
  }

  lemma FieldNames(fields: seq<(string, Json)>)
    ensures Names(fields) == RECORD_FIELDS <==>
      forall name :: !Missing(fields, name) <==>
        name in {"tenant_id", "target_class", "key_version", "normalization_version", "digest", "target_epoch", "created_at"}
  {
    NamesAre(fields);
  }

  lemma FieldsSay(fields: seq<(string, Json)>, s: Suppression, k: int, isFloat: bool, epoch: int)
    ensures RecordSays(fields, s, k, isFloat, epoch) == FieldsMatch(fields, Epoch(s, k, isFloat), epoch)
  {
    FieldNames(fields);
    TextMember(fields, "tenant_id", s.tenant);
    TextMember(fields, "target_class", s.targetClass);
    TextMember(fields, "digest", s.digest);
    IntegerMember(fields, "key_version", k);
    VersionMember(fields, isFloat);
    NumberMember(fields, "target_epoch", epoch);
  }

  lemma CodeIs(ctx: Context, k: int, tenant: string, targetClass: string, aliasKind: string, value: string)
    requires k in ctx.keys
    ensures Digest(ctx, k, tenant, targetClass, aliasKind, value) == CodeOf(ctx, k, tenant, targetClass, aliasKind, value)
  {
  }

  ghost predicate RecordAt(ctx: Context, item: Item, epoch: int, row: SuppressionRow)
    requires row.Epoch?
  {
    exists fields :: Decodes(ctx.env, item, "record", JObject(fields))
                     && RecordSays(fields, row.record, row.keyVersion, row.floatVersion, epoch)
  }

  lemma RecordIs(ctx: Context, item: Item, epoch: int, row: SuppressionRow)
    requires row.Epoch?
    ensures DecodesTo(ctx, item, epoch, row) == RecordAt(ctx, item, epoch, row)
  {
    DecodesIs(ctx.env, item, "record");
    var encoded := AttrString(item, "record");
    if NonEmpty(encoded) {
      match ctx.env.decode(encoded.value)
      case Some(JObject(fields)) => FieldsSay(fields, row.record, row.keyVersion, row.floatVersion, epoch);
      case _ =>
    }
  }

  lemma EpochIs(ctx: Context, item: Item, s: Suppression, k: int, isFloat: bool)
    ensures ReadSuppression(ctx, item) == Epoch(s, k, isFloat) <==> EpochAt(ctx, item, s, k, isFloat)
  {
    var row := Epoch(s, k, isFloat);
    FiledIsRead(ctx, item, row);
    AttrStringIs(item, "pk");
    NumberIs(ctx.env, item, "epoch");
    forall epoch
      ensures DecodesTo(ctx, item, epoch, row) == RecordAt(ctx, item, epoch, row)
    {
      RecordIs(ctx, item, epoch, row);
    }
    if k in ctx.keys {
      CodeIs(ctx, k, s.tenant, "tenant", "tenant_id", s.tenant);
    }
  }

  ghost predicate FieldsMatch(fields: seq<(string, Json)>, row: SuppressionRow, epoch: int)
    requires row.Epoch?
  {
    && Names(fields) == RECORD_FIELDS
    && Lookup(fields, "tenant_id") == JString(row.record.tenant)
    && Lookup(fields, "target_class") == JString(row.record.targetClass)
    && Lookup(fields, "digest") == JString(row.record.digest)
    && AsInt(Lookup(fields, "key_version")) == Some(row.keyVersion)
    && EqualsInt(Lookup(fields, "normalization_version"), 1)
    && Lookup(fields, "normalization_version").JFloat? == row.floatVersion
    && EqualsInt(Lookup(fields, "target_epoch"), epoch)
  }

  // ---------- Lifecycle rows ----------

  lemma LifecycleIs(ctx: Context, item: Item, t: string, state: string)
    ensures ReadLifecycle(ctx, item) == Lifecycle(t, state) <==> LifecycleAt(ctx, item, t, state)
    ensures ReadLifecycle(ctx, item).NoLifecycle? <==> IsNoLifecycle(item)
  {
    AttrStringIs(item, "record_type");
    AttrStringIs(item, "record");
    AttrStringIs(item, "pk");
    AttrStringIs(item, "sk");
    DecodesIs(ctx.env, item, "record");
    forall fields
      ensures Member(fields, "tenant_id", JString(t)) <==> Lookup(fields, "tenant_id") == JString(t)
      ensures Member(fields, "state", JString(state)) <==> Lookup(fields, "state") == JString(state)
    {
      LookupIs(fields, "tenant_id");
      LookupIs(fields, "state");
    }
  }

  // ---------- Restored rows ----------

  lemma NullIs(fields: seq<(string, Json)>, name: string)
    ensures Lookup(fields, name) == JNull <==> forall v :: Member(fields, name, v) ==> v == JNull
  {
    LookupIs(fields, name);
  }

  lemma FieldsGone(fields: seq<(string, Json)>, t: string)
    ensures RecordsOffboarding(fields, t) <==> FieldsSayGone(fields, t)
  {
    NamesAre(fields);
    LookupIs(fields, "tenant_id");
    LookupIs(fields, "lifecycle");
    NullIs(fields, "served_snapshot");
    NullIs(fields, "operation");
    NullIs(fields, "last_failure");
    LookupIs(fields, "pending_deletion_arns");
    LookupIs(fields, "offboarding_operation_id");
  }

  lemma GoneIs(ctx: Context, item: Item, t: string)
    ensures IsControlOnly(ctx, item, t) <==> SaysGone(ctx.env, item, t)
  {
    DecodesIs(ctx.env, item, "record_json");
    var encoded := AttrString(item, "record_json");
    if NonEmpty(encoded) {
      match ctx.env.decode(encoded.value)
      case Some(JObject(fields)) => FieldsGone(fields, t);
      case _ =>
    }
  }

  lemma AlnumIs(c: char)
    ensures IsAlnum(c) <==> IsAsciiAlnum(c)
  {
  }

  lemma EventCharacters(event: string, tenant: string)
    ensures IsEventName(event) <==>
      1 <= |event| <= 64 && forall i :: 0 <= i < |event| ==> IsAlnum(event[i]) || event[i] in "-_."
    ensures IsTenantLabel(tenant) <==>
      1 <= |tenant| <= 63 && forall i :: 0 <= i < |tenant| ==> IsAlnum(tenant[i]) || tenant[i] == '-'
  {
    forall c
      ensures IsAlnum(c) <==> IsAsciiAlnum(c)
      ensures c in "-_." <==> c in {'-', '_', '.'}
    {
      AlnumIs(c);
    }
  }

  lemma KeptIs(item: Item)
    ensures IsRetainedEvent(item) == IsKeptEvent(item)
  {
    AttrStringIs(item, "event_id");
    AttrStringIs(item, "tenant_id");
    var event, tenant := AttrString(item, "event_id"), AttrString(item, "tenant_id");
    if event.Got? && tenant.Got? {
      EventCharacters(event.value, tenant.value);
    }
  }

  lemma IdentitiesAre(ctx: Context, text: string)
    requires Distinct(ctx.tenants)
    ensures forall id :: PhysicalIdentity(text, ctx.tenants) == Some(id) <==> IsIdentity(ctx.tenants, text, id)
  {
    forall id
      ensures PhysicalIdentity(text, ctx.tenants) == Some(id) <==> IsIdentity(ctx.tenants, text, id)
    {
      PhysicalIdentityIs(text, ctx.tenants, id);
    }
  }

  lemma UserIs(ctx: Context, item: Item, id: Identity)
    requires Distinct(ctx.tenants)
    ensures (exists a :: ReadUser(ctx, item) == Canonical(id, a)) <==> IsUser(ctx, item, id)
  {
    AttrStringIs(item, "record_type");
    AttrStringIs(item, "user_id");
    AttrStringIs(item, "email");
    AttrStringIs(item, "scim_external_id");
    AttrStringIs(item, "scim_user_name");
    if AttrString(item, "user_id").Got? {
      IdentitiesAre(ctx, AttrString(item, "user_id").value);
    }
    if AttrString(item, "email").Got? {
      IdentitiesAre(ctx, AttrString(item, "email").value);
    }
  }

  /** A canonical row has exactly the aliases its attributes give it. */
  lemma AliasesAre(ctx: Context, item: Item, id: Identity, aliases: set<Alias>)
    requires Distinct(ctx.tenants) && ReadUser(ctx, item) == Canonical(id, aliases)
    ensures forall kind, v :: (kind, v) in aliases <==> HasAlias(item, id, kind, v)
  {
    AttrStringIs(item, "email");
    AttrStringIs(item, "scim_external_id");
    AttrStringIs(item, "scim_user_name");
    if AttrString(item, "email").Got? {
      IdentitiesAre(ctx, AttrString(item, "email").value);
    }
  }

  lemma SecondaryIs(ctx: Context, item: Item)
    requires Distinct(ctx.tenants)
    ensures ReadUser(ctx, item).Secondary? <==> IsSecondary(ctx, item)
    ensures ReadUser(ctx, item).Secondary? ==>
      forall id :: id in ReadUser(ctx, item).refersTo <==> Refers(ctx, "users", item, id)
  {
    AttrStringIs(item, "record_type");
    AttrStringIs(item, "canonical_user_id");
    if AttrString(item, "canonical_user_id").Got? {
      IdentitiesAre(ctx, AttrString(item, "canonical_user_id").value);
    }
  }

  lemma GrantIs(ctx: Context, item: Item)
    requires Distinct(ctx.tenants)
    ensures ReadGrant(ctx, item).Some? <==> exists id :: Refers(ctx, "grants", item, id)
    ensures ReadGrant(ctx, item).Some? ==>
      forall id :: id in ReadGrant(ctx, item).value <==> Refers(ctx, "grants", item, id)
  {
    AttrStringIs(item, "user_id");
    DecodesIs(ctx.env, item, "grant_json");
    forall fields, v
      ensures Member(fields, "user_id", JString(v)) <==> Lookup(fields, "user_id") == JString(v)
    {
      LookupIs(fields, "user_id");
    }
    var user := AttrString(item, "user_id");
    if user.Got? {
      IdentitiesAre(ctx, user.value);
      var found := PhysicalIdentity(user.value, ctx.tenants);
      assert found.Some? && ReadGrant(ctx, item).Some? ==> Refers(ctx, "grants", item, found.value);
    }
  }

  lemma CredentialIs(ctx: Context, role: string, item: Item)
    requires Distinct(ctx.tenants) && role in {"passkeys", "password_credentials"}
    ensures ReadCredential(ctx, item).Some? <==> exists id :: Refers(ctx, role, item, id)
    ensures ReadCredential(ctx, item).Some? ==>
      forall id :: id in ReadCredential(ctx, item).value <==> Refers(ctx, role, item, id)
  {
    AttrStringIs(item, "user_id");
    var user := AttrString(item, "user_id");
    if user.Got? {
      IdentitiesAre(ctx, user.value);
      var found := PhysicalIdentity(user.value, ctx.tenants);
      assert found.Some? ==> Refers(ctx, role, item, found.value);
    }
  }

  lemma GroupIs(ctx: Context, item: Item)
    ensures ReadGroup(ctx, item).Some? <==> IsFormed(ctx, "scim_groups", item)
    ensures ReadGroup(ctx, item).Some? ==>
      forall id :: id in ReadGroup(ctx, item).value <==> Refers(ctx, "scim_groups", item, id)
  {
    AttrStringsAre(item, "members");
    forall t
      ensures OwnerOf(ctx, item) == Some(t) <==> Owns(ctx, t, item)
    {
      OwnerIs(ctx, item, t);
    }
    forall v
      ensures !IsTrue(v) <==> IsFalse(v)
    {
      FalseIs(v);
    }
    if AttrStrings(item, "members").Some? {
      NoMembers(AttrStrings(item, "members").value);
    }
  }

  lemma AdminIs(item: Item)
    ensures ReadAdmin(item) == if IsAnAdmin(item) then Some({}) else None
  {
    AttrStringIs(item, "tenant_id");
    AttrStringIs(item, "record_type");
    AttrStringIs(item, "key");
  }

  /** The verifier accepts exactly the well-formed rows of a role, and finds exactly their users. */
  lemma ReferencesAre(ctx: Context, role: string, item: Item)
    requires Distinct(ctx.tenants)
    ensures ReadReferences(ctx, role, item).Some? <==> IsFormed(ctx, role, item)
    ensures ReadReferences(ctx, role, item).Some? ==>
      forall id :: id in ReadReferences(ctx, role, item).value <==> Refers(ctx, role, item, id)
  {
    if role == "admin_auth" {
      AdminIs(item);
    } else if role == "passkeys" || role == "password_credentials" {
      CredentialIs(ctx, role, item);
    } else if role == "grants" {
      GrantIs(ctx, item);
    } else if role == "scim_groups" {
      GroupIs(ctx, item);
    } else if role == "users" {
      SecondaryIs(ctx, item);
      UsersAre(ctx, item);
    }
  }

  lemma UsersAre(ctx: Context, item: Item)
    requires Distinct(ctx.tenants)
    ensures ReadUser(ctx, item).Canonical? <==> exists id :: IsUser(ctx, item, id)
    ensures forall id :: IsUser(ctx, item, id) <==> ReadUser(ctx, item).Canonical? && ReadUser(ctx, item).id == id
  {
    forall id
      ensures IsUser(ctx, item, id) <==> ReadUser(ctx, item).Canonical? && ReadUser(ctx, item).id == id
    {
      UserIs(ctx, item, id);
    }
    var row := ReadUser(ctx, item);
    assert row.Canonical? ==> IsUser(ctx, item, row.id);
  }

  lemma SomeIff(x: Option<string>, p: string -> bool)
    requires forall t :: x == Some(t) <==> p(t)
    ensures x.Some? <==> exists t :: p(t)
  {
    if x.Some? {
      assert p(x.value);
    }
  }

  lemma HasOwnerIs(ctx: Context, item: Item)
    ensures OwnerOf(ctx, item).Some? <==> IsOwned(ctx, item)
  {
    var owns := (t: string) => Owns(ctx, t, item);
    forall t
      ensures OwnerOf(ctx, item) == Some(t) <==> owns(t)
    {
      OwnerIs(ctx, item, t);
    }
    SomeIff(OwnerOf(ctx, item), owns);
    assert forall t :: owns(t) <==> Owns(ctx, t, item);
  }

  lemma EventsAreRetained()
    ensures EVENTS == RETAINED_ROLE
  {
  }

  lemma EventRow(ctx: Context, role: string, item: Item)
    requires role == EVENTS
    ensures RowIsOwned(ctx, role, item) == IsRetainedEvent(item)
  {
    EventsAreRetained();
  }

  lemma KeptRow(ctx: Context, role: string, item: Item)
    requires RowIsOwned(ctx, role, item) == IsRetainedEvent(item)
    ensures RowIsOwned(ctx, role, item) == IsKeptEvent(item)
  {
    KeptIs(item);
  }

  lemma EventIsKept(ctx: Context, role: string, item: Item)
    requires role == EVENTS
    ensures RowIsOwned(ctx, role, item) == IsKeptEvent(item)
  {
    EventRow(ctx, role, item);
    KeptRow(ctx, role, item);
  }

  lemma OtherRow(ctx: Context, role: string, item: Item)
    requires role != EVENTS
    ensures RowIsOwned(ctx, role, item) == OwnerOf(ctx, item).Some?
  {
    EventsAreRetained();
  }

  lemma RowHasOwner(ctx: Context, role: string, item: Item)
    requires role != EVENTS
    ensures RowIsOwned(ctx, role, item) == IsOwned(ctx, item)
  {
    OtherRow(ctx, role, item);
    HasOwnerIs(ctx, item);
  }

  lemma LiveIs(ctx: Context, role: string, item: Item, t: string)
    ensures IsLive(ctx, role, item, t) <==> CountsAgainst(ctx, role, item, t)
  {
    EventsAreRetained();
    OwnerIs(ctx, item, t);
    GoneIs(ctx, item, t);
  }

  // ---------- Suppression and governance scans ----------

  lemma RowKinds(ctx: Context, x: Item)
    ensures ReadSuppression(ctx, x).BadSuppression? <==>
      !((exists pk :: HeadAt(ctx.env, x, pk)) || exists s, k, isFloat :: EpochAt(ctx, x, s, k, isFloat))
  {
    match ReadSuppression(ctx, x)
    case BadSuppression =>
      forall pk
        ensures !HeadAt(ctx.env, x, pk)
      {
        HeadIs(ctx, x, pk);
      }
      forall s, k, isFloat
        ensures !EpochAt(ctx, x, s, k, isFloat)
      {
        EpochIs(ctx, x, s, k, isFloat);
      }
    case Head(pk) => HeadIs(ctx, x, pk);
    case Epoch(s, k, isFloat) => EpochIs(ctx, x, s, k, isFloat);
  }

  lemma EpochsAre(ctx: Context, x: Item)
    ensures forall s, k, isFloat :: EpochAt(ctx, x, s, k, isFloat) <==> ReadSuppression(ctx, x) == Epoch(s, k, isFloat)
    ensures forall pk :: HeadAt(ctx.env, x, pk) <==> ReadSuppression(ctx, x) == Head(pk)
  {
    forall s, k, isFloat
      ensures EpochAt(ctx, x, s, k, isFloat) <==> ReadSuppression(ctx, x) == Epoch(s, k, isFloat)
    {
      EpochIs(ctx, x, s, k, isFloat);
    }
    forall pk
      ensures HeadAt(ctx.env, x, pk) <==> ReadSuppression(ctx, x) == Head(pk)
    {
      HeadIs(ctx, x, pk);
    }
  }

  lemma RecordedMeans(ctx: Context, rows: seq<Item>, s: Suppression)
    ensures Recorded(ctx, rows, s) <==> IsRecorded(ctx, rows, s)
  {
    if x :| x in rows && ReadSuppression(ctx, x).Epoch? && ReadSuppression(ctx, x).record == s {
      EpochsAre(ctx, x);
      assert EpochAt(ctx, x, s, ReadSuppression(ctx, x).keyVersion, ReadSuppression(ctx, x).floatVersion);
    }
    if x, k, isFloat :| x in rows && EpochAt(ctx, x, s, k, isFloat) {
      EpochsAre(ctx, x);
    }
  }

  lemma KeyIs(ctx: Context, x: Item, k: int)
    ensures IsEpochOf(ctx, x, k) <==> IsKeyAt(ctx, x, k)
    ensures IsEpochOf(ctx, x, k) && ReadSuppression(ctx, x).floatVersion <==> IsFloatAt(ctx, x, k)
  {
    EpochsAre(ctx, x);
    var row := ReadSuppression(ctx, x);
    if row.Epoch? && row.keyVersion == k {
      assert EpochAt(ctx, x, row.record, k, row.floatVersion);
    }
  }

  lemma InUseMeans(ctx: Context, rows: seq<Item>, k: int)
    ensures KeyInUse(ctx, rows, k) <==> IsKeyOfSome(ctx, rows, k)
  {
    if x :| x in rows && IsEpochOf(ctx, x, k) {
      KeyIs(ctx, x, k);
    }
    if x :| x in rows && IsKeyAt(ctx, x, k) {
      KeyIs(ctx, x, k);
    }
  }

  lemma HeadMeans(ctx: Context, rows: seq<Item>, s: Suppression)
    ensures HasHead(ctx, rows, Pk(s.tenant, s.targetClass, s.digest)) <==>
      exists y :: y in rows && HeadAt(ctx.env, y, s.tenant + "\U{1F}" + s.targetClass + "\U{1F}" + s.digest)
  {
    var pk := s.tenant + "\U{1F}" + s.targetClass + "\U{1F}" + s.digest;
    if y :| y in rows && ReadSuppression(ctx, y) == Head(pk) {
      HeadIs(ctx, y, pk);
    }
    if y :| y in rows && HeadAt(ctx.env, y, pk) {
      HeadIs(ctx, y, pk);
    }
  }

  lemma SuppressionScanMeans(ctx: Context, rows: seq<Item>)
    ensures SuppressionsAreValid(ctx, rows) <==> SuppressionsAreFormed(ctx, rows)
  {
    forall x
      ensures ReadSuppression(ctx, x).BadSuppression? <==>
        !((exists pk :: HeadAt(ctx.env, x, pk)) || exists s, k, isFloat :: EpochAt(ctx, x, s, k, isFloat))
    {
      RowKinds(ctx, x);
    }
    forall s
      ensures Recorded(ctx, rows, s) <==> IsRecorded(ctx, rows, s)
      ensures HasHead(ctx, rows, Pk(s.tenant, s.targetClass, s.digest)) <==>
        exists y :: y in rows && HeadAt(ctx.env, y, s.tenant + "\U{1F}" + s.targetClass + "\U{1F}" + s.digest)
    {
      RecordedMeans(ctx, rows, s);
      HeadMeans(ctx, rows, s);
    }
  }

  ghost predicate IsFirstFloat(ctx: Context, rows: seq<Item>, i: nat, k: int)
    requires i < |rows|
  {
    IsFloatAt(ctx, rows[i], k) && forall j :: 0 <= j < i ==> !IsKeyAt(ctx, rows[j], k)
  }

  lemma FirstFloatMeans(ctx: Context, rows: seq<Item>)
    ensures (forall k :: !FirstIsFloat(ctx, rows, k)) <==> FirstVersionsAreIntegers(ctx, rows)
  {
    forall k
      ensures FirstIsFloat(ctx, rows, k) <==> exists i :: 0 <= i < |rows| && IsFirstFloat(ctx, rows, i, k)
    {
      FirstFloatIs(ctx, rows, k);
    }
    if i, k :| 0 <= i < |rows| && IsFirstFloat(ctx, rows, i, k) {
      assert !FirstVersionsAreIntegers(ctx, rows);
    }
    if !FirstVersionsAreIntegers(ctx, rows) {
      var i, k :| 0 <= i < |rows| && IsFloatAt(ctx, rows[i], k) && !exists j :: 0 <= j < i && IsKeyAt(ctx, rows[j], k);
      assert IsFirstFloat(ctx, rows, i, k) && FirstIsFloat(ctx, rows, k);
    }
  }

  lemma FirstFloatIsFound(ctx: Context, rows: seq<Item>, i: nat, k: int)
    requires i < |rows| && IsEpochOf(ctx, rows[i], k) && ReadSuppression(ctx, rows[i]).floatVersion
    requires forall j :: 0 <= j < i ==> !IsEpochOf(ctx, rows[j], k)
    ensures IsFirstFloat(ctx, rows, i, k)
  {
    KeyIs(ctx, rows[i], k);
    forall j | 0 <= j < i
      ensures !IsKeyAt(ctx, rows[j], k)
    {
      KeyIs(ctx, rows[j], k);
    }
  }

  lemma FoundIsFirstFloat(ctx: Context, rows: seq<Item>, i: nat, k: int)
    requires i < |rows| && IsFirstFloat(ctx, rows, i, k)
    ensures FirstIsFloat(ctx, rows, k)
  {
    KeyIs(ctx, rows[i], k);
    forall j | 0 <= j < i
      ensures !IsEpochOf(ctx, rows[j], k)
    {
      KeyIs(ctx, rows[j], k);
    }
  }

  lemma FirstFloatIs(ctx: Context, rows: seq<Item>, k: int)
    ensures FirstIsFloat(ctx, rows, k) <==> exists i :: 0 <= i < |rows| && IsFirstFloat(ctx, rows, i, k)
  {
    if i :| 0 <= i < |rows| && IsEpochOf(ctx, rows[i], k) && ReadSuppression(ctx, rows[i]).floatVersion
            && forall j :: 0 <= j < i ==> !IsEpochOf(ctx, rows[j], k) {
      FirstFloatIsFound(ctx, rows, i, k);
    }
    if i :| 0 <= i < |rows| && IsFirstFloat(ctx, rows, i, k) {
      FoundIsFirstFloat(ctx, rows, i, k);
    }
  }

  lemma LifecycleScanMeans(ctx: Context, rows: seq<Item>)
    ensures LifecyclesAreValid(ctx, rows) <==> LifecyclesAreFormed(ctx, rows)
  {
    forall x, t, state
      ensures ReadLifecycle(ctx, x) == Lifecycle(t, state) <==> LifecycleAt(ctx, x, t, state)
      ensures ReadLifecycle(ctx, x).NoLifecycle? <==> IsNoLifecycle(x)
    {
      LifecycleIs(ctx, x, t, state);
    }
    GatherIsDistinct(rows, TenantReader(ctx));
    forall x
      ensures !ReadLifecycle(ctx, x).BadLifecycle? <==> IsNoLifecycle(x) || exists t, state :: LifecycleAt(ctx, x, t, state)
    {
      var row := ReadLifecycle(ctx, x);
      assert row.Lifecycle? ==> LifecycleAt(ctx, x, row.tenant, row.state);
    }
    assert forall i :: 0 <= i < |rows| ==> rows[i] in rows;
    OncePerTenant(ctx, rows);
  }

  lemma StateMeans(ctx: Context, rows: seq<Item>, t: string, state: string)
    ensures HasState(ctx, rows, t, state) <==> exists x :: x in rows && LifecycleAt(ctx, x, t, state)
  {
    if x :| x in rows && ReadLifecycle(ctx, x) == Lifecycle(t, state) {
      LifecycleIs(ctx, x, t, state);
    }
    if x :| x in rows && LifecycleAt(ctx, x, t, state) {
      LifecycleIs(ctx, x, t, state);
    }
  }

  lemma TwiceInTheList(ctx: Context, rows: seq<Item>, i: nat, j: nat)
    requires forall x, t, state :: ReadLifecycle(ctx, x) == Lifecycle(t, state) <==> LifecycleAt(ctx, x, t, state)
    requires i < j < |rows| && TenantReader(ctx)(rows[i]).Some? && TenantReader(ctx)(rows[i]) == TenantReader(ctx)(rows[j])
    ensures exists t, a, b :: LifecycleAt(ctx, rows[i], t, a) && LifecycleAt(ctx, rows[j], t, b)
  {
    var a, b := ReadLifecycle(ctx, rows[i]), ReadLifecycle(ctx, rows[j]);
    assert LifecycleAt(ctx, rows[i], a.tenant, a.state) && LifecycleAt(ctx, rows[j], a.tenant, b.state);
  }

  lemma OncePerTenant(ctx: Context, rows: seq<Item>)
    requires forall x, t, state :: ReadLifecycle(ctx, x) == Lifecycle(t, state) <==> LifecycleAt(ctx, x, t, state)
    ensures Distinct(LifecycleTenants(ctx, rows)) <==>
      forall i, j, t, a, b :: 0 <= i < j < |rows| && LifecycleAt(ctx, rows[i], t, a) ==> !LifecycleAt(ctx, rows[j], t, b)
  {
    var f := TenantReader(ctx);
    GatherIsDistinct(rows, f);
    if i, j :| 0 <= i < j < |rows| && f(rows[i]).Some? && f(rows[i]) == f(rows[j]) {
      TwiceInTheList(ctx, rows, i, j);
    } else {
      forall i, j, t, a, b | 0 <= i < j < |rows| && LifecycleAt(ctx, rows[i], t, a)
        ensures !LifecycleAt(ctx, rows[j], t, b)
      {
        assert ReadLifecycle(ctx, rows[i]) == Lifecycle(t, a);
        assert f(rows[i]) == Some(t) && f(rows[i]) != f(rows[j]);
        assert ReadLifecycle(ctx, rows[j]) != Lifecycle(t, b);
      }
    }
  }

  // ---------- Restored scans ----------

  lemma NoUserTwiceMeans(ctx: Context, users: seq<Item>)
    requires Distinct(ctx.tenants)
    ensures Distinct(CanonicalIds(ctx, users)) <==> NoUserTwice(ctx, users)
  {
    var f := IdReader(ctx);
    GatherIsDistinct(users, f);
    forall x
      ensures forall id :: IsUser(ctx, x, id) <==> f(x) == Some(id)
    {
      UsersAre(ctx, x);
    }
    if i, j :| 0 <= i < j < |users| && f(users[i]).Some? && f(users[i]) == f(users[j]) {
      assert IsUser(ctx, users[i], f(users[i]).value) && IsUser(ctx, users[j], f(users[i]).value);
    }
    if i, j, id :| 0 <= i < j < |users| && IsUser(ctx, users[i], id) && IsUser(ctx, users[j], id) {
      assert f(users[i]) == f(users[j]);
    }
  }

  lemma RoleNames()
    ensures (set role | role in ROLES) ==
      {"admin_auth", "clients", "domain_map", "federation_config", "grants", "passkeys",
       "password_credentials", "scim_groups", "security_events", "tenant_keys", "users", "workload_trust"}
  {
  }

  lemma RolesAre(m: Manifest, keys: map<int, bytes>)
    ensures ManifestIsValid(m, keys) <==> IsComplete(m, keys)
    ensures IsComplete(m, keys) ==> Covers(m, ROLES)
    ensures IsComplete(m, keys) ==> forall role :: role in m.restored ==> Rows(m, role) == m.restored[role].items
  {
    RoleNames();
    var roles := set role | role in ROLES;
    assert forall role :: role in ROLES <==> role in roles;
  }

  /** The roles are those of the restored tables, whose scans are complete. */
  ghost predicate Covers(m: Manifest, roles: seq<string>) {
    && (forall role :: role in roles <==> role in m.restored)
    && (forall role :: role in m.restored ==> m.restored[role].Complete?)
  }

  ghost predicate AllOwned(ctx: Context, m: Manifest, roles: seq<string>) {
    forall role, x :: role in roles && x in Rows(m, role) ==> RowIsOwned(ctx, role, x)
  }

  lemma InRole(m: Manifest, roles: seq<string>, role: string, x: Item)
    requires Covers(m, roles) && role in m.restored && x in m.restored[role].items
    ensures role in roles && x in Rows(m, role)
  {
  }

  lemma OwnedInRole(ctx: Context, m: Manifest, roles: seq<string>, role: string, x: Item)
    requires Covers(m, roles) && AllOwned(ctx, m, roles) && role in m.restored && x in m.restored[role].items
    ensures RowIsOwned(ctx, role, x)
  {
    InRole(m, roles, role, x);
  }

  lemma OwnedEventsAreKept(ctx: Context, m: Manifest, roles: seq<string>)
    requires Covers(m, roles) && AllOwned(ctx, m, roles)
    ensures EventsAreKept(ctx, m)
  {
    if EVENTS in m.restored {
      forall x | x in m.restored[EVENTS].items
        ensures IsKeptEvent(x)
      {
        OwnedInRole(ctx, m, roles, EVENTS, x);
        EventIsKept(ctx, EVENTS, x);
      }
    }
  }

  lemma OwnedRowsHaveOwners(ctx: Context, m: Manifest, roles: seq<string>)
    requires Covers(m, roles) && AllOwned(ctx, m, roles)
    ensures RowsHaveOwners(ctx, m)
  {
    forall role, x | role in m.restored && role != EVENTS && x in m.restored[role].items
      ensures IsOwned(ctx, x)
    {
      OwnedInRole(ctx, m, roles, role, x);
      RowHasOwner(ctx, role, x);
    }
  }

  lemma EventIsOwned(ctx: Context, m: Manifest, role: string, x: Item)
    requires forall r :: r in m.restored ==> m.restored[r].Complete?
    requires EventsAreKept(ctx, m) && role == EVENTS && role in m.restored && x in m.restored[role].items
    ensures RowIsOwned(ctx, role, x) == true
  {
    EventIsKept(ctx, role, x);
  }

  lemma PlacedIsOwned(ctx: Context, m: Manifest, role: string, x: Item)
    requires forall r :: r in m.restored ==> m.restored[r].Complete?
    requires RowsHaveOwners(ctx, m) && role != EVENTS && role in m.restored && x in m.restored[role].items
    ensures RowIsOwned(ctx, role, x) == true
  {
    RowHasOwner(ctx, role, x);
  }

  lemma RowsAreOwnedMeans(ctx: Context, m: Manifest, roles: seq<string>)
    requires Covers(m, roles)
    ensures AllOwned(ctx, m, roles) <==> EventsAreKept(ctx, m) && RowsHaveOwners(ctx, m)
  {
    if AllOwned(ctx, m, roles) {
      OwnedEventsAreKept(ctx, m, roles);
      OwnedRowsHaveOwners(ctx, m, roles);
    }
    if EventsAreKept(ctx, m) && RowsHaveOwners(ctx, m) {
      forall role, x | role in roles && x in Rows(m, role)
        ensures RowIsOwned(ctx, role, x)
      {
        if role == EVENTS {
          EventIsOwned(ctx, m, role, x);
        } else {
          PlacedIsOwned(ctx, m, role, x);
        }
      }
    }
  }

  ghost predicate AllRead(ctx: Context, m: Manifest, roles: seq<string>) {
    forall role, x :: role in roles && x in Rows(m, role) ==> ReadReferences(ctx, role, x).Some?
  }

  lemma RowsAreReadMeans(ctx: Context, m: Manifest, roles: seq<string>)
    requires Covers(m, roles) && Distinct(ctx.tenants)
    ensures AllRead(ctx, m, roles) <==> RowsAreFormed(ctx, m)
  {
    forall role, x
      ensures ReadReferences(ctx, role, x).Some? <==> IsFormed(ctx, role, x)
    {
      ReferencesAre(ctx, role, x);
    }
  }

  lemma AllOwnedIs(ctx: Context, m: Manifest)
    ensures RowsAreOwned(ctx, m) == AllOwned(ctx, m, ROLES)
    ensures RowsAreRead(ctx, m) == AllRead(ctx, m, ROLES)
  {
  }

  lemma RestoredMeans(ctx: Context, m: Manifest, keys: map<int, bytes>)
    requires IsComplete(m, keys) && Distinct(ctx.tenants)
    ensures InventoryIsValid(ctx, m) == RestoredIsFormed(ctx, m)
  {
    RolesAre(m, keys);
    RowsAreOwnedMeans(ctx, m, ROLES);
    RowsAreReadMeans(ctx, m, ROLES);
    NoUserTwiceMeans(ctx, Rows(m, "users"));
    AllOwnedIs(ctx, m);
  }

  lemma TenantRecordedMeans(ctx: Context, rows: seq<Item>, t: string)
    ensures (exists s :: Recorded(ctx, rows, s) && s.tenant == t && s.targetClass == "tenant") <==>
      exists digest :: IsRecorded(ctx, rows, Suppression(t, "tenant", digest))
  {
    if s :| Recorded(ctx, rows, s) && s.tenant == t && s.targetClass == "tenant" {
      RecordedMeans(ctx, rows, s);
      assert s == Suppression(t, "tenant", s.digest);
    }
    if digest :| IsRecorded(ctx, rows, Suppression(t, "tenant", digest)) {
      RecordedMeans(ctx, rows, Suppression(t, "tenant", digest));
    }
  }

  lemma BlockedMeans(ctx: Context, m: Manifest, t: string)
    requires m.governance.Complete? && m.suppressions.Complete?
    ensures IsBlocked(ctx, m, t) <==> MustBeGone(ctx, m, t)
  {
    StateMeans(ctx, m.governance.items, t, "offboarding");
    TenantRecordedMeans(ctx, m.suppressions.items, t);
  }

  lemma LiveMeans(ctx: Context, m: Manifest, keys: map<int, bytes>, t: string)
    requires IsComplete(m, keys)
    ensures HasLiveRow(ctx, m, t) <==>
      exists role, x :: role in m.restored && x in m.restored[role].items && CountsAgainst(ctx, role, x, t)
  {
    RolesAre(m, keys);
    forall role, x
      ensures IsLive(ctx, role, x, t) <==> CountsAgainst(ctx, role, x, t)
    {
      LiveIs(ctx, role, x, t);
    }
  }

  lemma ReferencedMeans(ctx: Context, m: Manifest, keys: map<int, bytes>, id: Identity)
    requires IsComplete(m, keys) && Distinct(ctx.tenants) && InventoryIsValid(ctx, m)
    ensures IsReferenced(ctx, m, id) <==>
      exists role, x :: role in m.restored && x in m.restored[role].items && Refers(ctx, role, x, id)
  {
    RolesAre(m, keys);
    forall role, x
      ensures ReadReferences(ctx, role, x).Some? ==> (id in ReadReferences(ctx, role, x).value <==> Refers(ctx, role, x, id))
    {
      ReferencesAre(ctx, role, x);
    }
    if role :| role in ROLES && RefersTo(ctx, role, Rows(m, role), id) {
      var x :| x in Rows(m, role) && ReadReferences(ctx, role, x).Some? && id in ReadReferences(ctx, role, x).value;
      assert Refers(ctx, role, x, id);
    }
    if role, x :| role in m.restored && x in m.restored[role].items && Refers(ctx, role, x, id) {
      assert role in ROLES && x in Rows(m, role);
      assert RefersTo(ctx, role, Rows(m, role), id);
    }
  }

  lemma AliasMeans(ctx: Context, rows: seq<Item>, tenant: string, kind: string, v: string)
    ensures AliasIsErased(ctx, rows, tenant, (kind, v)) <==> AliasIsSuppressed(ctx, rows, tenant, kind, v)
  {
    if k :| k in ctx.keys && KeyInUse(ctx, rows, k) && Recorded(ctx, rows, ErasureOf(ctx, k, tenant, (kind, v))) {
      InUseMeans(ctx, rows, k);
      RecordedMeans(ctx, rows, ErasureOf(ctx, k, tenant, (kind, v)));
    }
    if k :| k in ctx.keys && IsKeyOfSome(ctx, rows, k)
            && IsRecorded(ctx, rows, Suppression(tenant, "user", CodeOf(ctx, k, tenant, "user", kind, v))) {
      InUseMeans(ctx, rows, k);
      RecordedMeans(ctx, rows, ErasureOf(ctx, k, tenant, (kind, v)));
      assert Recorded(ctx, rows, ErasureOf(ctx, k, tenant, (kind, v)));
    }
  }

  lemma ErasedMeans(ctx: Context, m: Manifest, id: Identity, aliases: set<Alias>)
    requires m.suppressions.Complete?
    ensures IsErased(ctx, m, id, aliases) <==>
      exists kind, v :: (kind, v) in aliases && AliasIsSuppressed(ctx, m.suppressions.items, id.0, kind, v)
  {
    var rows := m.suppressions.items;
    if a: Alias :| a in aliases && AliasIsErased(ctx, rows, id.0, a) {
      AliasMeans(ctx, rows, id.0, a.0, a.1);
      assert (a.0, a.1) in aliases;
    }
    if kind, v :| (kind, v) in aliases && AliasIsSuppressed(ctx, rows, id.0, kind, v) {
      AliasMeans(ctx, rows, id.0, kind, v);
      assert AliasIsErased(ctx, rows, id.0, (kind, v));
    }
  }

  // ---------- The verdict ----------

  lemma NobodyErasedMeans(ctx: Context, m: Manifest)
    requires m.suppressions.Complete? && "users" in m.restored && m.restored["users"].Complete? && Distinct(ctx.tenants)
    ensures (forall id, a :: IsCanonical(ctx, Rows(m, "users"), id, a) ==> !IsErased(ctx, m, id, a)) <==>
      forall u, id, kind, v :: u in m.restored["users"].items && IsUser(ctx, u, id) && HasAlias(u, id, kind, v) ==>
        !AliasIsSuppressed(ctx, m.suppressions.items, id.0, kind, v)
  {
    var users, rows := m.restored["users"].items, m.suppressions.items;
    if id, a :| IsCanonical(ctx, users, id, a) && IsErased(ctx, m, id, a) {
      var u :| u in users && ReadUser(ctx, u) == Canonical(id, a);
      ErasedMeans(ctx, m, id, a);
      var kind, v :| (kind, v) in a && AliasIsSuppressed(ctx, rows, id.0, kind, v);
      AliasesAre(ctx, u, id, a);
      UsersAre(ctx, u);
      assert IsUser(ctx, u, id) && HasAlias(u, id, kind, v);
    }
    if u, id, kind, v :| u in users && IsUser(ctx, u, id) && HasAlias(u, id, kind, v)
                         && AliasIsSuppressed(ctx, rows, id.0, kind, v) {
      UsersAre(ctx, u);
      var a := ReadUser(ctx, u).aliases;
      AliasesAre(ctx, u, id, a);
      ErasedMeans(ctx, m, id, a);
      assert IsCanonical(ctx, users, id, a);
    }
  }

  lemma CanonicalMeans(ctx: Context, users: seq<Item>, id: Identity)
    requires Distinct(ctx.tenants)
    ensures (exists a :: IsCanonical(ctx, users, id, a)) <==> exists u :: u in users && IsUser(ctx, u, id)
  {
    if a :| IsCanonical(ctx, users, id, a) {
      var u :| u in users && ReadUser(ctx, u) == Canonical(id, a);
      UsersAre(ctx, u);
      assert IsUser(ctx, u, id);
    }
    if u :| u in users && IsUser(ctx, u, id) {
      UsersAre(ctx, u);
      assert IsCanonical(ctx, users, id, ReadUser(ctx, u).aliases);
    }
  }

  lemma GoneMeans(ctx: Context, m: Manifest, keys: map<int, bytes>)
    requires IsComplete(m, keys) && ctx.tenants == m.tenants
    ensures (forall t :: t in m.tenants && IsBlocked(ctx, m, t) ==> !HasLiveRow(ctx, m, t)) <==>
      forall t, role, x :: MustBeGone(ctx, m, t) && role in m.restored && x in m.restored[role].items ==>
        !CountsAgainst(ctx, role, x, t)
  {
    if t :| t in m.tenants && IsBlocked(ctx, m, t) && HasLiveRow(ctx, m, t) {
      BlockedMeans(ctx, m, t);
      LiveMeans(ctx, m, keys, t);
    }
    if t, role, x :| MustBeGone(ctx, m, t) && role in m.restored && x in m.restored[role].items && CountsAgainst(ctx, role, x, t) {
      BlockedMeans(ctx, m, t);
      LiveMeans(ctx, m, keys, t);
      assert t in m.tenants;
    }
  }

  lemma ResolvedMeans(ctx: Context, m: Manifest, keys: map<int, bytes>)
    requires IsComplete(m, keys) && Distinct(ctx.tenants) && InventoryIsValid(ctx, m)
    ensures (forall id :: IsReferenced(ctx, m, id) ==> exists a :: IsCanonical(ctx, Rows(m, "users"), id, a)) <==>
      forall role, x, id :: role in m.restored && x in m.restored[role].items && Refers(ctx, role, x, id) ==>
        exists u :: u in m.restored["users"].items && IsUser(ctx, u, id)
  {
    if id :| IsReferenced(ctx, m, id) && !exists a :: IsCanonical(ctx, Rows(m, "users"), id, a) {
      ReferencedMeans(ctx, m, keys, id);
      CanonicalMeans(ctx, Rows(m, "users"), id);
    }
    if role, x, id :| role in m.restored && x in m.restored[role].items && Refers(ctx, role, x, id)
                      && !exists u :: u in m.restored["users"].items && IsUser(ctx, u, id) {
      ReferencedMeans(ctx, m, keys, id);
      CanonicalMeans(ctx, Rows(m, "users"), id);
    }
  }

  lemma SafetyMeans(ctx: Context, m: Manifest, keys: map<int, bytes>)
    requires IsComplete(m, keys) && ctx.tenants == m.tenants && InventoryIsValid(ctx, m)
    ensures IsSafe(ctx, m) <==> NothingGoneIsBack(ctx, m)
  {
    GoneMeans(ctx, m, keys);
    ResolvedMeans(ctx, m, keys);
    NobodyErasedMeans(ctx, m);
  }

  lemma WellFormedMeans(m: Manifest, keys: map<int, bytes>, env: Env)
    requires IsComplete(m, keys)
    ensures IsWellFormed(m, keys, env) <==> ScansAreFormed(Context(keys, m.tenants, env), m)
  {
    var ctx := Ctx(m, keys, env);
    RolesAre(m, keys);
    SuppressionScanMeans(ctx, m.suppressions.items);
    LifecycleScanMeans(ctx, m.governance.items);
    RestoredMeans(ctx, m, keys);
  }

  /** The verifier lets a cutover go ahead exactly when the candidate is safe. */
  lemma PassesIffSafe(m: Manifest, keys: map<int, bytes>, env: Env)
    ensures Passes(m, keys, env) <==> SafeToCutOver(m, keys, env)
  {
    RolesAre(m, keys);
    if IsComplete(m, keys) {
      var ctx := Ctx(m, keys, env);
      WellFormedMeans(m, keys, env);
      FirstFloatMeans(ctx, m.suppressions.items);
      if IsWellFormed(m, keys, env) {
        SafetyMeans(ctx, m, keys);
      }
    }
  }
}

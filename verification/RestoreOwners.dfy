/** The tenants the verifier finds in a row are exactly those the row names. */
module RestoreOwners {
  import opened DynamoItems
  import opened Lists
  import opened RestoreMeaning
  import opened RestoreReaders
  import opened RestoreRows
  import opened Wrappers

  /** A search found exactly the claimed tenants, or refused a broken place or an unknown tenant. */
  ghost predicate Finds(r: Option<set<string>>, broken: bool, claims: iset<string>, tenants: seq<string>) {
    && (r.Some? <==> !broken && forall t :: t in claims ==> t in tenants)
    && (r.Some? ==> forall t :: t in r.value <==> t in claims)
  }

  lemma BothFind(a: Option<set<string>>, b: Option<set<string>>, brokenA: bool, brokenB: bool,
                 claimsA: iset<string>, claimsB: iset<string>, tenants: seq<string>)
    requires Finds(a, brokenA, claimsA, tenants) && Finds(b, brokenB, claimsB, tenants)
    ensures Finds(Both(a, b), brokenA || brokenB, claimsA + claimsB, tenants)
  {
  }

  // ---------- Texts ----------

  lemma ClaimEndsAtFirst(s: string, t: string)
    requires TextClaims(s, t)
    ensures FirstIndex(s, SEP) == |t| < |s| && t == s[..|t|]
  {
    assert s[|t|] == (t + [SEP])[|t|] && s[..|t|] == t;
    FirstIndexIs(s, SEP, |t|);
  }

  lemma FirstIsClaimed(s: string)
    requires FirstIndex(s, SEP) < |s|
    ensures TextClaims(s, s[..FirstIndex(s, SEP)])
  {
    UpToAnElement(s, FirstIndex(s, SEP));
    assert [SEP] == "\U{1F}";
  }

  lemma BrokenIs(s: string)
    ensures TextIsBroken(s) <==> FirstIndex(s, SEP) + 1 == |s|
  {
    var n := FirstIndex(s, SEP);
    if n + 1 == |s| {
      assert s == s[..n] + [SEP];
    }
    if t :| SEP !in t && s == t + [SEP] {
      ClaimEndsAtFirst(s, t);
    }
  }

  lemma PrefixTenantFinds(s: string, tenants: seq<string>)
    ensures Finds(PrefixTenant(s, tenants), TextIsBroken(s), (iset t | TextClaims(s, t)), tenants)
  {
    var n := FirstIndex(s, SEP);
    BrokenIs(s);
    if n < |s| {
      FirstIsClaimed(s);
    }
    forall t | TextClaims(s, t)
      ensures n < |s| && t == s[..n]
    {
      ClaimEndsAtFirst(s, t);
    }
  }

  // ---------- Values ----------

  lemma AtChild(v: Json, i: nat, path: seq<nat>)
    requires i < |Children(v)|
    ensures At(v, [i] + path) == At(Children(v)[i], path)
  {
    assert ([i] + path)[1..] == path;
  }

  lemma InsideUnfolds(w: Json, v: Json)
    ensures Inside(w, v) <==> w == v || exists i :: 0 <= i < |Children(v)| && Inside(w, Children(v)[i])
  {
    assert At(v, []) == Some(v);
    if Inside(w, v) && w != v {
      var path :| At(v, path) == Some(w);
      assert At(Children(v)[path[0]], path[1..]) == Some(w);
    }
    if i :| 0 <= i < |Children(v)| && Inside(w, Children(v)[i]) {
      var path :| At(Children(v)[i], path) == Some(w);
      AtChild(v, i, path);
    }
  }

  lemma ClaimsUnfold(v: Json, t: string)
    ensures ValueClaims(v, t) <==> ClaimsHere(v, t) || exists i :: 0 <= i < |Children(v)| && ValueClaims(Children(v)[i], t)
  {
    InsideUnfolds(v, v);
    if ValueClaims(v, t) {
      var w :| Inside(w, v) && ClaimsHere(w, t);
      InsideUnfolds(w, v);
      assert w != v ==> exists i :: 0 <= i < |Children(v)| && Inside(w, Children(v)[i]);
    }
    if i :| 0 <= i < |Children(v)| && ValueClaims(Children(v)[i], t) {
      var w :| Inside(w, Children(v)[i]) && ClaimsHere(w, t);
      InsideUnfolds(w, v);
      assert Inside(w, v);
    }
  }

  lemma BrokenUnfolds(v: Json)
    ensures ValueIsBroken(v) <==>
      (v.JString? && TextIsBroken(v.s)) || exists i :: 0 <= i < |Children(v)| && ValueIsBroken(Children(v)[i])
  {
    InsideUnfolds(v, v);
    if ValueIsBroken(v) {
      var w :| Inside(w, v) && w.JString? && TextIsBroken(w.s);
      InsideUnfolds(w, v);
    }
    if i :| 0 <= i < |Children(v)| && ValueIsBroken(Children(v)[i]) {
      var w :| Inside(w, Children(v)[i]) && w.JString? && TextIsBroken(w.s);
      InsideUnfolds(w, v);
    }
  }

  ghost function Claimed(v: Json): iset<string> {
    iset t | ValueClaims(v, t)
  }

  /** The tenant a member names directly, if its name says that it does. */
  ghost function NamedBy(name: string, entry: Json): iset<string> {
    iset t | name in {"tenant", "tenant_id"} && entry == JString(t)
  }

  lemma FieldFinds(name: string, entry: Json, inner: Option<set<string>>, tenants: seq<string>)
    requires Finds(inner, ValueIsBroken(entry), Claimed(entry), tenants)
    ensures Finds(FieldTenants(name, entry, inner, tenants), ValueIsBroken(entry), NamedBy(name, entry) + Claimed(entry), tenants)
  {
    if name in {"tenant", "tenant_id"} && entry.JString? {
      assert Finds(KnownTenant(entry.s, tenants), false, NamedBy(name, entry), tenants);
      BothFind(KnownTenant(entry.s, tenants), inner, false, ValueIsBroken(entry), NamedBy(name, entry), Claimed(entry), tenants);
    } else {
      assert NamedBy(name, entry) + Claimed(entry) == Claimed(entry);
    }
  }

  lemma {:induction false} JsonFinds(v: Json, tenants: seq<string>)
    ensures Finds(JsonTenants(v, tenants), ValueIsBroken(v), Claimed(v), tenants)
    decreases v
  {
    BrokenUnfolds(v);
    forall t
      ensures ValueClaims(v, t) <==> ClaimsHere(v, t) || exists i :: 0 <= i < |Children(v)| && ValueClaims(Children(v)[i], t)
    {
      ClaimsUnfold(v, t);
    }
    match v
    case JObject(fields) =>
      forall i | 0 <= i < |fields|
        ensures Finds(JsonTenants(fields[i].1, tenants), ValueIsBroken(fields[i].1), Claimed(fields[i].1), tenants)
      {
        JsonFinds(fields[i].1, tenants);
      }
      ObjectFinds(fields, tenants);
    case JArray(items) =>
      forall i | 0 <= i < |items|
        ensures Finds(JsonTenants(items[i], tenants), ValueIsBroken(items[i]), Claimed(items[i]), tenants)
      {
        JsonFinds(items[i], tenants);
      }
      ArrayFinds(items, tenants);
    case JString(s) =>
      PrefixTenantFinds(s, tenants);
    case _ =>
  }

  lemma ObjectFinds(fields: seq<(string, Json)>, tenants: seq<string>)
    requires forall i :: 0 <= i < |fields| ==>
      Finds(JsonTenants(fields[i].1, tenants), ValueIsBroken(fields[i].1), Claimed(fields[i].1), tenants)
    ensures var v := JObject(fields);
      Finds(JsonTenants(v, tenants), ValueIsBroken(v), Claimed(v), tenants)
  {
    var v := JObject(fields);
    BrokenUnfolds(v);
    assert forall i :: 0 <= i < |fields| ==> Children(v)[i] == fields[i].1;
    forall i | 0 <= i < |fields|
      ensures Finds(FieldFound(fields, i, tenants), ValueIsBroken(fields[i].1), FieldClaims(fields, i), tenants)
    {
      FieldFinds(fields[i].0, fields[i].1, JsonTenants(fields[i].1, tenants), tenants);
    }
    forall t
      ensures ValueClaims(v, t) <==> exists i :: 0 <= i < |fields| && t in FieldClaims(fields, i)
    {
      FieldsClaim(fields, t);
    }
  }

  ghost function FieldClaims(fields: seq<(string, Json)>, i: nat): iset<string>
    requires i < |fields|
  {
    NamedBy(fields[i].0, fields[i].1) + Claimed(fields[i].1)
  }

  function FieldFound(fields: seq<(string, Json)>, i: nat, tenants: seq<string>): Option<set<string>>
    requires i < |fields|
  {
    FieldTenants(fields[i].0, fields[i].1, JsonTenants(fields[i].1, tenants), tenants)
  }

  lemma FieldsClaim(fields: seq<(string, Json)>, t: string)
    ensures ValueClaims(JObject(fields), t) <==> exists i :: 0 <= i < |fields| && t in FieldClaims(fields, i)
  {
    var v := JObject(fields);
    ClaimsUnfold(v, t);
    assert forall i :: 0 <= i < |fields| ==> Children(v)[i] == fields[i].1;
    if i :| 0 <= i < |fields| && v.fields[i].0 in {"tenant", "tenant_id"} && v.fields[i].1 == JString(t) {
      assert t in FieldClaims(fields, i);
    }
    if i :| 0 <= i < |Children(v)| && ValueClaims(Children(v)[i], t) {
      assert t in FieldClaims(fields, i);
    }
    if i :| 0 <= i < |fields| && t in FieldClaims(fields, i) {
      assert t in NamedBy(fields[i].0, fields[i].1) ==> IsTenantName(v, t);
      assert t in Claimed(fields[i].1) ==> ValueClaims(Children(v)[i], t);
    }
  }

  lemma ArrayFinds(items: seq<Json>, tenants: seq<string>)
    requires forall i :: 0 <= i < |items| ==>
      Finds(JsonTenants(items[i], tenants), ValueIsBroken(items[i]), Claimed(items[i]), tenants)
    ensures var v := JArray(items);
      Finds(JsonTenants(v, tenants), ValueIsBroken(v), Claimed(v), tenants)
  {
    var v := JArray(items);
    BrokenUnfolds(v);
    assert Children(v) == items;
    forall t
      ensures ValueClaims(v, t) <==> exists i :: 0 <= i < |items| && t in Claimed(items[i])
    {
      ClaimsUnfold(v, t);
    }
  }

  // ---------- Attributes ----------

  ghost function EntryClaims(v: Json): iset<string> {
    iset t | v.JString? && TextClaims(v.s, t)
  }

  lemma EntryFinds(v: Json, tenants: seq<string>)
    ensures Finds(PrefixTenantOf(v, tenants), EntryIsBroken(v), EntryClaims(v), tenants)
  {
    match v
    case JString(s) =>
      PrefixTenantFinds(s, tenants);
      assert EntryClaims(v) == iset t | TextClaims(s, t);
    case JObject(fields) =>
      NamesAre(fields);
    case _ =>
  }

  ghost predicate EntryAmongClaims(values: seq<Json>, t: string) {
    exists v :: v in values && t in EntryClaims(v)
  }

  ghost function EntriesClaim(values: seq<Json>): iset<string> {
    iset t | EntryAmongClaims(values, t)
  }

  lemma {:induction false} EntriesFind(values: seq<Json>, tenants: seq<string>)
    ensures Finds(PrefixTenants(values, tenants), exists v :: v in values && EntryIsBroken(v), EntriesClaim(values), tenants)
  {
    if values == [] {
    } else {
      var first, rest := values[0], values[1..];
      EntriesFind(rest, tenants);
      EntryFinds(first, tenants);
      BothFind(PrefixTenantOf(first, tenants), PrefixTenants(rest, tenants), EntryIsBroken(first),
               exists v :: v in rest && EntryIsBroken(v), EntryClaims(first), EntriesClaim(rest), tenants);
      assert forall v :: v in values <==> v == first || v in rest;
      assert EntriesClaim(values) == EntryClaims(first) + EntriesClaim(rest);
    }
  }

  lemma {:induction false} ValuesAre(entries: seq<Entry>)
    ensures Values(entries).Some? <==> forall i :: 0 <= i < |entries| ==> entries[i].Tagged?
    ensures Values(entries).Some? ==> forall v :: v in Values(entries).value <==> Tagged(v) in entries
  {
    if entries == [] {
    } else {
      ValuesAre(entries[1..]);
      assert entries == [entries[0]] + entries[1..];
      assert forall e :: e in entries <==> e == entries[0] || e in entries[1..];
    }
  }

  lemma AttrStringsAre(item: Item, name: string)
    ensures AttrStrings(item, name).Some? <==> ListOrNothing(item, name)
    ensures AttrStrings(item, name).Some? ==> forall v :: v in AttrStrings(item, name).value <==> EntryAt(item, name, v)
  {
    if name in item {
      match item[name]
      case L(entries) => ValuesAre(entries);
      case SS(members) =>
        var values := AttrStrings(item, name).value;
        assert forall i :: 0 <= i < |members| ==> values[i] == JString(members[i]);
        forall v
          ensures v in values <==> EntryAt(item, name, v)
        {
          if v.JString? && v.s in members {
            var i :| 0 <= i < |members| && members[i] == v.s;
            assert values[i] == v;
          }
        }
      case _ =>
    }
  }

  ghost predicate PrefixIsBroken(item: Item, name: string) {
    !ListOrNothing(item, name) || exists v :: EntryAt(item, name, v) && EntryIsBroken(v)
  }

  ghost predicate EntryAtClaims(item: Item, name: string, t: string) {
    exists s :: EntryAt(item, name, JString(s)) && TextClaims(s, t)
  }

  ghost function PrefixClaims(item: Item, name: string): iset<string> {
    iset t | EntryAtClaims(item, name, t)
  }

  lemma PrefixFinds(ctx: Context, item: Item, name: string)
    ensures Finds(PrefixAttribute(ctx, item, name), PrefixIsBroken(item, name), PrefixClaims(item, name), ctx.tenants)
  {
    AttrStringsAre(item, name);
    if AttrStrings(item, name).Some? {
      var values := AttrStrings(item, name).value;
      EntriesFind(values, ctx.tenants);
      forall t
        ensures t in EntriesClaim(values) <==> t in PrefixClaims(item, name)
      {
        if v :| v in values && t in EntryClaims(v) {
          assert v == JString(v.s) && EntryAt(item, name, JString(v.s));
        }
        if s :| EntryAt(item, name, JString(s)) && TextClaims(s, t) {
          assert JString(s) in values && t in EntryClaims(JString(s));
        }
      }
      assert EntriesClaim(values) == PrefixClaims(item, name);
    }
  }

  ghost function TenantClaim(item: Item, name: string): iset<string> {
    iset t | t != "" && TextAt(item, name, t)
  }

  lemma TenantAttributeFinds(ctx: Context, item: Item, name: string)
    ensures Finds(TenantAttribute(ctx, item, name), !TextOrNothing(item, name), TenantClaim(item, name), ctx.tenants)
  {
    AttrStringIs(item, name);
  }

  ghost predicate EncodedIsBroken(env: Env, item: Item, name: string) {
    || !TextOrNothing(item, name)
    || exists s :: TextAt(item, name, s) && s != "" && (env.decode(s).None? || ValueIsBroken(env.decode(s).value))
  }

  ghost predicate DecodedClaims(env: Env, item: Item, name: string, t: string) {
    exists v :: Decodes(env, item, name, v) && ValueClaims(v, t)
  }

  ghost function EncodedClaims(env: Env, item: Item, name: string): iset<string> {
    iset t | DecodedClaims(env, item, name, t)
  }

  lemma EncodedFinds(ctx: Context, item: Item, name: string)
    ensures Finds(JsonAttribute(ctx, item, name), EncodedIsBroken(ctx.env, item, name),
                  EncodedClaims(ctx.env, item, name), ctx.tenants)
  {
    AttrStringIs(item, name);
    DecodesIs(ctx.env, item, name);
    var encoded := AttrString(item, name);
    if NonEmpty(encoded) && ctx.env.decode(encoded.value).Some? {
      var v := ctx.env.decode(encoded.value).value;
      JsonFinds(v, ctx.tenants);
      assert Decodes(ctx.env, item, name, v);
      assert EncodedClaims(ctx.env, item, name) == Claimed(v);
    }
  }

  // ---------- Rows ----------

  ghost function RowClaims(env: Env, item: Item): iset<string> {
    iset t | Claims(env, item, t)
  }

  ghost predicate PlaceIsBroken(env: Env, item: Item, place: Place) {
    match place
    case Whole(name) => !TextOrNothing(item, name)
    case Prefix(name) => PrefixIsBroken(item, name)
    case Encoded(name) => EncodedIsBroken(env, item, name)
  }

  ghost function PlaceClaims(env: Env, item: Item, place: Place): iset<string> {
    match place
    case Whole(name) => TenantClaim(item, name)
    case Prefix(name) => PrefixClaims(item, name)
    case Encoded(name) => EncodedClaims(env, item, name)
  }

  lemma PlaceFinds(ctx: Context, item: Item, place: Place)
    ensures Finds(TenantsAt(ctx, item, place), PlaceIsBroken(ctx.env, item, place), PlaceClaims(ctx.env, item, place), ctx.tenants)
  {
    match place
    case Whole(name) => TenantAttributeFinds(ctx, item, name);
    case Prefix(name) => PrefixFinds(ctx, item, name);
    case Encoded(name) => EncodedFinds(ctx, item, name);
  }

  ghost predicate SomePlaceIsBroken(env: Env, item: Item, places: seq<Place>) {
    exists place :: place in places && PlaceIsBroken(env, item, place)
  }

  ghost predicate SomePlaceClaims(env: Env, item: Item, places: seq<Place>, t: string) {
    exists place :: place in places && t in PlaceClaims(env, item, place)
  }

  ghost function AllClaims(env: Env, item: Item, places: seq<Place>): iset<string> {
    iset t | SomePlaceClaims(env, item, places, t)
  }

  lemma {:induction false} PlacesFind(ctx: Context, item: Item, places: seq<Place>)
    ensures Finds(TenantsAtAll(ctx, item, places), SomePlaceIsBroken(ctx.env, item, places),
                  AllClaims(ctx.env, item, places), ctx.tenants)
  {
    if places == [] {
    } else {
      var first, rest := places[0], places[1..];
      PlacesFind(ctx, item, rest);
      PlaceFinds(ctx, item, first);
      BothFind(TenantsAt(ctx, item, first), TenantsAtAll(ctx, item, rest), PlaceIsBroken(ctx.env, item, first),
               SomePlaceIsBroken(ctx.env, item, rest), PlaceClaims(ctx.env, item, first), AllClaims(ctx.env, item, rest), ctx.tenants);
      assert forall place :: place in places <==> place == first || place in rest;
      assert AllClaims(ctx.env, item, places) == PlaceClaims(ctx.env, item, first) + AllClaims(ctx.env, item, rest);
    }
  }

  lemma PlacesAre(place: Place)
    ensures place in PLACES <==>
      match place
      case Whole(name) => name in {"tenant", "tenant_id"}
      case Prefix(name) => IsPrefixed(name)
      case Encoded(name) => IsEncoded(name)
  {
  }

  lemma LegibleIff(env: Env, item: Item, places: seq<Place>)
    requires forall place :: place in places <==>
      match place
      case Whole(name) => name in {"tenant", "tenant_id"}
      case Prefix(name) => IsPrefixed(name)
      case Encoded(name) => IsEncoded(name)
    ensures !IsLegible(env, item) <==> SomePlaceIsBroken(env, item, places)
  {
    assert Whole("tenant") in places && Whole("tenant_id") in places;
    assert forall name :: IsPrefixed(name) ==> Prefix(name) in places;
    assert forall name :: IsEncoded(name) ==> Encoded(name) in places;
  }

  lemma ClaimsAre(env: Env, item: Item, places: seq<Place>, t: string)
    requires forall place :: place in places <==>
      match place
      case Whole(name) => name in {"tenant", "tenant_id"}
      case Prefix(name) => IsPrefixed(name)
      case Encoded(name) => IsEncoded(name)
    ensures Claims(env, item, t) <==> SomePlaceClaims(env, item, places, t)
  {
    assert Whole("tenant") in places && Whole("tenant_id") in places;
    assert forall name :: IsPrefixed(name) ==> Prefix(name) in places;
    assert forall name :: IsEncoded(name) ==> Encoded(name) in places;
    if name, s :| IsPrefixed(name) && EntryAt(item, name, JString(s)) && TextClaims(s, t) {
      assert t in PlaceClaims(env, item, Prefix(name));
    }
    if name, v :| IsEncoded(name) && Decodes(env, item, name, v) && ValueClaims(v, t) {
      assert t in PlaceClaims(env, item, Encoded(name));
    }
    assert t in TenantClaim(item, "tenant") ==> t in PlaceClaims(env, item, Whole("tenant"));
    assert t in TenantClaim(item, "tenant_id") ==> t in PlaceClaims(env, item, Whole("tenant_id"));
  }

  lemma ItemFinds(ctx: Context, item: Item)
    ensures Finds(ItemTenants(ctx, item), !IsLegible(ctx.env, item), RowClaims(ctx.env, item), ctx.tenants)
  {
    PlacesFind(ctx, item, PLACES);
    forall place
      ensures place in PLACES <==>
        match place
        case Whole(name) => name in {"tenant", "tenant_id"}
        case Prefix(name) => IsPrefixed(name)
        case Encoded(name) => IsEncoded(name)
    {
      PlacesAre(place);
    }
    LegibleIff(ctx.env, item, PLACES);
    forall t
      ensures Claims(ctx.env, item, t) <==> SomePlaceClaims(ctx.env, item, PLACES, t)
    {
      ClaimsAre(ctx.env, item, PLACES, t);
    }
    assert RowClaims(ctx.env, item) == AllClaims(ctx.env, item, PLACES);
  }

  /** A row is owned by the one configured tenant that it names. */
  lemma OwnerIs(ctx: Context, item: Item, t: string)
    ensures OwnerOf(ctx, item) == Some(t) <==> Owns(ctx, t, item)
  {
    OwnerIsTheOnlyTenant(ctx, item, t);
    ItemFinds(ctx, item);
    var found := ItemTenants(ctx, item);
    assert forall u :: Claims(ctx.env, item, u) <==> u in RowClaims(ctx.env, item);
    if Owns(ctx, t, item) {
      assert found.value == {t};
    }
    if t in ctx.tenants && found == Some({t}) {
      assert t in found.value && forall u :: u in found.value <==> u == t;
      assert forall u :: u in RowClaims(ctx.env, item) <==> u in found.value;
      assert IsLegible(ctx.env, item);
    }
  }
}

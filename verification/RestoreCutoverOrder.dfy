/** Does the verdict of the restore verifier depend on the order of the scanned rows? Only through a
    float normalization version. */
module RestoreCutoverOrder {
  import opened DynamoItems
  import opened Framing
  import opened Lists
  import opened RestoreCutover
  import opened RestoreRows

  // ---------- Reordering ----------

  ghost predicate SameRows(a: seq<Item>, b: seq<Item>) {
    multiset(a) == multiset(b)
  }

  ghost predicate SameScan(a: Scan, b: Scan) {
    (a.Unusable? && b.Unusable?) || (a.Complete? && b.Complete? && SameRows(a.items, b.items))
  }

  /** The same manifest, up to the order of the rows inside each scan. */
  ghost predicate Reordered(a: Manifest, b: Manifest) {
    && a.schemaVersion == b.schemaVersion && a.tenants == b.tenants
    && SameScan(a.governance, b.governance) && SameScan(a.suppressions, b.suppressions)
    && a.restored.Keys == b.restored.Keys
    && forall role :: role in a.restored ==> SameScan(a.restored[role], b.restored[role])
  }

  lemma SameMembers(a: seq<Item>, b: seq<Item>)
    requires SameRows(a, b)
    ensures forall x :: x in a <==> x in b
  {
    assert forall x :: x in a <==> x in multiset(a);
    assert forall x :: x in b <==> x in multiset(b);
  }

  lemma ReorderedMembers(a: Manifest, b: Manifest)
    requires Reordered(a, b)
    ensures forall x :: x in SuppressionRows(a) <==> x in SuppressionRows(b)
    ensures forall x :: x in GovernanceRows(a) <==> x in GovernanceRows(b)
    ensures forall role, x :: x in Rows(a, role) <==> x in Rows(b, role)
  {
    SameMembers(SuppressionRows(a), SuppressionRows(b));
    SameMembers(GovernanceRows(a), GovernanceRows(b));
    forall role
      ensures SameRows(Rows(a, role), Rows(b, role))
      ensures forall x :: x in Rows(a, role) <==> x in Rows(b, role)
    {
      SameMembers(Rows(a, role), Rows(b, role));
    }
  }

  lemma SuppressionsReorder(ctx: Context, a: seq<Item>, b: seq<Item>)
    requires forall x :: x in a <==> x in b
    ensures SuppressionsAreValid(ctx, a) ==> SuppressionsAreValid(ctx, b)
    ensures forall s :: Recorded(ctx, a, s) <==> Recorded(ctx, b, s)
    ensures forall k :: KeyInUse(ctx, a, k) <==> KeyInUse(ctx, b, k)
  {
    assert forall s :: Recorded(ctx, a, s) <==> Recorded(ctx, b, s);
    assert forall pk :: HasHead(ctx, a, pk) ==> HasHead(ctx, b, pk);
  }

  lemma LifecyclesReorder(ctx: Context, a: seq<Item>, b: seq<Item>)
    requires SameRows(a, b)
    ensures LifecyclesAreValid(ctx, a) ==> LifecyclesAreValid(ctx, b)
    ensures forall t, state :: HasState(ctx, a, t, state) <==> HasState(ctx, b, t, state)
  {
    SameMembers(a, b);
    GatherPermuted(a, b, TenantReader(ctx));
    DistinctPermuted(LifecycleTenants(ctx, a), LifecycleTenants(ctx, b));
  }

  lemma InventoryReorders(ctx: Context, a: Manifest, b: Manifest)
    requires Reordered(a, b)
    ensures InventoryIsValid(ctx, a) ==> InventoryIsValid(ctx, b)
  {
    ReorderedMembers(a, b);
    GatherPermuted(Rows(a, "users"), Rows(b, "users"), IdReader(ctx));
    DistinctPermuted(CanonicalIds(ctx, Rows(a, "users")), CanonicalIds(ctx, Rows(b, "users")));
  }

  lemma BlockedReorders(ctx: Context, a: Manifest, b: Manifest)
    requires Reordered(a, b)
    ensures forall t :: IsBlocked(ctx, b, t) ==> IsBlocked(ctx, a, t)
  {
    ReorderedMembers(a, b);
    SuppressionsReorder(ctx, SuppressionRows(a), SuppressionRows(b));
    LifecyclesReorder(ctx, GovernanceRows(a), GovernanceRows(b));
  }

  lemma RestoredReorders(ctx: Context, a: Manifest, b: Manifest)
    requires Reordered(a, b)
    ensures forall t :: HasLiveRow(ctx, b, t) ==> HasLiveRow(ctx, a, t)
    ensures forall id :: IsReferenced(ctx, b, id) ==> IsReferenced(ctx, a, id)
    ensures forall id, s :: IsCanonical(ctx, Rows(a, "users"), id, s) <==> IsCanonical(ctx, Rows(b, "users"), id, s)
  {
    ReorderedMembers(a, b);
  }

  lemma ErasedReorders(ctx: Context, a: Manifest, b: Manifest)
    requires Reordered(a, b)
    ensures forall id, s :: IsErased(ctx, b, id, s) ==> IsErased(ctx, a, id, s)
  {
    ReorderedMembers(a, b);
    SuppressionsReorder(ctx, SuppressionRows(a), SuppressionRows(b));
  }

  lemma SafetyReorders(ctx: Context, a: Manifest, b: Manifest)
    requires Reordered(a, b)
    ensures IsSafe(ctx, a) ==> IsSafe(ctx, b)
  {
    BlockedReorders(ctx, a, b);
    RestoredReorders(ctx, a, b);
    ErasedReorders(ctx, a, b);
  }

  /** Everything but the float check looks only at which rows there are, and how often. */
  lemma OnlyVersionsSeeOrder(a: Manifest, b: Manifest, keys: map<int, bytes>, env: Env)
    requires Reordered(a, b) && IsWellFormed(a, keys, env) && IsSafe(Ctx(a, keys, env), a)
    ensures IsWellFormed(b, keys, env) && IsSafe(Ctx(b, keys, env), b)
  {
    var ctx := Ctx(a, keys, env);
    assert Ctx(b, keys, env) == ctx;
    ReorderedMembers(a, b);
    SuppressionsReorder(ctx, SuppressionRows(a), SuppressionRows(b));
    LifecyclesReorder(ctx, GovernanceRows(a), GovernanceRows(b));
    InventoryReorders(ctx, a, b);
    SafetyReorders(ctx, a, b);
  }

  lemma ReorderedIsSymmetric(a: Manifest, b: Manifest)
    requires Reordered(a, b)
    ensures Reordered(b, a)
  {
  }

  // ---------- Float versions ----------

  ghost predicate IsFloatEpoch(ctx: Context, x: Item, k: int) {
    IsEpochOf(ctx, x, k) && ReadSuppression(ctx, x).floatVersion
  }

  ghost predicate IsIntegerEpoch(ctx: Context, x: Item, k: int) {
    IsEpochOf(ctx, x, k) && !ReadSuppression(ctx, x).floatVersion
  }

  /** The key version is recorded with both kinds of normalization version. */
  ghost predicate HasFloat(ctx: Context, items: seq<Item>, k: int) {
    exists x :: x in items && IsFloatEpoch(ctx, x, k)
  }

  ghost predicate HasInteger(ctx: Context, items: seq<Item>, k: int) {
    exists x :: x in items && IsIntegerEpoch(ctx, x, k)
  }

  lemma {:induction false} FirstEpoch(ctx: Context, items: seq<Item>, k: int, n: nat) returns (i: nat)
    requires n < |items| && IsEpochOf(ctx, items[n], k)
    ensures i <= n && IsEpochOf(ctx, items[i], k) && forall j :: 0 <= j < i ==> !IsEpochOf(ctx, items[j], k)
  {
    if j: nat :| j < n && IsEpochOf(ctx, items[j], k) {
      i := FirstEpoch(ctx, items, k, j);
    } else {
      i := n;
    }
  }

  /** A version that occurs as a float but never comes first as one occurs as an integer too. */
  lemma FloatBehindInteger(ctx: Context, items: seq<Item>, k: int)
    requires HasFloat(ctx, items, k) && !FirstIsFloat(ctx, items, k)
    ensures HasInteger(ctx, items, k)
  {
    var x :| x in items && IsFloatEpoch(ctx, x, k);
    var n :| 0 <= n < |items| && items[n] == x;
    var i := FirstEpoch(ctx, items, k, n);
    assert items[i] in items;
  }

  /** Without a float normalization version, reordering the rows never changes the verdict. */
  lemma OrderIsIrrelevant(a: Manifest, b: Manifest, keys: map<int, bytes>, env: Env)
    requires Reordered(a, b) && forall k :: !HasFloat(Ctx(a, keys, env), SuppressionRows(a), k)
    ensures Passes(a, keys, env) <==> Passes(b, keys, env)
  {
    var ctx := Ctx(a, keys, env);
    assert Ctx(b, keys, env) == ctx;
    ReorderedIsSymmetric(a, b);
    if IsWellFormed(a, keys, env) && IsSafe(ctx, a) {
      OnlyVersionsSeeOrder(a, b, keys, env);
    }
    if IsWellFormed(b, keys, env) && IsSafe(ctx, b) {
      OnlyVersionsSeeOrder(b, a, keys, env);
    }
    ReorderedMembers(a, b);
    FirstFloatIsFloat(ctx, SuppressionRows(a));
    FirstFloatIsFloat(ctx, SuppressionRows(b));
    assert forall k :: HasFloat(ctx, SuppressionRows(b), k) ==> HasFloat(ctx, SuppressionRows(a), k);
  }

  lemma FirstFloatIsFloat(ctx: Context, items: seq<Item>)
    ensures forall k :: FirstIsFloat(ctx, items, k) ==> HasFloat(ctx, items, k)
  {
    assert forall i :: 0 <= i < |items| ==> items[i] in items;
  }

  // ---------- Both orders of a mixed scan ----------

  ghost function FloatEpochs(ctx: Context, items: seq<Item>): seq<Item> {
    if items == [] then []
    else
      var n := |items| - 1;
      var row := ReadSuppression(ctx, items[n]);
      FloatEpochs(ctx, items[..n]) + if row.Epoch? && row.floatVersion then [items[n]] else []
  }

  ghost function OtherRows(ctx: Context, items: seq<Item>): seq<Item> {
    if items == [] then []
    else
      var n := |items| - 1;
      var row := ReadSuppression(ctx, items[n]);
      OtherRows(ctx, items[..n]) + if row.Epoch? && row.floatVersion then [] else [items[n]]
  }

  lemma PartsGrow(ctx: Context, items: seq<Item>, x: Item)
    ensures var row := ReadSuppression(ctx, x);
      && FloatEpochs(ctx, items + [x]) == FloatEpochs(ctx, items) + (if row.Epoch? && row.floatVersion then [x] else [])
      && OtherRows(ctx, items + [x]) == OtherRows(ctx, items) + (if row.Epoch? && row.floatVersion then [] else [x])
  {
    assert (items + [x])[..|items|] == items;
  }

  lemma PartsSumGrows<T>(a: seq<T>, b: seq<T>, whole: seq<T>, x: T)
    requires multiset(a) + multiset(b) == multiset(whole)
    ensures multiset(a + [x]) + multiset(b) == multiset(whole + [x])
    ensures multiset(a) + multiset(b + [x]) == multiset(whole + [x])
    ensures a + [] == a && b + [] == b
  {
  }

  lemma {:induction false} PartsAreAll(ctx: Context, items: seq<Item>)
    ensures multiset(FloatEpochs(ctx, items)) + multiset(OtherRows(ctx, items)) == multiset(items)
  {
    if items == [] {
    } else {
      var front, x := items[..|items| - 1], items[|items| - 1];
      assert items == front + [x];
      PartsAreAll(ctx, front);
      PartsGrow(ctx, front, x);
      PartsSumGrows(FloatEpochs(ctx, front), OtherRows(ctx, front), front, x);
    }
  }

  lemma {:induction false} PartsAreSorted(ctx: Context, items: seq<Item>)
    ensures forall x :: x in FloatEpochs(ctx, items) ==> ReadSuppression(ctx, x).Epoch? && ReadSuppression(ctx, x).floatVersion
    ensures forall x :: x in OtherRows(ctx, items) ==> !(ReadSuppression(ctx, x).Epoch? && ReadSuppression(ctx, x).floatVersion)
  {
    if items == [] {
    } else {
      PartsAreSorted(ctx, items[..|items| - 1]);
    }
  }

  lemma FloatsFirst(ctx: Context, floats: seq<Item>, others: seq<Item>, k: int)
    requires forall x :: x in floats ==> ReadSuppression(ctx, x).Epoch? && ReadSuppression(ctx, x).floatVersion
    requires HasFloat(ctx, floats, k)
    ensures FirstIsFloat(ctx, floats + others, k)
  {
    var x :| x in floats && IsFloatEpoch(ctx, x, k);
    var n :| 0 <= n < |floats| && floats[n] == x;
    var i := FirstEpoch(ctx, floats, k, n);
    assert floats[i] in floats;
    FirstStaysFirst(ctx, floats, others, i, k);
  }

  lemma FirstStaysFirst(ctx: Context, items: seq<Item>, more: seq<Item>, i: nat, k: int)
    requires i < |items| && IsEpochOf(ctx, items[i], k) && ReadSuppression(ctx, items[i]).floatVersion
    requires forall j :: 0 <= j < i ==> !IsEpochOf(ctx, items[j], k)
    ensures FirstIsFloat(ctx, items + more, k)
  {
    assert (items + more)[i] == items[i];
  }

  lemma FloatsLast(ctx: Context, floats: seq<Item>, others: seq<Item>, k: int)
    requires forall x :: x in others ==> !(ReadSuppression(ctx, x).Epoch? && ReadSuppression(ctx, x).floatVersion)
    requires HasFloat(ctx, floats, k) ==> HasInteger(ctx, others, k)
    ensures !FirstIsFloat(ctx, others + floats, k)
  {
    var all := others + floats;
    assert forall n :: 0 <= n < |others| ==> all[n] == others[n] && others[n] in others;
    assert forall n :: |others| <= n < |all| ==> all[n] == floats[n - |others|] && all[n] in floats;
    if HasFloat(ctx, floats, k) {
      var x :| x in others && IsIntegerEpoch(ctx, x, k);
      var j :| 0 <= j < |others| && others[j] == x;
      assert all[j] == x;
    }
  }

  /** Some order passes and some order fails exactly when everything else is in order, some key
      version is recorded with a float, and each such key version is also recorded with an integer. */
  lemma OrderMattersIffMixed(a: Manifest, keys: map<int, bytes>, env: Env)
    ensures (exists b :: Reordered(a, b) && Passes(a, keys, env) != Passes(b, keys, env)) <==>
      && IsWellFormed(a, keys, env) && IsSafe(Ctx(a, keys, env), a)
      && (exists k :: HasFloat(Ctx(a, keys, env), SuppressionRows(a), k))
      && forall k :: HasFloat(Ctx(a, keys, env), SuppressionRows(a), k)
                     ==> HasInteger(Ctx(a, keys, env), SuppressionRows(a), k)
  {
    var ctx := Ctx(a, keys, env);
    if b :| Reordered(a, b) && Passes(a, keys, env) != Passes(b, keys, env) {
      DifferenceNeedsMix(a, b, keys, env);
    }
    if && IsWellFormed(a, keys, env) && IsSafe(ctx, a)
       && (exists k :: HasFloat(ctx, SuppressionRows(a), k))
       && forall k :: HasFloat(ctx, SuppressionRows(a), k) ==> HasInteger(ctx, SuppressionRows(a), k)
    {
      var b := MixMakesDifference(a, keys, env);
    }
  }

  lemma DifferenceNeedsMix(a: Manifest, b: Manifest, keys: map<int, bytes>, env: Env)
    requires Reordered(a, b) && Passes(a, keys, env) != Passes(b, keys, env)
    ensures IsWellFormed(a, keys, env) && IsSafe(Ctx(a, keys, env), a)
    ensures exists k :: HasFloat(Ctx(a, keys, env), SuppressionRows(a), k)
    ensures forall k :: HasFloat(Ctx(a, keys, env), SuppressionRows(a), k)
                        ==> HasInteger(Ctx(a, keys, env), SuppressionRows(a), k)
  {
    var ctx := Ctx(a, keys, env);
    assert Ctx(b, keys, env) == ctx;
    ReorderedIsSymmetric(a, b);
    if Passes(b, keys, env) {
      OnlyVersionsSeeOrder(b, a, keys, env);
    }
    OnlyVersionsSeeOrder(a, b, keys, env);
    ReorderedMembers(a, b);
    FirstFloatIsFloat(ctx, SuppressionRows(a));
    FirstFloatIsFloat(ctx, SuppressionRows(b));
    assert forall k :: HasFloat(ctx, SuppressionRows(a), k) <==> HasFloat(ctx, SuppressionRows(b), k);
    assert forall k :: HasInteger(ctx, SuppressionRows(a), k) <==> HasInteger(ctx, SuppressionRows(b), k);
    var passing := if Passes(a, keys, env) then a else b;
    forall k | HasFloat(ctx, SuppressionRows(a), k)
      ensures HasInteger(ctx, SuppressionRows(a), k)
    {
      FloatBehindInteger(ctx, SuppressionRows(passing), k);
    }
  }

  /** The manifest with its suppression rows in another order. */
  lemma Rearranged(a: Manifest, keys: map<int, bytes>, env: Env, rows: seq<Item>) returns (b: Manifest)
    requires IsWellFormed(a, keys, env) && IsSafe(Ctx(a, keys, env), a)
    requires multiset(rows) == multiset(SuppressionRows(a))
    ensures Reordered(a, b)
    ensures Passes(b, keys, env) <==> forall k :: !FirstIsFloat(Ctx(a, keys, env), rows, k)
  {
    b := a.(suppressions := Complete(rows));
    OnlyVersionsSeeOrder(a, b, keys, env);
    assert Ctx(b, keys, env) == Ctx(a, keys, env);
  }

  lemma MixMakesDifference(a: Manifest, keys: map<int, bytes>, env: Env) returns (b: Manifest)
    requires IsWellFormed(a, keys, env) && IsSafe(Ctx(a, keys, env), a)
    requires exists k :: HasFloat(Ctx(a, keys, env), SuppressionRows(a), k)
    requires forall k :: HasFloat(Ctx(a, keys, env), SuppressionRows(a), k)
                         ==> HasInteger(Ctx(a, keys, env), SuppressionRows(a), k)
    ensures Reordered(a, b) && Passes(a, keys, env) != Passes(b, keys, env)
  {
    var ctx, items := Ctx(a, keys, env), SuppressionRows(a);
    var floats, others := FloatEpochs(ctx, items), OtherRows(ctx, items);
    PartsAreAll(ctx, items);
    PartsAreSorted(ctx, items);
    PartitionMembers(ctx, items, floats, others);
    SumOfParts(floats, others, items);
    if Passes(a, keys, env) {
      b := Rearranged(a, keys, env, floats + others);
      var k :| HasFloat(ctx, items, k);
      FloatsFirst(ctx, floats, others, k);
    } else {
      b := Rearranged(a, keys, env, others + floats);
      forall j ensures !FirstIsFloat(ctx, others + floats, j) {
        FloatsLast(ctx, floats, others, j);
      }
    }
  }

  lemma SumOfParts<T>(a: seq<T>, b: seq<T>, whole: seq<T>)
    requires multiset(a) + multiset(b) == multiset(whole)
    ensures multiset(a + b) == multiset(whole) && multiset(b + a) == multiset(whole)
  {
  }

  lemma PartitionMembers(ctx: Context, items: seq<Item>, floats: seq<Item>, others: seq<Item>)
    requires multiset(floats) + multiset(others) == multiset(items)
    requires forall x :: x in floats ==> ReadSuppression(ctx, x).Epoch? && ReadSuppression(ctx, x).floatVersion
    requires forall x :: x in others ==> !(ReadSuppression(ctx, x).Epoch? && ReadSuppression(ctx, x).floatVersion)
    ensures forall k :: HasFloat(ctx, items, k) <==> HasFloat(ctx, floats, k)
    ensures forall k :: HasInteger(ctx, items, k) <==> HasInteger(ctx, others, k)
  {
    assert multiset(floats + others) == multiset(items);
    SameMembers(floats + others, items);
    assert forall x :: x in floats + others <==> x in floats || x in others;
  }
}

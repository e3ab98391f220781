/** The readers of the verifier read exactly what the rows say. */
module RestoreReaders {
  import opened DynamoItems
  import opened Lists
  import opened RestoreMeaning
  import opened RestoreRows
  import opened Wrappers

  // ---------- Attributes and members ----------

  lemma AttrStringIs(item: Item, name: string)
    ensures forall s :: AttrString(item, name) == Got(s) <==> TextAt(item, name, s)
    ensures AttrString(item, name).Raises? <==> !TextOrNothing(item, name)
    ensures AttrString(item, name).Absent? <==> name !in item
  {
  }

  lemma DecodesIs(env: Env, item: Item, name: string)
    ensures forall v :: Decodes(env, item, name, v) <==>
      NonEmpty(AttrString(item, name)) && env.decode(AttrString(item, name).value) == Some(v)
  {
    AttrStringIs(item, name);
    if NonEmpty(AttrString(item, name)) {
      assert TextAt(item, name, AttrString(item, name).value);
    }
  }

  lemma NumberIs(env: Env, item: Item, name: string)
    ensures forall n :: AttrNumber(item, name, env.parseInt) == Got(n) <==> NumberAt(env, item, name, n)
  {
  }

  lemma {:induction false} LookupIs(fields: seq<(string, Json)>, name: string)
    ensures Missing(fields, name) ==> Lookup(fields, name) == JNull
    ensures !Missing(fields, name) <==> Member(fields, name, Lookup(fields, name))
    ensures forall v :: Member(fields, name, v) ==> v == Lookup(fields, name)
  {
    if fields == [] {
    } else if fields[0].0 == name {
      assert Member(fields, name, fields[0].1);
    } else {
      LookupIs(fields[1..], name);
      MemberShifts(fields, name);
    }
  }

  lemma MemberShifts(fields: seq<(string, Json)>, name: string)
    requires fields != [] && fields[0].0 != name
    ensures Missing(fields, name) <==> Missing(fields[1..], name)
    ensures forall v :: Member(fields, name, v) <==> Member(fields[1..], name, v)
  {
    var rest := fields[1..];
    forall v
      ensures Member(fields, name, v) <==> Member(rest, name, v)
    {
      if Member(rest, name, v) {
        var i :| 0 <= i < |rest| && rest[i] == (name, v) && forall j :: 0 <= j < i ==> rest[j].0 != name;
        assert fields[i + 1] == (name, v);
        assert forall j :: 0 < j < i + 1 ==> fields[j] == rest[j - 1];
      }
      if Member(fields, name, v) {
        var i :| 0 <= i < |fields| && fields[i] == (name, v) && forall j :: 0 <= j < i ==> fields[j].0 != name;
        assert rest[i - 1] == (name, v);
        assert forall j :: 0 <= j < i - 1 ==> rest[j] == fields[j + 1];
      }
    }
    assert forall j :: 0 <= j < |rest| ==> rest[j] == fields[j + 1];
    assert forall j :: 0 < j < |fields| ==> fields[j] == rest[j - 1];
  }

  lemma NamesAre(fields: seq<(string, Json)>)
    ensures forall name :: name in Names(fields) <==> !Missing(fields, name)
  {
    forall name
      ensures name in Names(fields) <==> !Missing(fields, name)
    {
      if !Missing(fields, name) {
        var i :| 0 <= i < |fields| && fields[i].0 == name;
        assert fields[i] in fields;
      }
    }
  }

  lemma NumbersAre(v: Json, n: int)
    ensures AsInt(v) == Some(n) <==> IsInteger(v, n)
    ensures EqualsInt(v, n) <==> IsNumber(v, n)
  {
  }

  lemma FalseIs(v: Json)
    ensures !IsTrue(v) <==> IsFalse(v)
  {
  }

  // ---------- Identities ----------

  lemma {:induction false} FilterOfOne(s: seq<string>, p: string -> bool, x: string)
    requires Distinct(s) && x in s && p(x) && forall y :: y in s && p(y) ==> y == x
    ensures Filter(s, p) == [x]
  {
    var r := Filter(s, p);
    FilterIsDistinct(s, p);
    SameMembersSameLength(r, [x]);
    assert r[0] in r;
  }

  lemma {:induction false} FilterIsDistinct(s: seq<string>, p: string -> bool)
    requires Distinct(s)
    ensures Distinct(Filter(s, p))
  {
    if s == [] {
    } else {
      assert s == [s[0]] + s[1..];
      DistinctCons(s[0], s[1..]);
      FilterIsDistinct(s[1..], p);
      DistinctCons(s[0], Filter(s[1..], p));
    }
  }

  lemma PhysicalIdentityIs(value: string, tenants: seq<string>, id: Identity)
    requires Distinct(tenants)
    ensures PhysicalIdentity(value, tenants) == Some(id) <==> IsIdentity(tenants, value, id)
  {
    var p := (t: string) => t + [SEP] <= value;
    var matches := Filter(tenants, p);
    if IsIdentity(tenants, value, id) {
      assert p(id.0);
      FilterOfOne(tenants, p, id.0);
      assert value[|id.0| + 1..] == id.1;
    }
    if PhysicalIdentity(value, tenants) == Some(id) {
      assert matches[0] in matches;
      assert value == matches[0] + [SEP] + value[|matches[0]| + 1..];
      forall t | t in tenants && t + "\U{1F}" <= value
        ensures t == id.0
      {
        assert p(t) && t in matches;
      }
    }
  }
}

/** Selecting and picking from lists. */
module Lists {
  import opened Wrappers

  /** The entries of a decoded list that are objects. */
  function Objects<T>(entries: seq<Option<T>>): seq<T> {
    if entries == [] then []
    else (match entries[0] case Some(x) => [x] case None => []) + Objects(entries[1..])
  }

  function Filter<T(!new)>(s: seq<T>, p: T -> bool): (r: seq<T>)
    ensures forall x :: x in r <==> x in s && p(x)
  {
    if s == [] then []
    else if p(s[0]) then [s[0]] + Filter(s[1..], p)
    else Filter(s[1..], p)
  }

  lemma {:induction false} ObjectsAre<T(!new)>(entries: seq<Option<T>>)
    ensures forall x :: x in Objects(entries) <==> Some(x) in entries
  {
    if entries == [] {
    } else {
      assert entries == [entries[0]] + entries[1..];
      ObjectsAre(entries[1..]);
      assert forall e :: e in entries <==> e == entries[0] || e in entries[1..];
    }
  }

  lemma {:induction false} FilterSnoc<T(!new)>(s: seq<T>, x: T, p: T -> bool)
    ensures Filter(s + [x], p) == Filter(s, p) + if p(x) then [x] else []
  {
    if s == [] {
      assert s + [x] == [x];
    } else {
      assert (s + [x])[1..] == s[1..] + [x];
      FilterSnoc(s[1..], x, p);
    }
  }

  /** The entry at `k` is the only one of its kind. */
  ghost predicate Only<T(!new)>(s: seq<T>, p: T -> bool, k: nat) {
    k < |s| && p(s[k]) && forall i :: 0 <= i < |s| && p(s[i]) ==> i == k
  }

  lemma {:induction false} FindOnly<T(!new)>(s: seq<T>, p: T -> bool) returns (k: nat)
    requires |Filter(s, p)| == 1
    ensures Only(s, p, k) && Filter(s, p) == [s[k]]
  {
    var rest := s[1..];
    assert forall i :: 0 < i < |s| ==> s[i] == rest[i - 1] && rest[i - 1] in rest;
    if p(s[0]) {
      k := 0;
      NoMembers(Filter(rest, p));
    } else {
      var n := FindOnly(rest, p);
      k := n + 1;
    }
  }

  lemma {:induction false} OnlyIsFound<T(!new)>(s: seq<T>, p: T -> bool, k: nat)
    requires Only(s, p, k)
    ensures Filter(s, p) == [s[k]]
  {
    var rest := s[1..];
    assert forall i :: 0 <= i < |rest| ==> rest[i] == s[i + 1];
    if k == 0 {
      NoMembers(Filter(rest, p));
    } else {
      OnlyIsFound(rest, p, k - 1);
    }
  }

  /** Position of the first greatest number, as `max` finds it. */
  function ArgMax(s: seq<int>): (k: nat)
    requires s != []
    ensures k < |s|
    ensures forall j :: 0 <= j < |s| ==> s[j] <= s[k]
    ensures forall j :: 0 <= j < k ==> s[j] < s[k]
  {
    if |s| == 1 then 0
    else
      var k := ArgMax(s[..|s| - 1]);
      if s[|s| - 1] > s[k] then |s| - 1 else k
  }

  /** Position of the first `x`, or the length of the list when there is none. */
  function FirstIndex<T(==)>(s: seq<T>, x: T): (n: nat)
    ensures n <= |s| && x !in s[..n] && (n < |s| ==> s[n] == x)
  {
    if s == [] || s[0] == x then 0
    else
      var n := 1 + FirstIndex(s[1..], x);
      assert s[..n] == [s[0]] + s[1..][..n - 1];
      n
  }

  lemma {:induction false} FirstIndexIs<T>(s: seq<T>, x: T, k: nat)
    requires k < |s| && s[k] == x && x !in s[..k]
    ensures FirstIndex(s, x) == k
  {
    if k == 0 {
    } else {
      assert s[..k] == [s[0]] + s[1..][..k - 1];
      FirstIndexIs(s[1..], x, k - 1);
    }
  }

  lemma UpToAnElement<T>(s: seq<T>, n: nat)
    requires n < |s|
    ensures s[..n] + [s[n]] <= s
  {
    assert s[..n] + [s[n]] == s[..n + 1];
  }

  function Sum(s: seq<nat>): nat {
    if s == [] then 0 else Sum(s[..|s| - 1]) + s[|s| - 1]
  }

  lemma SumGrows(s: seq<nat>, k: nat)
    requires k < |s|
    ensures Sum(s[..k + 1]) == Sum(s[..k]) + s[k]
  {
    assert s[..k + 1][..k] == s[..k];
  }

  lemma {:induction false} SumIsPositive(s: seq<nat>)
    ensures Sum(s) > 0 <==> exists k :: 0 <= k < |s| && s[k] > 0
  {
    if s == [] {
    } else {
      SumIsPositive(s[..|s| - 1]);
    }
  }

  predicate Distinct<T(==)>(s: seq<T>) {
    forall i, j :: 0 <= i < j < |s| ==> s[i] != s[j]
  }

  lemma DistinctConcat<T>(a: seq<T>, b: seq<T>)
    requires Distinct(a) && Distinct(b) && forall i :: 0 <= i < |a| ==> a[i] !in b
    ensures Distinct(a + b)
  {
    var c := a + b;
    forall i, j | 0 <= i < j < |c|
      ensures c[i] != c[j]
    {
      if i < |a| <= j {
        assert c[j] == b[j - |a|];
      }
    }
  }

  lemma PrefixIsDistinct<T>(a: seq<T>, b: seq<T>)
    requires a <= b && Distinct(b)
    ensures Distinct(a)
  {
  }

  lemma DistinctSnoc<T>(s: seq<T>, x: T)
    ensures Distinct(s + [x]) <==> Distinct(s) && x !in s
  {
    var t := s + [x];
    assert forall i :: 0 <= i < |s| ==> t[i] == s[i];
    assert t[|s|] == x;
  }

  lemma DistinctCons<T>(x: T, s: seq<T>)
    ensures Distinct([x] + s) <==> Distinct(s) && x !in s
    ensures forall y :: y in [x] + s <==> y == x || y in s
  {
    var t := [x] + s;
    assert forall j :: 0 < j < |t| ==> t[j] == s[j - 1];
    if Distinct(t) {
      assert forall j :: 0 < j < |t| ==> t[0] != t[j];
      assert forall i :: 0 <= i < |s| ==> s[i] == t[i + 1];
    }
  }

  /** Lists without repetition that have the same members have the same length. */
  lemma {:induction false} SameMembersSameLength<T(!new)>(a: seq<T>, b: seq<T>)
    requires Distinct(a) && Distinct(b) && forall x :: x in a <==> x in b
    ensures |a| == |b|
  {
    if a == [] {
      NoMembers(b);
    } else {
      assert a[0] in a;
      var k :| 0 <= k < |b| && b[k] == a[0];
      var b' := b[..k] + b[k + 1..];
      RemoveOne(b, k, b');
      RemoveOne(a, 0, a[1..]);
      SameMembersSameLength(a[1..], b');
    }
  }

  lemma NoMembers<T(!new)>(s: seq<T>)
    ensures s == [] <==> forall x :: x !in s
  {
    if s != [] {
      assert s[0] in s;
    }
  }

  lemma RemoveOne<T(!new)>(s: seq<T>, k: nat, rest: seq<T>)
    requires Distinct(s) && k < |s| && rest == s[..k] + s[k + 1..]
    ensures Distinct(rest) && forall x :: x in rest <==> x in s && x != s[k]
  {
    assert s == s[..k] + [s[k]] + s[k + 1..];
    assert forall i :: 0 <= i < |rest| ==> rest[i] == s[if i < k then i else i + 1];
  }

  /** A list is without repetition when its set of members is as large. */
  lemma {:induction false} DistinctIffCounted<T>(s: seq<T>)
    ensures |SetOf(s)| <= |s|
    ensures |SetOf(s)| == |s| <==> Distinct(s)
  {
    if s == [] {
      assert SetOf(s) == {};
    } else {
      var front, y := s[..|s| - 1], s[|s| - 1];
      SplitLast(s);
      DistinctIffCounted(front);
      DistinctSnoc(front, y);
      assert SetOf(s) == SetOf(front) + {y};
    }
  }

  function SetOf<T>(s: seq<T>): set<T> {
    set x | x in s
  }

  lemma SetsCompare<T(!new)>(a: seq<T>, b: seq<T>)
    ensures SetOf(a) <= SetOf(b) <==> forall x :: x in a ==> x in b
    ensures SetOf(a) == SetOf(b) <==> forall x :: x in a <==> x in b
    ensures SetOf(a) !! SetOf(b) <==> forall x :: x in a ==> x !in b
  {
    assert forall x :: x in a <==> x in SetOf(a);
    assert forall x :: x in b <==> x in SetOf(b);
  }

  // ---------- Slices ----------

  lemma SliceOfSlice<T>(s: seq<T>, i: nat, j: nat, a: nat, b: nat)
    requires i <= j <= |s| && a <= b <= j - i
    ensures s[i..j][a..b] == s[i + a..i + b]
  {
    var t := s[i..j];
    assert forall k :: 0 <= k < b - a ==> t[a..b][k] == t[a + k] == s[i + a + k];
  }

  lemma SlicesJoin<T>(s: seq<T>, i: nat, j: nat, k: nat)
    requires i <= j <= k <= |s|
    ensures s[i..j] + s[j..k] == s[i..k]
  {
  }

  lemma PrefixGrows<T>(prefix: seq<T>, whole: seq<T>)
    requires prefix <= whole && |prefix| < |whole|
    ensures prefix + [whole[|prefix|]] <= whole
  {
  }

  lemma SplitLast<T>(s: seq<T>)
    requires s != []
    ensures s == s[..|s| - 1] + [s[|s| - 1]]
  {
  }

  // ---------- Concatenating a list of lists ----------

  function Flatten<T>(ss: seq<seq<T>>): seq<T> {
    if ss == [] then [] else Flatten(ss[..|ss| - 1]) + ss[|ss| - 1]
  }

  lemma FlattenSnoc<T>(ss: seq<seq<T>>, last: seq<T>)
    ensures Flatten(ss + [last]) == Flatten(ss) + last
  {
    assert (ss + [last])[..|ss|] == ss;
  }

  lemma {:induction false} FlattenCons<T>(first: seq<T>, ss: seq<seq<T>>)
    ensures Flatten([first] + ss) == first + Flatten(ss)
  {
    if ss == [] {
      FlattenSnoc([], first);
      assert [first] + ss == [] + [first];
    } else {
      var most, last := ss[..|ss| - 1], ss[|ss| - 1];
      assert ss == most + [last];
      Associate([first], most, [last]);
      FlattenCons(first, most);
      FlattenSnoc([first] + most, last);
      FlattenSnoc(most, last);
      Associate(first, Flatten(most), last);
    }
  }

  // ---------- What a list yields under a partial reading ----------

  function Gather<S, T>(s: seq<S>, f: S -> Option<T>): seq<T> {
    if s == [] then [] else Gather(s[..|s| - 1], f) + Yield(f(s[|s| - 1]))
  }

  function Yield<T>(x: Option<T>): seq<T> {
    match x
    case Some(y) => [y]
    case None => []
  }

  lemma GatherAppend<S, T>(s: seq<S>, x: S, f: S -> Option<T>)
    ensures Gather(s + [x], f) == Gather(s, f) + Yield(f(x))
    ensures f(x).None? ==> Gather(s + [x], f) == Gather(s, f)
  {
    assert (s + [x])[..|s|] == s;
  }

  lemma Associate<T>(a: seq<T>, b: seq<T>, c: seq<T>)
    ensures a + (b + c) == (a + b) + c
  {
  }

  lemma {:induction false} GatherConcat<S, T>(a: seq<S>, b: seq<S>, f: S -> Option<T>)
    ensures Gather(a + b, f) == Gather(a, f) + Gather(b, f)
  {
    if b == [] {
      assert a + b == a;
    } else {
      var front, x := b[..|b| - 1], b[|b| - 1];
      assert b == front + [x];
      Associate(a, front, [x]);
      GatherConcat(a, front, f);
      GatherAppend(a + front, x, f);
      GatherAppend(front, x, f);
      Associate(Gather(a, f), Gather(front, f), Yield(f(x)));
    }
  }

  lemma GatherSnoc<S, T>(s: seq<S>, i: nat, f: S -> Option<T>)
    requires i < |s|
    ensures Gather(s[..i + 1], f) == Gather(s[..i], f) + Yield(f(s[i]))
    ensures f(s[i]).None? ==> Gather(s[..i + 1], f) == Gather(s[..i], f)
  {
    assert s[..i + 1] == s[..i] + [s[i]];
    GatherAppend(s[..i], s[i], f);
  }

  lemma GatherPrefix<S, T>(front: seq<S>, s: seq<S>, f: S -> Option<T>)
    requires front <= s
    ensures Gather(front, f) <= Gather(s, f)
  {
    var rest := s[|front|..];
    assert s == front + rest;
    GatherConcat(front, rest, f);
    StartsWith(Gather(front, f), Gather(rest, f));
  }

  lemma StartsWith<T>(a: seq<T>, b: seq<T>)
    ensures a <= a + b
  {
  }

  /** Reordering the list reorders what it yields. */
  lemma {:induction false} GatherPermuted<S, T>(a: seq<S>, b: seq<S>, f: S -> Option<T>)
    requires multiset(a) == multiset(b)
    ensures multiset(Gather(a, f)) == multiset(Gather(b, f))
  {
    if a == [] {
      assert |multiset(b)| == 0;
    } else {
      var x, a' := a[|a| - 1], a[..|a| - 1];
      assert a == a' + [x];
      var p, q := FindSame(a', x, b);
      GatherPermuted(a', p + q, f);
      GatherWithout(p, x, q, f);
      GatherWithout(a', x, [], f);
      assert (a' + [x]) + [] == a && a' + [] == a';
    }
  }

  lemma FindSame<S>(a: seq<S>, x: S, b: seq<S>) returns (p: seq<S>, q: seq<S>)
    requires multiset(a + [x]) == multiset(b)
    ensures b == (p + [x]) + q && multiset(a) == multiset(p + q)
  {
    assert x in multiset(b);
    var k :| 0 <= k < |b| && b[k] == x;
    p, q := b[..k], b[k + 1..];
    assert b == (p + [x]) + q;
    assert multiset(b) == (multiset(p) + multiset{x}) + multiset(q);
    assert multiset(a + [x]) == multiset(a) + multiset{x};
    assert multiset(a) == multiset(b) - multiset{x} == multiset(p) + multiset(q);
  }

  /** Dropping one entry drops what it yields. */
  lemma GatherWithout<S, T>(p: seq<S>, x: S, q: seq<S>, f: S -> Option<T>)
    ensures multiset(Gather((p + [x]) + q, f)) == multiset(Gather(p + q, f)) + multiset(Yield(f(x)))
  {
    GatherConcat(p + [x], q, f);
    GatherAppend(p, x, f);
    GatherConcat(p, q, f);
    MiddleOut(Gather(p, f), Yield(f(x)), Gather(q, f));
  }

  lemma MiddleOut<T>(a: seq<T>, middle: seq<T>, b: seq<T>)
    ensures multiset((a + middle) + b) == multiset(a + b) + multiset(middle)
  {
  }

  lemma {:induction false} DistinctMeansOnce<T(!new)>(s: seq<T>)
    ensures Distinct(s) <==> forall x :: x in s ==> multiset(s)[x] == 1
  {
    if s == [] {
    } else {
      var n := |s| - 1;
      var s', y := s[..n], s[n];
      assert s == s' + [y];
      DistinctMeansOnce(s');
      DistinctSnoc(s', y);
      assert multiset(s) == multiset(s') + multiset{y};
      assert y in s' <==> y in multiset(s');
      assert forall x :: x in s <==> x in s' || x == y;
      if Distinct(s') && y !in s' {
        assert multiset(s)[y] == 1;
      }
      if forall x :: x in s ==> multiset(s)[x] == 1 {
        assert multiset(s)[y] == 1;
        forall x | x in s' ensures multiset(s')[x] == 1 {
          assert x in s && multiset(s)[x] == 1;
        }
      }
    }
  }

  lemma DistinctPermuted<T(!new)>(a: seq<T>, b: seq<T>)
    requires multiset(a) == multiset(b)
    ensures Distinct(a) <==> Distinct(b)
  {
    DistinctMeansOnce(a);
    DistinctMeansOnce(b);
    assert forall x :: x in a <==> x in multiset(a);
    assert forall x :: x in b <==> x in multiset(b);
  }

  /** What a list yields is without repetition when no two entries yield the same. */
  lemma {:induction false} GatherIsDistinct<S, T(!new)>(s: seq<S>, f: S -> Option<T>)
    ensures Distinct(Gather(s, f)) <==>
      forall i, j :: 0 <= i < j < |s| && f(s[i]).Some? ==> f(s[i]) != f(s[j])
    ensures forall y :: y in Gather(s, f) <==> exists i :: 0 <= i < |s| && f(s[i]) == Some(y)
  {
    if s == [] {
    } else {
      var front, x := s[..|s| - 1], s[|s| - 1];
      SplitLast(s);
      GatherIsDistinct(front, f);
      GatherAppend(front, x, f);
      assert forall i :: 0 <= i < |front| ==> front[i] == s[i];
      match f(x)
      case None =>
      case Some(y) => DistinctSnoc(Gather(front, f), y);
    }
  }
}

/** The fixed-window cooldown between two mails to the same address. */
module Cooldown {
  import opened MachineInts
  import opened Wrappers

  datatype Decision = Allow | Cooling(retryAfter: i64)

  function Check(window: i64, lastSent: Option<i64>, now: i64): Decision {
    match lastSent
    case None => Allow
    case Some(last) =>
      var readyAt := Saturate(last + window);
      if now >= readyAt then Allow
      else
        var remaining := Saturate(readyAt - now);
        var cap := if window > 0 then window else 0;
        var capped := if remaining < cap then remaining else cap;
        Cooling(if capped < 1 then 1 else capped)
  }

  predicate IsAllowed(window: i64, lastSent: Option<i64>, now: i64) {
    Check(window, lastSent, now).Allow?
  }

  // ---------- The advice to retry ----------

  lemma RetryIsBounded(window: i64, last: i64, now: i64)
    ensures var d := Check(window, Some(last), now);
      d.Cooling? ==> 1 <= d.retryAfter && (d.retryAfter <= window || d.retryAfter == 1)
  {
  }

  /** Retrying is refused at every instant before the advised one, and the advice is the whole window
      when that is not enough. It is allowed at the advised one
      exactly when that is not before the end of the window, which is so when the clock has not run
      back; for a window that ends within the range of time stamps, only then. */
  lemma AdviceIsExactIff(window: i64, last: i64, now: i64)
    requires Check(window, Some(last), now).Cooling?
    ensures var r := Check(window, Some(last), now).retryAfter;
      && now + r <= I64_MAX
      && (forall t :: now <= t < now + r ==> !IsAllowed(window, Some(last), t))
      && (IsAllowed(window, Some(last), now + r) <==>
            Saturate(last + window) <= now + (if window > 1 then window else 1))
      && (now >= last ==> IsAllowed(window, Some(last), now + r))
      && (IsAllowed(window, Some(last), now + r) || r == (if window > 1 then window else 1))
      && (window > 0 && last + window <= I64_MAX && now < last ==> !IsAllowed(window, Some(last), now + r))
  {
  }

  /** After the clock has run back, retrying as advised is refused again. */
  lemma AdviceCanBeEarly()
    ensures Check(60, Some(100), 50) == Cooling(60) && !IsAllowed(60, Some(100), 50 + 60)
  {
  }

  /** Two sends can be closer than the window only when the end of the window is past the largest
      time stamp and the clock shows that time stamp. */
  lemma WindowFailsIffSaturated(window: i64, last: i64, now: i64)
    ensures IsAllowed(window, Some(last), now) && now < last + window <==>
      now == 9_223_372_036_854_775_807 && last + window > 9_223_372_036_854_775_807
  {
  }

  // ---------- Runs ----------

  /** The times of the sends when every allowed check sends and records it; the checks may come
      with any clock readings. */
  ghost function Sends(window: i64, lastSent: Option<i64>, checks: seq<i64>): seq<i64>
    decreases checks
  {
    if checks == [] then []
    else if IsAllowed(window, lastSent, checks[0]) then
      [checks[0]] + Sends(window, Some(checks[0]), checks[1..])
    else Sends(window, lastSent, checks[1..])
  }

  /** The later send is a window after the earlier one, or it is at the largest time stamp because
      the window ends beyond. */
  predicate Follows(window: i64, earlier: i64, later: i64) {
    earlier + window <= later || (later == I64_MAX && earlier + window > I64_MAX)
  }

  ghost predicate Apart(window: i64, sends: seq<i64>) {
    forall i :: 0 < i < |sends| ==> Follows(window, sends[i - 1], sends[i])
  }

  lemma {:induction false} SendsAreApart(window: i64, lastSent: Option<i64>, checks: seq<i64>)
    ensures var sends := Sends(window, lastSent, checks);
      Apart(window, sends) && (lastSent.Some? && sends != [] ==> Follows(window, lastSent.value, sends[0]))
    decreases checks
  {
    if checks == [] {
    } else {
      var now := checks[0];
      var allowed := IsAllowed(window, lastSent, now);
      var lastSent' := if allowed then Some(now) else lastSent;
      SendsAreApart(window, lastSent', checks[1..]);
      if allowed {
        ApartPrepend(window, now, Sends(window, lastSent', checks[1..]));
      }
    }
  }

  lemma ApartPrepend(window: i64, now: i64, rest: seq<i64>)
    requires Apart(window, rest) && (rest != [] ==> Follows(window, now, rest[0]))
    ensures Apart(window, [now] + rest)
  {
    var sends := [now] + rest;
    forall i | 0 < i < |sends|
      ensures Follows(window, sends[i - 1], sends[i])
    {
      assert sends[i] == rest[i - 1] && (i > 1 ==> sends[i - 1] == rest[i - 2]);
    }
  }

  lemma {:induction false} Distance(sends: seq<i64>, window: i64, i: nat, j: nat)
    requires window > 0 && Apart(window, sends) && i <= j < |sends| && sends[j] < I64_MAX
    ensures sends[i] + window * (j - i) <= sends[j]
    decreases j
  {
    if i == j {
    } else {
      assert Follows(window, sends[j - 1], sends[j]);
      Distance(sends, window, i, j - 1);
      assert window * (j - i) == window * (j - 1 - i) + window;
    }
  }

  /** However the clock jumps between checks, any T seconds before the largest time stamp hold at
      most 1 + T / window sends. */
  lemma SendsAreRare(window: i64, lastSent: Option<i64>, checks: seq<i64>, i: nat, j: nat, T: nat)
    requires window > 0 && i <= j < |Sends(window, lastSent, checks)|
    requires Sends(window, lastSent, checks)[j] <= Sends(window, lastSent, checks)[i] + T
    ensures Sends(window, lastSent, checks)[j] == I64_MAX || j - i + 1 <= 1 + T / window
  {
    SendsAreApart(window, lastSent, checks);
    if Sends(window, lastSent, checks)[j] < I64_MAX {
      Distance(Sends(window, lastSent, checks), window, i, j);
      DivideBound(j - i, window, T);
    }
  }

  /** At the largest time stamp every check sends. */
  lemma {:induction false} SendsPileUpAtTheEnd(window: i64, lastSent: Option<i64>, checks: seq<i64>)
    requires forall i :: 0 <= i < |checks| ==> checks[i] == I64_MAX
    ensures Sends(window, lastSent, checks) == checks
    decreases checks
  {
    if checks == [] {
    } else {
      SendsPileUpAtTheEnd(window, Some(I64_MAX), checks[1..]);
    }
  }

  lemma DivideBound(n: nat, window: nat, T: nat)
    requires window > 0 && window * n <= T
    ensures n <= T / window
  {
    if n > T / window {
      TooMany(n, window, T);
    }
  }

  lemma TooMany(n: nat, window: nat, T: nat)
    requires window > 0 && n > T / window
    ensures window * n > T
  {
    var q := T / window;
    assert T < window * q + window;
    Multiples(window, q + 1, n);
  }

  lemma Multiples(m: nat, a: nat, b: nat)
    requires a <= b
    ensures m * a <= m * b
  {
    assert m * b == m * a + m * (b - a);
  }
}

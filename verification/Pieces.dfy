/** Cutting a list at marked positions, which are dropped. */
module Pieces {

  ghost predicate NoCut(isCut: nat -> bool, from: nat, to: nat) {
    forall i: nat :: from <= i < to ==> !isCut(i)
  }

  /** The first cut at or after `from`, or `to` when there is none. */
  function FirstCut(isCut: nat -> bool, from: nat, to: nat): (k: nat)
    requires from <= to
    ensures from <= k <= to && (k < to ==> isCut(k)) && NoCut(isCut, from, k)
    decreases if from <= to then to - from else 0
  {
    if from == to || isCut(from) then from else FirstCut(isCut, from + 1, to)
  }

  lemma FirstCutIs(isCut: nat -> bool, from: nat, to: nat, k: nat)
    requires from <= k <= to && NoCut(isCut, from, k) && (k < to ==> isCut(k))
    ensures FirstCut(isCut, from, to) == k
  {
  }

  function Cut<T>(s: seq<T>, isCut: nat -> bool, start: nat): (pieces: seq<seq<T>>)
    requires start <= |s|
    ensures pieces != []
    decreases |s| - start
  {
    var k := FirstCut(isCut, start, |s|);
    if k == |s| then [s[start..]] else [s[start..k]] + Cut(s, isCut, k + 1)
  }

  lemma CutOnce<T>(s: seq<T>, isCut: nat -> bool, start: nat, k: nat)
    requires start <= k < |s| && NoCut(isCut, start, k) && isCut(k)
    ensures Cut(s, isCut, start) == [s[start..k]] + Cut(s, isCut, k + 1)
  {
    FirstCutIs(isCut, start, |s|, k);
  }

  lemma CutNowhere<T>(s: seq<T>, isCut: nat -> bool, start: nat)
    requires start <= |s| && NoCut(isCut, start, |s|)
    ensures Cut(s, isCut, start) == [s[start..]]
  {
    FirstCutIs(isCut, start, |s|, |s|);
  }

  // ---------- Rejoining ----------

  function Join<T>(pieces: seq<seq<T>>, mark: T): seq<T>
    requires pieces != []
  {
    if |pieces| == 1 then pieces[0] else pieces[0] + [mark] + Join(pieces[1..], mark)
  }

  lemma JoinOne<T>(piece: seq<T>, pieces: seq<seq<T>>, mark: T)
    requires pieces != []
    ensures Join([piece] + pieces, mark) == piece + [mark] + Join(pieces, mark)
  {
    assert ([piece] + pieces)[1..] == pieces;
  }

  lemma Around<T>(s: seq<T>, start: nat, k: nat)
    requires start <= k < |s|
    ensures s[start..] == s[start..k] + [s[k]] + s[k + 1..]
  {
  }

  /** When every cut is at a mark, the pieces rejoined with marks are the list. */
  lemma {:induction false} CutRejoins<T>(s: seq<T>, isCut: nat -> bool, mark: T, start: nat)
    requires start <= |s| && forall i: nat :: i < |s| && isCut(i) ==> s[i] == mark
    ensures Join(Cut(s, isCut, start), mark) == s[start..]
    decreases |s| - start
  {
    var k := FirstCut(isCut, start, |s|);
    if k == |s| {
      CutNowhere(s, isCut, start);
    } else {
      CutRejoins(s, isCut, mark, k + 1);
      CutOnce(s, isCut, start, k);
      JoinOne(s[start..k], Cut(s, isCut, k + 1), mark);
      Around(s, start, k);
    }
  }

  // ---------- Cutting the rest of a list ----------

  lemma SliceShifts<T>(s: seq<T>, d: nat, rest: seq<T>, i: nat, k: nat)
    requires d <= |s| && rest == s[d..] && i <= k <= |rest|
    ensures rest[i..k] == s[d + i..d + k] && rest[i..] == s[d + i..]
  {
  }

  lemma NoCutShifts(isCut: nat -> bool, d: nat, isCut': nat -> bool, start: nat, k: nat)
    requires NoCut(isCut', start, k) && forall i: nat :: i < k ==> isCut'(i) == isCut(d + i)
    ensures NoCut(isCut, d + start, d + k)
  {
    forall i: nat | d + start <= i < d + k
      ensures !isCut(i)
    {
      assert isCut'(i - d) == isCut(d + (i - d));
    }
  }

  /** The rest of a list is cut as the whole list is from there on. */
  lemma {:induction false} CutShifts<T>(s: seq<T>, isCut: nat -> bool, d: nat, rest: seq<T>, isCut': nat -> bool,
                                        start: nat, at: nat)
    requires at == d + start <= |s| && rest == s[d..]
    requires forall i: nat :: i < |rest| ==> isCut'(i) == isCut(d + i)
    ensures Cut(rest, isCut', start) == Cut(s, isCut, at)
    decreases |rest| - start
  {
    var k := FirstCut(isCut', start, |rest|);
    NoCutShifts(isCut, d, isCut', start, k);
    if k == |rest| {
      CutNowhere(rest, isCut', start);
      CutNowhere(s, isCut, at);
      SliceShifts(s, d, rest, start, k);
    } else {
      CutShifts(s, isCut, d, rest, isCut', k + 1, d + k + 1);
      FirstPieceShifts(s, isCut, d, rest, isCut', start, k);
    }
  }

  lemma FirstPieceShifts<T>(s: seq<T>, isCut: nat -> bool, d: nat, rest: seq<T>, isCut': nat -> bool, start: nat, k: nat)
    requires d <= |s| && rest == s[d..] && start <= k < |rest|
    requires NoCut(isCut', start, k) && isCut'(k) && NoCut(isCut, d + start, d + k) && isCut(d + k)
    requires Cut(rest, isCut', k + 1) == Cut(s, isCut, d + k + 1)
    ensures Cut(rest, isCut', start) == Cut(s, isCut, d + start)
  {
    CutOnce(rest, isCut', start, k);
    CutOnce(s, isCut, d + start, d + k);
    SliceShifts(s, d, rest, start, k);
  }

  // ---------- What holds of each piece ----------

  /** A property of all stretches without a cut, up to a cut or the end, holds of every piece. */
  lemma {:induction false} EachPiece<T>(s: seq<T>, isCut: nat -> bool, start: nat, holds: seq<T> -> bool)
    requires start <= |s|
    requires forall i: nat, k: nat :: i <= k <= |s| && (i == start || (0 < i && isCut(i - 1))) && NoCut(isCut, i, k) ==>
               holds(s[i..k])
    ensures forall j :: 0 <= j < |Cut(s, isCut, start)| ==> holds(Cut(s, isCut, start)[j])
    decreases |s| - start
  {
    var k := FirstCut(isCut, start, |s|);
    assert holds(s[start..k]);
    if k == |s| {
      assert s[start..k] == s[start..];
      CutNowhere(s, isCut, start);
    } else {
      EachPiece(s, isCut, k + 1, holds);
      CutOnce(s, isCut, start, k);
    }
  }
}

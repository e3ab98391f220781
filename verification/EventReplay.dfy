/** Replay of projected session events: grouped by session, deduplicated, in sequence order. */
module EventReplay {
  import opened AuthzSession
  import opened MachineInts
  import opened Wrappers

  datatype ProjectionEvent = ProjectionEvent(sessionId: string, sequence: u64, state: string)

  /** Two events fight for the same place when session and sequence number agree. */
  predicate SameSlot(a: ProjectionEvent, b: ProjectionEvent) {
    a.sessionId == b.sessionId && a.sequence == b.sequence
  }

  ghost predicate FirstDelivered(events: seq<ProjectionEvent>, e: ProjectionEvent) {
    exists i :: 0 <= i < |events| && events[i] == e && forall j :: 0 <= j < i ==> !SameSlot(events[j], e)
  }

  ghost predicate Ascending(es: seq<ProjectionEvent>) {
    forall i, j :: 0 <= i < j < |es| ==> es[i].sequence < es[j].sequence
  }

  /** The first-delivered events of one session, in strictly increasing order. */
  ghost predicate IsHistory(events: seq<ProjectionEvent>, session: string, es: seq<ProjectionEvent>) {
    && Ascending(es)
    && forall e :: e in es <==> e.sessionId == session && FirstDelivered(events, e)
  }

  ghost predicate HasSession(events: seq<ProjectionEvent>, session: string) {
    exists e :: e in events && e.sessionId == session
  }

  /** What a replay promises: exactly the delivered sessions, each with its history. */
  ghost predicate IsReplay(events: seq<ProjectionEvent>, out: map<string, seq<ProjectionEvent>>) {
    && (forall session :: session in out <==> HasSession(events, session))
    && (forall session :: session in out ==> IsHistory(events, session, out[session]))
  }

  // ---------- The loop ----------

  /** An ordered map keeps its values in key order; an occupied key keeps its first value. */
  function OrInsert(es: seq<ProjectionEvent>, e: ProjectionEvent): seq<ProjectionEvent> {
    if es == [] || e.sequence < es[0].sequence then [e] + es
    else if e.sequence == es[0].sequence then es
    else [es[0]] + OrInsert(es[1..], e)
  }

  function EntryOrDefault(m: map<string, seq<ProjectionEvent>>, session: string): seq<ProjectionEvent> {
    if session in m then m[session] else []
  }

  method ReplayBySequence(events: seq<ProjectionEvent>) returns (out: map<string, seq<ProjectionEvent>>)
    ensures IsReplay(events, out)
  {
    out := map[];
    ghost var seen := [];
    for i := 0 to |events|
      invariant seen == events[..i]
      invariant IsReplay(seen, out)
    {
      var e := events[i];
      InsertKeepsReplay(seen, e, out);
      seen := seen + [e];
      out := out[e.sessionId := OrInsert(EntryOrDefault(out, e.sessionId), e)];
    }
    assert seen == events;
  }

  lemma {:induction false} OrInsertInserts(es: seq<ProjectionEvent>, e: ProjectionEvent)
    requires Ascending(es)
    ensures Ascending(OrInsert(es, e))
    ensures forall x :: x in OrInsert(es, e) <==>
      x in es || (x == e && forall y :: y in es ==> y.sequence != e.sequence)
  {
    if es == [] {
    } else if e.sequence > es[0].sequence {
      var tail := es[1..];
      OrInsertInserts(tail, e);
      assert es == [es[0]] + tail;
      forall x | x in OrInsert(tail, e)
        ensures es[0].sequence < x.sequence
      {
      }
    } else if e.sequence < es[0].sequence {
      assert forall y :: y in es ==> y.sequence > e.sequence;
    }
  }

  lemma FirstDeliveredGrows(events: seq<ProjectionEvent>, e: ProjectionEvent, x: ProjectionEvent)
    ensures FirstDelivered(events + [e], x) <==>
      FirstDelivered(events, x) || (x == e && SlotFree(events, e))
  {
    var more := events + [e];
    if i :| 0 <= i < |events| && events[i] == x && forall j :: 0 <= j < i ==> !SameSlot(events[j], x) {
      assert more[i] == x && forall j :: 0 <= j < i ==> more[j] == events[j];
    }
    if i :| 0 <= i < |more| && more[i] == x && forall j :: 0 <= j < i ==> !SameSlot(more[j], x) {
      if i < |events| {
        assert events[i] == x && forall j :: 0 <= j < i ==> events[j] == more[j];
      } else {
        assert forall j :: 0 <= j < |events| ==> events[j] == more[j];
      }
    }
    if x == e && SlotFree(events, e) {
      assert more[|events|] == e && forall j :: 0 <= j < |events| ==> more[j] == events[j];
    }
  }

  /** Every occupied slot has a first delivery. */
  lemma {:induction false} SlotHasFirst(events: seq<ProjectionEvent>, k: nat) returns (x: ProjectionEvent)
    requires k < |events|
    ensures SameSlot(x, events[k]) && FirstDelivered(events, x)
  {
    if j :| 0 <= j < k && SameSlot(events[j], events[k]) {
      x := SlotHasFirst(events, j);
    } else {
      x := events[k];
    }
  }

  ghost predicate SlotFree(events: seq<ProjectionEvent>, e: ProjectionEvent) {
    forall j :: 0 <= j < |events| ==> !SameSlot(events[j], e)
  }

  lemma SlotFreeInHistory(events: seq<ProjectionEvent>, e: ProjectionEvent, es: seq<ProjectionEvent>)
    requires IsHistory(events, e.sessionId, es)
    ensures SlotFree(events, e) <==> forall y :: y in es ==> y.sequence != e.sequence
  {
    if k :| 0 <= k < |events| && SameSlot(events[k], e) {
      var first := SlotHasFirst(events, k);
      assert first in es;
    }
  }

  lemma HistoryGrows(events: seq<ProjectionEvent>, e: ProjectionEvent, es: seq<ProjectionEvent>)
    requires IsHistory(events, e.sessionId, es)
    ensures IsHistory(events + [e], e.sessionId, OrInsert(es, e))
  {
    OrInsertInserts(es, e);
    SlotFreeInHistory(events, e, es);
    forall x: ProjectionEvent
      ensures FirstDelivered(events + [e], x) <==> FirstDelivered(events, x) || (x == e && SlotFree(events, e))
    {
      FirstDeliveredGrows(events, e, x);
    }
  }

  lemma InsertKeepsReplay(events: seq<ProjectionEvent>, e: ProjectionEvent, out: map<string, seq<ProjectionEvent>>)
    requires IsReplay(events, out)
    ensures IsReplay(events + [e], out[e.sessionId := OrInsert(EntryOrDefault(out, e.sessionId), e)])
  {
    var es := EntryOrDefault(out, e.sessionId);
    assert IsHistory(events, e.sessionId, es) by {
      if e.sessionId !in out {
        assert !HasSession(events, e.sessionId);
      }
    }
    HistoryGrows(events, e, es);
    forall session | session in out && session != e.sessionId
      ensures IsHistory(events + [e], session, out[session])
    {
      forall x: ProjectionEvent ensures x.sessionId == session ==> (FirstDelivered(events + [e], x) <==> FirstDelivered(events, x)) {
        FirstDeliveredGrows(events, e, x);
      }
    }
    forall session
      ensures HasSession(events + [e], session) <==> HasSession(events, session) || session == e.sessionId
    {
      assert e in events + [e];
    }
  }

  // ---------- The promise determines the result ----------

  lemma {:induction false} AscendingIsUnique(a: seq<ProjectionEvent>, b: seq<ProjectionEvent>)
    requires Ascending(a) && Ascending(b) && forall e :: e in a <==> e in b
    ensures a == b
  {
    EmptyHasNoMember(a);
    EmptyHasNoMember(b);
    if a == [] {
    } else {
      assert a[0] in b && b[0] in a;
      assert a[0] == b[0];
      forall e
        ensures e in a[1..] <==> e in b[1..]
      {
        TailMembers(a, e);
        TailMembers(b, e);
      }
      AscendingIsUnique(a[1..], b[1..]);
    }
  }

  lemma EmptyHasNoMember(a: seq<ProjectionEvent>)
    ensures a == [] <==> forall e :: e !in a
    ensures a != [] ==> a[0] in a
  {
    if a != [] {
      assert a[0] in a;
    }
  }

  lemma TailMembers(a: seq<ProjectionEvent>, e: ProjectionEvent)
    requires Ascending(a) && a != []
    ensures e in a[1..] <==> e in a && e != a[0]
  {
    assert a == [a[0]] + a[1..];
  }

  lemma ReplayIsUnique(events: seq<ProjectionEvent>, a: map<string, seq<ProjectionEvent>>, b: map<string, seq<ProjectionEvent>>)
    requires IsReplay(events, a) && IsReplay(events, b)
    ensures a == b
  {
    forall session | session in a
      ensures session in b && a[session] == b[session]
    {
      AscendingIsUnique(a[session], b[session]);
    }
    assert forall session :: session in a <==> session in b;
  }

  lemma {:induction false} ReplayExists(events: seq<ProjectionEvent>) returns (out: map<string, seq<ProjectionEvent>>)
    ensures IsReplay(events, out)
  {
    if events == [] {
      out := map[];
    } else {
      var n := |events| - 1;
      out := ReplayExists(events[..n]);
      InsertKeepsReplay(events[..n], events[n], out);
      assert events == events[..n] + [events[n]];
      out := out[events[n].sessionId := OrInsert(EntryOrDefault(out, events[n].sessionId), events[n])];
    }
  }

  // ---------- At-least-once delivery of legal runs ----------

  ghost function EventAt(session: string, run: seq<AuthzState>, n: nat): ProjectionEvent
    requires LegalRun(run) && n < |run|
  {
    RunsAreShortAndFinal(run);
    ProjectionEvent(session, n, run[n].AsStr())
  }

  /** Every event of every session history arrives at least once, and nothing else arrives; order,
      repetition and interleaving are free. */
  ghost predicate Delivers(histories: map<string, seq<AuthzState>>, events: seq<ProjectionEvent>)
    requires forall s :: s in histories ==> LegalRun(histories[s])
  {
    && (forall s, n: nat :: s in histories && n < |histories[s]| ==> EventAt(s, histories[s], n) in events)
    && (forall e :: e in events ==>
          e.sessionId in histories && e.sequence < |histories[e.sessionId]|
          && e == EventAt(e.sessionId, histories[e.sessionId], e.sequence))
  }

  ghost function HistoryEvents(session: string, run: seq<AuthzState>): seq<ProjectionEvent>
    requires LegalRun(run)
  {
    seq(|run|, n requires 0 <= n < |run| => EventAt(session, run, n))
  }

  /** Whatever the delivery order, replay returns exactly the sessions and their histories, and
      parsing the stored states recovers each legal run. */
  lemma ReplayRecoversHistories(histories: map<string, seq<AuthzState>>, events: seq<ProjectionEvent>,
                                out: map<string, seq<ProjectionEvent>>)
    requires forall s :: s in histories ==> LegalRun(histories[s])
    requires Delivers(histories, events) && IsReplay(events, out)
    ensures out == map s | s in histories :: HistoryEvents(s, histories[s])
    ensures forall s :: s in histories ==> s in out && |out[s]| == |histories[s]|
    ensures forall s, n :: s in histories && 0 <= n < |histories[s]| ==>
      AuthzState.Parse(out[s][n].state) == Some(histories[s][n])
  {
    var expected := map s | s in histories :: HistoryEvents(s, histories[s]);
    forall s
      ensures s in histories <==> HasSession(events, s)
    {
      if s in histories {
        assert EventAt(s, histories[s], 0) in events;
      }
    }
    forall s | s in histories
      ensures IsHistory(events, s, expected[s])
    {
      DeliveredHistory(histories, events, s);
    }
    ReplayIsUnique(events, out, expected);
    forall s, n | s in histories && 0 <= n < |histories[s]|
      ensures AuthzState.Parse(out[s][n].state) == Some(histories[s][n])
    {
      ParseInvertsAsStr(out[s][n].state, histories[s][n]);
    }
  }

  lemma DeliveredHistory(histories: map<string, seq<AuthzState>>, events: seq<ProjectionEvent>, s: string)
    requires forall s :: s in histories ==> LegalRun(histories[s])
    requires Delivers(histories, events) && s in histories
    ensures IsHistory(events, s, HistoryEvents(s, histories[s]))
  {
    var run, es := histories[s], HistoryEvents(s, histories[s]);
    forall n | 0 <= n < |es|
      ensures FirstDelivered(events, es[n])
    {
      var k :| 0 <= k < |events| && events[k] == EventAt(s, run, n);
      var first := SlotHasFirst(events, k);
      assert first in events;
    }
    forall e: ProjectionEvent | e.sessionId == s && FirstDelivered(events, e)
      ensures e in es
    {
      assert e in events;
      assert es[e.sequence] == e;
    }
  }

  // ---------- Replaying a replay; when order matters ----------

  /** Replaying the replayed events, flattened in any order, changes nothing. */
  lemma ReplayIsIdempotent(events: seq<ProjectionEvent>, out: map<string, seq<ProjectionEvent>>, flat: seq<ProjectionEvent>)
    requires IsReplay(events, out)
    requires forall e :: e in flat <==> e.sessionId in out && e in out[e.sessionId]
    ensures IsReplay(flat, out)
  {
    forall e ensures FirstDelivered(flat, e) <==> e in flat {
      if e in flat {
        var k :| 0 <= k < |flat| && flat[k] == e;
        var first := SlotHasFirst(flat, k);
        assert first in flat && e in out[e.sessionId] && first in out[e.sessionId];
      }
    }
    forall session
      ensures session in out <==> HasSession(flat, session)
    {
      if session in out {
        var e :| e in events && e.sessionId == session;
        var k :| 0 <= k < |events| && events[k] == e;
        var first := SlotHasFirst(events, k);
        assert first in out[session];
        assert first in flat;
      }
    }
  }

  ghost predicate ConflictFree(events: seq<ProjectionEvent>) {
    forall a, b :: a in events && b in events && SameSlot(a, b) ==> a == b
  }

  ghost predicate SameEvents(a: seq<ProjectionEvent>, b: seq<ProjectionEvent>) {
    forall e :: e in a <==> e in b
  }

  ghost predicate SameReplay(a: seq<ProjectionEvent>, b: seq<ProjectionEvent>) {
    forall x, y :: IsReplay(a, x) && IsReplay(b, y) ==> x == y
  }

  /** Reordering and repeating deliveries never changes the replay exactly when no two delivered
      events claim one sequence number of one session with different contents. */
  lemma OrderMattersIffConflict(events: seq<ProjectionEvent>)
    ensures ConflictFree(events) <==> forall other :: SameEvents(events, other) ==> SameReplay(events, other)
  {
    if ConflictFree(events) {
      forall other | SameEvents(events, other)
        ensures SameReplay(events, other)
      {
        NoConflictNoChange(events, other);
      }
    } else {
      var a, b :| a in events && b in events && SameSlot(a, b) && a != b;
      var other := ConflictShows(events, a, b);
    }
  }

  lemma NoConflictNoChange(events: seq<ProjectionEvent>, other: seq<ProjectionEvent>)
    requires ConflictFree(events) && SameEvents(events, other)
    ensures SameReplay(events, other)
  {
    forall x, y | IsReplay(events, x) && IsReplay(other, y)
      ensures x == y
    {
      ReplayTransfers(events, other, x);
      ReplayIsUnique(other, x, y);
    }
  }

  /** Delivering one of two conflicting events first decides which of them the replay keeps. */
  lemma ConflictShows(events: seq<ProjectionEvent>, a: ProjectionEvent, b: ProjectionEvent)
    returns (other: seq<ProjectionEvent>)
    requires a in events && b in events && SameSlot(a, b) && a != b
    ensures SameEvents(events, other) && !SameReplay(events, other)
  {
    var x := ReplayExists([a] + events);
    var y := ReplayExists([b] + events);
    var z := ReplayExists(events);
    HeadIsFirst(events, a, x);
    HeadIsFirst(events, b, y);
    assert x != y by { assert Ascending(x[a.sessionId]); }
    other := if z != x then [a] + events else [b] + events;
  }

  lemma HeadIsFirst(events: seq<ProjectionEvent>, a: ProjectionEvent, x: map<string, seq<ProjectionEvent>>)
    requires IsReplay([a] + events, x)
    ensures a.sessionId in x && a in x[a.sessionId]
  {
    var all := [a] + events;
    assert all[0] == a && a in all;
    assert HasSession(all, a.sessionId) && FirstDelivered(all, a);
  }

  lemma ReplayTransfers(events: seq<ProjectionEvent>, other: seq<ProjectionEvent>, out: map<string, seq<ProjectionEvent>>)
    requires ConflictFree(events) && SameEvents(events, other) && IsReplay(events, out)
    ensures IsReplay(other, out)
  {
    forall e ensures FirstDelivered(other, e) <==> FirstDelivered(events, e) {
      FirstIsMember(events, e);
      FirstIsMember(other, e);
    }
    assert forall session :: HasSession(events, session) <==> HasSession(other, session);
  }

  lemma FirstIsMember(events: seq<ProjectionEvent>, e: ProjectionEvent)
    requires ConflictFree(events)
    ensures FirstDelivered(events, e) <==> e in events
  {
    if e in events {
      var k :| 0 <= k < |events| && events[k] == e;
      var first := SlotHasFirst(events, k);
      assert first in events;
    }
  }
}

/** The states of an authorization session, its legal runs, and the replay of projected events. */
module AuthzSession {
  import opened Wrappers

  // ---------- The state machine ----------

  datatype AuthzState =
    | Created
    | PendingUserAuthentication
    | PendingConsent
    | CodeIssuedAwaitingExchange
    | Complete
    | ExchangeFailed
    | Expired
    | Denied
    | Revoked
  {
    function AsStr(): string {
      match this
      case Created => "created"
      case PendingUserAuthentication => "pending_user_authentication"
      case PendingConsent => "pending_consent"
      case CodeIssuedAwaitingExchange => "code_issued_awaiting_exchange"
      case Complete => "complete"
      case ExchangeFailed => "exchange_failed"
      case Expired => "expired"
      case Denied => "denied"
      case Revoked => "revoked"
    }

    static function Parse(s: string): Option<AuthzState> {
      if s == "created" then Some(Created)
      else if s == "pending_user_authentication" then Some(PendingUserAuthentication)
      else if s == "pending_consent" then Some(PendingConsent)
      else if s == "code_issued_awaiting_exchange" then Some(CodeIssuedAwaitingExchange)
      else if s == "complete" then Some(Complete)
      else if s == "exchange_failed" then Some(ExchangeFailed)
      else if s == "expired" then Some(Expired)
      else if s == "denied" then Some(Denied)
      else if s == "revoked" then Some(Revoked)
      else None
    }

    predicate IsTerminal() {
      Complete? || ExchangeFailed? || Expired? || Denied? || Revoked?
    }

    predicate CanTransitionTo(to: AuthzState) {
      if IsTerminal() then false
      else if to.Expired? || to.Revoked? then true
      else match (this, to)
        case (Created, PendingUserAuthentication) => true
        case (Created, PendingConsent) => true
        case (PendingUserAuthentication, PendingConsent) => true
        case (PendingConsent, CodeIssuedAwaitingExchange) => true
        case (PendingConsent, Denied) => true
        case (CodeIssuedAwaitingExchange, Complete) => true
        case (CodeIssuedAwaitingExchange, ExchangeFailed) => true
        case _ => false
    }
  }

  /** Printing and parsing a state name are inverse to each other. */
  lemma ParseInvertsAsStr(text: string, state: AuthzState)
    ensures AuthzState.Parse(text) == Some(state) <==> text == state.AsStr()
  {
    assert |"created"| == 7 && |"pending_user_authentication"| == 27 && |"pending_consent"| == 15;
    assert |"code_issued_awaiting_exchange"| == 29 && |"complete"| == 8 && |"exchange_failed"| == 15;
    assert |"expired"| == 7 && |"denied"| == 6 && |"revoked"| == 7;
    assert "created"[0] == 'c' && "expired"[0] == 'e' && "revoked"[0] == 'r';
    assert "pending_consent"[0] == 'p' && "exchange_failed"[0] == 'e';
  }

  // ---------- Legal runs ----------

  /** The history of one session: it starts as created and every step is a legal transition. */
  ghost predicate LegalRun(run: seq<AuthzState>) {
    && run != [] && run[0] == Created
    && forall i :: 0 < i < |run| ==> run[i - 1].CanTransitionTo(run[i])
  }

  function Rank(s: AuthzState): nat {
    match s
    case Created => 0
    case PendingUserAuthentication => 1
    case PendingConsent => 2
    case CodeIssuedAwaitingExchange => 3
    case _ => 4
  }

  lemma {:induction false} RanksRise(run: seq<AuthzState>, i: nat, j: nat)
    requires LegalRun(run) && i < j < |run|
    ensures Rank(run[i]) + (j - i) <= Rank(run[j])
    decreases j
  {
    assert run[j - 1].CanTransitionTo(run[j]);
    if i == j - 1 {
    } else {
      RanksRise(run, i, j - 1);
    }
  }

  /** A run makes at most four transitions, never visits a state twice, and ends at its first
      terminal state. */
  lemma RunsAreShortAndFinal(run: seq<AuthzState>)
    requires LegalRun(run)
    ensures |run| <= 5
    ensures forall i, j :: 0 <= i < j < |run| ==> run[i] != run[j]
    ensures forall i :: 0 <= i < |run| && run[i].IsTerminal() ==> i == |run| - 1
  {
    if |run| > 1 {
      RanksRise(run, 0, |run| - 1);
    }
    forall i, j | 0 <= i < j < |run|
      ensures run[i] != run[j]
    {
      RanksRise(run, i, j);
    }
    forall i | 0 <= i < |run| && run[i].IsTerminal()
      ensures i == |run| - 1
    {
      assert i + 1 < |run| ==> run[i + 1 - 1].CanTransitionTo(run[i + 1]);
    }
  }

  /** Consent and an issued code come directly before a code is exchanged, successfully or not. */
  lemma ExchangePassesThroughConsent(run: seq<AuthzState>, k: nat)
    requires LegalRun(run) && k < |run| && (run[k].Complete? || run[k].ExchangeFailed?)
    ensures k >= 2 && run[k - 1] == CodeIssuedAwaitingExchange && run[k - 2] == PendingConsent
  {
    assert run[k - 1].CanTransitionTo(run[k]);
    assert run[k - 2].CanTransitionTo(run[k - 1]);
  }

  /** A live session can always be ended, by expiry or revocation, and then no step is left. */
  lemma LiveRunsCanEnd(run: seq<AuthzState>, end: AuthzState, next: AuthzState)
    requires LegalRun(run) && end.IsTerminal()
    ensures LegalRun(run + [end]) <==> run[|run| - 1].CanTransitionTo(end)
    ensures end.Expired? || end.Revoked? ==>
      (LegalRun(run + [end]) <==> !run[|run| - 1].IsTerminal())
    ensures !LegalRun(run + [end] + [next])
  {
    var longer := run + [end];
    assert forall i :: 0 <= i < |run| ==> longer[i] == run[i];
    var longest := longer + [next];
    assert longest[|run|] == end && longest[|run| + 1] == next;
    assert LegalRun(longest) ==> longest[|run| + 1 - 1].CanTransitionTo(longest[|run| + 1]);
    assert longer[|run|] == end && longer[|run| - 1] == run[|run| - 1];
  }

  /** Which last states a run can go on from, for every next state. */
  ghost predicate MayFollow(last: AuthzState, next: AuthzState) {
    match next
    case Created => false
    case PendingUserAuthentication => last == Created
    case PendingConsent => last == Created || last == PendingUserAuthentication
    case CodeIssuedAwaitingExchange => last == PendingConsent
    case Complete => last == CodeIssuedAwaitingExchange
    case ExchangeFailed => last == CodeIssuedAwaitingExchange
    case Denied => last == PendingConsent
    case Expired => last in {Created, PendingUserAuthentication, PendingConsent, CodeIssuedAwaitingExchange}
    case Revoked => last in {Created, PendingUserAuthentication, PendingConsent, CodeIssuedAwaitingExchange}
  }

  /** A legal run can be extended by a state exactly when its last state may come before it. */
  lemma RunsExtendExactly(run: seq<AuthzState>, next: AuthzState)
    requires LegalRun(run)
    ensures LegalRun(run + [next]) <==> MayFollow(run[|run| - 1], next)
  {
    var longer := run + [next];
    assert forall i :: 0 <= i < |run| ==> longer[i] == run[i];
    assert longer[|run|] == next && longer[|run| - 1] == run[|run| - 1];
    FollowIs(run[|run| - 1], next);
  }

  lemma FollowIs(last: AuthzState, next: AuthzState)
    ensures last.CanTransitionTo(next) <==> MayFollow(last, next)
  {
  }

  /** The stored names of the states. */
  ghost const NAMES: map<string, AuthzState> :=
    map["created" := Created, "pending_user_authentication" := PendingUserAuthentication,
        "pending_consent" := PendingConsent, "code_issued_awaiting_exchange" := CodeIssuedAwaitingExchange,
        "complete" := Complete, "exchange_failed" := ExchangeFailed, "expired" := Expired,
        "denied" := Denied, "revoked" := Revoked]

  lemma ParseReadsNames(text: string)
    ensures AuthzState.Parse(text) == if text in NAMES then Some(NAMES[text]) else None
  {
  }
}

/**
 The rail router with its bounded fallback
 (services/rails/src/ubunturemit_rails/router.py).

 An adapter may report any status or raise; `replies(n)` is what the adapter of
 candidate `n` does.  `RouteFrom` is the router as a function, the router itself
 is a loop over a mutable orchestrator, proved equal to it.
 */
module RailRouting {
  import opened Wrappers
  import opened DomainMoney
  import opened Lifecycle

  datatype RailStatus = Delivered | Settling | Failed | Rejected

  datatype SubmissionResult = SubmissionResult(
    rail: SettlementRail, status: RailStatus, fee: Money, settlementSeconds: real)

  datatype AdapterReply = AdapterRaises | Reports(result: SubmissionResult)

  datatype RouterError = SettlementExhaustion | NoAdapter | RouterRaised

  datatype Settlement = Settlement(transfer: Transfer, result: SubmissionResult)

  /** One run of the router: the rails submitted to, the reports, the states passed through, the counts left. */
  datatype Routed = Routed(
    answer: Result<Settlement, RouterError>,
    tried: seq<SettlementRail>,
    attempts: seq<SubmissionResult>,
    states: seq<TransferState>,
    counts: map<string, nat>)

  // ---------------------------------------------------------------------
  // The candidates
  // ---------------------------------------------------------------------

  const PRIORITY: seq<SettlementRail> := [RIPPLE, PAPSS, SWIFT]

  function Alternates(rails: seq<SettlementRail>, preferred: SettlementRail, papssEligible: bool): seq<SettlementRail> {
    if rails == [] then []
    else
      (if rails[0] != preferred && (rails[0] != PAPSS || papssEligible) then [rails[0]] else [])
      + Alternates(rails[1..], preferred, papssEligible)
  }

  function Registered(rails: seq<SettlementRail>, adapters: set<SettlementRail>): seq<SettlementRail> {
    if rails == [] then []
    else (if rails[0] in adapters then [rails[0]] else []) + Registered(rails[1..], adapters)
  }

  function Candidates(preferred: SettlementRail, papssEligible: bool, adapters: set<SettlementRail>):
      seq<SettlementRail>
  {
    Registered([preferred] + Alternates(PRIORITY, preferred, papssEligible), adapters)
  }

  predicate Distinct(rails: seq<SettlementRail>) {
    forall i, j :: 0 <= i < j < |rails| ==> rails[i] != rails[j]
  }

  lemma PriorityUnfolds(preferred: SettlementRail, papssEligible: bool)
    ensures Alternates(PRIORITY, preferred, papssEligible)
         == (if preferred != RIPPLE then [RIPPLE] else [])
            + (if preferred != PAPSS && papssEligible then [PAPSS] else [])
            + (if preferred != SWIFT then [SWIFT] else [])
  {
    assert [SWIFT][1..] == [] && [PAPSS, SWIFT][1..] == [SWIFT] && PRIORITY[1..] == [PAPSS, SWIFT];
    assert Alternates([SWIFT], preferred, papssEligible) == if preferred != SWIFT then [SWIFT] else [];
    assert Alternates([PAPSS, SWIFT], preferred, papssEligible)
        == (if preferred != PAPSS && papssEligible then [PAPSS] else [])
           + (if preferred != SWIFT then [SWIFT] else []);
  }

  lemma {:induction false} RegisteredKeeps(rails: seq<SettlementRail>, adapters: set<SettlementRail>)
    ensures forall rail :: rail in Registered(rails, adapters) <==> rail in rails && rail in adapters
    ensures Distinct(rails) ==> Distinct(Registered(rails, adapters))
    ensures |Registered(rails, adapters)| <= |rails|
    ensures rails != [] && rails[0] in adapters ==>
              Registered(rails, adapters) != [] && Registered(rails, adapters)[0] == rails[0]
  {
    if rails != [] {
      RegisteredKeeps(rails[1..], adapters);
      assert rails == [rails[0]] + rails[1..];
    }
  }

  /** RIPPLE comes before PAPSS and SWIFT, and PAPSS before SWIFT. */
  predicate ComesBefore(a: SettlementRail, b: SettlementRail) {
    (a == RIPPLE && b != RIPPLE) || (a == PAPSS && b == SWIFT)
  }

  /** The rails behind the first one are in this order. */
  predicate InOrder(rails: seq<SettlementRail>) {
    forall i, j :: 1 <= i < j < |rails| ==> ComesBefore(rails[i], rails[j])
  }

  lemma {:induction false} RegisteredIsASelection(rails: seq<SettlementRail>, adapters: set<SettlementRail>)
    returns (places: seq<nat>)
    ensures var r := Registered(rails, adapters);
            && |places| == |r|
            && (forall i :: 0 <= i < |r| ==> places[i] < |rails| && rails[places[i]] == r[i])
            && (forall i, j :: 0 <= i < j < |r| ==> places[i] < places[j])
  {
    places := [];
    if rails != [] {
      var rest := RegisteredIsASelection(rails[1..], adapters);
      places := (if rails[0] in adapters then [0] else []) + seq(|rest|, i requires 0 <= i < |rest| => rest[i] + 1);
    }
  }

  lemma RegisteredInOrder(rails: seq<SettlementRail>, adapters: set<SettlementRail>)
    requires rails != [] && rails[0] in adapters && InOrder(rails)
    ensures InOrder(Registered(rails, adapters))
  {
    hide Registered;
    var places := RegisteredIsASelection(rails, adapters);
    SelectionInOrder(rails, Registered(rails, adapters), places);
  }

  lemma SelectionInOrder(rails: seq<SettlementRail>, r: seq<SettlementRail>, places: seq<nat>)
    requires InOrder(rails) && |places| == |r|
    requires forall i :: 0 <= i < |r| ==> places[i] < |rails| && rails[places[i]] == r[i]
    requires forall i, j :: 0 <= i < j < |r| ==> places[i] < places[j]
    ensures InOrder(r)
  {
    forall i: nat, j: nat | 1 <= i < j < |r|
      ensures ComesBefore(r[i], r[j])
    {
      assert places[0] < places[i] < places[j];
      assert r[i] == rails[places[i]] && r[j] == rails[places[j]];
    }
  }

  /** The candidates: the approved rail first, then every other registered and eligible rail, each once, in order. */
  lemma CandidatesAre(preferred: SettlementRail, papssEligible: bool, adapters: set<SettlementRail>)
    requires preferred in adapters
    ensures var c := Candidates(preferred, papssEligible, adapters);
            && 1 <= |c| <= 3 && c[0] == preferred && Distinct(c)
            && forall rail :: rail in c <==>
                 rail in adapters && (rail == preferred || rail != PAPSS || papssEligible)
    ensures InOrder(Candidates(preferred, papssEligible, adapters))
  {
    hide Alternates, Registered;
    PriorityUnfolds(preferred, papssEligible);
    RegisteredInOrder([preferred] + Alternates(PRIORITY, preferred, papssEligible), adapters);
    RegisteredKeeps([preferred] + Alternates(PRIORITY, preferred, papssEligible), adapters);
  }

  // ---------------------------------------------------------------------
  // The attempts
  // ---------------------------------------------------------------------

  function Min(a: nat, b: nat): nat {
    if a < b then a else b
  }

  /** The loop from candidate `i` on. */
  function RouteFrom(
      t: Transfer, counts: map<string, nat>, candidates: seq<SettlementRail>, i: nat, replies: nat -> AdapterReply):
      Routed
    requires i < |candidates|
    decreases |candidates| - i
  {
    match replies(i)
    case AdapterRaises => Routed(Err(RouterRaised), [candidates[i]], [], [], counts)
    case Reports(result) =>
      var next := if result.status == Delivered then DELIVERED else FAILED;
      if Transition(t, next).Err? then Routed(Err(RouterRaised), [candidates[i]], [result], [], counts)
      else if next == DELIVERED then
        Routed(Ok(Settlement(OnDelivery(t, candidates[i], result), result)), [candidates[i]], [result], [next], counts)
      else if i + 1 == |candidates| then
        Routed(Err(SettlementExhaustion), [candidates[i]], [result], [next], counts)
      else AfterFailure(t.(state := FAILED), counts, candidates, i, replies, result)
  }

  /** The transfer as it is delivered. */
  function OnDelivery(t: Transfer, rail: SettlementRail, result: SubmissionResult): Transfer {
    t.(state := DELIVERED, rail := Some(rail), settlementSeconds := Some(result.settlementSeconds))
  }

  /** Another rail is left: retry on it if the budget allows. */
  function AfterFailure(
      failed: Transfer, counts: map<string, nat>, candidates: seq<SettlementRail>, i: nat,
      replies: nat -> AdapterReply, result: SubmissionResult): Routed
    requires i + 1 < |candidates|
    decreases |candidates| - i, 0
  {
    match RetrySettlement(counts, failed, candidates[i + 1])
    case Err(RetryBudgetExceeded) =>
      Routed(Err(SettlementExhaustion), [candidates[i]], [result], [FAILED], counts)
    case Err(OrchestratorStateError) =>
      Routed(Err(RouterRaised), [candidates[i]], [result], [FAILED], counts)
    case Ok(retried) =>
      var rest := RouteFrom(retried, CountsAfterRetry(counts, failed, candidates[i + 1]), candidates, i + 1, replies);
      Routed(rest.answer, [candidates[i]] + rest.tried, [result] + rest.attempts, [FAILED, SETTLING] + rest.states,
             rest.counts)
  }

  /** Failing and settling again, `n` times. */
  function Retries(n: nat): seq<TransferState> {
    if n == 0 then [] else [FAILED, SETTLING] + Retries(n - 1)
  }

  /** The most attempts from candidate `i` on: as many as there are candidates, and the budget allows. */
  function Allowed(counts: map<string, nat>, id: string, candidates: seq<SettlementRail>, i: nat): nat
    requires i <= |candidates| && RetryCount(counts, id) <= MAX_SETTLEMENT_RETRIES
  {
    Min(|candidates| - i, MAX_SETTLEMENT_RETRIES + 1 - RetryCount(counts, id))
  }

  /** The run tries the candidates in order, without gap, and no more of them than the budget allows. */
  predicate TriesInOrder(
      t: Transfer, counts: map<string, nat>, candidates: seq<SettlementRail>, i: nat, run: Routed)
    requires i < |candidates| && RetryCount(counts, t.id) <= MAX_SETTLEMENT_RETRIES
  {
    var n := |run.tried|;
    && 1 <= n <= Allowed(counts, t.id, candidates, i)
    && run.tried == candidates[i..i + n]
    && run.counts == (if n == 1 then counts else counts[t.id := RetryCount(counts, t.id) + n - 1])
  }

  /** Only the last report can be a delivery, and it is one exactly when the run delivers. */
  predicate StopsAtDelivery(run: Routed) {
    && (forall k :: 0 <= k < |run.attempts| && run.attempts[k].status == Delivered ==>
          k == |run.attempts| - 1 && run.answer.Ok?)
    && (run.answer.Ok? ==> run.attempts != [] && run.attempts[|run.attempts| - 1] == run.answer.value.result
                           && run.answer.value.result.status == Delivered)
  }

  /** How the run ends, and the states it goes through. */
  predicate EndsAs(t: Transfer, counts: map<string, nat>, candidates: seq<SettlementRail>, i: nat, run: Routed)
    requires i < |candidates| && RetryCount(counts, t.id) <= MAX_SETTLEMENT_RETRIES
  {
    var n := |run.tried|;
    match run.answer
    case Ok(s) =>
      && n >= 1 && |run.attempts| == n && run.states == Retries(n - 1) + [DELIVERED]
      && SameIdentity(s.transfer, t) && s.transfer.state == DELIVERED
      && s.transfer.rail == Some(run.tried[n - 1])
      && s.transfer.settlementSeconds == Some(s.result.settlementSeconds)
    case Err(SettlementExhaustion) =>
      && n == Allowed(counts, t.id, candidates, i) && n >= 1
      && |run.attempts| == n && run.states == Retries(n - 1) + [FAILED]
    case Err(NoAdapter) => false
    case Err(RouterRaised) =>
      n >= 1 && |run.attempts| == n - 1 && run.states == Retries(n - 1)
  }

  lemma {:induction false} RouteIsRegular(
      t: Transfer, counts: map<string, nat>, candidates: seq<SettlementRail>, i: nat, replies: nat -> AdapterReply)
    requires i < |candidates| && t.state == SETTLING && RetryCount(counts, t.id) <= MAX_SETTLEMENT_RETRIES
    ensures var run := RouteFrom(t, counts, candidates, i, replies);
            && TriesInOrder(t, counts, candidates, i, run)
            && StopsAtDelivery(run)
            && EndsAs(t, counts, candidates, i, run)
    decreases |candidates| - i
  {
    hide TriesInOrder, StopsAtDelivery, EndsAs;
    var run := RouteFrom(t, counts, candidates, i, replies);
    if replies(i).Reports? && replies(i).result.status != Delivered && i + 1 < |candidates|
       && RetryCount(counts, t.id) < MAX_SETTLEMENT_RETRIES {
      var retried := t.(state := SETTLING, rail := Some(candidates[i + 1]));
      var counts' := counts[t.id := RetryCount(counts, t.id) + 1];
      var failed := t.(state := FAILED);
      assert RetrySettlement(counts, failed, candidates[i + 1]) == Ok(retried);
      assert CountsAfterRetry(counts, failed, candidates[i + 1]) == counts';
      assert run == AfterFailure(failed, counts, candidates, i, replies, replies(i).result);
      RouteIsRegular(retried, counts', candidates, i + 1, replies);
      ContinuesRegularly(t, counts, candidates, i, replies(i).result, retried,
                         RouteFrom(retried, counts', candidates, i + 1, replies), run);
    } else {
      EndsRegularly(t, counts, candidates, i, replies, run);
    }
  }

  lemma EndsRegularly(
      t: Transfer, counts: map<string, nat>, candidates: seq<SettlementRail>, i: nat, replies: nat -> AdapterReply,
      run: Routed)
    requires i < |candidates| && t.state == SETTLING && RetryCount(counts, t.id) <= MAX_SETTLEMENT_RETRIES
    requires !(replies(i).Reports? && replies(i).result.status != Delivered && i + 1 < |candidates|
               && RetryCount(counts, t.id) < MAX_SETTLEMENT_RETRIES)
    requires run == RouteFrom(t, counts, candidates, i, replies)
    ensures TriesInOrder(t, counts, candidates, i, run) && StopsAtDelivery(run) && EndsAs(t, counts, candidates, i, run)
  {
    assert candidates[i..i + 1] == [candidates[i]];
    assert Retries(0) + [DELIVERED] == [DELIVERED] && Retries(0) + [FAILED] == [FAILED];
  }

  lemma ContinuesRegularly(
      t: Transfer, counts: map<string, nat>, candidates: seq<SettlementRail>, i: nat, result: SubmissionResult,
      retried: Transfer, rest: Routed, run: Routed)
    requires i + 1 < |candidates| && RetryCount(counts, t.id) < MAX_SETTLEMENT_RETRIES
    requires result.status != Delivered && SameIdentity(retried, t)
    requires var counts' := counts[t.id := RetryCount(counts, t.id) + 1];
             && TriesInOrder(retried, counts', candidates, i + 1, rest) && StopsAtDelivery(rest)
             && EndsAs(retried, counts', candidates, i + 1, rest)
    requires run == Routed(rest.answer, [candidates[i]] + rest.tried, [result] + rest.attempts,
                           [FAILED, SETTLING] + rest.states, rest.counts)
    ensures TriesInOrder(t, counts, candidates, i, run) && StopsAtDelivery(run) && EndsAs(t, counts, candidates, i, run)
  {
    hide EndsAs, StopsAtDelivery;
    var n := |rest.tried|;
    assert candidates[i..i + 1 + n] == [candidates[i]] + candidates[i + 1..i + 1 + n];
    StopsLater(result, rest, run);
    EndsLater(t, counts, candidates, i, retried, rest, run);
  }

  lemma StopsLater(result: SubmissionResult, rest: Routed, run: Routed)
    requires result.status != Delivered && StopsAtDelivery(rest)
    requires run.answer == rest.answer && run.attempts == [result] + rest.attempts
    ensures StopsAtDelivery(run)
  {
  }

  lemma EndsLater(
      t: Transfer, counts: map<string, nat>, candidates: seq<SettlementRail>, i: nat,
      retried: Transfer, rest: Routed, run: Routed)
    requires i + 1 < |candidates| && RetryCount(counts, t.id) < MAX_SETTLEMENT_RETRIES && SameIdentity(retried, t)
    requires EndsAs(retried, counts[t.id := RetryCount(counts, t.id) + 1], candidates, i + 1, rest)
    requires run.answer == rest.answer && |run.attempts| == 1 + |rest.attempts|
    requires run.tried == [candidates[i]] + rest.tried && run.states == [FAILED, SETTLING] + rest.states
    ensures EndsAs(t, counts, candidates, i, run)
  {
    var n := |rest.tried|;
    assert Retries(n) == [FAILED, SETTLING] + Retries(n - 1);
    assert [FAILED, SETTLING] + (Retries(n - 1) + [DELIVERED]) == Retries(n) + [DELIVERED];
    assert [FAILED, SETTLING] + (Retries(n - 1) + [FAILED]) == Retries(n) + [FAILED];
  }

  // ---------------------------------------------------------------------
  // The router
  // ---------------------------------------------------------------------

  /** `execute_settlement_with_retry`: without an adapter for the approved rail nothing is submitted. */
  function Route(
      t: Transfer, counts: map<string, nat>, adapters: set<SettlementRail>, preferred: SettlementRail,
      replies: nat -> AdapterReply): Routed
  {
    if preferred !in adapters then Routed(Err(NoAdapter), [], [], [], counts)
    else
      CandidatesAre(preferred, t.quote.corridor.papssEligible, adapters);
      RouteFrom(t, counts, Candidates(preferred, t.quote.corridor.papssEligible, adapters), 0, replies)
  }

  lemma TriedAreCandidates(tried: seq<SettlementRail>, c: seq<SettlementRail>)
    requires Distinct(c) && 1 <= |tried| <= |c| && tried == c[0..|tried|]
    ensures tried[0] == c[0] && Distinct(tried) && forall k :: 0 <= k < |tried| ==> tried[k] in c
    ensures forall k :: 0 < k < |tried| ==> tried[k] != c[0]
  {
    assert forall k :: 0 <= k < |tried| ==> tried[k] == c[k];
  }

  /** Which rails a run submits to: distinct registered and eligible ones, the approved one first. */
  predicate TriesEligibleRails(
      t: Transfer, counts: map<string, nat>, adapters: set<SettlementRail>, preferred: SettlementRail,
      tried: seq<SettlementRail>)
  {
    && 1 <= |tried| <= 3 - RetryCount(counts, t.id)
    && tried[0] == preferred && Distinct(tried)
    && forall k :: 0 <= k < |tried| ==>
         tried[k] in adapters && (k > 0 && tried[k] == PAPSS ==> t.quote.corridor.papssEligible)
  }

  lemma RouterTriesEligibleRails(
      t: Transfer, counts: map<string, nat>, adapters: set<SettlementRail>, preferred: SettlementRail,
      replies: nat -> AdapterReply)
    requires t.state == SETTLING && RetryCount(counts, t.id) <= MAX_SETTLEMENT_RETRIES && preferred in adapters
    ensures TriesEligibleRails(t, counts, adapters, preferred, Route(t, counts, adapters, preferred, replies).tried)
  {
    hide RouteFrom, Candidates, StopsAtDelivery, EndsAs, RetryCount, Distinct;
    var papss := t.quote.corridor.papssEligible;
    CandidatesAre(preferred, papss, adapters);
    var c := Candidates(preferred, papss, adapters);
    RouteIsRegular(t, counts, c, 0, replies);
    TriedAreCandidates(Route(t, counts, adapters, preferred, replies).tried, c);
  }

  /**
   From SETTLING with `r` retries used, the router submits to distinct
   registered rails, the approved one first, at most `3 - r` of them; it
   delivers only on the last rail it tried, on that rail's terms, and the
   retry count grows by the attempts after the first.
   */
  lemma RouterIsBounded(
      t: Transfer, counts: map<string, nat>, adapters: set<SettlementRail>, preferred: SettlementRail,
      replies: nat -> AdapterReply)
    requires t.state == SETTLING && RetryCount(counts, t.id) <= MAX_SETTLEMENT_RETRIES && preferred in adapters
    ensures var run := Route(t, counts, adapters, preferred, replies);
            var n := |run.tried|;
            && TriesEligibleRails(t, counts, adapters, preferred, run.tried)
            && StopsAtDelivery(run)
            && (run.answer.Ok? ==>
                  |run.attempts| == n && SameIdentity(run.answer.value.transfer, t)
                  && run.answer.value.transfer.state == DELIVERED
                  && run.answer.value.transfer.rail == Some(run.tried[n - 1]))
            && run.counts == (if n == 1 then counts else counts[t.id := RetryCount(counts, t.id) + n - 1])
  {
    hide RouteFrom, Candidates, StopsAtDelivery, TriesEligibleRails, RetryCount;
    var papss := t.quote.corridor.papssEligible;
    CandidatesAre(preferred, papss, adapters);
    RouteIsRegular(t, counts, Candidates(preferred, papss, adapters), 0, replies);
    RouterTriesEligibleRails(t, counts, adapters, preferred, replies);
  }

  /** It gives up only when every rail the budget allows has been tried and none delivered. */
  lemma GivesUpOnlyWhenExhausted(
      t: Transfer, counts: map<string, nat>, adapters: set<SettlementRail>, preferred: SettlementRail,
      replies: nat -> AdapterReply)
    requires t.state == SETTLING && RetryCount(counts, t.id) <= MAX_SETTLEMENT_RETRIES && preferred in adapters
    ensures var run := Route(t, counts, adapters, preferred, replies);
            var c := Candidates(preferred, t.quote.corridor.papssEligible, adapters);
            run.answer == Err(SettlementExhaustion) ==>
              && |run.tried| == |run.attempts| == Min(|c|, 3 - RetryCount(counts, t.id))
              && forall k :: 0 <= k < |run.attempts| ==> run.attempts[k].status != Delivered
  {
    hide RouteFrom, Candidates;
    CandidatesAre(preferred, t.quote.corridor.papssEligible, adapters);
    RouteIsRegular(t, counts, Candidates(preferred, t.quote.corridor.papssEligible, adapters), 0, replies);
  }

  /** No count exceeds the budget after a run, and no other transfer's count changes. */
  lemma RouterKeepsBudget(
      t: Transfer, counts: map<string, nat>, adapters: set<SettlementRail>, preferred: SettlementRail,
      replies: nat -> AdapterReply)
    requires t.state == SETTLING && WithinBudget(counts)
    ensures var counts' := Route(t, counts, adapters, preferred, replies).counts;
            && WithinBudget(counts')
            && forall id :: id != t.id ==> RetryCount(counts', id) == RetryCount(counts, id)
  {
    hide RouteFrom, Candidates;
    if preferred in adapters {
      CandidatesAre(preferred, t.quote.corridor.papssEligible, adapters);
      RouteIsRegular(t, counts, Candidates(preferred, t.quote.corridor.papssEligible, adapters), 0, replies);
    }
  }

  /** The first submission goes to the candidate the loop starts with. */
  lemma FirstTriedIsFirstCandidate(
      t: Transfer, counts: map<string, nat>, candidates: seq<SettlementRail>, i: nat, replies: nat -> AdapterReply)
    requires i < |candidates|
    ensures var tried := RouteFrom(t, counts, candidates, i, replies).tried;
            tried != [] && tried[0] == candidates[i]
  {
  }

  // ---------------------------------------------------------------------
  // When the next rail is submitted to
  // ---------------------------------------------------------------------

  /** A report that is not a delivery: the only reply after which the loop goes on. */
  predicate FailsOver(reply: AdapterReply) {
    reply.Reports? && reply.result.status != Delivered
  }

  /** Every reply before the `k`-th one fails over. */
  predicate AllFailOver(replies: nat -> AdapterReply, i: nat, k: nat) {
    forall j :: i <= j < i + k ==> FailsOver(replies(j))
  }

  lemma {:induction false} LoopTriesExactlyWhile(
      t: Transfer, counts: map<string, nat>, candidates: seq<SettlementRail>, i: nat, replies: nat -> AdapterReply,
      k: nat)
    requires i < |candidates| && t.state == SETTLING && RetryCount(counts, t.id) <= MAX_SETTLEMENT_RETRIES
    ensures var run := RouteFrom(t, counts, candidates, i, replies);
            && (k < |run.tried| <==> k < Allowed(counts, t.id, candidates, i) && AllFailOver(replies, i, k))
            && (k < |run.attempts| ==> replies(i + k) == Reports(run.attempts[k]))
    decreases |candidates| - i
  {
    hide AfterFailure;
    RouteUnfolds(t, counts, candidates, i, replies);
    var failed := t.(state := FAILED);
    if FailsOver(replies(i)) && i + 1 < |candidates| {
      GoesOn(failed, counts, candidates, i, replies, replies(i).result);
      if RetryCount(counts, t.id) < MAX_SETTLEMENT_RETRIES && k > 0 {
        LoopTriesExactlyWhile(failed.(state := SETTLING, rail := Some(candidates[i + 1])),
                              counts[t.id := RetryCount(counts, t.id) + 1], candidates, i + 1, replies, k - 1);
        assert AllFailOver(replies, i, k) <==> AllFailOver(replies, i + 1, k - 1);
      }
    } else if !FailsOver(replies(i)) && k > 0 {
      assert !AllFailOver(replies, i, k);
    }
  }

  lemma GoesOn(
      failed: Transfer, counts: map<string, nat>, candidates: seq<SettlementRail>, i: nat,
      replies: nat -> AdapterReply, result: SubmissionResult)
    requires i + 1 < |candidates| && failed.state == FAILED && RetryCount(counts, failed.id) <= MAX_SETTLEMENT_RETRIES
    ensures var run := AfterFailure(failed, counts, candidates, i, replies, result);
            if RetryCount(counts, failed.id) == MAX_SETTLEMENT_RETRIES
            then run.tried == [candidates[i]] && run.attempts == [result]
            else var next := failed.(state := SETTLING, rail := Some(candidates[i + 1]));
                 var granted := counts[failed.id := RetryCount(counts, failed.id) + 1];
                 var rest := RouteFrom(next, granted, candidates, i + 1, replies);
                 run.tried == [candidates[i]] + rest.tried && run.attempts == [result] + rest.attempts
  {
    hide RouteFrom;
  }

  /** The most rails one run may submit to. */
  function Budget(t: Transfer, counts: map<string, nat>, adapters: set<SettlementRail>, preferred: SettlementRail): nat
    requires RetryCount(counts, t.id) <= MAX_SETTLEMENT_RETRIES
  {
    Allowed(counts, t.id, Candidates(preferred, t.quote.corridor.papssEligible, adapters), 0)
  }

  /**
   The exact run: the `k`-th further candidate is submitted to if and only if
   candidates and retries allow it and every reply before it is a report other
   than a delivery.
   */
  lemma TriesExactlyWhile(
      t: Transfer, counts: map<string, nat>, adapters: set<SettlementRail>, preferred: SettlementRail,
      replies: nat -> AdapterReply, k: nat)
    requires t.state == SETTLING && RetryCount(counts, t.id) <= MAX_SETTLEMENT_RETRIES && preferred in adapters
    ensures var run := Route(t, counts, adapters, preferred, replies);
            && (k < |run.tried| <==> k < Budget(t, counts, adapters, preferred) && AllFailOver(replies, 0, k))
            && (k < |run.attempts| ==> replies(k) == Reports(run.attempts[k]))
  {
    hide RouteFrom, Candidates, AllFailOver;
    CandidatesAre(preferred, t.quote.corridor.papssEligible, adapters);
    LoopTriesExactlyWhile(t, counts, Candidates(preferred, t.quote.corridor.papssEligible, adapters), 0, replies, k);
  }

  /** The last reply decides how the loop ends. */
  lemma {:induction false} LastReplyDecides(
      t: Transfer, counts: map<string, nat>, candidates: seq<SettlementRail>, i: nat, replies: nat -> AdapterReply)
    requires i < |candidates| && t.state == SETTLING && RetryCount(counts, t.id) <= MAX_SETTLEMENT_RETRIES
    ensures var run := RouteFrom(t, counts, candidates, i, replies);
            && run.tried != []
            && var last := replies(i + |run.tried| - 1);
               && (run.answer == Err(RouterRaised) <==> last.AdapterRaises?)
               && (run.answer == Err(SettlementExhaustion) <==> FailsOver(last))
               && (run.answer.Ok? <==> last.Reports? && last.result.status == Delivered)
    decreases |candidates| - i
  {
    hide AfterFailure;
    RouteUnfolds(t, counts, candidates, i, replies);
    if FailsOver(replies(i)) && i + 1 < |candidates| {
      var failed := t.(state := FAILED);
      EndsWithRest(failed, counts, candidates, i, replies, replies(i).result);
      if RetryCount(counts, t.id) < MAX_SETTLEMENT_RETRIES {
        LastReplyDecides(failed.(state := SETTLING, rail := Some(candidates[i + 1])),
                         counts[t.id := RetryCount(counts, t.id) + 1], candidates, i + 1, replies);
      }
    }
  }

  lemma EndsWithRest(
      failed: Transfer, counts: map<string, nat>, candidates: seq<SettlementRail>, i: nat,
      replies: nat -> AdapterReply, result: SubmissionResult)
    requires i + 1 < |candidates| && failed.state == FAILED && RetryCount(counts, failed.id) <= MAX_SETTLEMENT_RETRIES
    ensures var run := AfterFailure(failed, counts, candidates, i, replies, result);
            if RetryCount(counts, failed.id) == MAX_SETTLEMENT_RETRIES
            then |run.tried| == 1 && run.answer == Err(SettlementExhaustion)
            else var next := failed.(state := SETTLING, rail := Some(candidates[i + 1]));
                 var granted := counts[failed.id := RetryCount(counts, failed.id) + 1];
                 var rest := RouteFrom(next, granted, candidates, i + 1, replies);
                 |run.tried| == 1 + |rest.tried| && run.answer == rest.answer
  {
    hide RouteFrom;
  }

  /** The adapter of the `k`-th further candidate is reached, and raises. */
  predicate RaisesAt(
      t: Transfer, counts: map<string, nat>, adapters: set<SettlementRail>, preferred: SettlementRail,
      replies: nat -> AdapterReply, k: nat)
    requires RetryCount(counts, t.id) <= MAX_SETTLEMENT_RETRIES
  {
    k < Budget(t, counts, adapters, preferred) && AllFailOver(replies, 0, k) && replies(k).AdapterRaises?
  }

  /** The run ends in an exception exactly when an adapter that is reached raises. */
  lemma RouterRaisesExactlyWhen(
      t: Transfer, counts: map<string, nat>, adapters: set<SettlementRail>, preferred: SettlementRail,
      replies: nat -> AdapterReply)
    requires t.state == SETTLING && RetryCount(counts, t.id) <= MAX_SETTLEMENT_RETRIES && preferred in adapters
    ensures Route(t, counts, adapters, preferred, replies).answer == Err(RouterRaised)
       <==> exists k :: RaisesAt(t, counts, adapters, preferred, replies, k)
  {
    hide RouteFrom, Candidates, Budget;
    var run := Route(t, counts, adapters, preferred, replies);
    CandidatesAre(preferred, t.quote.corridor.papssEligible, adapters);
    LastReplyDecides(t, counts, Candidates(preferred, t.quote.corridor.papssEligible, adapters), 0, replies);
    TriesExactlyWhile(t, counts, adapters, preferred, replies, |run.tried| - 1);
    assert replies(|run.tried| - 1).AdapterRaises? ==>
      RaisesAt(t, counts, adapters, preferred, replies, |run.tried| - 1);
    if k: nat :| RaisesAt(t, counts, adapters, preferred, replies, k) {
      TriesExactlyWhile(t, counts, adapters, preferred, replies, k);
      TriesExactlyWhile(t, counts, adapters, preferred, replies, k + 1);
      assert !FailsOver(replies(k));
    }
  }

  /** The adapter of the `k`-th further candidate is reached, and delivers. */
  predicate DeliversAt(
      t: Transfer, counts: map<string, nat>, adapters: set<SettlementRail>, preferred: SettlementRail,
      replies: nat -> AdapterReply, k: nat)
    requires RetryCount(counts, t.id) <= MAX_SETTLEMENT_RETRIES
  {
    k < Budget(t, counts, adapters, preferred) && AllFailOver(replies, 0, k)
    && replies(k).Reports? && replies(k).result.status == Delivered
  }

  /** The run delivers exactly when an adapter that is reached does. */
  lemma RouterDeliversExactlyWhen(
      t: Transfer, counts: map<string, nat>, adapters: set<SettlementRail>, preferred: SettlementRail,
      replies: nat -> AdapterReply)
    requires t.state == SETTLING && RetryCount(counts, t.id) <= MAX_SETTLEMENT_RETRIES && preferred in adapters
    ensures Route(t, counts, adapters, preferred, replies).answer.Ok?
       <==> exists k :: DeliversAt(t, counts, adapters, preferred, replies, k)
  {
    hide RouteFrom, Candidates, Budget;
    var run := Route(t, counts, adapters, preferred, replies);
    CandidatesAre(preferred, t.quote.corridor.papssEligible, adapters);
    LastReplyDecides(t, counts, Candidates(preferred, t.quote.corridor.papssEligible, adapters), 0, replies);
    TriesExactlyWhile(t, counts, adapters, preferred, replies, |run.tried| - 1);
    assert run.answer.Ok? ==> DeliversAt(t, counts, adapters, preferred, replies, |run.tried| - 1);
    if k: nat :| DeliversAt(t, counts, adapters, preferred, replies, k) {
      TriesExactlyWhile(t, counts, adapters, preferred, replies, k);
      TriesExactlyWhile(t, counts, adapters, preferred, replies, k + 1);
      assert !FailsOver(replies(k));
    }
  }

  /**
   A payment goes to another rail although one has reported that it is still
   settling it, exactly when that report is reached, another candidate is
   left, and the retry budget is not spent.
   */
  lemma ResubmitsWhileSettlingExactlyWhen(
      t: Transfer, counts: map<string, nat>, adapters: set<SettlementRail>, preferred: SettlementRail,
      replies: nat -> AdapterReply, k: nat)
    requires t.state == SETTLING && RetryCount(counts, t.id) <= MAX_SETTLEMENT_RETRIES && preferred in adapters
    ensures var run := Route(t, counts, adapters, preferred, replies);
            k + 1 < |run.tried| && k < |run.attempts| && run.attempts[k].status == Settling
            <==> replies(k).Reports? && replies(k).result.status == Settling && AllFailOver(replies, 0, k)
                 && k + 1 < Budget(t, counts, adapters, preferred)
  {
    hide Route, Budget;
    TriesExactlyWhile(t, counts, adapters, preferred, replies, k);
    TriesExactlyWhile(t, counts, adapters, preferred, replies, k + 1);
    AttemptsFollowTries(t, counts, adapters, preferred, replies);
  }

  lemma AttemptsFollowTries(
      t: Transfer, counts: map<string, nat>, adapters: set<SettlementRail>, preferred: SettlementRail,
      replies: nat -> AdapterReply)
    requires t.state == SETTLING && RetryCount(counts, t.id) <= MAX_SETTLEMENT_RETRIES && preferred in adapters
    ensures var run := Route(t, counts, adapters, preferred, replies); |run.tried| <= |run.attempts| + 1
  {
    hide RouteFrom, Candidates, TriesInOrder, StopsAtDelivery;
    CandidatesAre(preferred, t.quote.corridor.papssEligible, adapters);
    RouteIsRegular(t, counts, Candidates(preferred, t.quote.corridor.papssEligible, adapters), 0, replies);
  }

  /** The first rail reports this status, the next one delivers. */
  function ThenDelivered(first: RailStatus, fee: Money): nat -> AdapterReply {
    n => Reports(SubmissionResult(if n == 0 then RIPPLE else SWIFT, if n == 0 then first else Delivered, fee, 1.0))
  }

  /**
   One input on which it happens, for every such status: the payment is
   submitted to both rails, also if the first one is still settling it and may
   pay it out as well.
   */
  lemma SecondRailPaysToo(t: Transfer, first: RailStatus)
    requires t.state == SETTLING && first != Delivered
    ensures var run := Route(t, map[], {RIPPLE, SWIFT}, RIPPLE, ThenDelivered(first, t.quote.fee));
            && run.tried == [RIPPLE, SWIFT]
            && run.attempts == [SubmissionResult(RIPPLE, first, t.quote.fee, 1.0),
                                SubmissionResult(SWIFT, Delivered, t.quote.fee, 1.0)]
            && run.answer.Ok? && run.answer.value.transfer.rail == Some(SWIFT)
  {
    var papss, adapters, replies := t.quote.corridor.papssEligible, {RIPPLE, SWIFT}, ThenDelivered(first, t.quote.fee);
    var c := Candidates(RIPPLE, papss, adapters);
    TwoCandidates(papss);
    RouteUnfolds(t, map[], c, 0, replies);
    var failed := t.(state := FAILED);
    SecondAttempt(failed, c, replies);
    RouteUnfolds(failed.(state := SETTLING, rail := Some(SWIFT)), map[t.id := 1], c, 1, replies);
  }

  lemma SecondAttempt(failed: Transfer, candidates: seq<SettlementRail>, replies: nat -> AdapterReply)
    requires failed.state == FAILED && candidates == [RIPPLE, SWIFT] && replies(0).Reports?
    ensures var run := AfterFailure(failed, map[], candidates, 0, replies, replies(0).result);
            var rest := RouteFrom(failed.(state := SETTLING, rail := Some(SWIFT)), map[failed.id := 1], candidates, 1,
                                  replies);
            && run.tried == [RIPPLE] + rest.tried && run.attempts == [replies(0).result] + rest.attempts
            && run.answer == rest.answer
  {
    hide RouteFrom;
  }

  lemma TwoCandidates(papssEligible: bool)
    ensures Candidates(RIPPLE, papssEligible, {RIPPLE, SWIFT}) == [RIPPLE, SWIFT]
  {
    hide Alternates, Registered;
    CandidatesAre(RIPPLE, papssEligible, {RIPPLE, SWIFT});
    var c := Candidates(RIPPLE, papssEligible, {RIPPLE, SWIFT});
    assert SWIFT in c;
    var i :| 0 <= i < |c| && c[i] == SWIFT;
    assert c[0] != c[i];
    forall j | 1 <= j < |c| ensures c[j] == SWIFT {
      assert c[j] in c && c[0] != c[j];
    }
    assert c[1] == c[|c| - 1];
  }

  // ---------------------------------------------------------------------
  // What the router does not look at
  // ---------------------------------------------------------------------

  predicate SameUpToStatus(a: AdapterReply, b: AdapterReply) {
    match (a, b)
    case (AdapterRaises, AdapterRaises) => true
    case (Reports(x), Reports(y)) => x == y || (x.status != Delivered && y.status != Delivered)
    case _ => false
  }

  /**
   Every report but a delivery counts as a failure, also one that says the
   settlement is still under way: the same message then goes to another rail.
   */
  lemma {:induction false} OnlyDeliveryMatters(
      t: Transfer, counts: map<string, nat>, candidates: seq<SettlementRail>, i: nat,
      replies: nat -> AdapterReply, others: nat -> AdapterReply)
    requires i < |candidates|
    requires forall n :: SameUpToStatus(replies(n), others(n))
    ensures var run, run' := RouteFrom(t, counts, candidates, i, replies), RouteFrom(t, counts, candidates, i, others);
            run.answer == run'.answer && run.tried == run'.tried && run.states == run'.states
            && run.counts == run'.counts
    decreases |candidates| - i
  {
    hide RetrySettlement, CountsAfterRetry;
    assert SameUpToStatus(replies(i), others(i));
    if replies(i).Reports? && replies(i).result.status != Delivered && i + 1 < |candidates| {
      var failed := t.(state := FAILED);
      if RetrySettlement(counts, failed, candidates[i + 1]).Ok? {
        OnlyDeliveryMatters(RetrySettlement(counts, failed, candidates[i + 1]).value,
                            CountsAfterRetry(counts, failed, candidates[i + 1]), candidates, i + 1, replies, others);
      }
    }
  }

  /** The rails the router may come to try. */
  function Reachable(t: Transfer, counts: map<string, nat>, adapters: set<SettlementRail>, preferred: SettlementRail):
      seq<SettlementRail>
    requires RetryCount(counts, t.id) <= MAX_SETTLEMENT_RETRIES
  {
    var c := Candidates(preferred, t.quote.corridor.papssEligible, adapters);
    c[..Min(|c|, 3 - RetryCount(counts, t.id))]
  }

  predicate Avoids(tried: seq<SettlementRail>, forbidden: seq<SettlementRail>) {
    forall rail :: rail in tried ==> rail !in forbidden
  }

  /**
   The fallback never consults the sentinel's forbidden rails: it keeps off
   them, whatever the adapters do, exactly when no rail it could come to is
   forbidden.
   */
  lemma AvoidsForbiddenExactlyWhen(
      t: Transfer, counts: map<string, nat>, adapters: set<SettlementRail>, preferred: SettlementRail,
      forbidden: seq<SettlementRail>)
    requires t.state == SETTLING && RetryCount(counts, t.id) <= MAX_SETTLEMENT_RETRIES && preferred in adapters
    ensures (forall replies :: Avoids(Route(t, counts, adapters, preferred, replies).tried, forbidden))
       <==> Avoids(Reachable(t, counts, adapters, preferred), forbidden)
  {
    hide RouteFrom, Candidates;
    var c := Candidates(preferred, t.quote.corridor.papssEligible, adapters);
    CandidatesAre(preferred, t.quote.corridor.papssEligible, adapters);
    var reachable := Reachable(t, counts, adapters, preferred);
    forall replies: nat -> AdapterReply
      ensures Route(t, counts, adapters, preferred, replies).tried <= reachable
    {
      RouteIsRegular(t, counts, c, 0, replies);
    }
    var failing := AlwaysFailing(preferred, t.quote.fee);
    RouteIsRegular(t, counts, c, 0, failing);
    FailingIsExhausted(t, counts, c, 0, preferred, t.quote.fee);
    assert Route(t, counts, adapters, preferred, failing).tried == reachable;
    if Avoids(reachable, forbidden) {
      forall replies: nat -> AdapterReply
        ensures Avoids(Route(t, counts, adapters, preferred, replies).tried, forbidden)
      {
        assert Route(t, counts, adapters, preferred, replies).tried <= reachable;
      }
    }
  }

  function AlwaysFailing(rail: SettlementRail, fee: Money): nat -> AdapterReply {
    _ => Reports(SubmissionResult(rail, Failed, fee, 0.0))
  }

  lemma {:induction false} FailingIsExhausted(
      t: Transfer, counts: map<string, nat>, candidates: seq<SettlementRail>, i: nat, rail: SettlementRail, fee: Money)
    requires i < |candidates| && t.state == SETTLING
    ensures RouteFrom(t, counts, candidates, i, AlwaysFailing(rail, fee)).answer == Err(SettlementExhaustion)
    decreases |candidates| - i
  {
    if i + 1 < |candidates| {
      var failed := t.(state := FAILED);
      if RetrySettlement(counts, failed, candidates[i + 1]).Ok? {
        FailingIsExhausted(RetrySettlement(counts, failed, candidates[i + 1]).value,
                           CountsAfterRetry(counts, failed, candidates[i + 1]), candidates, i + 1, rail, fee);
      }
    }
  }

  /** The submission comes before the check of the transfer's state: an adapter is called even for a wrong one. */
  lemma SubmitsBeforeChecking(
      t: Transfer, counts: map<string, nat>, adapters: set<SettlementRail>, preferred: SettlementRail,
      replies: nat -> AdapterReply)
    requires preferred in adapters && t.state != SETTLING
    ensures var run := Route(t, counts, adapters, preferred, replies);
            run.tried == [preferred] && run.answer == Err(RouterRaised) && run.counts == counts
  {
    hide Candidates;
    CandidatesAre(preferred, t.quote.corridor.papssEligible, adapters);
  }

  class RailRouter {
    const adapters: set<SettlementRail>

    constructor (adapters: set<SettlementRail>)
      ensures this.adapters == adapters
    {
      this.adapters := adapters;
    }

    method ExecuteSettlementWithRetry(
        t: Transfer, preferred: SettlementRail, orchestrator: MasterOrchestrator, replies: nat -> AdapterReply)
      returns (answer: Result<Settlement, RouterError>, tried: seq<SettlementRail>, attempts: seq<SubmissionResult>)
      modifies orchestrator
      ensures var run := Route(t, old(orchestrator.retryCounts), adapters, preferred, replies);
              && answer == run.answer && tried == run.tried && attempts == run.attempts
              && orchestrator.retryCounts == run.counts
    {
      hide RouteFrom, Candidates, RetrySettlement;
      attempts := [];
      tried := [];
      if preferred !in adapters {
        return Err(NoAdapter), tried, attempts;
      }
      ghost var run := Route(t, orchestrator.retryCounts, adapters, preferred, replies);
      CandidatesAre(preferred, t.quote.corridor.papssEligible, adapters);
      var candidates := Candidates(preferred, t.quote.corridor.papssEligible, adapters);
      var currentTransfer := t;
      for i := 0 to |candidates|
        invariant i < |candidates| ==>
                    var rest := RouteFrom(currentTransfer, orchestrator.retryCounts, candidates, i, replies);
                    Continues(run, rest, tried, attempts)
        invariant i == |candidates| ==>
                    run.answer == Err(SettlementExhaustion) && tried == run.tried && attempts == run.attempts
                    && orchestrator.retryCounts == run.counts
      {
        tried := tried + [candidates[i]];
        RouteUnfolds(currentTransfer, orchestrator.retryCounts, candidates, i, replies);
        if replies(i).AdapterRaises? {
          return Err(RouterRaised), tried, attempts;
        }
        var result := replies(i).result;
        attempts := attempts + [result];
        if result.status == Delivered {
          var settled := Transition(currentTransfer, DELIVERED);
          if settled.Err? {
            return Err(RouterRaised), tried, attempts;
          }
          return Ok(Settlement(OnDelivery(settled.value, candidates[i], result), result)), tried, attempts;
        }
        var failed := Transition(currentTransfer, FAILED);
        if failed.Err? {
          return Err(RouterRaised), tried, attempts;
        }
        currentTransfer := failed.value;
        if i + 1 < |candidates| {
          var retried := orchestrator.Retry(currentTransfer, candidates[i + 1]);
          if retried == Err(RetryBudgetExceeded) {
            return Err(SettlementExhaustion), tried, attempts;
          }
          if retried.Err? {
            return Err(RouterRaised), tried, attempts;
          }
          currentTransfer := retried.value;
        }
      }
      return Err(SettlementExhaustion), tried, attempts;
    }
  }

  /** The rest of a run, given what has been tried before. */
  predicate Continues(run: Routed, rest: Routed, tried: seq<SettlementRail>, attempts: seq<SubmissionResult>) {
    run.answer == rest.answer && run.tried == tried + rest.tried && run.attempts == attempts + rest.attempts
    && run.counts == rest.counts
  }

  /** One round of the loop. */
  lemma RouteUnfolds(
      t: Transfer, counts: map<string, nat>, candidates: seq<SettlementRail>, i: nat, replies: nat -> AdapterReply)
    requires i < |candidates|
    ensures var run := RouteFrom(t, counts, candidates, i, replies);
            match replies(i)
            case AdapterRaises => run == Routed(Err(RouterRaised), [candidates[i]], [], [], counts)
            case Reports(result) =>
              var next := if result.status == Delivered then DELIVERED else FAILED;
              if Transition(t, next).Err? then run == Routed(Err(RouterRaised), [candidates[i]], [result], [], counts)
              else if next == DELIVERED then
                run == Routed(Ok(Settlement(OnDelivery(t, candidates[i], result), result)),
                              [candidates[i]], [result], [next], counts)
              else if i + 1 == |candidates| then
                run == Routed(Err(SettlementExhaustion), [candidates[i]], [result], [next], counts)
              else run == AfterFailure(t.(state := FAILED), counts, candidates, i, replies, result)
  {
  }
}

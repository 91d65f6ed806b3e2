/**
 The wallet's `send_tx` with its preflight, validation and waiting steps
 (crates/wallet/src/base_wallet.rs), run against an arbitrary environment: every
 answer of the node, the PXE and the account, and every clock reading, is a
 parameter.  The methods return a log of what was observed and sent.
 */
module WalletSend {
  import opened Wrappers
  import opened Polling
  import opened Payloads

  type TxHash = nat

  datatype Tx = Tx(id: nat, hasPublicCalldata: bool)

  datatype ProvenTx = ProvenTx(txHash: Option<TxHash>, tx: Tx, jsonError: Option<Error>)

  /** The answer of `simulatePublicCalls`; whether an error text says "is not deployed" is all that matters of it. */
  datatype Simulation =
    | Passed
    | RevertReason(saysNotDeployed: bool)
    | Failed(error: Error, saysNotDeployed: bool)

  datatype Verdict = Valid | Invalid(headerNotFound: bool) | Skipped

  /** A deadline loop's clock: when the deadline was set, and each reading after that. */
  datatype Clock = Clock(start: nat, reading: nat -> nat)

  datatype Env = Env(
    chainInfo: Option<Error>,
    request: Payload -> Option<Error>,
    prove: Result<ProvenTx, Error>,
    simulate: Simulation,
    verdict: nat -> Result<Verdict, Error>,
    verdictClock: Clock,
    send: Option<Error>,
    startBlock: Result<nat, Error>,
    receipts: Trace<Receipt>,
    tip: nat -> Result<nat, Error>,
    tipClock: Clock,
    nullifierKnown: bool,
    witnessFound: nat -> bool,
    witnessClock: Clock)

  // Durations in milliseconds.
  const VALIDATION_LIMIT: nat := 300_000
  const TIP_LIMIT: nat := 30_000
  const POLL_STEP: nat := 500
  const WITNESS_LIMIT: nat := 15_000
  const WITNESS_STEP: nat := 200

  /** `WaitOpts::default()` with a timeout of 15 seconds. */
  const SUBMISSION_WAIT: WaitOpts := WaitOpts(15_000, 1_000, Checkpointed, false, 5_000)

  ghost predicate TickAt(c: Clock, step: nat, i: nat) { c.reading(i) + step <= c.reading(i + 1) }

  ghost predicate Ticks(c: Clock, step: nat) { c.start <= c.reading(0) && forall i: nat :: TickAt(c, step, i) }

  lemma {:induction false} ClockAdvances(c: Clock, step: nat, i: nat)
    requires Ticks(c, step)
    ensures c.start + i * step <= c.reading(i)
  {
    if i > 0 {
      ClockAdvances(c, step, i - 1);
      assert TickAt(c, step, i - 1);
      assert i * step == (i - 1) * step + step;
    }
  }

  /** Clocks run forward and sleeps last as long as they should. */
  ghost predicate Timely(env: Env) {
    && Monotone(env.receipts, SUBMISSION_WAIT.interval)
    && Ticks(env.verdictClock, POLL_STEP) && Ticks(env.tipClock, POLL_STEP) && Ticks(env.witnessClock, WITNESS_STEP)
  }

  datatype Event =
    | Requested(payload: Payload)
    | Proved(tx: Tx)
    | Preflighted(simulation: Option<Simulation>)
    | Judged(verdict: Verdict)
    | Submitted(tx: Tx)
    | Confirmed(receipt: Receipt)
    | TipSeen(block: nat)

  // ----- Validation -----

  /** `is_anchor_header_validation_lag`. */
  predicate IsHeaderLag(v: Verdict) { v.Invalid? && v.headerNotFound }

  /** Every verdict before number `n` was a missing header, seen before the deadline. */
  ghost predicate LagBefore(env: Env, n: nat) {
    forall i :: 0 <= i < n ==> env.verdict(i) == Ok(Invalid(true)) && !VerdictsOver(env, i)
  }

  ghost predicate VerdictsOver(env: Env, i: nat) {
    env.verdictClock.reading(i) >= env.verdictClock.start + VALIDATION_LIMIT
  }

  /** The verdict the wait ends with: no missing header, or the first one at the deadline. */
  ghost predicate FinalVerdict(env: Env, n: nat) {
    LagBefore(env, n) && (env.verdict(n) != Ok(Invalid(true)) || VerdictsOver(env, n))
  }

  lemma OneFinalVerdict(env: Env, m: nat, n: nat)
    requires FinalVerdict(env, m) && FinalVerdict(env, n)
    ensures m == n
  {
  }

  method ValidateWhenAnchorAvailable(env: Env) returns (r: Result<Verdict, Error>, asked: nat)
    requires Timely(env)
    ensures 1 <= asked <= VALIDATION_LIMIT / POLL_STEP + 1
    ensures r == env.verdict(asked - 1)
    ensures FinalVerdict(env, asked - 1)
  {
    var deadline := env.verdictClock.start + VALIDATION_LIMIT;
    asked := 0;
    while true
      invariant asked <= VALIDATION_LIMIT / POLL_STEP
      invariant LagBefore(env, asked)
      decreases VALIDATION_LIMIT / POLL_STEP - asked
    {
      var i := asked;
      asked := asked + 1;
      r := env.verdict(i);
      if r.Err? || !IsHeaderLag(r.value) {
        return;
      }
      ClockAdvances(env.verdictClock, POLL_STEP, i);
      if env.verdictClock.reading(i) >= deadline {
        return;
      }
    }
  }

  // ----- Preflight -----

  /** A preflight that lets the transaction go on: not needed, passed, or failed in the one way that is ignored. */
  predicate Clears(tx: Tx, s: Option<Simulation>) {
    if !tx.hasPublicCalldata then s.None?
    else s.Some? && match s.value
                    case Passed => true
                    case RevertReason(n) => n
                    case Failed(e, n) => e == InvalidData && n
  }

  /** `simulate_public_calls` followed by `should_ignore_public_preflight_error`. */
  method Preflight(tx: Tx, simulation: Simulation) returns (stop: Option<Error>, seen: Option<Simulation>)
    ensures stop.None? <==> Clears(tx, seen)
    ensures seen == if tx.hasPublicCalldata then Some(simulation) else None
    ensures stop.Some? ==> tx.hasPublicCalldata && !simulation.Passed?
    ensures stop.Some? ==> stop.value == if simulation.Failed? then simulation.error else InvalidData
  {
    if !tx.hasPublicCalldata {
      return None, None;
    }
    seen := Some(simulation);
    var failure: Option<(Error, bool)> :=
      match simulation
      case Passed => None
      case RevertReason(n) => Some((InvalidData, n))
      case Failed(e, n) => Some((e, n));
    if failure.None? || (failure.value.0 == InvalidData && failure.value.1) {
      stop := None;
    } else {
      stop := Some(failure.value.0);
    }
  }

  // ----- After submission -----

  function StartBlock(env: Env): nat { match env.startBlock case Ok(b) => b case Err(_) => 0 }

  /** A block past the tip read after sending; past zero when that read failed. */
  ghost predicate Advanced(env: Env, block: nat) {
    match env.startBlock case Ok(start) => block > start case Err(_) => block > 0
  }

  ghost predicate TipOver(env: Env, i: nat) { env.tipClock.reading(i) >= env.tipClock.start + TIP_LIMIT }

  /** The tip reading the fallback loop ends with: an error, an advance, or the first one at the deadline. */
  ghost predicate TipEndsAt(env: Env, t: nat) {
    && (forall i :: 0 <= i < t ==> env.tip(i).Ok? && !Advanced(env, env.tip(i).value) && !TipOver(env, i))
    && (env.tip(t).Err? || Advanced(env, env.tip(t).value) || TipOver(env, t))
  }

  lemma OneTipEnd(env: Env, s: nat, t: nat)
    requires TipEndsAt(env, s) && TipEndsAt(env, t)
    ensures s == t
  {
  }

  /** The receipt wait ends at poll `n`, and, if it timed out, the tip loop at reading `t`. */
  ghost predicate Ending(env: Env, n: nat, t: nat) {
    && EndsAt(SUBMISSION_WAIT, env.receipts, n)
    && (OutcomeAt(SUBMISSION_WAIT, env.receipts, n) == Err(Timeout) ==> TipEndsAt(env, t))
  }

  /**
   How a submitted transaction fares: a receipt decides where there is one, a fatal
   one included; only a wait without any conclusive receipt falls back on the tip.
   */
  ghost function Fate(env: Env, n: nat, t: nat): Result<Event, Error> {
    match OutcomeAt(SUBMISSION_WAIT, env.receipts, n)
    case Ok(receipt) => Ok(Confirmed(receipt))
    case Err(Timeout) =>
      (match env.tip(t)
       case Err(e) => Err(e)
       case Ok(block) => if Advanced(env, block) then Ok(TipSeen(block)) else Err(Timeout))
    case Err(e) => Err(e)
  }

  /** The run ends well: with a receipt or with an advanced tip. */
  ghost predicate Lands(env: Env) {
    exists n: nat, t: nat :: Ending(env, n, t) && Fate(env, n, t).Ok?
  }

  lemma OneFate(env: Env, n: nat, t: nat, n': nat, t': nat)
    requires Ending(env, n, t) && Ending(env, n', t')
    ensures Fate(env, n, t) == Fate(env, n', t')
  {
    OneEnd(SUBMISSION_WAIT, env.receipts, n, n');
    if OutcomeAt(SUBMISSION_WAIT, env.receipts, n) == Err(Timeout) {
      OneTipEnd(env, t, t');
    }
  }

  /** A receipt of the run that is mined past the checkpoint and not reverted. */
  ghost predicate ReceiptEvidence(env: Env, e: Event) {
    && e.Confirmed? && e.receipt.status in {Checkpointed, Proven, Finalized} && !HasReverted(e.receipt)
    && exists i: nat :: env.receipts.poll(i) == Ok(e.receipt)
  }

  /** A tip of the run past the one read after sending, after a wait without a conclusive receipt. */
  ghost predicate TipEvidence(env: Env, e: Event) {
    && e.TipSeen? && Advanced(env, e.block) && (exists i: nat :: env.tip(i) == Ok(e.block))
    && exists n: nat ::
         && (forall i: nat :: i <= n ==> Inconclusive(SUBMISSION_WAIT, env.receipts, i))
         && OutOfTime(SUBMISSION_WAIT, env.receipts, n)
  }

  /** Whatever ends a run well is evidence of inclusion or of progress. */
  lemma FateIsEvidence(env: Env, n: nat, t: nat)
    requires Ending(env, n, t) && Fate(env, n, t).Ok?
    ensures var e := Fate(env, n, t).value; ReceiptEvidence(env, e) || TipEvidence(env, e)
  {
    match OutcomeAt(SUBMISSION_WAIT, env.receipts, n) {
      case Ok(receipt) =>
        AcceptedReceipt(SUBMISSION_WAIT, receipt);
        assert env.receipts.poll(n) == Ok(receipt);
      case Err(_) =>
        assert env.tip(t).Ok?;
    }
  }

  /** The fallback loop: wait for the tip to pass the block read after sending. */
  method WaitForTip(env: Env) returns (seen: Result<nat, Error>, polls: nat)
    requires Timely(env)
    ensures 1 <= polls <= TIP_LIMIT / POLL_STEP + 1
    ensures TipEndsAt(env, polls - 1)
    ensures seen == match env.tip(polls - 1)
                    case Err(e) => Err(e)
                    case Ok(block) => if Advanced(env, block) then Ok(block) else Err(Timeout)
  {
    var deadline := env.tipClock.start + TIP_LIMIT;
    polls := 0;
    while true
      invariant polls <= TIP_LIMIT / POLL_STEP
      invariant forall i :: 0 <= i < polls ==> env.tip(i).Ok? && !Advanced(env, env.tip(i).value) && !TipOver(env, i)
      decreases TIP_LIMIT / POLL_STEP - polls
    {
      var i := polls;
      polls := polls + 1;
      // The receipt fetched here is only logged.
      var current := env.tip(i);
      if current.Err? {
        return Err(current.error), polls;
      }
      if current.value > StartBlock(env) {
        return Ok(current.value), polls;
      }
      ClockAdvances(env.tipClock, POLL_STEP, i);
      if env.tipClock.reading(i) >= deadline {
        return Err(Timeout), polls;
      }
    }
  }

  /** `wait_for_world_state`: probes for the transaction's nullifier, and never fails the send. */
  method WaitForWorldState(env: Env) returns (probes: nat)
    requires Timely(env)
    ensures probes <= WITNESS_LIMIT / WITNESS_STEP + 1
    ensures probes == 0 <==> !env.nullifierKnown
    ensures forall i :: 0 <= i < probes - 1 ==> !env.witnessFound(i)
    ensures probes > 0 ==> env.witnessFound(probes - 1)
                           || env.witnessClock.reading(probes - 1) >= env.witnessClock.start + WITNESS_LIMIT
  {
    probes := 0;
    if !env.nullifierKnown {
      return;
    }
    var deadline := env.witnessClock.start + WITNESS_LIMIT;
    while true
      invariant probes <= WITNESS_LIMIT / WITNESS_STEP
      invariant forall i :: 0 <= i < probes ==> !env.witnessFound(i)
      decreases WITNESS_LIMIT / WITNESS_STEP - probes
    {
      var i := probes;
      probes := probes + 1;
      if env.witnessFound(i) {
        return;
      }
      ClockAdvances(env.witnessClock, WITNESS_STEP, i);
      if env.witnessClock.reading(i) >= deadline {
        return;
      }
    }
  }

  method WaitForSubmissionCheckpoint(env: Env) returns (r: Result<Event, Error>)
    requires Timely(env)
    ensures exists n: nat, t: nat :: Ending(env, n, t) && r == Fate(env, n, t)
    ensures forall n: nat, t: nat :: Ending(env, n, t) ==> r == Fate(env, n, t)
  {
    ExpiresInTime(env.receipts, SUBMISSION_WAIT.timeout, SUBMISSION_WAIT.interval);
    var waited, polls := WaitForTx(env.receipts, SUBMISSION_WAIT,
                                   MaxPolls(SUBMISSION_WAIT.timeout, SUBMISSION_WAIT.interval) - 1);
    ghost var n: nat, t: nat := polls - 1, 0;
    match waited {
      case Ok(receipt) =>
        r := Ok(Confirmed(receipt));
      case Err(e) =>
        if e != Timeout && e != InvalidData {
          FateIs(env, n, t, Err(e));
          return Err(e);
        }
        var tip, polled := WaitForTip(env);
        t := polled - 1;
        if tip.Err? {
          FateIs(env, n, t, Err(tip.error));
          return Err(tip.error);
        }
        r := Ok(TipSeen(tip.value));
    }
    FateIs(env, n, t, r);
    var _ := WaitForWorldState(env);
  }

  lemma FateIs(env: Env, n: nat, t: nat, r: Result<Event, Error>)
    requires Ending(env, n, t) && r == Fate(env, n, t)
    ensures forall n': nat, t': nat :: Ending(env, n', t') ==> r == Fate(env, n', t')
  {
    forall n': nat, t': nat | Ending(env, n', t') ensures r == Fate(env, n', t') {
      OneFate(env, n, t, n', t');
    }
  }

  // ----- send_tx -----

  function Submissions(log: seq<Event>): seq<Tx> {
    if log == [] then []
    else Submissions(log[..|log| - 1]) + match log[|log| - 1] case Submitted(tx) => [tx] case _ => []
  }

  lemma {:induction false} SubmissionsAppend(xs: seq<Event>, ys: seq<Event>)
    ensures Submissions(xs + ys) == Submissions(xs) + Submissions(ys)
  {
    if ys == [] {
      assert xs + ys == xs;
    } else {
      SubmissionsAppend(xs, ys[..|ys| - 1]);
      assert (xs + ys)[..|xs + ys| - 1] == xs + ys[..|ys| - 1];
    }
  }

  lemma {:induction false} NoSubmissions(log: seq<Event>)
    requires forall e :: e in log ==> !e.Submitted?
    ensures Submissions(log) == []
  {
    if log != [] {
      NoSubmissions(log[..|log| - 1]);
    }
  }

  /** What must have happened, in this order and right before, for a transaction to be handed to the node. */
  ghost predicate Authorised(env: Env, payload: Payload, log: seq<Event>, tx: Tx) {
    && |log| == 4
    && log[0] == Requested(payload) && env.request(payload).None? && env.chainInfo.None?
    && log[1] == Proved(tx) && env.prove.Ok? && env.prove.value.tx == tx && env.prove.value.txHash.Some?
    && log[2] == Preflighted(SimulationSeen(env, tx)) && Clears(tx, SimulationSeen(env, tx))
    && log[3].Judged? && (log[3].verdict == Valid || log[3].verdict == Skipped)
    && exists n: nat :: FinalVerdict(env, n) && env.verdict(n) == Ok(log[3].verdict)
  }

  function SimulationSeen(env: Env, tx: Tx): Option<Simulation> {
    if tx.hasPublicCalldata then Some(env.simulate) else None
  }

  /** Why a run ends without a submission. */
  ghost predicate Refused(env: Env, payload: Payload) {
    || env.chainInfo.Some? || env.request(payload).Some?
    || env.prove.Err? || env.prove.value.txHash.None? || env.prove.value.jsonError.Some?
    || !Clears(env.prove.value.tx, SimulationSeen(env, env.prove.value.tx))
    || exists n: nat :: FinalVerdict(env, n) && (env.verdict(n).Err? || env.verdict(n).value.Invalid?)
  }

  /** The log of a complete run: an authorised prefix, at most one submission, then evidence. */
  ghost predicate SafeRun(env: Env, payload: Payload, log: seq<Event>) {
    || Submissions(log) == []
    || (&& |log| >= 5 && env.prove.Ok?
        && Authorised(env, payload, log[..4], env.prove.value.tx)
        && log[4] == Submitted(env.prove.value.tx)
        && Submissions(log) == [env.prove.value.tx])
  }

  /** `send_tx` up to the point where the transaction may be handed to the node. */
  method Authorise(env: Env, payload: Payload) returns (r: Result<ProvenTx, Error>, log: seq<Event>)
    requires Timely(env)
    ensures forall e :: e in log ==> !e.Submitted?
    ensures r.Ok? ==> env.prove == Ok(r.value) && r.value.jsonError.None? && Authorised(env, payload, log, r.value.tx)
    ensures r.Err? <==> Refused(env, payload)
  {
    log := [];
    if env.chainInfo.Some? {
      return Err(env.chainInfo.value), log;
    }
    log := [Requested(payload)];
    if env.request(payload).Some? {
      return Err(env.request(payload).value), log;
    }
    if env.prove.Err? {
      return Err(env.prove.error), log;
    }
    var proven := env.prove.value;
    if proven.txHash.None? {
      return Err(InvalidData), log;
    }
    if proven.jsonError.Some? {
      return Err(proven.jsonError.value), log;
    }
    var stop, seen := Preflight(proven.tx, env.simulate);
    log := [Requested(payload), Proved(proven.tx), Preflighted(seen)];
    if stop.Some? {
      return Err(stop.value), log;
    }
    var verdict, asked := ValidateWhenAnchorAvailable(env);
    if verdict.Err? {
      return Err(verdict.error), log;
    }
    log := [Requested(payload), Proved(proven.tx), Preflighted(seen), Judged(verdict.value)];
    if verdict.value.Invalid? {
      return Err(InvalidData), log;
    }
    ghost var n := asked - 1;
    forall k: nat | FinalVerdict(env, k) ensures k == n {
      OneFinalVerdict(env, k, n);
    }
    r := Ok(proven);
  }

  method SendTx(env: Env, exec: Payload, witnesses: seq<AuthWitness>, capsules: seq<Capsule>, fee: Option<Payload>)
    returns (r: Result<TxHash, Error>, log: seq<Event>)
    requires Timely(env)
    // In every run the node is handed the transaction at most once, and only when authorised.
    ensures SafeRun(env, WalletPayload(exec, witnesses, capsules, fee), log)
    // Nothing is sent exactly when something on the way refused.
    ensures Submissions(log) == [] <==> Refused(env, WalletPayload(exec, witnesses, capsules, fee))
    ensures Submissions(log) == [] ==> r.Err?
    // Success is exactly a submission the node took that then lands.
    ensures r.Ok? <==>
              !Refused(env, WalletPayload(exec, witnesses, capsules, fee)) && env.send.None? && Lands(env)
    // It carries the proven hash and evidence of inclusion or progress.
    ensures r.Ok? ==>
              && env.prove.Ok? && env.prove.value.txHash == Some(r.value)
              && Submissions(log) == [env.prove.value.tx] && env.send.None?
              && |log| == 6 && (ReceiptEvidence(env, log[5]) || TipEvidence(env, log[5]))
    // A node that refuses the submission ends the run with its own error.
    ensures Submissions(log) != [] && env.send.Some? ==> r == Err(env.send.value)
    // A submission that does not land ends the run with the error it met.
    ensures Submissions(log) != [] && env.send.None? && r.Err? ==>
              exists n: nat, t: nat :: Ending(env, n, t) && Fate(env, n, t) == Err(r.error)
  {
    var payload := WalletPayload(exec, witnesses, capsules, fee);
    var ready, before := Authorise(env, payload);
    NoSubmissions(before);
    if ready.Err? {
      return Err(ready.error), before;
    }
    log := before + [Submitted(ready.value.tx)];
    OneSubmission(before, ready.value.tx, []);
    assert log[..4] == before;
    if env.send.Some? {
      return Err(env.send.value), log;
    }
    var landed := WaitForSubmissionCheckpoint(env);
    if landed.Err? {
      return Err(landed.error), log;
    }
    ghost var n: nat, t: nat :| Ending(env, n, t) && landed == Fate(env, n, t);
    FateIsEvidence(env, n, t);
    OneSubmission(before, ready.value.tx, [landed.value]);
    log := log + [landed.value];
    assert log[..4] == before;
    r := Ok(ready.value.txHash.value);
  }

  lemma OneSubmission(before: seq<Event>, tx: Tx, rest: seq<Event>)
    requires Submissions(before) == [] && forall e :: e in rest ==> !e.Submitted?
    ensures Submissions(before + [Submitted(tx)]) == [tx]
    ensures Submissions(before + [Submitted(tx)] + rest) == [tx]
  {
    assert (before + [Submitted(tx)])[..|before|] == before;
    SubmissionsAppend(before + [Submitted(tx)], rest);
    NoSubmissions(rest);
  }

  /** Seen from any place in the log of a safe run: a submission is unique and a permission stands right before it. */
  lemma SubmissionIsGuarded(env: Env, payload: Payload, log: seq<Event>, i: nat)
    requires SafeRun(env, payload, log) && i < |log| && log[i].Submitted?
    ensures i == 4 && log[3].Judged? && log[3].verdict != Invalid(true) && log[3].verdict != Invalid(false)
    ensures env.prove.Ok? && log[i] == Submitted(env.prove.value.tx)
    ensures forall j :: 0 <= j < |log| && log[j].Submitted? ==> j == i
  {
    assert log == log[..i] + [log[i]] + log[i + 1..];
    CountsAt(log, i);
    forall j | 0 <= j < |log| && log[j].Submitted? ensures j == 4 {
      TwoSubmissions(log, j);
    }
  }

  lemma {:induction false} CountsAt(log: seq<Event>, i: nat)
    requires i < |log| && log[i].Submitted?
    ensures |Submissions(log)| >= 1
  {
    if i < |log| - 1 {
      CountsAt(log[..|log| - 1], i);
    }
  }

  lemma {:induction false} TwoSubmissions(log: seq<Event>, j: nat)
    requires |log| >= 5 && log[4].Submitted? && j < |log| && log[j].Submitted? && |Submissions(log)| <= 1
    ensures j == 4
  {
    var a, b := if j < 4 then j else 4, if j < 4 then 4 else j;
    if a < b {
      assert log == log[..b] + log[b..];
      SubmissionsAppend(log[..b], log[b..]);
      CountsAt(log[..b], a);
      CountsAt(log[b..], 0);
    }
  }
}

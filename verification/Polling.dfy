/**
 The polling helpers of the node client (crates/node-client/src/node.rs), run
 against an arbitrary node and an arbitrary monotone clock.
 */
module Polling {
  import opened Wrappers

  datatype TxStatus = Dropped | Pending | Proposed | Checkpointed | Proven | Finalized

  datatype ExecutionResult = Success | AppLogicReverted | TeardownReverted | BothReverted

  datatype Receipt = Receipt(status: TxStatus, execution: Option<ExecutionResult>, blockNumber: Option<nat>)

  /** The error kinds of the crate; messages are not modelled. */
  datatype Error = Transport | Json | Abi | InvalidData | Rpc | Reverted | Timeout

  predicate IsDropped(r: Receipt) { r.status == Dropped }

  predicate HasReverted(r: Receipt) { r.execution.Some? && r.execution.value != Success }

  function StatusOrdinal(s: TxStatus): nat {
    match s
    case Dropped => 0
    case Pending => 1
    case Proposed => 2
    case Checkpointed => 3
    case Proven => 4
    case Finalized => 5
  }

  predicate StatusReached(s: TxStatus, target: TxStatus) { StatusOrdinal(s) >= StatusOrdinal(target) }

  datatype WaitOpts = WaitOpts(
    timeout: nat,
    interval: nat,
    waitForStatus: TxStatus,
    dontThrowOnRevert: bool,
    ignoreDroppedFor: nat)

  /**
   One run of a polling loop: the time it starts, the node's answer to each poll,
   and two clock readings per poll, one taken while the answer is examined and one
   for the deadline test that ends the iteration.
   */
  datatype Trace<!T> = Trace(start: nat, poll: nat -> Result<T, Error>, seen: nat -> nat, checked: nat -> nat)

  /** Time never runs backwards, and a sleep lasts at least the interval. */
  ghost predicate Monotone<T>(tr: Trace<T>, interval: nat) {
    tr.start <= tr.seen(0) && forall i: nat :: StepAt(tr, interval, i)
  }

  ghost predicate StepAt<T>(tr: Trace<T>, interval: nat, i: nat) {
    tr.seen(i) <= tr.checked(i) && tr.checked(i) + interval <= tr.seen(i + 1)
  }

  /** The deadline test `now + interval >= deadline`. */
  predicate Expired(time: nat, interval: nat, deadline: nat) { time + interval >= deadline }

  /** After `i` polls at least `i` intervals have passed. */
  lemma {:induction false} TimePasses<T>(tr: Trace<T>, interval: nat, i: nat)
    requires Monotone(tr, interval)
    ensures tr.start + i * interval <= tr.seen(i) <= tr.checked(i)
  {
    assert StepAt(tr, interval, i);
    if i > 0 {
      TimePasses(tr, interval, i - 1);
      assert StepAt(tr, interval, i - 1);
      assert i * interval == (i - 1) * interval + interval;
    }
  }

  /** The most polls a positive interval allows: one, or as many as fit the timeout, rounded up. */
  function MaxPolls(timeout: nat, interval: nat): (n: nat)
    requires interval > 0
    ensures n >= 1
    ensures n == 1 || (n - 1) * interval < timeout <= n * interval
  {
    var q := (timeout + interval - 1) / interval;
    CeilingBounds(timeout, interval);
    if q <= 1 then 1 else q
  }

  lemma CeilingBounds(timeout: nat, interval: nat)
    requires interval > 0
    ensures var q := (timeout + interval - 1) / interval; (q - 1) * interval < timeout <= q * interval || timeout == 0
  {
    var a := timeout + interval - 1;
    var q, r := a / interval, a % interval;
    assert a == q * interval + r;
    assert (q - 1) * interval == q * interval - interval;
  }

  /** With a positive interval some deadline test fails within that bound, on every clock. */
  lemma ExpiresInTime<T>(tr: Trace<T>, timeout: nat, interval: nat)
    requires interval > 0 && Monotone(tr, interval)
    ensures Expired(tr.checked(MaxPolls(timeout, interval) - 1), interval, tr.start + timeout)
  {
    var n := MaxPolls(timeout, interval);
    TimePasses(tr, interval, n - 1);
    assert n * interval == (n - 1) * interval + interval;
    MaxPollsCovers(timeout, interval);
  }

  lemma MaxPollsCovers(timeout: nat, interval: nat)
    requires interval > 0
    ensures timeout <= MaxPolls(timeout, interval) * interval
  {
    CeilingBounds(timeout, interval);
  }

  // ----- wait_for_tx -----

  /** A receipt the caller can be given. */
  predicate Acceptable(opts: WaitOpts, r: Receipt) {
    && !IsDropped(r) && StatusReached(r.status, opts.waitForStatus)
    && (HasReverted(r) ==> opts.dontThrowOnRevert)
  }

  /** A receipt that ends the wait with an error. */
  predicate Fatal(opts: WaitOpts, tr: Trace<Receipt>, i: nat, r: Receipt) {
    if IsDropped(r) then tr.seen(i) - tr.start >= opts.ignoreDroppedFor
    else HasReverted(r) && !opts.dontThrowOnRevert
  }

  /** A poll after which waiting goes on, the deadline permitting. */
  predicate Inconclusive(opts: WaitOpts, tr: Trace<Receipt>, i: nat) {
    match tr.poll(i)
    case Err(_) => true
    case Ok(r) => !Acceptable(opts, r) && !Fatal(opts, tr, i, r)
  }

  /** The poll the wait ends with: the first that is conclusive or finds no time for another. */
  ghost predicate EndsAt(opts: WaitOpts, tr: Trace<Receipt>, n: nat) {
    && (forall i :: 0 <= i < n ==> Inconclusive(opts, tr, i) && !OutOfTime(opts, tr, i))
    && (!Inconclusive(opts, tr, n) || OutOfTime(opts, tr, n))
  }

  /** Sleeping once more after poll `i` would reach the deadline. */
  ghost predicate OutOfTime(opts: WaitOpts, tr: Trace<Receipt>, i: nat) {
    tr.checked(i) + opts.interval >= tr.start + opts.timeout
  }

  lemma OneEnd(opts: WaitOpts, tr: Trace<Receipt>, m: nat, n: nat)
    requires EndsAt(opts, tr, m) && EndsAt(opts, tr, n)
    ensures m == n
  {
  }

  /** What the wait returns when it ends at poll `n`. */
  ghost function OutcomeAt(opts: WaitOpts, tr: Trace<Receipt>, n: nat): Result<Receipt, Error> {
    if tr.poll(n).Ok? && Acceptable(opts, tr.poll(n).value) then Ok(tr.poll(n).value)
    else if tr.poll(n).Ok? && Fatal(opts, tr, n, tr.poll(n).value) then Err(Reverted)
    else Err(Timeout)
  }

  method WaitForTx(tr: Trace<Receipt>, opts: WaitOpts, ghost horizon: nat)
    returns (result: Result<Receipt, Error>, polls: nat)
    requires Monotone(tr, opts.interval)
    // The clock reaches the deadline at some point; a positive interval guarantees it.
    requires Expired(tr.checked(horizon), opts.interval, tr.start + opts.timeout)
    ensures 1 <= polls <= horizon + 1
    ensures EndsAt(opts, tr, polls - 1) && result == OutcomeAt(opts, tr, polls - 1)
  {
    var deadline := tr.start + opts.timeout;
    polls := 0;
    while true
      invariant polls <= horizon
      invariant forall i :: 0 <= i < polls ==> Inconclusive(opts, tr, i) && !OutOfTime(opts, tr, i)
      decreases horizon - polls
    {
      var i := polls;
      polls := polls + 1;
      assert StepAt(tr, opts.interval, i);
      match tr.poll(i) {
        case Ok(receipt) =>
          if IsDropped(receipt) {
            if tr.seen(i) - tr.start >= opts.ignoreDroppedFor {
              return Err(Reverted), polls;
            }
          } else {
            if HasReverted(receipt) && !opts.dontThrowOnRevert {
              return Err(Reverted), polls;
            }
            if StatusReached(receipt.status, opts.waitForStatus) {
              return Ok(receipt), polls;
            }
          }
        case Err(_) =>
          if Expired(tr.seen(i), opts.interval, deadline) {
            return Err(Timeout), polls;
          }
      }
      if Expired(tr.checked(i), opts.interval, deadline) {
        return Err(Timeout), polls;
      }
    }
  }

  /** With a positive interval the number of polls is bounded by the options alone. */
  method WaitForTxBounded(tr: Trace<Receipt>, opts: WaitOpts) returns (result: Result<Receipt, Error>, polls: nat)
    requires Monotone(tr, opts.interval) && opts.interval > 0
    ensures 1 <= polls <= MaxPolls(opts.timeout, opts.interval)
    ensures result.Ok? ==> FirstAcceptable(opts, tr, polls - 1) && tr.poll(polls - 1) == Ok(result.value)
    ensures result.Err? ==> result.error == Reverted || result.error == Timeout
    ensures EndsAt(opts, tr, polls - 1) && result == OutcomeAt(opts, tr, polls - 1)
  {
    ExpiresInTime(tr, opts.timeout, opts.interval);
    result, polls := WaitForTx(tr, opts, MaxPolls(opts.timeout, opts.interval) - 1);
    forall i: nat | i < polls - 1 ensures tr.poll(i).Err? || !Acceptable(opts, tr.poll(i).value) {
      assert Inconclusive(opts, tr, i);
    }
  }

  /** Poll `n` brought the first acceptable receipt. */
  ghost predicate FirstAcceptable(opts: WaitOpts, tr: Trace<Receipt>, n: nat) {
    && tr.poll(n).Ok? && Acceptable(opts, tr.poll(n).value)
    && forall i: nat :: i < n ==> tr.poll(i).Err? || !Acceptable(opts, tr.poll(i).value)
  }

  /** The statuses at or past each target. */
  lemma StatusesReached(s: TxStatus)
    ensures StatusReached(s, Dropped)
    ensures StatusReached(s, Pending) <==> s in {Pending, Proposed, Checkpointed, Proven, Finalized}
    ensures StatusReached(s, Proposed) <==> s in {Proposed, Checkpointed, Proven, Finalized}
    ensures StatusReached(s, Checkpointed) <==> s in {Checkpointed, Proven, Finalized}
    ensures StatusReached(s, Proven) <==> s in {Proven, Finalized}
    ensures StatusReached(s, Finalized) <==> s == Finalized
  {
  }

  /** Exactly the receipts a wait with the default target accepts. */
  lemma AcceptedReceipt(opts: WaitOpts, r: Receipt)
    requires opts.waitForStatus == Checkpointed && !opts.dontThrowOnRevert
    ensures Acceptable(opts, r) <==>
              r.status in {Checkpointed, Proven, Finalized} && (r.execution == None || r.execution == Some(Success))
  {
  }

  /** A dropped receipt is never returned, even when the caller waits for that very status. */
  lemma DroppedIsNeverReturned(opts: WaitOpts, r: Receipt)
    requires r.status == Dropped
    ensures StatusReached(r.status, Dropped) && !Acceptable(opts, r)
  {
  }

  // ----- wait_for_proven -----

  method WaitForProven(receipt: Receipt, tr: Trace<nat>, timeout: nat, interval: nat, ghost horizon: nat)
    returns (result: Result<nat, Error>, polls: nat)
    requires Monotone(tr, interval)
    requires Expired(tr.checked(horizon), interval, tr.start + timeout)
    ensures polls <= horizon + 1
    ensures receipt.blockNumber.None? <==> result == Err(InvalidData)
    ensures receipt.blockNumber.None? <==> polls == 0
    ensures receipt.blockNumber.Some? ==>
              forall i :: 0 <= i < polls - 1 ==>
                && (tr.poll(i).Ok? ==> tr.poll(i).value < receipt.blockNumber.value)
                && tr.checked(i) + interval < tr.start + timeout
    ensures result.Ok? ==>
              tr.poll(polls - 1) == Ok(result.value) && receipt.blockNumber.Some?
              && result.value >= receipt.blockNumber.value
    ensures result.Err? && receipt.blockNumber.Some? ==>
              && result.error == Timeout
              && (tr.poll(polls - 1).Ok? ==> tr.poll(polls - 1).value < receipt.blockNumber.value)
              && tr.checked(polls - 1) + interval >= tr.start + timeout
  {
    polls := 0;
    if receipt.blockNumber.None? {
      return Err(InvalidData), polls;
    }
    var block := receipt.blockNumber.value;
    var deadline := tr.start + timeout;
    while true
      invariant polls <= horizon
      invariant forall i :: 0 <= i < polls ==>
                  && (tr.poll(i).Ok? ==> tr.poll(i).value < block)
                  && !Expired(tr.checked(i), interval, deadline)
      decreases horizon - polls
    {
      var i := polls;
      polls := polls + 1;
      assert StepAt(tr, interval, i);
      match tr.poll(i) {
        case Ok(proven) =>
          if proven >= block {
            return Ok(proven), polls;
          }
        case Err(_) =>
          if Expired(tr.seen(i), interval, deadline) {
            return Err(Timeout), polls;
          }
      }
      if Expired(tr.checked(i), interval, deadline) {
        return Err(Timeout), polls;
      }
    }
  }
}

/**
 Execution payloads and the ways they are merged (crates/core/src/tx.rs,
 crates/contract/src/contract.rs, crates/wallet/src/base_wallet.rs).
 */
module Payloads {
  import opened Wrappers
  import opened Fields

  datatype FunctionCall = FunctionCall(to: AztecAddress, selector: int, args: seq<Fr>)
  datatype AuthWitness = AuthWitness(fields: seq<Fr>)
  datatype Capsule = Capsule(contractAddress: AztecAddress, storageSlot: Fr, data: seq<Fr>)
  datatype HashedValues = HashedValues(values: seq<Fr>, hash: Fr)

  datatype Payload = Payload(
    calls: seq<FunctionCall>,
    authWitnesses: seq<AuthWitness>,
    capsules: seq<Capsule>,
    extraHashedArgs: seq<HashedValues>,
    feePayer: Option<AztecAddress>)

  datatype MergeError = ConflictingFeePayers(existing: AztecAddress, payer: AztecAddress)

  const EMPTY: Payload := Payload([], [], [], [], None)

  /** Lists appended in order; a payer stated by the second payload wins. */
  function Combine(a: Payload, b: Payload): Payload {
    Payload(a.calls + b.calls, a.authWitnesses + b.authWitnesses, a.capsules + b.capsules,
            a.extraHashedArgs + b.extraHashedArgs, if b.feePayer.Some? then b.feePayer else a.feePayer)
  }

  /** `BatchCall::request`. */
  function Batch(ps: seq<Payload>): Payload {
    if ps == [] then EMPTY else Combine(Batch(ps[..|ps| - 1]), ps[|ps| - 1])
  }

  predicate Conflict(a: Payload, b: Payload) {
    a.feePayer.Some? && b.feePayer.Some? && a.feePayer != b.feePayer
  }

  /** `ExecutionPayload::merge`: like a batch, but two different stated payers are an error. */
  function Merge(ps: seq<Payload>): Result<Payload, MergeError> {
    if ps == [] then Ok(EMPTY)
    else
      var last := ps[|ps| - 1];
      match Merge(ps[..|ps| - 1])
      case Err(e) => Err(e)
      case Ok(m) =>
        if Conflict(m, last) then Err(ConflictingFeePayers(m.feePayer.value, last.feePayer.value))
        else Ok(Combine(m, last))
  }

  method MergePayloads(payloads: seq<Payload>) returns (r: Result<Payload, MergeError>)
    ensures r == Merge(payloads)
  {
    var calls: seq<FunctionCall> := [];
    var authWitnesses: seq<AuthWitness> := [];
    var capsules: seq<Capsule> := [];
    var extraHashedArgs: seq<HashedValues> := [];
    var feePayer: Option<AztecAddress> := None;
    for i := 0 to |payloads|
      invariant Merge(payloads[..i]) == Ok(Payload(calls, authWitnesses, capsules, extraHashedArgs, feePayer))
    {
      var payload := payloads[i];
      assert payloads[..i + 1][..i] == payloads[..i];
      calls := calls + payload.calls;
      authWitnesses := authWitnesses + payload.authWitnesses;
      capsules := capsules + payload.capsules;
      extraHashedArgs := extraHashedArgs + payload.extraHashedArgs;
      if payload.feePayer.Some? {
        if feePayer.Some? && feePayer.value != payload.feePayer.value {
          r := Err(ConflictingFeePayers(feePayer.value, payload.feePayer.value));
          ErrorPersists(payloads, i + 1);
          return;
        }
        feePayer := payload.feePayer;
      }
    }
    assert payloads[..|payloads|] == payloads;
    r := Ok(Payload(calls, authWitnesses, capsules, extraHashedArgs, feePayer));
  }

  method BatchRequest(payloads: seq<Payload>) returns (merged: Payload)
    ensures merged == Batch(payloads)
  {
    merged := EMPTY;
    for i := 0 to |payloads|
      invariant merged == Batch(payloads[..i])
    {
      var p := payloads[i];
      assert payloads[..i + 1][..i] == payloads[..i];
      merged := merged.(
        calls := merged.calls + p.calls,
        authWitnesses := merged.authWitnesses + p.authWitnesses,
        capsules := merged.capsules + p.capsules,
        extraHashedArgs := merged.extraHashedArgs + p.extraHashedArgs);
      if p.feePayer.Some? {
        merged := merged.(feePayer := p.feePayer);
      }
    }
    assert payloads[..|payloads|] == payloads;
  }

  // ----- When merging succeeds -----

  /** All stated payers are the same. */
  ghost predicate PayersAgree(ps: seq<Payload>) {
    forall i, j :: 0 <= i < |ps| && 0 <= j < |ps| && ps[i].feePayer.Some? && ps[j].feePayer.Some?
      ==> ps[i].feePayer == ps[j].feePayer
  }

  /** The payer a batch ends with: the last one stated. */
  lemma {:induction false} BatchPayer(ps: seq<Payload>) returns (last: int)
    ensures -1 <= last < |ps|
    ensures forall i :: last < i < |ps| ==> ps[i].feePayer.None?
    ensures last >= 0 ==> ps[last].feePayer.Some?
    ensures Batch(ps).feePayer == if last >= 0 then ps[last].feePayer else None
  {
    if ps == [] {
      last := -1;
    } else if ps[|ps| - 1].feePayer.Some? {
      last := |ps| - 1;
    } else {
      last := BatchPayer(ps[..|ps| - 1]);
    }
  }

  /** Where merging succeeds it gives what the batch gives. */
  lemma {:induction false} MergeIsBatch(ps: seq<Payload>)
    ensures Merge(ps).Ok? ==> Merge(ps) == Ok(Batch(ps))
  {
    if ps != [] {
      MergeIsBatch(ps[..|ps| - 1]);
    }
  }

  lemma {:induction false} MergeSucceedsIff(ps: seq<Payload>)
    ensures Merge(ps).Ok? <==> PayersAgree(ps)
  {
    if ps != [] {
      var front := ps[..|ps| - 1];
      MergeSucceedsIff(front);
      MergeIsBatch(front);
      var last := BatchPayer(front);
      if PayersAgree(ps) {
        assert PayersAgree(front);
        assert !Conflict(Batch(front), ps[|ps| - 1]);
      } else if PayersAgree(front) {
        var i, j :| 0 <= i < |ps| && 0 <= j < |ps| && ps[i].feePayer.Some? && ps[j].feePayer.Some?
          && ps[i].feePayer != ps[j].feePayer;
        var k := if i == |ps| - 1 then j else i;
        assert front[k].feePayer.Some? && front[k].feePayer == front[last].feePayer;
      }
    }
  }

  lemma {:induction false} ErrorPersists(ps: seq<Payload>, n: nat)
    requires n <= |ps| && Merge(ps[..n]).Err?
    ensures Merge(ps) == Merge(ps[..n])
    decreases |ps| - n
  {
    if n < |ps| {
      assert ps[..n + 1][..n] == ps[..n];
      ErrorPersists(ps, n + 1);
    } else {
      assert ps[..n] == ps;
    }
  }

  /** The error names the payer held so far and the first one that differs from it. */
  lemma {:induction false} ErrorNamesFirstConflict(ps: seq<Payload>) returns (n: nat)
    requires Merge(ps).Err?
    ensures n < |ps| && PayersAgree(ps[..n])
    ensures ps[n].feePayer == Some(Merge(ps).error.payer)
    ensures Batch(ps[..n]).feePayer == Some(Merge(ps).error.existing)
    ensures Merge(ps).error.existing != Merge(ps).error.payer
  {
    n := |ps| - 1;
    if Merge(ps[..n]).Err? {
      var m := n;
      n := ErrorNamesFirstConflict(ps[..m]);
      assert ps[..m][..n] == ps[..n];
    } else {
      MergeIsBatch(ps[..n]);
      MergeSucceedsIff(ps[..n]);
    }
  }

  // ----- Merging in parts -----

  lemma CombineAssociative(a: Payload, b: Payload, c: Payload)
    ensures Combine(Combine(a, b), c) == Combine(a, Combine(b, c))
  {
  }

  lemma EmptyIsNeutral(a: Payload)
    ensures Combine(EMPTY, a) == a && Combine(a, EMPTY) == a
  {
  }

  /**
   What two merge results say about the merge of both lists.  When the second list
   fails by itself, a payer held from the first list meets that list's first stated
   payer before the second list's own conflict shows.
   */
  function Then(a: Result<Payload, MergeError>, b: Result<Payload, MergeError>): Result<Payload, MergeError> {
    match a
    case Err(e) => a
    case Ok(m) =>
      match b
      case Ok(n) =>
        if Conflict(m, n) then Err(ConflictingFeePayers(m.feePayer.value, n.feePayer.value)) else Ok(Combine(m, n))
      case Err(e) =>
        if m.feePayer.Some? && m.feePayer.value != e.existing
        then Err(ConflictingFeePayers(m.feePayer.value, e.existing))
        else b
  }

  /** The merge of a concatenation is determined by the two merges, errors included. */
  lemma {:induction false} MergeAppend(ps: seq<Payload>, qs: seq<Payload>)
    ensures Merge(ps + qs) == Then(Merge(ps), Merge(qs))
  {
    if qs == [] {
      assert ps + qs == ps;
      if Merge(ps).Ok? {
        EmptyIsNeutral(Merge(ps).value);
      }
    } else {
      var n := |qs| - 1;
      MergeAppend(ps, qs[..n]);
      assert (ps + qs)[..|ps + qs| - 1] == ps + qs[..n];
      if Merge(ps).Ok? && Merge(qs[..n]).Ok? {
        CombineAssociative(Merge(ps).value, Merge(qs[..n]).value, qs[n]);
      }
    }
  }

  function Concat(parts: seq<seq<Payload>>): seq<Payload> {
    if parts == [] then [] else Concat(parts[..|parts| - 1]) + parts[|parts| - 1]
  }

  /** The merged parts, where every part merges. */
  function Merged(parts: seq<seq<Payload>>): (ms: seq<Payload>)
    requires AllMerge(parts)
    ensures |ms| == |parts| && forall i :: 0 <= i < |ms| ==> Merge(parts[i]) == Ok(ms[i])
  {
    seq(|parts|, i requires 0 <= i < |parts| => Merge(parts[i]).value)
  }

  ghost predicate AllMerge(parts: seq<seq<Payload>>) {
    forall i :: 0 <= i < |parts| ==> Merge(parts[i]).Ok?
  }

  /**
   Merging in one go gives what merging the merged parts gives, the same payload or
   the same error.
   */
  lemma {:induction false} MergeInParts(parts: seq<seq<Payload>>)
    requires AllMerge(parts)
    ensures Merge(Concat(parts)) == Merge(Merged(parts))
  {
    if parts != [] {
      var n := |parts| - 1;
      MergeInParts(parts[..n]);
      MergeAppend(Concat(parts[..n]), parts[n]);
      assert Merged(parts)[..n] == Merged(parts[..n]);
    }
  }

  /** Where a part does not merge by itself, neither does the whole. */
  lemma {:induction false} PartFailureIsFinal(parts: seq<seq<Payload>>)
    requires !AllMerge(parts)
    ensures Merge(Concat(parts)).Err?
  {
    var n := |parts| - 1;
    MergeAppend(Concat(parts[..n]), parts[n]);
    if Merge(parts[n]).Ok? {
      assert !AllMerge(parts[..n]) by {
        var i :| 0 <= i < |parts| && Merge(parts[i]).Err?;
        assert parts[..n][i] == parts[i];
      }
      PartFailureIsFinal(parts[..n]);
    }
  }

  // ----- Fee payloads -----

  /** `merge_fee_payload`, and the same step inside the wallet's `send_tx`. */
  function WithFee(p: Payload, fee: Option<Payload>): Payload {
    match fee case Some(f) => Combine(p, f) case None => p
  }

  /** The payload the wallet's `send_tx` builds its request from. */
  function WalletPayload(exec: Payload, witnesses: seq<AuthWitness>, capsules: seq<Capsule>, fee: Option<Payload>): Payload {
    WithFee(exec.(authWitnesses := exec.authWitnesses + witnesses, capsules := exec.capsules + capsules), fee)
  }

  /**
   An interaction's `send` merges the fee payload and passes the same options on to
   the wallet, which merges it again: every fee call is requested twice.
   */
  lemma InteractionSendRepeatsFee(request: Payload, witnesses: seq<AuthWitness>, capsules: seq<Capsule>, fee: Payload)
    ensures var sent := WalletPayload(WithFee(request, Some(fee)), witnesses, capsules, Some(fee));
            && sent.calls == request.calls + fee.calls + fee.calls
            && sent.authWitnesses == request.authWitnesses + fee.authWitnesses + witnesses + fee.authWitnesses
            && sent.capsules == request.capsules + fee.capsules + capsules + fee.capsules
            && sent.extraHashedArgs == request.extraHashedArgs + fee.extraHashedArgs + fee.extraHashedArgs
            && sent.feePayer == WithFee(request, Some(fee)).feePayer
    // Merging once would have been the same exactly for a payload without calls, witnesses, capsules and arguments.
    ensures WalletPayload(WithFee(request, Some(fee)), witnesses, capsules, Some(fee))
         == WalletPayload(request, witnesses, capsules, Some(fee))
       <==> fee.calls == [] && fee.authWitnesses == [] && fee.capsules == [] && fee.extraHashedArgs == []
  {
    var twice := WalletPayload(WithFee(request, Some(fee)), witnesses, capsules, Some(fee));
    var once := WalletPayload(request, witnesses, capsules, Some(fee));
    assert |twice.calls| == |once.calls| + |fee.calls|;
    assert |twice.authWitnesses| == |once.authWitnesses| + |fee.authWitnesses|;
    assert |twice.capsules| == |once.capsules| + |fee.capsules|;
    assert |twice.extraHashedArgs| == |once.extraHashedArgs| + |fee.extraHashedArgs|;
    if fee.calls == [] && fee.authWitnesses == [] && fee.capsules == [] && fee.extraHashedArgs == [] {
      EmptyLists(request, fee);
    }
  }

  lemma EmptyLists(request: Payload, fee: Payload)
    requires fee.calls == [] && fee.authWitnesses == [] && fee.capsules == [] && fee.extraHashedArgs == []
    ensures Combine(request, fee) == request.(feePayer := Combine(request, fee).feePayer)
  {
  }
}

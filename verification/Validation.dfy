/**
 Transaction validation before submission (crates/core/src/validation.rs) and the
 accessors it relies on (crates/core/src/kernel_types.rs, crates/core/src/tx.rs).
 */
module Validation {
  import opened Wrappers
  import opened Fields
  import opened KernelTypes
  import opened Payloads

  type Hash = seq<Fr> -> Fr

  const PUBLIC_CALLDATA: Fr := 2_760_353_947
  const MAX_CALLDATA_FIELDS: nat := 12_288
  const CLASS_LOG_FIELDS: nat := 3023

  datatype ValidationError =
    | CalldataCountMismatch
    | CalldataTooLarge
    | IncorrectCalldata(contractAddress: Fr)
    | ClassLogCount
    | ClassLogLength(log: nat)

  // ----- Public call requests -----

  predicate IsEmpty(r: PublicCallRequest) { r.contractAddress == 0 }

  function NonEmpty(rs: seq<PublicCallRequest>): seq<PublicCallRequest> {
    if rs == [] then []
    else
      var front, last := NonEmpty(rs[..|rs| - 1]), rs[|rs| - 1];
      if IsEmpty(last) then front else front + [last]
  }

  /** `filter(..).count()`, which builds no list. */
  function CountNonEmpty(rs: seq<PublicCallRequest>): nat {
    if rs == [] then 0 else CountNonEmpty(rs[..|rs| - 1]) + if IsEmpty(rs[|rs| - 1]) then 0 else 1
  }

  lemma {:induction false} CountIsLength(rs: seq<PublicCallRequest>)
    ensures CountNonEmpty(rs) == |NonEmpty(rs)|
  {
    if rs != [] {
      CountIsLength(rs[..|rs| - 1]);
    }
  }

  /** `number_of_public_calls`. */
  function NumberOfPublicCalls(x: PublicInputs): nat {
    match x.forPublic
    case None => 0
    case Some(p) =>
      CountNonEmpty(p.nonRevertible.publicCallRequests) + CountNonEmpty(p.revertible.publicCallRequests)
      + if IsEmpty(p.teardown) then 0 else 1
  }

  /** The non-empty requests in execution order: setup, app logic, teardown. */
  function AllRequests(x: PublicInputs): seq<PublicCallRequest> {
    match x.forPublic
    case None => []
    case Some(p) =>
      NonEmpty(p.nonRevertible.publicCallRequests) + NonEmpty(p.revertible.publicCallRequests) + NonEmpty([p.teardown])
  }

  method GetAllPublicCallRequests(x: PublicInputs) returns (requests: seq<PublicCallRequest>)
    ensures requests == AllRequests(x)
  {
    requests := [];
    if x.forPublic.None? {
      return;
    }
    var p := x.forPublic.value;
    requests := PushNonEmpty([], p.nonRevertible.publicCallRequests);
    assert requests == NonEmpty(p.nonRevertible.publicCallRequests);
    requests := PushNonEmpty(requests, p.revertible.publicCallRequests);
    TeardownList(p.teardown);
    if !IsEmpty(p.teardown) {
      requests := requests + [p.teardown];
    }
  }

  method PushNonEmpty(requests: seq<PublicCallRequest>, rs: seq<PublicCallRequest>) returns (out: seq<PublicCallRequest>)
    ensures out == requests + NonEmpty(rs)
  {
    out := requests;
    for i := 0 to |rs|
      invariant out == requests + NonEmpty(rs[..i])
    {
      assert rs[..i + 1][..i] == rs[..i];
      if !IsEmpty(rs[i]) {
        out := out + [rs[i]];
      }
    }
    assert rs[..|rs|] == rs;
  }

  lemma TeardownList(r: PublicCallRequest)
    ensures NonEmpty([r]) == if IsEmpty(r) then [] else [r]
  {
    assert NonEmpty([r][..0]) == [];
  }

  /** The count and the list, computed by different functions, agree, so pairing requests with calldata never truncates. */
  lemma CountAgreesWithList(x: PublicInputs)
    ensures NumberOfPublicCalls(x) == |AllRequests(x)|
  {
    if x.forPublic.Some? {
      var p := x.forPublic.value;
      CountIsLength(p.nonRevertible.publicCallRequests);
      CountIsLength(p.revertible.publicCallRequests);
      TeardownList(p.teardown);
    }
  }

  // ----- Where each request lands -----

  /** Requests with a target. */
  ghost function CountTargets(rs: seq<PublicCallRequest>): nat {
    if rs == [] then 0 else CountTargets(rs[..|rs| - 1]) + if rs[|rs| - 1].contractAddress != 0 then 1 else 0
  }

  lemma {:induction false} NonEmptyAt(rs: seq<PublicCallRequest>, i: nat)
    requires i <= |rs|
    ensures |NonEmpty(rs)| == CountTargets(rs)
    ensures i < |rs| && rs[i].contractAddress != 0 ==>
              CountTargets(rs[..i]) < |NonEmpty(rs)| && NonEmpty(rs)[CountTargets(rs[..i])] == rs[i]
  {
    if rs != [] {
      var n := |rs| - 1;
      NonEmptyAt(rs[..n], if i < n then i else n);
      if i < n {
        assert rs[..n][..i] == rs[..i];
      }
    }
  }

  /**
   Execution order: a setup request with a target comes after the setup requests
   before it, an app-logic request after all of setup and its own predecessors, and the
   teardown request last; requests without a target do not occur.
   */
  lemma RequestPositions(x: PublicInputs, i: nat)
    requires x.forPublic.Some?
    ensures var p := x.forPublic.value;
            var setup, app := p.nonRevertible.publicCallRequests, p.revertible.publicCallRequests;
            var all := AllRequests(x);
            && |all| == CountTargets(setup) + CountTargets(app) + (if p.teardown.contractAddress != 0 then 1 else 0)
            && (i < |setup| && setup[i].contractAddress != 0 ==>
                  CountTargets(setup[..i]) < |all| && all[CountTargets(setup[..i])] == setup[i])
            && (i < |app| && app[i].contractAddress != 0 ==>
                  var k := CountTargets(setup) + CountTargets(app[..i]); k < |all| && all[k] == app[i])
            && (p.teardown.contractAddress != 0 ==> all[|all| - 1] == p.teardown)
  {
    var p := x.forPublic.value;
    var setup, app := p.nonRevertible.publicCallRequests, p.revertible.publicCallRequests;
    NonEmptyAt(setup, if i < |setup| then i else |setup|);
    NonEmptyAt(app, if i < |app| then i else |app|);
    TeardownList(p.teardown);
    ThreeParts(NonEmpty(setup), NonEmpty(app), NonEmpty([p.teardown]));
  }

  lemma ThreeParts<T>(a: seq<T>, b: seq<T>, c: seq<T>)
    ensures |a + b + c| == |a| + |b| + |c|
    ensures forall k :: 0 <= k < |a| ==> (a + b + c)[k] == a[k]
    ensures forall k :: 0 <= k < |b| ==> (a + b + c)[|a| + k] == b[k]
    ensures c != [] ==> (a + b + c)[|a + b + c| - 1] == c[|c| - 1]
  {
  }

  // ----- validate_calldata -----

  function TotalCalldata(calldata: seq<HashedValues>): nat {
    if calldata == [] then 0 else TotalCalldata(calldata[..|calldata| - 1]) + |calldata[|calldata| - 1].values|
  }

  function CalldataHash(hash: Hash, values: seq<Fr>): Fr { hash([PUBLIC_CALLDATA] + values) }

  predicate Matches(hash: Hash, r: PublicCallRequest, d: HashedValues) {
    CalldataHash(hash, d.values) == r.calldataHash
  }

  /** Entry by entry, in execution order, each calldata hashes to what its request says. */
  ghost predicate CalldataMatches(hash: Hash, requests: seq<PublicCallRequest>, calldata: seq<HashedValues>) {
    && |requests| == |calldata|
    && forall i :: 0 <= i < |requests| ==> Matches(hash, requests[i], calldata[i])
  }

  method ValidateCalldata(hash: Hash, x: PublicInputs, calldata: seq<HashedValues>)
    returns (r: Result<(), ValidationError>)
    ensures r.Ok? <==> CalldataMatches(hash, AllRequests(x), calldata) && TotalCalldata(calldata) <= MAX_CALLDATA_FIELDS
    ensures r == Err(CalldataCountMismatch) <==> |calldata| != |AllRequests(x)|
    ensures r == Err(CalldataTooLarge) <==>
              |calldata| == |AllRequests(x)| && TotalCalldata(calldata) > MAX_CALLDATA_FIELDS
    // The error names the first request whose calldata does not hash to it.
    ensures r.Err? && r.error.IncorrectCalldata? ==>
              exists i :: 0 <= i < |calldata| && i < |AllRequests(x)| && FirstMismatch(hash, AllRequests(x), calldata, i)
                          && r.error.contractAddress == AllRequests(x)[i].contractAddress
    ensures r.Err? ==> !r.error.ClassLogCount? && !r.error.ClassLogLength?
  {
    CountAgreesWithList(x);
    if |calldata| != NumberOfPublicCalls(x) {
      return Err(CalldataCountMismatch);
    }
    if TotalCalldata(calldata) > MAX_CALLDATA_FIELDS {
      return Err(CalldataTooLarge);
    }
    var requests := GetAllPublicCallRequests(x);
    var i := 0;
    while i < |requests| && i < |calldata|
      invariant 0 <= i <= |requests|
      invariant forall j :: 0 <= j < i ==> Matches(hash, requests[j], calldata[j])
    {
      if !Matches(hash, requests[i], calldata[i]) {
        assert FirstMismatch(hash, requests, calldata, i);
        return Err(IncorrectCalldata(requests[i].contractAddress));
      }
      i := i + 1;
    }
    return Ok(());
  }

  ghost predicate FirstMismatch(hash: Hash, requests: seq<PublicCallRequest>, calldata: seq<HashedValues>, i: nat)
    requires i < |requests| && i < |calldata|
  {
    !Matches(hash, requests[i], calldata[i])
    && forall j :: 0 <= j < i && j < |requests| && j < |calldata| ==> Matches(hash, requests[j], calldata[j])
  }

  /** What acceptance means in hashes: entry `i` under its separator gives the hash request `i` states. */
  lemma MatchesMeansHashes(hash: Hash, requests: seq<PublicCallRequest>, calldata: seq<HashedValues>)
    ensures CalldataMatches(hash, requests, calldata) <==>
              && |requests| == |calldata|
              && forall i :: 0 <= i < |requests| ==> hash([2_760_353_947] + calldata[i].values) == requests[i].calldataHash
  {
    if CalldataMatches(hash, requests, calldata) {
      forall i | 0 <= i < |requests| ensures hash([2_760_353_947] + calldata[i].values) == requests[i].calldataHash {
        assert Matches(hash, requests[i], calldata[i]);
      }
    }
  }

  /** The total is the sum of the entries' sizes. */
  lemma {:induction false} TotalIsSum(d: HashedValues, rest: seq<HashedValues>)
    ensures TotalCalldata([]) == 0
    ensures TotalCalldata([d] + rest) == |d.values| + TotalCalldata(rest)
  {
    if rest == [] {
      assert [d] + rest == [d] && [d][..0] == [];
    } else {
      var n := |rest| - 1;
      TotalIsSum(d, rest[..n]);
      assert ([d] + rest)[..|rest|] == [d] + rest[..n];
    }
  }

  /** Two calldata lists accepted for one transaction carry the same values, or the hash collides on two of them. */
  lemma AcceptedCalldataIsBound(hash: Hash, requests: seq<PublicCallRequest>, a: seq<HashedValues>, b: seq<HashedValues>)
    requires CalldataMatches(hash, requests, a) && CalldataMatches(hash, requests, b)
    ensures || (forall i :: 0 <= i < |requests| ==> a[i].values == b[i].values)
            || exists i :: 0 <= i < |requests| && a[i].values != b[i].values
                 && [PUBLIC_CALLDATA] + a[i].values != [PUBLIC_CALLDATA] + b[i].values
                 && CalldataHash(hash, a[i].values) == CalldataHash(hash, b[i].values)
  {
    if i :| 0 <= i < |requests| && a[i].values != b[i].values {
      assert ([PUBLIC_CALLDATA] + a[i].values)[1..] == a[i].values;
      assert ([PUBLIC_CALLDATA] + b[i].values)[1..] == b[i].values;
      assert Matches(hash, requests[i], a[i]) && Matches(hash, requests[i], b[i]);
    }
  }

  // ----- Contract class logs -----

  function NonEmptyHashes(hs: seq<ScopedLogHash>): seq<ScopedLogHash> {
    if hs == [] then []
    else
      var front, last := NonEmptyHashes(hs[..|hs| - 1]), hs[|hs| - 1];
      if last.logHash.value == 0 then front else front + [last]
  }

  /** The class-log hashes of the variant that is present, empty slots included. */
  function AllLogHashes(x: PublicInputs): seq<ScopedLogHash> {
    match x.forPublic
    case Some(p) => p.nonRevertible.common.contractClassLogsHashes + p.revertible.common.contractClassLogsHashes
    case None => match x.forRollup case Some(d) => d.contractClassLogsHashes case None => []
  }

  /** `get_non_empty_contract_class_logs_hashes`. */
  function ClassLogHashes(x: PublicInputs): seq<ScopedLogHash> { NonEmptyHashes(AllLogHashes(x)) }

  /** `rposition(|f| f != 0)`. */
  function LastNonZero(fields: seq<Fr>): (last: Option<nat>)
    ensures last.Some? ==> last.value < |fields| && fields[last.value] != 0
    ensures last.Some? ==> forall i :: last.value < i < |fields| ==> fields[i] == 0
    ensures last.None? <==> forall i :: 0 <= i < |fields| ==> fields[i] == 0
  {
    if fields == [] then None
    else if fields[|fields| - 1] != 0 then Some(|fields| - 1)
    else LastNonZero(fields[..|fields| - 1])
  }

  /** The least declared length the validator accepts; an all-zero log still needs one. */
  function MinLength(fields: seq<Fr>): nat {
    1 + match LastNonZero(fields) case Some(i) => i case None => 0
  }

  /** The least length ends at the last non-zero field, or is one for a log without any. */
  lemma MinLengthIs(fields: seq<Fr>)
    ensures MinLength(fields) >= 1
    ensures forall i :: MinLength(fields) <= i < |fields| ==> fields[i] == 0
    ensures (exists i :: 0 <= i < |fields| && fields[i] != 0) ==>
              MinLength(fields) <= |fields| && fields[MinLength(fields) - 1] != 0
    ensures (forall i :: 0 <= i < |fields| ==> fields[i] == 0) ==> MinLength(fields) == 1
  {
  }

  /** Hashes in use: those with a non-zero value. */
  ghost function CountUsed(hs: seq<ScopedLogHash>): nat {
    if hs == [] then 0 else CountUsed(hs[..|hs| - 1]) + if hs[|hs| - 1].logHash.value != 0 then 1 else 0
  }

  /** Every hash in use keeps its place among the hashes in use. */
  lemma {:induction false} LogHashAt(hs: seq<ScopedLogHash>, i: nat)
    requires i <= |hs|
    ensures |NonEmptyHashes(hs)| == CountUsed(hs)
    ensures i < |hs| && hs[i].logHash.value != 0 ==>
              CountUsed(hs[..i]) < |NonEmptyHashes(hs)| && NonEmptyHashes(hs)[CountUsed(hs[..i])] == hs[i]
  {
    if hs != [] {
      var n := |hs| - 1;
      LogHashAt(hs[..n], if i < n then i else n);
      if i < n {
        assert hs[..n][..i] == hs[..i];
      }
    }
  }

  /** What the validator compares: one declared length per log, none too short. */
  ghost predicate LengthsCover(lengths: seq<U32>, logs: seq<seq<Fr>>) {
    |lengths| == |logs| && forall i :: 0 <= i < |logs| ==> lengths[i] >= MinLength(logs[i])
  }

  function Lengths(hs: seq<ScopedLogHash>): (ls: seq<U32>)
    ensures |ls| == |hs| && forall i :: 0 <= i < |hs| ==> ls[i] == hs[i].logHash.length
  {
    seq(|hs|, i requires 0 <= i < |hs| => hs[i].logHash.length)
  }

  method ValidateContractClassLogs(x: PublicInputs, logs: seq<seq<Fr>>) returns (r: Result<(), ValidationError>)
    ensures r.Ok? <==> LengthsCover(Lengths(ClassLogHashes(x)), logs)
    ensures r == Err(ClassLogCount) <==> |ClassLogHashes(x)| != |logs|
    ensures r.Err? ==> r.error == ClassLogCount || r.error.ClassLogLength?
    ensures r.Err? && r.error.ClassLogLength? ==>
              r.error.log < |logs| == |ClassLogHashes(x)|
              && ClassLogHashes(x)[r.error.log].logHash.length < MinLength(logs[r.error.log])
  {
    var hashes := ClassLogHashes(x);
    if |hashes| != |logs| {
      return Err(ClassLogCount);
    }
    for i := 0 to |logs|
      invariant forall j :: 0 <= j < i ==> hashes[j].logHash.length >= MinLength(logs[j])
    {
      if hashes[i].logHash.length < MinLength(logs[i]) {
        return Err(ClassLogLength(i));
      }
    }
    return Ok(());
  }

  /** `from_emitted_fields`: pad to the protocol width; a longer list is left alone. */
  function FromEmitted(emitted: seq<Fr>): seq<Fr> {
    if |emitted| < CLASS_LOG_FIELDS then emitted + seq(CLASS_LOG_FIELDS - |emitted|, _ => 0) else emitted
  }

  /** `emitted_fields`. */
  function Emitted(fields: seq<Fr>): seq<Fr> {
    match LastNonZero(fields) case Some(i) => fields[..i + 1] case None => []
  }

  function Cut(fields: seq<Fr>, length: nat): seq<Fr> { if length < |fields| then fields[..length] else fields }

  /** An accepted log is recovered from its declared prefix: the validator never lets a non-zero field be cut off. */
  lemma AcceptedLogSurvivesCut(lengths: seq<U32>, logs: seq<seq<Fr>>, i: nat)
    requires LengthsCover(lengths, logs) && i < |logs| && |logs[i]| == CLASS_LOG_FIELDS
    ensures FromEmitted(Cut(logs[i], lengths[i])) == logs[i]
  {
    CutThenPad(logs[i], lengths[i]);
  }

  /** The bound is exact: a shorter cut loses something exactly when a non-zero field lies past it. */
  lemma CutThenPad(fields: seq<Fr>, length: nat)
    requires |fields| == CLASS_LOG_FIELDS
    ensures FromEmitted(Cut(fields, length)) == fields <==> length >= |Emitted(fields)|
    ensures length >= MinLength(fields) ==> length >= |Emitted(fields)|
  {
    var back := FromEmitted(Cut(fields, length));
    if length >= |Emitted(fields)| {
      assert back == fields;
    } else {
      var last := LastNonZero(fields).value;
      assert back[last] == 0;
    }
  }

  /** The list without its trailing zeros. */
  function StripZeros(xs: seq<Fr>): seq<Fr> {
    if xs != [] && xs[|xs| - 1] == 0 then StripZeros(xs[..|xs| - 1]) else xs
  }

  lemma {:induction false} EmittedStrips(xs: seq<Fr>)
    ensures Emitted(xs) == StripZeros(xs)
  {
    if xs != [] {
      if xs[|xs| - 1] == 0 {
        EmittedStrips(xs[..|xs| - 1]);
      } else {
        assert xs[..|xs|] == xs;
      }
    }
  }

  lemma {:induction false} StripPadding(xs: seq<Fr>, n: nat)
    ensures StripZeros(xs + seq(n, _ => 0)) == StripZeros(xs)
  {
    var padded := xs + seq(n, _ => 0);
    if n == 0 {
      assert padded == xs;
    } else {
      assert padded[..|padded| - 1] == xs + seq(n - 1, _ => 0);
      StripPadding(xs, n - 1);
    }
  }

  /** Padding a log and reading its emitted fields back drops the trailing zeros and nothing else. */
  lemma EmittedRoundTrip(emitted: seq<Fr>)
    ensures Emitted(FromEmitted(emitted)) == StripZeros(emitted)
  {
    EmittedPadded(emitted, if |emitted| < CLASS_LOG_FIELDS then CLASS_LOG_FIELDS - |emitted| else 0);
  }

  lemma EmittedPadded(xs: seq<Fr>, n: nat)
    ensures Emitted(xs + seq(n, _ => 0)) == StripZeros(xs)
    ensures n == 0 ==> xs + seq(n, _ => 0) == xs
  {
    EmittedStrips(xs + seq(n, _ => 0));
    StripPadding(xs, n);
  }

  /** The same slots in use, with the same declared lengths; the hashes and addresses may differ. */
  ghost predicate SameLengths(hs: seq<ScopedLogHash>, hs': seq<ScopedLogHash>) {
    && |hs| == |hs'|
    && forall i :: 0 <= i < |hs| ==>
         hs[i].logHash.length == hs'[i].logHash.length && (hs[i].logHash.value == 0 <==> hs'[i].logHash.value == 0)
  }

  lemma {:induction false} LengthsOfUsedSlots(hs: seq<ScopedLogHash>, hs': seq<ScopedLogHash>)
    requires SameLengths(hs, hs')
    ensures Lengths(NonEmptyHashes(hs)) == Lengths(NonEmptyHashes(hs'))
  {
    if hs != [] {
      var n := |hs| - 1;
      var front, front' := NonEmptyHashes(hs[..n]), NonEmptyHashes(hs'[..n]);
      LengthsOfUsedSlots(hs[..n], hs'[..n]);
      LengthsSnoc(front, hs[n]);
      LengthsSnoc(front', hs'[n]);
    }
  }

  lemma LengthsSnoc(hs: seq<ScopedLogHash>, h: ScopedLogHash)
    ensures Lengths(hs + [h]) == Lengths(hs) + [h.logHash.length]
  {
  }

  /**
   The documentation says each log hash is matched against its fields; the code
   compares lengths only.  Any other non-zero hashes, and any other logs that end
   at the same places, are accepted or refused alike.
   */
  lemma HashIsNotChecked(x: PublicInputs, x': PublicInputs, logs: seq<seq<Fr>>, logs': seq<seq<Fr>>)
    requires SameLengths(AllLogHashes(x), AllLogHashes(x'))
    requires |logs| == |logs'| && forall i :: 0 <= i < |logs| ==> MinLength(logs[i]) == MinLength(logs'[i])
    ensures LengthsCover(Lengths(ClassLogHashes(x)), logs) <==> LengthsCover(Lengths(ClassLogHashes(x')), logs')
  {
    LengthsOfUsedSlots(AllLogHashes(x), AllLogHashes(x'));
  }
}

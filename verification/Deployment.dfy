/** Building and requesting deployments (crates/contract/src/deployment.rs). */
module Deployment {
  import opened Wrappers
  import opened Fields
  import opened Polling
  import opened Merkle
  import opened Artifacts
  import opened Addresses
  import opened Payloads

  datatype DeployOptions = DeployOptions(
    salt: Option<Fr>,
    skipClassPublication: bool,
    skipInstancePublication: bool,
    skipInitialization: bool,
    skipRegistration: bool,
    universalDeploy: bool,
    from: Option<Fr>)

  const DEFAULT_OPTIONS: DeployOptions := DeployOptions(None, false, false, false, false, false, None)

  datatype DeployMethod = DeployMethod(
    artifact: Artifact,
    args: seq<AbiValue>,
    publicKeys: PublicKeys,
    constructorName: Option<string>,
    defaultSalt: Fr)

  /** Position `i` holds the first initializer. */
  ghost predicate FirstAt(fs: seq<FunctionArtifact>, i: nat)
    requires i < |fs|
  {
    fs[i].isInitializer && forall j :: 0 <= j < i ==> !fs[j].isInitializer
  }

  function FirstInitializer(fs: seq<FunctionArtifact>): (f: Option<FunctionArtifact>)
    ensures f.None? <==> forall g :: g in fs ==> !g.isInitializer
    ensures f.Some? ==> exists i :: 0 <= i < |fs| && fs[i] == f.value && FirstAt(fs, i)
  {
    if fs == [] then None
    else if fs[0].isInitializer then
      assert FirstAt(fs, 0);
      Some(fs[0])
    else
      var rest := FirstInitializer(fs[1..]);
      assert rest.Some? ==> forall i :: 0 <= i < |fs| - 1 && fs[1..][i] == rest.value && FirstAt(fs[1..], i) ==> FirstAt(fs, i + 1);
      rest
  }

  /** The constructor `ContractDeployer::deploy` settles on, or its error. */
  function ChooseConstructor(a: Artifact, named: Option<string>, args: seq<AbiValue>): Result<Option<string>, Error> {
    match named
    case Some(name) =>
      (match FindFunction(a, name)
       case Err(e) => Err(e)
       case Ok(f) => if !f.isInitializer || |args| != f.parameters then Err(Abi) else Ok(Some(name)))
    case None =>
      match FirstInitializer(a.functions)
      case Some(f) => if |args| != f.parameters then Err(Abi) else Ok(Some(f.name))
      case None => if args == [] then Ok(None) else Err(Abi)
  }

  /** `ContractDeployer::deploy`; the random default salt is a parameter. */
  function Deploy(a: Artifact, keys: PublicKeys, named: Option<string>, args: seq<AbiValue>, randomSalt: Fr)
    : Result<DeployMethod, Error>
  {
    match ChooseConstructor(a, named, args)
    case Err(e) => Err(e)
    case Ok(chosen) => Ok(DeployMethod(a, args, keys, chosen, randomSalt))
  }

  /** `DeployMethod::get_instance`. */
  function InstanceFor<E>(p: Protocol<E>, d: DeployMethod, opts: DeployOptions): Result<InstanceWithAddress, Error> {
    var salt := match opts.salt case Some(s) => s case None => d.defaultSalt;
    var deployer := if opts.universalDeploy then 0 else match opts.from case Some(a) => a case None => 0;
    GetInstance(p, d.artifact, InstantiationParams(d.constructorName, d.args, salt, d.publicKeys, deployer))
  }

  /** What an instance takes from the deployment and its options. */
  lemma InstanceForIs<E>(p: Protocol<E>, d: DeployMethod, opts: DeployOptions)
    requires InstanceFor(p, d, opts).Ok?
    ensures var i := InstanceFor(p, d, opts).value.inner;
            && i.salt == (if opts.salt.Some? then opts.salt.value else d.defaultSalt)
            && i.deployer == (if !opts.universalDeploy && opts.from.Some? then opts.from.value else 0)
            && i.publicKeys == d.publicKeys
            && InitFunction(d.artifact, d.constructorName).Ok?
            && InitializationHash(p, InitFunction(d.artifact, d.constructorName).value, d.args) == Ok(i.initializationHash)
  {
  }

  /** The constructor a deployer settles on: the named one, or the first initializer, or none; always with the right number of arguments. */
  lemma ChosenConstructor(a: Artifact, named: Option<string>, args: seq<AbiValue>)
    ensures var r := ChooseConstructor(a, named, args);
            && (named.Some? ==>
                  (r.Ok? <==> FindFunction(a, named.value).Ok?
                              && FindFunction(a, named.value).value.isInitializer
                              && |args| == FindFunction(a, named.value).value.parameters)
                  && (r.Ok? ==> r.value == named))
            && (named.None? && (forall f :: f in a.functions ==> !f.isInitializer) ==>
                  (r.Ok? <==> args == []) && (r.Ok? ==> r.value.None?))
            && (named.None? ==> forall i :: 0 <= i < |a.functions| && FirstAt(a.functions, i) ==>
                  (r.Ok? <==> |args| == a.functions[i].parameters) && (r.Ok? ==> r.value == Some(a.functions[i].name)))
  {
  }

  /** `with_effective_from`: a deployment that names no deployer is made in the sender's name. */
  function EffectiveOptions(opts: DeployOptions, sender: AztecAddress): DeployOptions {
    if opts.universalDeploy || opts.from.Some? then opts else opts.(from := Some(sender))
  }

  /** The caller's own options already settle the deployer. */
  predicate DeployerSettled(opts: DeployOptions, sender: AztecAddress) {
    opts.universalDeploy || opts.from.Some? || sender == 0
  }

  /**
   The instance computed beforehand with the caller's options and the instance that
   `send` deploys and returns.  They agree where the options settle the deployer;
   otherwise they have different addresses, or the breach is exhibited.
   */
  lemma SendInstanceAgrees<E>(p: Protocol<E>, d: DeployMethod, opts: DeployOptions, sender: AztecAddress)
    returns (b: Breach<seq<Fr>>)
    ensures DeployerSettled(opts, sender) ==> InstanceFor(p, d, EffectiveOptions(opts, sender)) == InstanceFor(p, d, opts)
    ensures var before, sent := InstanceFor(p, d, opts), InstanceFor(p, d, EffectiveOptions(opts, sender));
            !DeployerSettled(opts, sender) && before.Ok? && sent.Ok? && b.Sound?
            && !PointsMeet(p, before.value.inner, sent.value.inner) ==>
              before.value.address != sent.value.address
    ensures var before, sent := InstanceFor(p, d, opts), InstanceFor(p, d, EffectiveOptions(opts, sender));
            before.Ok? && sent.Ok? ==>
              Exhibits(p.hash, AddressBuilt(p, before.value.inner) + AddressBuilt(p, sent.value.inner), b)
  {
    b := Sound;
    var before, sent := InstanceFor(p, d, opts), InstanceFor(p, d, EffectiveOptions(opts, sender));
    if !DeployerSettled(opts, sender) && before.Ok? && sent.Ok? && before.value.address == sent.value.address {
      b := AddressBinding(p, before.value.inner, sent.value.inner);
    }
  }

  /** What the wallet answers during a deployment request, and the two publication calls. */
  datatype DeployEnv = DeployEnv(
    register: Option<Error>,
    classRegistered: Result<bool, Error>,
    publishClass: Result<(FunctionCall, seq<Capsule>), Error>,
    publishInstance: InstanceWithAddress -> FunctionCall)

  /** The constructor call aimed at `address`, if the deployment makes one. */
  function ConstructorCalls<E>(p: Protocol<E>, d: DeployMethod, opts: DeployOptions, address: Fr)
    : Result<seq<FunctionCall>, Error>
  {
    if opts.skipInitialization || d.constructorName.None? then Ok([])
    else
      match FindFunction(d.artifact, d.constructorName.value)
      case Err(e) => Err(e)
      case Ok(f) =>
        match p.encode(f, d.args)
        case Err(e) => Err(e)
        case Ok(fields) => Ok([FunctionCall(address, f.selector, fields)])
  }

  /** Whether the class is published: not skipped, and not known to be registered; a failed lookup counts as unknown. */
  predicate PublishesClass(env: DeployEnv, opts: DeployOptions) {
    !opts.skipClassPublication && env.classRegistered != Ok(true)
  }

  /** The first failure among registration, class publication and the constructor call, in that order. */
  function FirstFailure(opts: DeployOptions, env: DeployEnv, ctor: Result<seq<FunctionCall>, Error>): Option<Error> {
    if !opts.skipRegistration && env.register.Some? then env.register
    else if PublishesClass(env, opts) && env.publishClass.Err? then Some(env.publishClass.error)
    else if ctor.Err? then Some(ctor.error)
    else None
  }

  /** Class publication, instance publication and constructor call, in that order, and nothing else. */
  ghost predicate Requests(
    r: Payload, opts: DeployOptions, env: DeployEnv, instance: InstanceWithAddress, constructorCalls: seq<FunctionCall>)
    requires !opts.skipClassPublication && env.classRegistered != Ok(true) ==> env.publishClass.Ok?
  {
    var publishes := !opts.skipClassPublication && env.classRegistered != Ok(true);
    && r.calls == (if publishes then [env.publishClass.value.0] else [])
                  + (if opts.skipInstancePublication then [] else [env.publishInstance(instance)])
                  + constructorCalls
    && r.capsules == (if publishes then env.publishClass.value.1 else [])
    && r.authWitnesses == [] && r.extraHashedArgs == [] && r.feePayer.None?
  }

  /** `DeployMethod::request`. */
  method Request<E>(p: Protocol<E>, d: DeployMethod, opts: DeployOptions, env: DeployEnv)
    returns (r: Result<Payload, Error>)
    ensures InstanceFor(p, d, opts).Err? ==> r == Err(InstanceFor(p, d, opts).error)
    ensures InstanceFor(p, d, opts).Ok? ==>
              var instance := InstanceFor(p, d, opts).value;
              var calls := ConstructorCalls(p, d, opts, instance.address);
              match FirstFailure(opts, env, calls)
              case Some(e) => r == Err(e)
              case None => r.Ok? && Requests(r.value, opts, env, instance, calls.value)
  {
    var found := InstanceFor(p, d, opts);
    if found.Err? {
      return Err(found.error);
    }
    r := RequestInstance(opts, env, found.value, ConstructorCalls(p, d, opts, found.value.address));
  }

  /** The steps of a request once its instance is known; merging the collected payloads cannot fail. */
  method RequestInstance(
    opts: DeployOptions, env: DeployEnv, instance: InstanceWithAddress, constructorCalls: Result<seq<FunctionCall>, Error>)
    returns (r: Result<Payload, Error>)
    ensures match FirstFailure(opts, env, constructorCalls)
            case Some(e) => r == Err(e)
            case None => r.Ok? && Requests(r.value, opts, env, instance, constructorCalls.value)
  {
    if !opts.skipRegistration && env.register.Some? {
      return Err(env.register.value);
    }
    var payloads: seq<Payload> := [];
    ghost var sum := EMPTY;
    ghost var classCalls: seq<FunctionCall>, classCapsules: seq<Capsule> := [], [];
    if PublishesClass(env, opts) {
      if env.publishClass.Err? {
        return Err(env.publishClass.error);
      }
      var publish := Payload([env.publishClass.value.0], [], env.publishClass.value.1, [], None);
      sum := MergeSnoc(payloads, publish, sum);
      payloads := payloads + [publish];
      classCalls, classCapsules := publish.calls, publish.capsules;
    }
    assert Sum(sum, classCalls, classCapsules);
    ghost var instanceCalls: seq<FunctionCall> := [];
    if !opts.skipInstancePublication {
      var publish := CallsOnly([env.publishInstance(instance)]);
      sum := MergeSnoc(payloads, publish, sum);
      payloads := payloads + [publish];
      instanceCalls := publish.calls;
    }
    assert Sum(sum, classCalls + instanceCalls, classCapsules);
    if constructorCalls.Err? {
      return Err(constructorCalls.error);
    }
    if constructorCalls.value != [] {
      var call := CallsOnly(constructorCalls.value);
      sum := MergeSnoc(payloads, call, sum);
      payloads := payloads + [call];
    }
    assert Sum(sum, classCalls + instanceCalls + constructorCalls.value, classCapsules);
    var merged := MergePayloads(payloads);
    r := Ok(merged.value);
  }

  ghost predicate Sum(p: Payload, calls: seq<FunctionCall>, capsules: seq<Capsule>) {
    p.calls == calls && p.capsules == capsules && p.authWitnesses == [] && p.extraHashedArgs == [] && p.feePayer.None?
  }

  function CallsOnly(calls: seq<FunctionCall>): Payload {
    Payload(calls, [], [], [], None)
  }

  /** A payload that states no payer is merged without conflict. */
  lemma MergeSnoc(ps: seq<Payload>, p: Payload, sum: Payload) returns (next: Payload)
    requires Merge(ps) == Ok(sum) && sum.feePayer.None? && p.feePayer.None?
    ensures Merge(ps + [p]) == Ok(next) && next.feePayer.None?
    ensures next.calls == sum.calls + p.calls && next.capsules == sum.capsules + p.capsules
    ensures next.authWitnesses == sum.authWitnesses + p.authWitnesses
    ensures next.extraHashedArgs == sum.extraHashedArgs + p.extraHashedArgs
  {
    assert (ps + [p])[..|ps|] == ps;
    next := Combine(sum, p);
  }
}

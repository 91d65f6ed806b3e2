/** Account managers and the addresses their code paths derive (crates/account/src/account.rs). */
module Accounts {
  import opened Wrappers
  import opened Fields
  import opened Polling
  import opened Merkle
  import opened Artifacts
  import opened Addresses
  import opened Deployment
  import opened Payloads

  datatype InitSpec = InitSpec(constructorName: string, constructorArgs: seq<AbiValue>)

  /** An account contract type: its artifact and its initialization function, if any. */
  datatype AccountContract = AccountContract(artifact: Artifact, init: Option<InitSpec>)

  function SpecName(c: AccountContract): Option<string> {
    match c.init case Some(s) => Some(s.constructorName) case None => None
  }

  function SpecArgs(c: AccountContract): seq<AbiValue> {
    match c.init case Some(s) => s.constructorArgs case None => []
  }

  function AccountParams<E>(p: Protocol<E>, c: AccountContract, secret: Fr, salt: Fr): InstantiationParams {
    InstantiationParams(SpecName(c), SpecArgs(c), salt, p.deriveKeys(secret), 0)
  }

  /** `get_account_contract_address`: the address before deployment. */
  function AccountAddress<E>(p: Protocol<E>, c: AccountContract, secret: Fr, salt: Fr): Result<Fr, Error> {
    match GetInstance(p, c.artifact, AccountParams(p, c, secret, salt))
    case Ok(i) => Ok(i.address)
    case Err(e) => Err(e)
  }

  datatype Manager = Manager(secretKey: Fr, contract: AccountContract, instance: InstanceWithAddress, salt: Fr)

  /** The checks `AccountManager::create` makes on an initialization spec. */
  function CheckSpec(c: AccountContract): Option<Error> {
    match c.init
    case None => None
    case Some(s) =>
      match FindFunction(c.artifact, s.constructorName)
      case Err(e) => Some(e)
      case Ok(f) => if !f.isInitializer || |s.constructorArgs| != f.parameters then Some(Abi) else None
  }

  /** `AccountManager::create`. */
  function Create<E>(p: Protocol<E>, c: AccountContract, secret: Fr, salt: Fr): Result<Manager, Error> {
    match CheckSpec(c)
    case Some(e) => Err(e)
    case None =>
      match GetInstance(p, c.artifact, AccountParams(p, c, secret, salt))
      case Err(e) => Err(e)
      case Ok(i) => Ok(Manager(secret, c, i, salt))
  }

  datatype CompleteAddress = CompleteAddress(address: Fr, publicKeys: PublicKeys, partialAddress: Fr)

  /** `AccountManager::complete_address`: derives the keys and the address again from the stored parts. */
  function CompleteAddressOf<E>(p: Protocol<E>, m: Manager): Result<CompleteAddress, Error> {
    var keys := p.deriveKeys(m.secretKey);
    var partial := PartialAddressOf(p, m.instance.inner);
    match ComputeAddress(p, keys, partial)
    case Err(e) => Err(e)
    case Ok(a) => Ok(CompleteAddress(a, keys, partial))
  }

  datatype DeployAccountMethod = DeployAccountMethod(inner: DeployMethod, innerInstance: InstanceWithAddress)

  /** `AccountManager::deploy_method`. */
  function DeployMethodOf<E>(p: Protocol<E>, m: Manager, randomSalt: Fr): Result<DeployAccountMethod, Error> {
    match CompleteAddressOf(p, m)
    case Err(e) => Err(e)
    case Ok(_) =>
      match Deploy(m.contract.artifact, m.instance.inner.publicKeys, SpecName(m.contract), SpecArgs(m.contract), randomSalt)
      case Err(e) => Err(e)
      case Ok(inner) =>
        match InstanceFor(p, inner, DEFAULT_OPTIONS.(salt := Some(m.salt)))
        case Err(e) => Err(e)
        case Ok(i) => Ok(DeployAccountMethod(inner, i))
  }

  datatype DeployAccountOptions = DeployAccountOptions(
    skipClassPublication: bool, skipInstancePublication: bool, skipInitialization: bool, skipRegistration: bool)

  /** `to_deploy_options`. */
  function ToDeployOptions(d: DeployAccountMethod, o: DeployAccountOptions): DeployOptions {
    DeployOptions(Some(d.innerInstance.inner.salt), o.skipClassPublication, o.skipInstancePublication,
                  o.skipInitialization, o.skipRegistration, true, None)
  }

  /** Account deployments are universal, keep the instance's salt, and pass the skip flags on. */
  lemma DeployOptionsFor(d: DeployAccountMethod, o: DeployAccountOptions)
    ensures var r := ToDeployOptions(d, o);
            && r.salt == Some(d.innerInstance.inner.salt) && r.universalDeploy && r.from.None?
            && r.skipClassPublication == o.skipClassPublication
            && r.skipInstancePublication == o.skipInstancePublication
            && r.skipInitialization == o.skipInitialization && r.skipRegistration == o.skipRegistration
  {
  }

  /** The instance `DeployAccountMethod::send` reports. */
  function SentInstance<E>(p: Protocol<E>, d: DeployAccountMethod, o: DeployAccountOptions): Result<InstanceWithAddress, Error> {
    InstanceFor(p, d.inner, ToDeployOptions(d, o))
  }

  /** Nothing for the deployer to choose that the manager did not choose: a spec, or no initializer at all. */
  ghost predicate Consistent(c: AccountContract) {
    c.init.Some? || forall f :: f in c.artifact.functions ==> !f.isInitializer
  }

  /** Under that condition the deployer picks the manager's constructor. */
  lemma SameConstructor(c: AccountContract)
    requires CheckSpec(c).None? && Consistent(c)
    ensures ChooseConstructor(c.artifact, SpecName(c), SpecArgs(c)) == Ok(SpecName(c))
  {
  }

  /**
   One address: once a manager exists, the precomputed address, the manager's own,
   its complete address and the deployed instance, under all options and whatever
   the default salt, are the same, and every one of those steps succeeds.
   */
  lemma OneAddress<E>(p: Protocol<E>, c: AccountContract, secret: Fr, salt: Fr, randomSalt: Fr, o: DeployAccountOptions)
    requires Create(p, c, secret, salt).Ok? && Consistent(c)
    ensures var m := Create(p, c, secret, salt).value;
            && AccountAddress(p, c, secret, salt) == Ok(m.instance.address)
            && CompleteAddressOf(p, m)
               == Ok(CompleteAddress(m.instance.address, p.deriveKeys(secret), PartialAddressOf(p, m.instance.inner)))
            && DeployMethodOf(p, m, randomSalt).Ok?
            && DeployMethodOf(p, m, randomSalt).value.innerInstance == m.instance
            && SentInstance(p, DeployMethodOf(p, m, randomSalt).value, o) == Ok(m.instance)
  {
    SameConstructor(c);
    var m := Create(p, c, secret, salt).value;
    assert GetInstance(p, c.artifact, AccountParams(p, c, secret, salt)) == Ok(m.instance);
    assert CompleteAddressOf(p, m).Ok?;
    var d := DeployMethod(c.artifact, SpecArgs(c), p.deriveKeys(secret), SpecName(c), randomSalt);
    assert InstanceFor(p, d, DEFAULT_OPTIONS.(salt := Some(salt))) == Ok(m.instance);
  }

  // ----- Requesting an account deployment -----

  /** What a deployment request holds, up to its fee: the three parts, aimed at the account's instance. */
  ghost predicate DeploymentPart<E>(deploy: Payload, p: Protocol<E>, d: DeployAccountMethod, o: DeployAccountOptions, env: DeployEnv) {
    var opts := ToDeployOptions(d, o);
    && SentInstance(p, d, o).Ok?
    && var instance := SentInstance(p, d, o).value;
       var calls := ConstructorCalls(p, d.inner, opts, instance.address);
       && FirstFailure(opts, env, calls).None?
       && Requests(deploy, opts, env, instance, calls.value)
  }

  /** The fee payload: wrapped in the account's entrypoint for a self-deployment, the method's own otherwise. */
  function AccountFee(selfDeploy: bool, entrypointFee: Result<Payload, Error>, methodFee: Option<Result<Payload, Error>>)
    : Option<Result<Payload, Error>>
  {
    if selfDeploy then Some(entrypointFee) else methodFee
  }

  /**
   `DeployAccountMethod::request`: an account that pays for its own deployment pays
   after it is deployed, anybody else pays first.  The merge cannot fail, and the
   payer is the fee payload's.
   */
  method AccountRequest<E>(
    p: Protocol<E>, d: DeployAccountMethod, o: DeployAccountOptions, env: DeployEnv,
    selfDeploy: bool, entrypointFee: Result<Payload, Error>, methodFee: Option<Result<Payload, Error>>)
    returns (r: Result<Payload, Error>, ghost deploy: Payload)
    ensures r.Ok? ==> DeploymentPart(deploy, p, d, o, env)
    ensures r.Ok? ==>
              match (if selfDeploy then Some(entrypointFee) else methodFee)
              case None => r.value == deploy
              case Some(f) =>
                f.Ok? && r.value == (if selfDeploy then Combine(deploy, f.value) else Combine(f.value, deploy))
                && r.value.feePayer == f.value.feePayer
    ensures r.Err? ==>
              || SentInstance(p, d, o) == Err(r.error)
              || AccountFee(selfDeploy, entrypointFee, methodFee) == Some(Err(r.error))
              || (SentInstance(p, d, o).Ok?
                  && FirstFailure(ToDeployOptions(d, o), env,
                                  ConstructorCalls(p, d.inner, ToDeployOptions(d, o), SentInstance(p, d, o).value.address))
                     == Some(r.error))
  {
    var requested := Request(p, d.inner, ToDeployOptions(d, o), env);
    if requested.Err? {
      return Err(requested.error), EMPTY;
    }
    deploy := requested.value;
    var fee := AccountFee(selfDeploy, entrypointFee, methodFee);
    if fee.None? {
      return Ok(requested.value), deploy;
    }
    if fee.value.Err? {
      return Err(fee.value.error), deploy;
    }
    var parts := if selfDeploy then [requested.value, fee.value.value] else [fee.value.value, requested.value];
    MergeTwo(parts[0], parts[1]);
    var merged := MergePayloads(parts);
    r := Ok(merged.value);
  }

  lemma MergeTwo(a: Payload, b: Payload)
    requires !Conflict(a, b)
    ensures Merge([a, b]) == Ok(Combine(a, b))
  {
    EmptyIsNeutral(a);
    assert [a][..0] == [] && [a, b][..1] == [a];
    assert Merge([a]) == Ok(a);
  }

  /**
   The deployment request of an account with a spec ends with one call, of the
   specified initializer, and it is aimed at the manager's own address.
   */
  lemma ConstructorTargetsAccount<E>(
    p: Protocol<E>, c: AccountContract, secret: Fr, salt: Fr, randomSalt: Fr, o: DeployAccountOptions,
    env: DeployEnv, deploy: Payload)
    requires Create(p, c, secret, salt).Ok? && c.init.Some? && !o.skipInitialization
    requires var r := DeployMethodOf(p, Create(p, c, secret, salt).value, randomSalt);
             r.Ok? && DeploymentPart(deploy, p, r.value, o, env)
    ensures var m := Create(p, c, secret, salt).value;
            && deploy.calls != []
            && var last := deploy.calls[|deploy.calls| - 1];
               && last.to == m.instance.address
               && FindFunction(c.artifact, c.init.value.constructorName).Ok?
               && var f := FindFunction(c.artifact, c.init.value.constructorName).value;
                  last.selector == f.selector && p.encode(f, c.init.value.constructorArgs) == Ok(last.args)
  {
    OneAddress(p, c, secret, salt, randomSalt, o);
    var m := Create(p, c, secret, salt).value;
    var d := DeployMethodOf(p, m, randomSalt).value;
    var calls := ConstructorCalls(p, d.inner, ToDeployOptions(d, o), m.instance.address);
    assert |calls.value| == 1;
    LastCall(deploy, ToDeployOptions(d, o), env, m.instance, calls.value);
  }

  lemma LastCall(deploy: Payload, opts: DeployOptions, env: DeployEnv, instance: InstanceWithAddress, calls: seq<FunctionCall>)
    requires (PublishesClass(env, opts) ==> env.publishClass.Ok?) && |calls| == 1
    requires Requests(deploy, opts, env, instance, calls)
    ensures deploy.calls != [] && deploy.calls[|deploy.calls| - 1] == calls[0]
  {
  }

  /** An artifact whose initializer the account contract does not mention. */
  ghost predicate Unmentioned(c: AccountContract) {
    c.init.None? && FirstInitializer(c.artifact.functions).Some?
  }

  /**
   The remaining case.  Without a spec, but with an initializer in the artifact, the
   deployer picks that initializer by itself.  Deployment is refused when it takes
   arguments.  Otherwise a zero initialization hash gives the manager's instance, and
   any other one a different address, or the breach is exhibited.
   */
  lemma UnmentionedInitializer<E>(p: Protocol<E>, c: AccountContract, secret: Fr, salt: Fr, randomSalt: Fr)
    returns (b: Breach<seq<Fr>>)
    requires Create(p, c, secret, salt).Ok? && Unmentioned(c)
    ensures var f := FirstInitializer(c.artifact.functions).value;
            f.parameters != 0 ==> DeployMethodOf(p, Create(p, c, secret, salt).value, randomSalt) == Err(Abi)
    ensures var m := Create(p, c, secret, salt).value;
            var r := DeployMethodOf(p, m, randomSalt);
            r.Ok? ==>
              && var i := r.value.innerInstance;
                 && (i.inner.initializationHash == 0 ==> i == m.instance)
                 && (i.address == m.instance.address && b.Sound? && !PointsMeet(p, i.inner, m.instance.inner) ==>
                       i.inner.initializationHash == 0)
                 && Exhibits(p.hash, AddressBuilt(p, i.inner) + AddressBuilt(p, m.instance.inner), b)
    ensures var r := DeployMethodOf(p, Create(p, c, secret, salt).value, randomSalt);
            r.Ok? ==>
              && FindFunction(c.artifact, FirstInitializer(c.artifact.functions).value.name).Ok?
              && var f := FindFunction(c.artifact, FirstInitializer(c.artifact.functions).value.name).value;
                 InitializationHash(p, Some(f), []) == Ok(r.value.innerInstance.inner.initializationHash)
  {
    b := Sound;
    var m := Create(p, c, secret, salt).value;
    assert CompleteAddressOf(p, m).Ok?;
    assert m.instance.inner.initializationHash == 0;
    var r := DeployMethodOf(p, m, randomSalt);
    if r.Ok? && r.value.innerInstance.address == m.instance.address {
      b := AddressBinding(p, r.value.innerInstance.inner, m.instance.inner);
    }
  }

  /** The manager agrees with deployment for every contract that is consistent; the others are exactly the unmentioned ones. */
  lemma ConsistentOrUnmentioned(c: AccountContract)
    ensures Consistent(c) <==> !Unmentioned(c)
  {
  }
}

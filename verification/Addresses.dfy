/**
 Contract instances and their derived addresses (crates/core/src/hash.rs,
 crates/contract/src/deployment.rs).
 */
module Addresses {
  import opened Wrappers
  import opened Bytes
  import opened Fields
  import opened Merkle
  import opened Grumpkin
  import opened Schnorr
  import opened Polling
  import opened Artifacts
  import opened ArtifactHash
  import opened ContractClass
  import PrivateFunctions

  const FUNCTION_ARGS: Fr := 3_576_554_347
  const PUBLIC_KEYS_HASH: Fr := 777_457_226
  const PARTIAL_ADDRESS: Fr := 2_103_633_018
  const INITIALIZER: Fr := 385_396_519
  const CONTRACT_ADDRESS_V1: Fr := 1_788_365_517

  datatype PublicKeys = PublicKeys(nullifier: Point, incoming: Point, outgoing: Point, tagging: Point)

  /** Constructor arguments before ABI encoding. */
  datatype AbiValue = AbiValue(fields: seq<Fr>)

  datatype Instance = Instance(
    salt: Fr,
    deployer: AztecAddress,
    currentClassId: Fr,
    originalClassId: Fr,
    initializationHash: Fr,
    publicKeys: PublicKeys)

  datatype InstanceWithAddress = InstanceWithAddress(address: AztecAddress, inner: Instance)

  /**
   The foreign functions: Poseidon2, SHA-256 and UTF-8, the curve, ABI encoding and
   key derivation.
   */
  datatype Protocol<!E> = Protocol(
    hash: PrivateFunctions.Hash,
    curve: Curve<E>,
    primitives: Primitives,
    encode: (FunctionArtifact, seq<AbiValue>) -> Result<seq<Fr>, Error>,
    deriveKeys: Fr -> PublicKeys)

  function FindFunction(a: Artifact, name: string): Result<FunctionArtifact, Error> {
    FindIn(a.functions, name)
  }

  /** Position `i` holds the first function of that name. */
  ghost predicate NamedAt(fs: seq<FunctionArtifact>, name: string, i: nat)
    requires i < |fs|
  {
    fs[i].name == name && forall j :: 0 <= j < i ==> fs[j].name != name
  }

  function FindIn(fs: seq<FunctionArtifact>, name: string): (r: Result<FunctionArtifact, Error>)
    ensures r.Err? <==> forall f :: f in fs ==> f.name != name
    ensures r.Ok? ==> exists i :: 0 <= i < |fs| && fs[i] == r.value && NamedAt(fs, name, i)
  {
    if fs == [] then Err(Abi)
    else if fs[0].name == name then
      assert NamedAt(fs, name, 0);
      Ok(fs[0])
    else
      var rest := FindIn(fs[1..], name);
      assert rest.Ok? ==> forall i :: 0 <= i < |fs| - 1 && fs[1..][i] == rest.value && NamedAt(fs[1..], name, i) ==> NamedAt(fs, name, i + 1);
      rest
  }

  predicate IsZeroPoint(p: Point) { p.x == 0 && p.y == 0 && !p.isInfinite }

  function PointFields(p: Point): seq<Fr> { [p.x, p.y, if p.isInfinite then 1 else 0] }

  predicate EmptyKeys(k: PublicKeys) {
    IsZeroPoint(k.nullifier) && IsZeroPoint(k.incoming) && IsZeroPoint(k.outgoing) && IsZeroPoint(k.tagging)
  }

  /** What the keys hash is computed from; empty keys are not hashed. */
  function KeysPreimage(k: PublicKeys): Option<seq<Fr>> {
    if EmptyKeys(k) then None
    else Some([PUBLIC_KEYS_HASH] + PointFields(k.nullifier) + PointFields(k.incoming)
              + PointFields(k.outgoing) + PointFields(k.tagging))
  }

  function KeysHash<E>(p: Protocol<E>, k: PublicKeys): Fr { OptionHash(p.hash, KeysPreimage(k)) }

  function ArgsPreimage(args: seq<Fr>): Option<seq<Fr>> { if args == [] then None else Some([FUNCTION_ARGS] + args) }

  function VarArgsHash<E>(p: Protocol<E>, args: seq<Fr>): Fr { OptionHash(p.hash, ArgsPreimage(args)) }

  /** An initializer call: selector and encoded arguments. */
  datatype InitCall = InitCall(selector: PrivateFunctions.Selector, args: seq<Fr>)

  function EncodeInit<E>(p: Protocol<E>, init: Option<FunctionArtifact>, args: seq<AbiValue>): Result<Option<InitCall>, Error> {
    match init
    case None => Ok(None)
    case Some(f) =>
      match p.encode(f, args)
      case Err(e) => Err(e)
      case Ok(fields) => Ok(Some(InitCall(f.selector, fields)))
  }

  function InitPreimage<E>(p: Protocol<E>, call: Option<InitCall>): Option<seq<Fr>> {
    match call
    case None => None
    case Some(c) => Some([INITIALIZER, c.selector, VarArgsHash(p, c.args)])
  }

  /** `compute_initialization_hash`: zero without an initializer. */
  function InitializationHash<E>(p: Protocol<E>, init: Option<FunctionArtifact>, args: seq<AbiValue>): Result<Fr, Error> {
    match EncodeInit(p, init, args)
    case Err(e) => Err(e)
    case Ok(call) => Ok(OptionHash(p.hash, InitPreimage(p, call)))
  }

  function SaltedPreimage(i: Instance): seq<Fr> { [PARTIAL_ADDRESS, i.salt, i.initializationHash, i.deployer] }

  function PartialPreimage<E>(p: Protocol<E>, i: Instance): seq<Fr> {
    [PARTIAL_ADDRESS, i.originalClassId, p.hash(SaltedPreimage(i))]
  }

  function PartialAddressOf<E>(p: Protocol<E>, i: Instance): Fr { p.hash(PartialPreimage(p, i)) }

  function PreaddressPreimage<E>(p: Protocol<E>, keys: PublicKeys, partial: Fr): seq<Fr> {
    [CONTRACT_ADDRESS_V1, KeysHash(p, keys), partial]
  }

  /** preaddress * G plus the incoming viewing key. */
  function AddressPoint<E>(p: Protocol<E>, preaddress: Fr, incoming: Point): Point {
    var point := ScalarMul(p.curve, FrToFq(preaddress), Generator(p.curve));
    if IsZeroPoint(incoming) then point else PointAdd(p.curve, point, incoming)
  }

  /** `compute_address`. */
  function ComputeAddress<E>(p: Protocol<E>, keys: PublicKeys, partial: Fr): Result<AztecAddress, Error> {
    var sum := AddressPoint(p, p.hash(PreaddressPreimage(p, keys, partial)), keys.incoming);
    if sum.isInfinite then Err(InvalidData) else Ok(sum.x)
  }

  /** `compute_contract_address_from_instance`. */
  function AddressOfInstance<E>(p: Protocol<E>, i: Instance): Result<AztecAddress, Error> {
    ComputeAddress(p, i.publicKeys, PartialAddressOf(p, i))
  }

  datatype InstantiationParams = InstantiationParams(
    constructorName: Option<string>,
    constructorArgs: seq<AbiValue>,
    salt: Fr,
    publicKeys: PublicKeys,
    deployer: AztecAddress)

  function InitFunction(a: Artifact, name: Option<string>): Result<Option<FunctionArtifact>, Error> {
    match name
    case None => Ok(None)
    case Some(n) => match FindFunction(a, n) case Ok(f) => Ok(Some(f)) case Err(e) => Err(e)
  }

  /** `get_contract_instance_from_instantiation_params`, with the benchmark override off. */
  function GetInstance<E>(p: Protocol<E>, a: Artifact, params: InstantiationParams): (r: Result<InstanceWithAddress, Error>)
    ensures r.Ok? ==> AddressOfInstance(p, r.value.inner) == Ok(r.value.address)
    ensures r.Ok? ==> ClassIdOf(p.hash, p.primitives, a).Ok?
                      && r.value.inner.originalClassId == ClassIdOf(p.hash, p.primitives, a).value
                      && r.value.inner.currentClassId == r.value.inner.originalClassId
    ensures r.Ok? ==> InitFunction(a, params.constructorName).Ok?
                      && InitializationHash(p, InitFunction(a, params.constructorName).value, params.constructorArgs)
                         == Ok(r.value.inner.initializationHash)
    ensures r.Ok? ==> r.value.inner.salt == params.salt && r.value.inner.deployer == params.deployer
                      && r.value.inner.publicKeys == params.publicKeys
  {
    match ClassIdOf(p.hash, p.primitives, a)
    case Err(_) => Err(InvalidData)
    case Ok(classId) =>
      match InitFunction(a, params.constructorName)
      case Err(e) => Err(e)
      case Ok(init) =>
        match InitializationHash(p, init, params.constructorArgs)
        case Err(e) => Err(e)
        case Ok(initHash) =>
          var inner := Instance(params.salt, params.deployer, classId, classId, initHash, params.publicKeys);
          match AddressOfInstance(p, inner)
          case Err(e) => Err(e)
          case Ok(address) => Ok(InstanceWithAddress(address, inner))
  }

  // ----- What an address is -----

  /** The x-coordinate of a group element, if it is a finite point. */
  ghost function XOf<E>(p: Protocol<E>, e: E): Result<AztecAddress, Error> {
    if p.curve.toPoint(e).isInfinite then Err(InvalidData) else Ok(p.curve.toPoint(e).x)
  }

  /**
   The address on the curve: for the incoming viewing key v*G it is the x-coordinate
   of (preaddress + v)*G, and for the zero point, which stands for no key, that of
   preaddress*G.  It is an error exactly when that multiple is the neutral element.
   */
  lemma AddressOnCurve<E(!new)>(p: Protocol<E>, keys: PublicKeys, partial: Fr, v: nat)
    requires IsGrumpkin(p.curve)
    ensures var pre := p.hash([1_788_365_517, KeysHash(p, keys), partial]);
            && (IsZeroPoint(keys.incoming) ==>
                  ComputeAddress(p, keys, partial) == XOf(p, Times(p.curve, pre, p.curve.gen)))
            && (!IsZeroPoint(keys.incoming) && keys.incoming == p.curve.toPoint(Times(p.curve, v, p.curve.gen)) ==>
                  ComputeAddress(p, keys, partial) == XOf(p, Times(p.curve, (pre + v) % Q, p.curve.gen)))
  {
    var c, pre := p.curve, p.hash(PreaddressPreimage(p, keys, partial));
    FrToFqNeverReduces(pre);
    PublicKeyIsMultiple(c, pre);
    if keys.incoming == c.toPoint(Times(c, v, c.gen)) {
      AddMultiples(c, pre, v);
      TimesModOrder(c, pre + v);
    }
  }

  /** Where the generator's order is exactly q, there is no address exactly when preaddress + v vanishes modulo q. */
  lemma NoAddressIff<E(!new)>(p: Protocol<E>, keys: PublicKeys, partial: Fr, v: nat)
    requires ExactOrder(p.curve)
    requires !IsZeroPoint(keys.incoming) && keys.incoming == p.curve.toPoint(Times(p.curve, v, p.curve.gen))
    ensures ComputeAddress(p, keys, partial).Err?
       <==> (p.hash([1_788_365_517, KeysHash(p, keys), partial]) + v) % Q == 0
  {
    AddressOnCurve(p, keys, partial, v);
    var n := (p.hash([1_788_365_517, KeysHash(p, keys), partial]) + v) % Q;
    assert ConvertsAt(p.curve, Times(p.curve, n, p.curve.gen));
  }

  /** `PublicKeys::hash`: zero for four zero points, otherwise a hash of the four points in order. */
  lemma KeysHashIs<E>(p: Protocol<E>, k: PublicKeys)
    ensures (k == PublicKeys(Point(0, 0, false), Point(0, 0, false), Point(0, 0, false), Point(0, 0, false))) ==> KeysHash(p, k) == 0
    ensures k != PublicKeys(Point(0, 0, false), Point(0, 0, false), Point(0, 0, false), Point(0, 0, false)) ==>
              var flag := (q: Point) => if q.isInfinite then 1 else 0;
              KeysHash(p, k) == p.hash([777_457_226,
                                        k.nullifier.x, k.nullifier.y, flag(k.nullifier),
                                        k.incoming.x, k.incoming.y, flag(k.incoming),
                                        k.outgoing.x, k.outgoing.y, flag(k.outgoing),
                                        k.tagging.x, k.tagging.y, flag(k.tagging)])
  {
    var flag := (q: Point) => if q.isInfinite then 1 else 0;
    assert KeysPreimage(k).Some? ==>
        KeysPreimage(k).value == [777_457_226,
                                  k.nullifier.x, k.nullifier.y, flag(k.nullifier),
                                  k.incoming.x, k.incoming.y, flag(k.incoming),
                                  k.outgoing.x, k.outgoing.y, flag(k.outgoing),
                                  k.tagging.x, k.tagging.y, flag(k.tagging)];
  }

  /** The partial address: the class with the salted initialization, the latter from salt, initialization and deployer. */
  lemma PartialAddressIs<E>(p: Protocol<E>, i: Instance)
    ensures PartialAddressOf(p, i) ==
            p.hash([2_103_633_018, i.originalClassId, p.hash([2_103_633_018, i.salt, i.initializationHash, i.deployer])])
  {
  }

  /** The initialization hash: zero for none, otherwise over the selector and the hash of the encoded arguments, zero for none. */
  lemma InitializationHashIs<E>(p: Protocol<E>, f: FunctionArtifact, args: seq<AbiValue>)
    ensures InitializationHash(p, None, args) == Ok(0)
    ensures p.encode(f, args).Err? ==> InitializationHash(p, Some(f), args) == Err(p.encode(f, args).error)
    ensures p.encode(f, args).Ok? ==>
              var fields := p.encode(f, args).value;
              InitializationHash(p, Some(f), args)
              == Ok(p.hash([385_396_519, f.selector, if fields == [] then 0 else p.hash([3_576_554_347] + fields)]))
  {
  }

  // ----- What an address commits to -----

  /** The instances agree in everything an address is derived from. */
  ghost predicate SameOrigin(i: Instance, j: Instance) {
    && i.salt == j.salt && i.deployer == j.deployer && i.originalClassId == j.originalClassId
    && i.initializationHash == j.initializationHash && i.publicKeys == j.publicKeys
  }

  /** Every field list hashed on the way from an instance to its address. */
  ghost function AddressBuilt<E>(p: Protocol<E>, i: Instance): set<seq<Fr>> {
    {SaltedPreimage(i), PartialPreimage(p, i), PreaddressPreimage(p, i.publicKeys, PartialAddressOf(p, i))}
    + match KeysPreimage(i.publicKeys) case Some(k) => {k} case None => {}
  }

  function Preaddress<E>(p: Protocol<E>, i: Instance): Fr {
    p.hash(PreaddressPreimage(p, i.publicKeys, PartialAddressOf(p, i)))
  }

  /** Two instances whose preaddresses or incoming keys differ, and whose finite address points share an x. */
  ghost predicate PointsMeet<E>(p: Protocol<E>, i: Instance, j: Instance) {
    var a, b := AddressPoint(p, Preaddress(p, i), i.publicKeys.incoming), AddressPoint(p, Preaddress(p, j), j.publicKeys.incoming);
    && (Preaddress(p, i) != Preaddress(p, j) || i.publicKeys.incoming != j.publicKeys.incoming)
    && !a.isInfinite && !b.isInfinite && a.x == b.x
  }

  /**
   One address, one instance: salt, deployer, class, initialization and keys agree,
   or Poseidon2 is broken on a list hashed for one of the two, or two different
   pairs of preaddress and key lead to points with one x-coordinate.
   */
  lemma AddressBinding<E>(p: Protocol<E>, i: Instance, j: Instance) returns (b: Breach<seq<Fr>>)
    requires AddressOfInstance(p, i).Ok? && AddressOfInstance(p, i) == AddressOfInstance(p, j)
    ensures b.Sound? && !PointsMeet(p, i, j) ==> SameOrigin(i, j)
    ensures Exhibits(p.hash, AddressBuilt(p, i) + AddressBuilt(p, j), b)
  {
    var built := AddressBuilt(p, i) + AddressBuilt(p, j);
    b := Sound;
    if Preaddress(p, i) == Preaddress(p, j) {
      var x, y := PreaddressPreimage(p, i.publicKeys, PartialAddressOf(p, i)), PreaddressPreimage(p, j.publicKeys, PartialAddressOf(p, j));
      b := HashedAlike(p.hash, x, y, built);
      if b.Sound? {
        assert x[1] == y[1] && x[2] == y[2];
        b := KeysBinding(p, i, j);
        if b.Sound? {
          b := PartialBinding(p, i, j);
        }
      }
    }
  }

  lemma KeysBinding<E>(p: Protocol<E>, i: Instance, j: Instance) returns (b: Breach<seq<Fr>>)
    requires KeysHash(p, i.publicKeys) == KeysHash(p, j.publicKeys)
    ensures b.Sound? ==> i.publicKeys == j.publicKeys
    ensures Exhibits(p.hash, AddressBuilt(p, i) + AddressBuilt(p, j), b)
  {
    b := OptionAlike(p.hash, KeysPreimage(i.publicKeys), KeysPreimage(j.publicKeys), AddressBuilt(p, i) + AddressBuilt(p, j));
    if b.Sound? {
      KeysPreimageInjective(i.publicKeys, j.publicKeys);
    }
  }

  lemma KeysPreimageInjective(k: PublicKeys, l: PublicKeys)
    requires KeysPreimage(k) == KeysPreimage(l)
    ensures k == l
  {
    if KeysPreimage(k).Some? {
      var x, y := KeysPreimage(k).value, KeysPreimage(l).value;
      assert x[1..4] == PointFields(k.nullifier) && y[1..4] == PointFields(l.nullifier);
      assert x[4..7] == PointFields(k.incoming) && y[4..7] == PointFields(l.incoming);
      assert x[7..10] == PointFields(k.outgoing) && y[7..10] == PointFields(l.outgoing);
      assert x[10..13] == PointFields(k.tagging) && y[10..13] == PointFields(l.tagging);
      PointFieldsInjective(k.nullifier, l.nullifier);
      PointFieldsInjective(k.incoming, l.incoming);
      PointFieldsInjective(k.outgoing, l.outgoing);
      PointFieldsInjective(k.tagging, l.tagging);
    }
  }

  lemma PointFieldsInjective(p: Point, q: Point)
    requires PointFields(p) == PointFields(q)
    ensures p == q
  {
    assert PointFields(p)[0] == p.x && PointFields(p)[1] == p.y && PointFields(q)[0] == q.x && PointFields(q)[1] == q.y;
    assert PointFields(p)[2] == PointFields(q)[2];
  }

  lemma PartialBinding<E>(p: Protocol<E>, i: Instance, j: Instance) returns (b: Breach<seq<Fr>>)
    requires PartialAddressOf(p, i) == PartialAddressOf(p, j)
    ensures b.Sound? ==>
              && i.salt == j.salt && i.deployer == j.deployer
              && i.originalClassId == j.originalClassId && i.initializationHash == j.initializationHash
    ensures Exhibits(p.hash, AddressBuilt(p, i) + AddressBuilt(p, j), b)
  {
    var built := AddressBuilt(p, i) + AddressBuilt(p, j);
    b := HashedAlike(p.hash, PartialPreimage(p, i), PartialPreimage(p, j), built);
    if b.Sound? {
      assert PartialPreimage(p, i)[1] == PartialPreimage(p, j)[1] && PartialPreimage(p, i)[2] == PartialPreimage(p, j)[2];
      b := HashedAlike(p.hash, SaltedPreimage(i), SaltedPreimage(j), built);
      var x, y := SaltedPreimage(i), SaltedPreimage(j);
      assert x == y ==> x[1] == y[1] && x[2] == y[2] && x[3] == y[3];
    }
  }

  // ----- From an address back to the artifact -----

  /** The initializer call an instantiation makes, where there is an instance. */
  function InitCallOf<E>(p: Protocol<E>, a: Artifact, params: InstantiationParams): Option<InitCall>
    requires GetInstance(p, a, params).Ok?
  {
    EncodeInit(p, InitFunction(a, params.constructorName).value, params.constructorArgs).value
  }

  ghost function InitBuilt<E>(p: Protocol<E>, call: Option<InitCall>): set<seq<Fr>> {
    match call
    case None => {}
    case Some(c) =>
      {InitPreimage(p, call).value} + match ArgsPreimage(c.args) case Some(a) => {a} case None => {}
  }

  lemma InitBinding<E>(p: Protocol<E>, c: Option<InitCall>, d: Option<InitCall>) returns (b: Breach<seq<Fr>>)
    requires OptionHash(p.hash, InitPreimage(p, c)) == OptionHash(p.hash, InitPreimage(p, d))
    ensures b.Sound? ==> c == d
    ensures Exhibits(p.hash, InitBuilt(p, c) + InitBuilt(p, d), b)
  {
    var built := InitBuilt(p, c) + InitBuilt(p, d);
    b := OptionAlike(p.hash, InitPreimage(p, c), InitPreimage(p, d), built);
    if b.Sound? && c.Some? {
      var x, y := InitPreimage(p, c).value, InitPreimage(p, d).value;
      assert x[1] == y[1] && x[2] == y[2];
      var k, l := c.value.args, d.value.args;
      b := OptionAlike(p.hash, ArgsPreimage(k), ArgsPreimage(l), built);
      if b.Sound? && k != [] {
        assert ([FUNCTION_ARGS] + k)[1..] == k && ([FUNCTION_ARGS] + l)[1..] == l;
      }
    }
  }

  /** Every field list hashed for an instantiation. */
  ghost function InstanceBuilt<E>(p: Protocol<E>, a: Artifact, params: InstantiationParams): set<seq<Fr>>
    requires GetInstance(p, a, params).Ok?
  {
    AddressBuilt(p, GetInstance(p, a, params).value.inner) + InitBuilt(p, InitCallOf(p, a, params))
    + ClassBuilt(p.hash, p.primitives, a)
  }

  /**
   An address commits to the whole instantiation: the class with its functions,
   keys and bytecode, the initializer with its encoded arguments, salt, deployer and
   public keys; or one of the two hashes is broken on a string hashed for one of
   the two, or the two address points meet.
   */
  lemma InstanceBinding<E>(p: Protocol<E>, a: Artifact, params: InstantiationParams, a': Artifact, params': InstantiationParams)
    returns (b: Breach<seq<Fr>>, s: Breach<seq<Byte>>)
    requires GetInstance(p, a, params).Ok? && GetInstance(p, a', params').Ok?
    requires GetInstance(p, a, params).value.address == GetInstance(p, a', params').value.address
    requires Utf8Injective(p.primitives) && WellFormedArtifact(a) && WellFormedArtifact(a')
    ensures b.Sound? && s.Sound?
            && !PointsMeet(p, GetInstance(p, a, params).value.inner, GetInstance(p, a', params').value.inner) ==>
              && SameClass(a, a') && InitCallOf(p, a, params) == InitCallOf(p, a', params')
              && params.salt == params'.salt && params.deployer == params'.deployer
              && params.publicKeys == params'.publicKeys
    ensures Exhibits(p.hash, InstanceBuilt(p, a, params) + InstanceBuilt(p, a', params'), b)
    ensures Exhibits(p.primitives.sha, BuiltForArtifact(p.primitives, a) + BuiltForArtifact(p.primitives, a'), s)
  {
    var i, j := GetInstance(p, a, params).value.inner, GetInstance(p, a', params').value.inner;
    s := Sound;
    b := AddressBinding(p, i, j);
    if b.Sound? && !PointsMeet(p, i, j) {
      b := InitBinding(p, InitCallOf(p, a, params), InitCallOf(p, a', params'));
      if b.Sound? {
        b, s := ClassIdBinding(p.hash, p.primitives, a, a');
      }
    }
  }
}

/**
 Byte buffers packed 31 to a field element (crates/core/src/abi/buffer.rs), and
 the public bytecode commitment built on the packing (crates/core/src/hash.rs).
 */
module ByteFields {
  import opened Wrappers
  import opened Bytes
  import opened Fields

  const CHUNK: nat := 31
  const MAX_BYTECODE_FIELDS: nat := 3000
  const PUBLIC_BYTECODE: int := 260_313_585

  datatype PackError = TooManyFields | EmptyFields | BytecodeTooLong

  function Zeros(n: nat): seq<Byte> { seq(n, _ => 0) }

  /** A chunk at bytes 1.. of a 32-byte word, zeros after it. */
  function ChunkField(c: seq<Byte>): Fr
    requires |c| <= CHUNK
  {
    FrFromBytes([0] + c + Zeros(CHUNK - |c|))
  }

  function NumChunks(n: nat): nat { (n + 30) / 31 }

  /** Length of the next chunk: 31 bytes, or what is left. */
  function Cut(n: nat): nat { if n <= CHUNK then n else CHUNK }

  /** The packed chunks of a buffer. */
  function Pack(b: seq<Byte>): seq<Fr> {
    if b == [] then [] else [ChunkField(b[..Cut(|b|)])] + Pack(b[Cut(|b|)..])
  }

  lemma PackStep(b: seq<Byte>)
    requires b != []
    ensures Pack(b) == [ChunkField(b[..Cut(|b|)])] + Pack(b[Cut(|b|)..])
  {
  }

  lemma {:induction false} PackLength(b: seq<Byte>)
    ensures |Pack(b)| == NumChunks(|b|)
  {
    if b != [] {
      PackLength(b[Cut(|b|)..]);
    }
  }

  /** The low 31 bytes of every field, concatenated. */
  function Unpack(fs: seq<Fr>): seq<Byte> {
    if fs == [] then [] else FrToBytes(fs[0])[1..] + Unpack(fs[1..])
  }

  /** A chunk survives the field: the value stays below r, so no byte changes. */
  lemma ChunkReadBack(c: seq<Byte>)
    requires |c| <= CHUNK
    ensures FrToBytes(ChunkField(c))[1..] == c + Zeros(CHUNK - |c|)
  {
    var word := [0] + c + Zeros(CHUNK - |c|);
    assert word == seq(1, _ => 0) + word[1..];
    BeValueLeadingZeros(1, word[1..]);
    BeValueBound(word[1..]);
    Pow256Widths();
    FrFromBytesCanonical(word);
    assert word[1..] == c + Zeros(CHUNK - |c|);
  }

  lemma UnpackStep(f: Fr, fs: seq<Fr>)
    ensures Unpack([f] + fs) == FrToBytes(f)[1..] + Unpack(fs)
  {
    assert ([f] + fs)[1..] == fs;
  }

  /** Unpacking starts with the packed buffer, whatever fields follow it. */
  lemma {:induction false} UnpackOfPack(b: seq<Byte>, tail: seq<Fr>)
    ensures b <= Unpack(Pack(b) + tail)
  {
    if b != [] {
      var c, rest := b[..Cut(|b|)], b[Cut(|b|)..];
      UnpackOfPack(rest, tail);
      PackStep(b);
      assert Pack(b) + tail == [ChunkField(c)] + (Pack(rest) + tail);
      UnpackStep(ChunkField(c), Pack(rest) + tail);
      ChunkReadBack(c);
      ChunkPrefix(b, Unpack(Pack(rest) + tail));
    }
  }

  lemma ChunkPrefix(b: seq<Byte>, u: seq<Byte>)
    requires b[Cut(|b|)..] <= u
    ensures b <= b[..Cut(|b|)] + Zeros(CHUNK - Cut(|b|)) + u
  {
    if |b| > CHUNK {
      assert b == b[..CHUNK] + b[CHUNK..];
      assert Zeros(0) == [];
    }
  }

  lemma PackFrom(input: seq<Byte>, i: nat, end: nat)
    requires i < |input| && end == i + Cut(|input| - i)
    ensures Pack(input[i..]) == [ChunkField(input[i..end])] + Pack(input[end..])
  {
    var rest := input[i..];
    assert rest[..end - i] == input[i..end];
    assert rest[end - i..] == input[end..];
    PackStep(rest);
  }

  /** The chunk loop both callers run. */
  method PackChunks(input: seq<Byte>) returns (fields: seq<Fr>)
    ensures fields == Pack(input)
  {
    fields := [];
    var i := 0;
    while i < |input|
      invariant 0 <= i <= |input|
      invariant fields + Pack(input[i..]) == Pack(input)
    {
      var end := i + Cut(|input| - i);
      PackFrom(input, i, end);
      fields := fields + [ChunkField(input[i..end])];
      i := end;
    }
  }

  lemma PackInjective(b: seq<Byte>, c: seq<Byte>)
    requires |b| == |c| && Pack(b) == Pack(c)
    ensures b == c
  {
    UnpackOfPack(b, []);
    UnpackOfPack(c, []);
  }

  // ----- buffer_as_fields and buffer_from_fields -----

  function AsFields(b: seq<Byte>, target: nat): Result<seq<Fr>, PackError> {
    var encoded := [LengthField(|b|)] + Pack(b);
    if |encoded| > target then Err(TooManyFields) else Ok(encoded + ZeroFields(target - |encoded|))
  }

  function ZeroFields(n: nat): seq<Fr> { seq(n, _ => 0) }

  function LengthField(n: nat): Fr { n % TWO_64 }

  function FromFields(fs: seq<Fr>): Result<seq<Byte>, PackError> {
    if fs == [] then Err(EmptyFields)
    else
      Ok(Truncate(Unpack(fs[1..]), fs[0] % TWO_64))
  }

  /** `Vec::truncate`. */
  function Truncate(b: seq<Byte>, n: nat): seq<Byte> { if n < |b| then b[..n] else b }

  method BufferAsFields(input: seq<Byte>, target: nat) returns (r: Result<seq<Fr>, PackError>)
    ensures r == AsFields(input, target)
  {
    var chunks := PackChunks(input);
    var encoded := [LengthField(|input|)] + chunks;
    if |encoded| > target {
      return Err(TooManyFields);
    }
    return Ok(encoded + ZeroFields(target - |encoded|));
  }

  method BufferFromFields(fields: seq<Fr>) returns (r: Result<seq<Byte>, PackError>)
    ensures r == FromFields(fields)
  {
    if fields == [] {
      return Err(EmptyFields);
    }
    var length := ToUsize(fields[0]);
    var result: seq<Byte> := [];
    for i := 1 to |fields|
      invariant result + Unpack(fields[i..]) == Unpack(fields[1..])
    {
      assert fields[i..] == [fields[i]] + fields[i + 1..];
      UnpackStep(fields[i], fields[i + 1..]);
      result := result + FrToBytes(fields[i])[1..];
    }
    assert fields[|fields|..] == [];
    assert result == Unpack(fields[1..]);
    return Ok(Truncate(result, length));
  }

  /** Encoding is refused exactly when the length field and the chunks exceed the target; otherwise it is undone. */
  lemma BufferRoundTrip(b: seq<Byte>, target: nat)
    requires |b| < TWO_64
    ensures AsFields(b, target).Ok? <==> 1 + NumChunks(|b|) <= target
    ensures AsFields(b, target).Ok? ==>
              |AsFields(b, target).value| == target && FromFields(AsFields(b, target).value) == Ok(b)
  {
    PackLength(b);
    if 1 + |Pack(b)| <= target {
      var pad := ZeroFields(target - 1 - |Pack(b)|);
      assert AsFields(b, target).value == [LengthField(|b|)] + (Pack(b) + pad);
      UnpackOfPack(b, pad);
      FromFieldsPrefix(b, Pack(b) + pad);
    }
  }

  lemma FromFieldsPrefix(b: seq<Byte>, fs: seq<Fr>)
    requires |b| < TWO_64 && b <= Unpack(fs)
    ensures FromFields([LengthField(|b|)] + fs) == Ok(b)
  {
    assert ([LengthField(|b|)] + fs)[1..] == fs;
    assert Truncate(Unpack(fs), |b|) == b;
  }

  // ----- The bytecode commitment -----

  function Separator(n: nat): int { PUBLIC_BYTECODE + n * TWO_32 }

  /** The field list the commitment hashes: separator, then the chunks, with no padding. */
  function CommitmentPreimage(b: seq<Byte>): Result<seq<Fr>, PackError> {
    if NumChunks(|b|) < MAX_BYTECODE_FIELDS then
      SeparatorFits(|b|);
      Ok([Separator(|b|)] + Pack(b))
    else Err(BytecodeTooLong)
  }

  /** Within the bound the shifted length fits 64 bits beside the separator constant. */
  lemma SeparatorFits(n: nat)
    requires NumChunks(n) < MAX_BYTECODE_FIELDS
    ensures n < TWO_32 && 0 <= Separator(n) < TWO_64 && Separator(n) < R
  {
    assert n <= 31 * 2999;
  }

  method PublicBytecodeCommitment(hash: seq<Fr> -> Fr, bytecode: seq<Byte>) returns (r: Result<Fr, PackError>)
    ensures r == match CommitmentPreimage(bytecode)
                 case Ok(preimage) => Ok(hash(preimage))
                 case Err(e) => Err(e)
  {
    if NumChunks(|bytecode|) >= MAX_BYTECODE_FIELDS {
      return Err(BytecodeTooLong);
    }
    var fields := PackChunks(bytecode);
    SeparatorFits(|bytecode|);
    return Ok(hash([Separator(|bytecode|)] + fields));
  }

  /** The separator gives the byte length back, so equal preimages mean equal bytecode. */
  lemma CommitmentPreimageInjective(b: seq<Byte>, c: seq<Byte>)
    requires CommitmentPreimage(b).Ok? && CommitmentPreimage(b) == CommitmentPreimage(c)
    ensures b == c
  {
    var p, q := CommitmentPreimage(b).value, CommitmentPreimage(c).value;
    assert p[0] == Separator(|b|) && q[0] == Separator(|c|);
    assert p[1..] == Pack(b) && q[1..] == Pack(c);
    PackInjective(b, c);
  }

  /** Without the length, bytecode and the same bytecode followed by a zero byte would pack alike. */
  lemma {:induction false} PackAloneIsAmbiguous(b: seq<Byte>)
    requires |b| % CHUNK != 0
    ensures Pack(b) == Pack(b + [0])
  {
    if |b| > CHUNK {
      PackAloneIsAmbiguous(b[CHUNK..]);
      assert (b + [0])[..CHUNK] == b[..CHUNK] && (b + [0])[CHUNK..] == b[CHUNK..] + [0];
    } else {
      assert [0] + (b + [0]) + Zeros(CHUNK - |b| - 1) == [0] + b + Zeros(CHUNK - |b|);
      assert ChunkField(b + [0]) == ChunkField(b);
      assert b[..|b|] == b && (b + [0])[..|b| + 1] == b + [0];
      assert Pack(b[|b|..]) == [] && Pack((b + [0])[|b| + 1..]) == [];
    }
  }

  /** The commitment's strict bound and the capsule's bound with its length field accept the same bytecode. */
  lemma BoundsAgree(b: seq<Byte>)
    ensures CommitmentPreimage(b).Ok? <==> AsFields(b, MAX_BYTECODE_FIELDS).Ok?
    ensures CommitmentPreimage(b).Ok? <==> |b| <= 31 * 2999
  {
    PackLength(b);
  }

  /** What the commitment hashes: the separator plus the length times 2^32, then the packed bytecode. */
  lemma CommitmentIs(b: seq<Byte>)
    ensures CommitmentPreimage(b).Ok? <==> |b| <= 31 * 2999
    ensures CommitmentPreimage(b).Ok? ==> CommitmentPreimage(b).value == [260_313_585 + |b| * 0x1_0000_0000] + Pack(b)
  {
    BoundsAgree(b);
    if CommitmentPreimage(b).Ok? {
      SeparatorFits(|b|);
    }
  }

  /** Bytes 31i to 31i + 31, or what is left of them. */
  function ChunkAt(b: seq<Byte>, i: nat): (c: seq<Byte>)
    requires 31 * i < |b|
    ensures |c| <= 31
  {
    if 31 * i + 31 <= |b| then b[31 * i..31 * i + 31] else b[31 * i..]
  }

  lemma {:induction false} PackAt(b: seq<Byte>, i: nat)
    requires 31 * i < |b|
    ensures i < |Pack(b)| && Pack(b)[i] == ChunkField(ChunkAt(b, i))
  {
    PackStep(b);
    if i == 0 {
      assert ChunkAt(b, 0) == b[..Cut(|b|)];
    } else {
      PackAt(b[31..], i - 1);
      ChunkOfRest(b, i);
    }
  }

  lemma ChunkOfRest(b: seq<Byte>, i: nat)
    requires i > 0 && 31 * i < |b|
    ensures ChunkAt(b[31..], i - 1) == ChunkAt(b, i)
  {
  }

  /** Packed element by element: field `i` is the number of its chunk, filled up with zero bytes on the right. */
  lemma PackedValue(b: seq<Byte>, i: nat)
    requires 31 * i < |b|
    ensures i < |Pack(b)| && Pack(b)[i] == BeValue(ChunkAt(b, i) + seq(31 - |ChunkAt(b, i)|, _ => 0))
  {
    PackAt(b, i);
    ChunkValue(ChunkAt(b, i));
  }

  lemma ChunkValue(c: seq<Byte>)
    requires |c| <= CHUNK
    ensures ChunkField(c) == BeValue(c + Zeros(CHUNK - |c|))
  {
    var tail := c + Zeros(CHUNK - |c|);
    assert [0] + c + Zeros(CHUNK - |c|) == [0] + tail;
    TopZeroByte(tail);
  }

  /** The packed buffer element by element: length, chunks, zeros. */
  lemma AsFieldsElements(b: seq<Byte>, target: nat)
    requires |b| < TWO_64 && AsFields(b, target).Ok?
    ensures |Pack(b)| == (|b| + 30) / 31
    ensures var fs := AsFields(b, target).value;
            && |fs| == target && target > |Pack(b)|
            && fs[0] == |b|
            && (forall i :: 0 <= i < |Pack(b)| ==> fs[1 + i] == Pack(b)[i])
            && (forall i :: |Pack(b)| < i < target ==> fs[i] == 0)
  {
    PackLength(b);
    Zones(LengthField(|b|), Pack(b), target - 1 - |Pack(b)|);
  }

  lemma Zones(head: Fr, mid: seq<Fr>, n: nat)
    ensures var fs := [head] + mid + ZeroFields(n);
            && |fs| == 1 + |mid| + n && fs[0] == head && fs[1..1 + |mid|] == mid
            && (forall i :: 0 <= i < |mid| ==> fs[1 + i] == mid[i])
            && (forall i :: |mid| < i < |fs| ==> fs[i] == 0)
  {
  }

  /** The field list of the capsule `publish_contract_class` attaches; empty bytecode gets no capsule. */
  function CapsuleFields(b: seq<Byte>): Result<Option<seq<Fr>>, PackError> {
    if b == [] then Ok(None)
    else match AsFields(b, MAX_BYTECODE_FIELDS) case Ok(fs) => Ok(Some(fs)) case Err(e) => Err(e)
  }

  /**
   What a class publication carries.  Whenever the commitment exists the capsule can
   be built; it is absent exactly for empty bytecode, and otherwise its fields, apart
   from the length in front and the padding behind, are the very fields the
   commitment hashes, and it unpacks to the bytecode.
   */
  lemma CapsuleCarriesCommitment(b: seq<Byte>)
    requires CommitmentPreimage(b).Ok?
    ensures CapsuleFields(b).Ok? && (CapsuleFields(b).value.None? <==> b == [])
    ensures b != [] ==>
              var fs, preimage := CapsuleFields(b).value.value, CommitmentPreimage(b).value;
              && |fs| == MAX_BYTECODE_FIELDS
              && fs[1..1 + NumChunks(|b|)] == preimage[1..]
              && fs[0] * TWO_32 + PUBLIC_BYTECODE == preimage[0]
              && FromFields(fs) == Ok(b)
  {
    BoundsAgree(b);
    if b != [] {
      CapsuleOf(b, AsFields(b, MAX_BYTECODE_FIELDS).value, CommitmentPreimage(b).value);
    }
  }

  lemma CapsuleOf(b: seq<Byte>, fs: seq<Fr>, preimage: seq<Fr>)
    requires AsFields(b, MAX_BYTECODE_FIELDS) == Ok(fs) && CommitmentPreimage(b) == Ok(preimage)
    ensures |fs| == MAX_BYTECODE_FIELDS && NumChunks(|b|) < MAX_BYTECODE_FIELDS
    ensures fs[1..1 + NumChunks(|b|)] == preimage[1..]
    ensures fs[0] * TWO_32 + PUBLIC_BYTECODE == preimage[0]
    ensures FromFields(fs) == Ok(b)
  {
    SeparatorFits(|b|);
    PackLength(b);
    BufferRoundTrip(b, MAX_BYTECODE_FIELDS);
    Zones(LengthField(|b|), Pack(b), MAX_BYTECODE_FIELDS - 1 - NumChunks(|b|));
    assert preimage[1..] == Pack(b);
  }
}

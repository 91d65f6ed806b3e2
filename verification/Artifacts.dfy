/** Contract artifacts, as far as hashing, deployment and accounts look at them. */
module Artifacts {
  import opened Wrappers
  import opened Bytes
  import opened Fields
  import opened CanonicalJson
  import opened PrivateFunctions

  datatype FunctionType = Private | Public | Utility

  /**
   A function of an artifact.  The selector is the resolved one; `bytecode` holds
   the decoded bytes, and is absent when the text is missing or empty.
   */
  datatype FunctionArtifact = FunctionArtifact(
    name: string,
    functionType: FunctionType,
    isInitializer: bool,
    isUnconstrained: Option<bool>,
    parameters: nat,
    selector: Selector,
    returnTypes: Json,
    bytecode: Option<seq<Byte>>,
    verificationKeyHash: Option<Fr>)

  datatype Artifact = Artifact(name: string, outputs: Option<Json>, functions: seq<FunctionArtifact>)
}

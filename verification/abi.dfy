/** The parts of a compiled contract artifact the plugin reads: the list of
    functions, each with its custom attributes, its `is_unconstrained`
    flag and its ABI parameters. Optional JSON fields are `Option`s. */
module Abi {
  import opened Wrappers
  import opened JsValues

  /** `param.type`; only its `kind` (`integer`, `field`, `struct`, …) is read. */
  datatype AbiType = AbiType(kind: string)

  datatype AbiParameter = AbiParameter(name: string, typ: AbiType)

  /** `fn.abi`, whose `parameters` may be missing. */
  datatype Signature = Signature(parameters: Option<seq<AbiParameter>>)

  datatype FunctionAbi = FunctionAbi(
    name: string,
    customAttributes: Option<seq<string>>,
    isUnconstrained: Option<JsValue>,
    abi: Option<Signature>)

  /** A parsed artifact; `functions` may be missing. */
  datatype Artifact = Artifact(functions: Option<seq<FunctionAbi>>)

  /** `fn.custom_attributes?.includes(tag)`: false when there are none. */
  predicate HasAttribute(fn: FunctionAbi, tag: string) {
    fn.customAttributes.Some? && tag in fn.customAttributes.value
  }

  /** `type={kind === 'integer' ? 'number' : 'text'}` of a parameter input. */
  function InputKind(kind: string): (k: string)
    ensures k == "number" <==> kind == "integer"
    ensures k == "number" || k == "text"
  {
    if kind == "integer" then "number" else "text"
  }
}

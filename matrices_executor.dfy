/**
 * The "matrices" category op executor of the graph-model converter: given a
 * graph node's operator name and a way to resolve its named parameters, it
 * picks one tensor-library call, or throws.
 *
 * The tensor library is not modelled: a successful dispatch returns the calls
 * it would make (one per returned tensor) with their argument bundles. The
 * parameter resolver is an abstract total lookup from parameter name to value.
 * Type casts in the executor check nothing at run time, so every argument slot
 * holds the resolved value exactly as the resolver returned it.
 */
module MatricesExecutor {
  import opened Wrappers
  import opened ParamValues

  /** The category tag under which this executor is registered. */
  const CATEGORY: string := "matrices"

  /** The operator names this executor recognises. */
  const RecognisedOps: set<string> :=
    {"BatchMatMul", "BatchMatMulV2", "MatMul", "Einsum", "Transpose", "_FusedMatMul", "MatrixBandPart"}

  /** A graph node as far as this executor reads it directly: its operator name. */
  datatype Node = Node(op: string)

  /** The parameter resolver for one node, tensor map and execution context. */
  type ParamLookup = string -> ParamValue

  /** The argument bundle of the fused matrix-multiply call. */
  datatype FusedMatMulArgs = FusedMatMulArgs(
    a: ParamValue,
    b: ParamValue,
    transposeA: ParamValue,
    transposeB: ParamValue,
    bias: ParamValue,
    activation: ParamValue,
    preluActivationWeights: ParamValue,
    leakyreluAlpha: ParamValue)

  /** One call into the tensor library, with its arguments in call order. */
  datatype Call =
    | MatMul(a: ParamValue, b: ParamValue, transposeA: ParamValue, transposeB: ParamValue)
    | Einsum(equation: ParamValue, operands: seq<ParamValue>)
    | Transpose(x: ParamValue, perm: ParamValue)
    | FusedMatMul(args: FusedMatMulArgs)
    | BandPart(a: ParamValue, numLower: ParamValue, numUpper: ParamValue)

  /** What the executor throws. */
  datatype Error =
    | NotImplemented(op: string)
    | BiasAddPreluArity
    | BiasAddArity
    | NotIterable(param: string)

  /** The words around the operator name in the error for an unrecognised operator. */
  const NotImplementedPrefix: string := "Node type "
  const NotImplementedSuffix: string := " is not implemented"

  /** The opening words shared by both argument-count errors of the fused path. */
  const FusedBiasAdd: string := "Fused MatMul with BiasAdd"

  /**
   * The text of a thrown error. For NotIterable the text is the JavaScript
   * engine's and varies between engines; the one given here is a stand-in.
   */
  function Message(e: Error): (r: string)
    ensures e.NotImplemented? ==>
              && |r| == |NotImplementedPrefix| + |e.op| + |NotImplementedSuffix|
              && r[..|NotImplementedPrefix|] == NotImplementedPrefix
              && r[|NotImplementedPrefix|..|r| - |NotImplementedSuffix|] == e.op
              && r[|r| - |NotImplementedSuffix|..] == NotImplementedSuffix
    ensures (e.BiasAddPreluArity? || e.BiasAddArity?) ==> |FusedBiasAdd| <= |r| && r[..|FusedBiasAdd|] == FusedBiasAdd
  {
    match e
    case NotImplemented(op) => NotImplementedPrefix + op + NotImplementedSuffix
    case BiasAddPreluArity => FusedBiasAdd + " and Prelu must have two extra arguments: bias and alpha."
    case BiasAddArity => FusedBiasAdd + " must have one extra argument: bias."
    case NotIterable(param) => param + " is not iterable"
  }

  /**
   * One run of the executor: the parameter names it resolved, in the order
   * it resolved them, and the calls it made (one per returned tensor) or the
   * error it threw.
   */
  datatype Execution = Execution(resolved: seq<string>, result: Result<seq<Call>, Error>)

  /** The parameters the fused path resolves before its argument-count check. */
  const FusedHeader: seq<string> := ["fusedOps", "numArgs", "leakyreluAlpha"]

  /**
   * How many extra arguments a pair of fusion stages demands: with a bias
   * stage, one for the bias plus one for the PReLU weights when the
   * activation is PReLU; without a bias stage, no demand at all.
   */
  function RequiredExtraArgs(extraOp: ParamValue, activation: ParamValue): Option<nat> {
    if extraOp != Str("biasadd") then None
    else Some(1 + (if activation == Str("prelu") then 1 else 0))
  }

  /**
   * The argument-count check of the fused path, on the two fusion-stage tags
   * and `numArgs`: it fails exactly when the stages demand a count that
   * `numArgs` is not, and then with the error for that demand.
   */
  function ValidateFused(extraOp: ParamValue, activationFunc: ParamValue, numArgs: ParamValue): (r: Option<Error>)
    ensures var need := RequiredExtraArgs(extraOp, activationFunc);
            r.Some? <==> need.Some? && numArgs != Number(need.value as real)
    ensures r.Some? ==> r.value == (if activationFunc == Str("prelu") then BiasAddPreluArity else BiasAddArity)
  {
    var isBiasAdd := extraOp == Str("biasadd");
    var isPrelu := activationFunc == Str("prelu");
    if isBiasAdd && isPrelu && numArgs != Number(2.0) then Some(BiasAddPreluArity)
    else if isBiasAdd && !isPrelu && numArgs != Number(1.0) then Some(BiasAddArity)
    else None
  }

  /**
   * The `_FusedMatMul` branch: unpack the stages, check the count, unpack the
   * extra arguments, call. Whenever it throws, neither operand has been
   * resolved, and a failed count check comes before `args` is resolved.
   */
  function ExecuteFusedMatMul(param: ParamLookup): (e: Execution)
    ensures e.result.Ok? ==> |e.result.value| == 1 && e.result.value[0].FusedMatMul?
    ensures e.result.Err? ==> "a" !in e.resolved && "b" !in e.resolved
    ensures e.result.Err? && e.result.error in {BiasAddPreluArity, BiasAddArity} ==> "args" !in e.resolved
  {
    match Elements(param("fusedOps"))
    case None => Execution(["fusedOps"], Err(NotIterable("fusedOps")))
    case Some(fusedOps) =>
      var extraOp, activationFunc := At(fusedOps, 0), At(fusedOps, 1);
      match ValidateFused(extraOp, activationFunc, param("numArgs"))
      case Some(err) => Execution(FusedHeader, Err(err))
      case None =>
        match Elements(param("args"))
        case None => Execution(FusedHeader + ["args"], Err(NotIterable("args")))
        case Some(args) =>
          var bundle := FusedMatMulArgs(
            param("a"), param("b"), param("transposeA"), param("transposeB"),
            At(args, 0), activationFunc, At(args, 1), param("leakyreluAlpha"));
          Execution(FusedHeader + ["args", "a", "b", "transposeA", "transposeB"], Ok([FusedMatMul(bundle)]))
  }

  /** The executor: dispatch on the node's operator name. */
  function ExecuteOp(node: Node, param: ParamLookup): (e: Execution)
    ensures e.result.Ok? ==> node.op in RecognisedOps && |e.result.value| == 1
    ensures node.op !in RecognisedOps ==> e == Execution([], Err(NotImplemented(node.op)))
  {
    match node.op
    case "BatchMatMul" | "BatchMatMulV2" | "MatMul" =>
      Execution(["a", "b", "transposeA", "transposeB"],
                Ok([MatMul(param("a"), param("b"), param("transposeA"), param("transposeB"))]))
    case "Einsum" =>
      (match Elements(param("tensors"))
       case None => Execution(["equation", "tensors"], Err(NotIterable("tensors")))
       case Some(operands) => Execution(["equation", "tensors"], Ok([Einsum(param("equation"), operands)])))
    case "Transpose" =>
      Execution(["x", "perm"], Ok([Transpose(param("x"), param("perm"))]))
    case "_FusedMatMul" =>
      ExecuteFusedMatMul(param)
    case "MatrixBandPart" =>
      Execution(["a", "numLower", "numUpper"], Ok([BandPart(param("a"), param("numLower"), param("numUpper"))]))
    case _ =>
      Execution([], Err(NotImplemented(node.op)))
  }
}

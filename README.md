# Matrices op executor of the graph-model converter

This project models the "matrices" category executor of the TensorFlow.js
graph-model converter (`tfjs-converter/src/operations/executors/matrices_executor.ts`).
The executor receives one graph node. It switches on the node's operator name
and makes one tensor-library call, either `matMul`, `einsum`, `transpose`,
`fused.matMul` or `linalg.bandPart`. Each operand is fetched by parameter name
through the parameter resolver `getParamValue`. The executor returns the
one-element list holding that call's tensor, or it throws.

The model is pure, as the source is:

- `ParamValues.ParamValue` is the resolver's result: a tagged union of tensor,
  tensor list, boolean, number, string, number/string/boolean list and `undefined`.
  `ParamValues.Tensor` is an opaque handle.
- `MatricesExecutor.ParamLookup = string -> ParamValue` stands for
  `getParamValue` applied to the node, the tensor map and the execution context.
  It is abstract and total.
- `MatricesExecutor.ExecuteOp(node, param)` returns an `Execution`. It holds the
  parameter names resolved, in the order the source resolves them. It also holds
  `Ok(calls)` or `Err(error)`. `calls` has one `Call` per returned tensor. Each
  `Call` records which library operation was chosen and its argument bundle in
  call order.
- The `as` casts check nothing at run time. So every argument slot holds the
  resolved value unchanged, and no type-mismatch error exists in the model.
  Two JavaScript operations do inspect values: array spread (`...tensors`) and
  array destructuring (`[extraOp, activationFunc]`, `[biasArg, preluArg]`).
  Both iterate their operand and throw a `TypeError` when it is not iterable.
  `ParamValues.Elements` models that iteration. Strings iterate by character.
  A position past the end is `undefined` (`ParamValues.At`). The throw is
  `Error.NotIterable(param)`.
- `MatricesExecutor.CATEGORY` is the category constant `"matrices"` of line 103.
  It is a constant, not a function, so it has no row in the table below.

Every Dafny function is deterministic. So dispatching the same node twice
against the same resolver gives the same result, with nothing further to prove.
`DependsOnlyOnResolved` states the stronger fact: the result depends on the
resolver only through the parameters recorded as resolved.

The two argument-count errors (lines 68-70 and 73-74) carry fixed text, with
neither the expected nor the actual count; the model keeps that text.

## Model

| member | source | states |
|---|---|---|
| `MatricesExecutor.ExecuteOp` | tfjs-converter/src/operations/executors/matrices_executor.ts:28-101 | a successful dispatch is for a recognised operator and returns exactly one tensor; an unrecognised operator throws `NotImplemented(op)` without resolving any parameter |
| `ParamValues.Elements` | tfjs-converter/src/operations/executors/matrices_executor.ts:45-46 | spreading or destructuring succeeds exactly for arrays and strings; the i-th item is the array's i-th element, or the string's i-th character as a one-character string |
| `MatricesExecutor.ValidateFused` | tfjs-converter/src/operations/executors/matrices_executor.ts:57-75 | the count check fails exactly when the stages demand a count (`biasadd` first: 2 with `prelu` second, else 1; no demand otherwise) and `numArgs` is not that number, with the two-argument error for `prelu` and the one-argument error otherwise |
| `MatricesExecutor.ExecuteFusedMatMul` | tfjs-converter/src/operations/executors/matrices_executor.ts:53-90 | the fused branch makes exactly one `fused.matMul` call when it succeeds; when it throws, `a` and `b` were never resolved, and a failed count check comes before `args` is resolved |
| `MatricesExecutor.Message` | tfjs-converter/src/operations/executors/matrices_executor.ts:68-99 | the unrecognised-operator text holds the operator name verbatim between `Node type ` and ` is not implemented`; both argument-count texts open with `Fused MatMul with BiasAdd` |
| `MatricesProperties.MatMulSpellings` | tfjs-converter/src/operations/executors/matrices_executor.ts:32-40 | `MatMul`, `BatchMatMul` and `BatchMatMulV2` make the same `matMul` call with `a`, `b`, `transposeA`, `transposeB` in that order, resolving those four and nothing else |
| `MatricesProperties.NotImplementedIffUnrecognised` | tfjs-converter/src/operations/executors/matrices_executor.ts:31-99 | the result is `NotImplemented(op)` if and only if the operator is not one of the seven case labels |
| `MatricesProperties.UnrecognisedMessage` | tfjs-converter/src/operations/executors/matrices_executor.ts:98-99 | for an unrecognised operator the message is `Node type <op> is not implemented` with the name inserted verbatim |
| `MatricesProperties.OffendingOp` | tfjs-converter/src/operations/executors/matrices_executor.ts:98-99 | any operator name read back out of a message formats back to that same message |
| `MatricesProperties.OffendingOpRoundTrip` | tfjs-converter/src/operations/executors/matrices_executor.ts:68-99 | the operator name can be read back out of a not-implemented message, and no other error message reads as one (the `NotIterable` text is the model's stand-in) |
| `MatricesProperties.EinsumPassesOperandsInOrder` | tfjs-converter/src/operations/executors/matrices_executor.ts:42-46 | `Einsum` passes `equation` first, then each tensor of `tensors` in its resolved order, with none dropped or added |
| `MatricesProperties.EinsumSpreadFails` | tfjs-converter/src/operations/executors/matrices_executor.ts:45-46 | `Einsum` throws exactly when `tensors` is not iterable |
| `MatricesProperties.TransposeOperands` | tfjs-converter/src/operations/executors/matrices_executor.ts:48-51 | `Transpose` calls `transpose(x, perm)` |
| `MatricesProperties.BandPartOperands` | tfjs-converter/src/operations/executors/matrices_executor.ts:92-96 | `MatrixBandPart` calls `bandPart(a, numLower, numUpper)` |
| `MatricesProperties.FusedCountCheck` | tfjs-converter/src/operations/executors/matrices_executor.ts:54-75 | `_FusedMatMul` is refused for its argument count if and only if the stages demand a count (`biasadd` first: 2 with `prelu` second, else 1) and `numArgs` differs from it |
| `MatricesProperties.FusedPreluNeedsTwo` | tfjs-converter/src/operations/executors/matrices_executor.ts:54-71 | `biasadd` with `prelu` and `numArgs` other than 2 throws; no call is made and `args`, `a`, `b` are never resolved |
| `MatricesProperties.FusedBiasNeedsOne` | tfjs-converter/src/operations/executors/matrices_executor.ts:72-75 | `biasadd` without `prelu` and `numArgs` other than 1 throws, equally before `args`, `a`, `b` are resolved |
| `MatricesProperties.NumArgsUncheckedWithoutBias` | tfjs-converter/src/operations/executors/matrices_executor.ts:60-79 | without a leading `biasadd`, changing `numArgs` never changes the outcome, and the call goes ahead whenever `args` is iterable |
| `MatricesProperties.FusedBundle` | tfjs-converter/src/operations/executors/matrices_executor.ts:77-90 | a fused call binds `bias` to `args[0]`, the PReLU weights to `args[1]` (undefined when `args` is too short), `activation` to `fusedOps[1]`, and passes `leakyreluAlpha` whatever the activation |
| `MatricesProperties.FusedBiasOnly` | tfjs-converter/src/operations/executors/matrices_executor.ts:66-90 | stages `[biasadd]` with one extra argument succeed, binding it as bias with no activation weights |
| `MatricesProperties.DependsOnlyOnResolved` | tfjs-converter/src/operations/executors/matrices_executor.ts:31-100 | two resolvers that agree on the parameters recorded as resolved give the same execution |
| `MatricesProperties.FusedDependsOnlyOnResolved` | tfjs-converter/src/operations/executors/matrices_executor.ts:53-90 | the same for the `_FusedMatMul` branch, across its four exits |

## Left out

- The numeric behaviour of `matMul`, `einsum`, `transpose`, `fused.matMul` and `linalg.bandPart`: these are floating-point kernels of the tensor library, modelled only as recorded calls.
- How `getParamValue` decodes attributes and looks up the tensor map and the execution context, and how it fails on a missing operand: the resolver is a separate file (`./utils`), which is not part of this model, so it is an abstract total lookup.
- The `ops` parameter with its `tfOps` default, and tensor memory and lifetime: library plumbing.
- Exception classes (`Error` versus `TypeError`): the model keeps only the error and its text.
- `Message`: the text for `NotIterable` is a stand-in, because the real text comes from the JavaScript engine and differs between engines.
- JavaScript numbers are modelled as reals, so NaN, the infinities and negative zero are not represented. For `numArgs !== 2`, a NaN behaves like any other number that is not 2.

/** What the matrices executor promises, stated over all operator names and all resolvers. */
module MatricesProperties {
  import opened Wrappers
  import opened ParamValues
  import opened MatricesExecutor

  // ---------------------------------------------------------------- dispatch

  /** The three matrix-multiply spellings make the same call, with `a`, `b`, `transposeA`, `transposeB` in that order. */
  lemma MatMulSpellings(op: string, param: ParamLookup)
    requires op == "MatMul" || op == "BatchMatMul" || op == "BatchMatMulV2"
    ensures ExecuteOp(Node(op), param)
         == Execution(["a", "b", "transposeA", "transposeB"],
                      Ok([MatMul(param("a"), param("b"), param("transposeA"), param("transposeB"))]))
  {
  }

  /** An operator name is refused with NotImplemented exactly when it is not one this executor recognises. */
  lemma NotImplementedIffUnrecognised(op: string, param: ParamLookup)
    ensures ExecuteOp(Node(op), param).result == Err(NotImplemented(op)) <==> op !in RecognisedOps
    ensures (ExecuteOp(Node(op), param).result.Err? && ExecuteOp(Node(op), param).result.error.NotImplemented?)
            ==> op !in RecognisedOps
  {
  }

  /** The error for an unrecognised operator names it verbatim, and resolves nothing first. */
  lemma UnrecognisedMessage(op: string, param: ParamLookup)
    requires op !in RecognisedOps
    ensures ExecuteOp(Node(op), param).resolved == []
    ensures Message(ExecuteOp(Node(op), param).result.error) == "Node type " + op + " is not implemented"
  {
  }

  /** `Einsum` passes `equation` first, then every resolved tensor, in the resolved order. */
  lemma EinsumPassesOperandsInOrder(param: ParamLookup, ts: seq<Tensor>)
    requires param("tensors") == TensorList(ts)
    ensures var e := ExecuteOp(Node("Einsum"), param);
            && e.resolved == ["equation", "tensors"]
            && e.result.Ok? && |e.result.value| == 1
            && e.result.value[0].Einsum?
            && e.result.value[0].equation == param("equation")
            && |e.result.value[0].operands| == |ts|
            && forall i :: 0 <= i < |ts| ==> e.result.value[0].operands[i] == TensorValue(ts[i])
  {
  }

  /** `Einsum` throws exactly when its `tensors` value cannot be spread. */
  lemma EinsumSpreadFails(param: ParamLookup)
    ensures ExecuteOp(Node("Einsum"), param).result == Err(NotIterable("tensors")) <==> !Iterable(param("tensors"))
  {
  }

  /** `Transpose` passes `x` then `perm`. */
  lemma TransposeOperands(param: ParamLookup)
    ensures ExecuteOp(Node("Transpose"), param)
         == Execution(["x", "perm"], Ok([Transpose(param("x"), param("perm"))]))
  {
  }

  /** `MatrixBandPart` passes `a`, `numLower`, `numUpper`. */
  lemma BandPartOperands(param: ParamLookup)
    ensures ExecuteOp(Node("MatrixBandPart"), param)
         == Execution(["a", "numLower", "numUpper"],
                      Ok([BandPart(param("a"), param("numLower"), param("numUpper"))]))
  {
  }

  // ------------------------------------------------------- fused matmul check

  /**
   * The fused path refuses a node by its argument count exactly when its stages
   * demand a count and `numArgs` is not that count.
   */
  lemma FusedCountCheck(param: ParamLookup, fusedOps: seq<ParamValue>)
    requires Elements(param("fusedOps")) == Some(fusedOps)
    ensures var e := ExecuteOp(Node("_FusedMatMul"), param);
            var need := RequiredExtraArgs(At(fusedOps, 0), At(fusedOps, 1));
            (e.result.Err? && e.result.error in {BiasAddPreluArity, BiasAddArity})
            <==> (need.Some? && param("numArgs") != Number(need.value as real))
  {
  }

  /**
   * `biasadd` with `prelu` and a count other than two is refused before the
   * extra arguments and the operands are resolved, and no call is made.
   */
  lemma FusedPreluNeedsTwo(param: ParamLookup, fusedOps: seq<ParamValue>)
    requires Elements(param("fusedOps")) == Some(fusedOps)
    requires At(fusedOps, 0) == Str("biasadd") && At(fusedOps, 1) == Str("prelu")
    requires param("numArgs") != Number(2.0)
    ensures var e := ExecuteOp(Node("_FusedMatMul"), param);
            && e == Execution(["fusedOps", "numArgs", "leakyreluAlpha"], Err(BiasAddPreluArity))
            && "args" !in e.resolved && "a" !in e.resolved && "b" !in e.resolved
  {
  }

  /** `biasadd` without `prelu` and a count other than one is refused, equally before anything else is resolved. */
  lemma FusedBiasNeedsOne(param: ParamLookup, fusedOps: seq<ParamValue>)
    requires Elements(param("fusedOps")) == Some(fusedOps)
    requires At(fusedOps, 0) == Str("biasadd") && At(fusedOps, 1) != Str("prelu")
    requires param("numArgs") != Number(1.0)
    ensures var e := ExecuteOp(Node("_FusedMatMul"), param);
            && e == Execution(["fusedOps", "numArgs", "leakyreluAlpha"], Err(BiasAddArity))
            && "args" !in e.resolved && "a" !in e.resolved && "b" !in e.resolved
  {
  }

  /** Without a leading `biasadd` stage, `numArgs` is resolved but never affects the outcome. */
  lemma NumArgsUncheckedWithoutBias(p: ParamLookup, q: ParamLookup, fusedOps: seq<ParamValue>)
    requires forall k :: k != "numArgs" ==> p(k) == q(k)
    requires Elements(p("fusedOps")) == Some(fusedOps)
    requires At(fusedOps, 0) != Str("biasadd")
    ensures ExecuteOp(Node("_FusedMatMul"), p) == ExecuteOp(Node("_FusedMatMul"), q)
    ensures ExecuteOp(Node("_FusedMatMul"), p).result.Ok? <==> Iterable(p("args"))
  {
  }

  /**
   * A fused dispatch that gets past the checks binds `bias` to `args[0]`,
   * the PReLU weights to `args[1]` (undefined when `args` is too short), the
   * activation to `fusedOps[1]`, and passes `leakyreluAlpha` whatever the
   * activation is.
   */
  lemma FusedBundle(param: ParamLookup, fusedOps: seq<ParamValue>, args: seq<ParamValue>)
    requires Elements(param("fusedOps")) == Some(fusedOps)
    requires Elements(param("args")) == Some(args)
    requires ValidateFused(At(fusedOps, 0), At(fusedOps, 1), param("numArgs")).None?
    ensures var e := ExecuteOp(Node("_FusedMatMul"), param);
            && e.resolved == ["fusedOps", "numArgs", "leakyreluAlpha", "args", "a", "b", "transposeA", "transposeB"]
            && e.result == Ok([FusedMatMul(FusedMatMulArgs(
                 param("a"), param("b"), param("transposeA"), param("transposeB"),
                 At(args, 0), At(fusedOps, 1), At(args, 1), param("leakyreluAlpha")))])
    // a short `args` leaves the missing positions undefined
    ensures |args| < 2 ==> At(args, 1) == Undefined
    ensures |args| < 1 ==> At(args, 0) == Undefined
  {
  }

  /** A bias-only fusion with one extra argument succeeds, binding it as bias and leaving the weights undefined. */
  lemma FusedBiasOnly(param: ParamLookup, bias: Tensor)
    requires param("fusedOps") == StrList(["biasadd"])
    requires param("numArgs") == Number(1.0)
    requires param("args") == TensorList([bias])
    ensures var e := ExecuteOp(Node("_FusedMatMul"), param);
            && e.result.Ok?
            && e.result.value[0].FusedMatMul?
            && e.result.value[0].args.bias == TensorValue(bias)
            && e.result.value[0].args.preluActivationWeights == Undefined
            && e.result.value[0].args.leakyreluAlpha == param("leakyreluAlpha")
  {
  }

  // ----------------------------------------------------- resolution and errors

  /**
   * The outcome depends on the resolver only through the parameters the
   * executor is recorded as resolving.
   */
  lemma DependsOnlyOnResolved(node: Node, p: ParamLookup, q: ParamLookup)
    requires forall k :: k in ExecuteOp(node, p).resolved ==> p(k) == q(k)
    ensures ExecuteOp(node, q) == ExecuteOp(node, p)
  {
    var r := ExecuteOp(node, p).resolved;
    if node.op in {"BatchMatMul", "BatchMatMulV2", "MatMul"} {
      assert r == ["a", "b", "transposeA", "transposeB"];
      assert r[0] in r && r[1] in r && r[2] in r && r[3] in r;
    } else if node.op == "Einsum" {
      assert r == ["equation", "tensors"];
      assert r[0] in r && r[1] in r;
    } else if node.op == "Transpose" {
      assert r == ["x", "perm"];
      assert r[0] in r && r[1] in r;
    } else if node.op == "MatrixBandPart" {
      assert r == ["a", "numLower", "numUpper"];
      assert r[0] in r && r[1] in r && r[2] in r;
    } else if node.op == "_FusedMatMul" {
      FusedDependsOnlyOnResolved(p, q);
    }
  }

  /** The fused branch of DependsOnlyOnResolved, following the branch's four exits. */
  lemma FusedDependsOnlyOnResolved(p: ParamLookup, q: ParamLookup)
    requires forall k :: k in ExecuteFusedMatMul(p).resolved ==> p(k) == q(k)
    ensures ExecuteFusedMatMul(q) == ExecuteFusedMatMul(p)
  {
    var r := ExecuteFusedMatMul(p).resolved;
    assert r[0] == "fusedOps" && r[0] in r;
    if Iterable(p("fusedOps")) {
      assert r[1] == "numArgs" && r[1] in r;
      assert r[2] == "leakyreluAlpha" && r[2] in r;
      var fusedOps := Elements(p("fusedOps")).value;
      if ValidateFused(At(fusedOps, 0), At(fusedOps, 1), p("numArgs")).None? {
        assert r[3] == "args" && r[3] in r;
        if Iterable(p("args")) {
          assert r[4..] == ["a", "b", "transposeA", "transposeB"];
          assert r[4] in r && r[5] in r && r[6] in r && r[7] in r;
        }
      }
    }
  }

  /**
   * Reads the operator name back out of a "not implemented" message: whatever
   * it reads out formats back to the message it was read from.
   */
  function OffendingOp(message: string): (r: Option<string>)
    ensures r.Some? ==> Message(NotImplemented(r.value)) == message
  {
    var m, n := |NotImplementedPrefix|, |NotImplementedSuffix|;
    if |message| >= m + n && message[..m] == NotImplementedPrefix && message[|message| - n..] == NotImplementedSuffix
    then Some(message[m..|message| - n])
    else None
  }

  /** A message starting with 'F' is not read as naming an operator. */
  lemma FusedMessageIsNotNotImplemented(msg: string)
    requires |msg| > 0 && msg[0] == 'F'
    ensures OffendingOp(msg) == None
  {
  }

  /** Only a NotImplemented error reads as one, and it gives back exactly the operator it named. */
  lemma {:induction false} OffendingOpRoundTrip(e: Error)
    ensures OffendingOp(Message(e)) == if e.NotImplemented? then Some(e.op) else None
  {
    var msg := Message(e);
    var m, n := |NotImplementedPrefix|, |NotImplementedSuffix|;
    match e
    case NotImplemented(op) =>
      assert msg[..m] == NotImplementedPrefix;
      assert msg[|msg| - n..] == NotImplementedSuffix;
      assert msg[m..|msg| - n] == op;
    case NotIterable(param) =>
      // the message ends in 'e', the suffix in 'd'
      assert msg[|msg| - 1] == 'e' != NotImplementedSuffix[n - 1];
      if |msg| >= m + n {
        assert msg[|msg| - n..][n - 1] == msg[|msg| - 1];
      }
    case BiasAddPreluArity =>
      FusedMessageIsNotNotImplemented(msg);
    case BiasAddArity =>
      FusedMessageIsNotNotImplemented(msg);
  }
}

/**
 * The values the parameter resolver (`getParamValue`) hands to an op executor,
 * and the two pieces of JavaScript semantics the executor applies to them:
 * iteration (array spread and array destructuring) and reading a destructured
 * position that lies past the end.
 */
module ParamValues {
  import opened Wrappers

  /** An opaque handle on a tensor owned by the tensor library; nothing here looks inside. */
  datatype Tensor = Tensor(id: nat)

  /**
   * A resolved parameter value, tagged by its run-time shape. Numbers are
   * JavaScript numbers restricted to the finite ones (`real`).
   */
  datatype ParamValue =
    | Undefined
    | TensorValue(tensor: Tensor)
    | TensorList(tensors: seq<Tensor>)
    | Bool(b: bool)
    | Number(n: real)
    | Str(s: string)
    | NumberList(numbers: seq<real>)
    | StrList(strings: seq<string>)
    | BoolList(bools: seq<bool>)

  /** The values JavaScript can iterate: arrays and strings (a tensor object is not iterable). */
  predicate Iterable(v: ParamValue) {
    v.TensorList? || v.NumberList? || v.StrList? || v.BoolList? || v.Str?
  }

  /** The number of items iterating `v` yields. */
  function ItemCount(v: ParamValue): nat
    requires Iterable(v)
  {
    match v
    case TensorList(ts) => |ts|
    case NumberList(ns) => |ns|
    case StrList(ss) => |ss|
    case BoolList(bs) => |bs|
    case Str(s) => |s|
  }

  /**
   * What iterating `v` yields, in order: the elements of an array, or the
   * characters of a string as one-character strings; None when JavaScript
   * would throw because `v` is not iterable.
   */
  function Elements(v: ParamValue): (r: Option<seq<ParamValue>>)
    ensures r.Some? <==> Iterable(v)
    ensures r.Some? ==> |r.value| == ItemCount(v)
    ensures v.TensorList? ==> forall i :: 0 <= i < |v.tensors| ==> r.value[i] == TensorValue(v.tensors[i])
    ensures v.NumberList? ==> forall i :: 0 <= i < |v.numbers| ==> r.value[i] == Number(v.numbers[i])
    ensures v.StrList? ==> forall i :: 0 <= i < |v.strings| ==> r.value[i] == Str(v.strings[i])
    ensures v.BoolList? ==> forall i :: 0 <= i < |v.bools| ==> r.value[i] == Bool(v.bools[i])
    ensures v.Str? ==> forall i :: 0 <= i < |v.s| ==> r.value[i] == Str([v.s[i]])
  {
    match v
    case TensorList(ts) => Some(seq(|ts|, i requires 0 <= i < |ts| => TensorValue(ts[i])))
    case NumberList(ns) => Some(seq(|ns|, i requires 0 <= i < |ns| => Number(ns[i])))
    case StrList(ss) => Some(seq(|ss|, i requires 0 <= i < |ss| => Str(ss[i])))
    case BoolList(bs) => Some(seq(|bs|, i requires 0 <= i < |bs| => Bool(bs[i])))
    case Str(s) => Some(seq(|s|, i requires 0 <= i < |s| => Str([s[i]])))
    case _ => None
  }

  /** The value array destructuring binds at position `i`: `undefined` past the end. */
  function At(items: seq<ParamValue>, i: nat): ParamValue {
    if i < |items| then items[i] else Undefined
  }
}

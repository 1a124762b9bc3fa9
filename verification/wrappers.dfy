/** Small wrappers shared by every module of the model. */
module Wrappers {

  /** A value that may be absent: JavaScript's `undefined`/`null` for an
      optional property or argument. */
  datatype Option<+T> = None | Some(value: T) {

    /** The value, or `default` when absent (the `x ? x : default` idiom). */
    function GetOr(default: T): T {
      match this
      case Some(v) => v
      case None => default
    }
  }

  /** `a` is `b` with some elements left out, order kept: what `filter`
      leaves of an array. */
  predicate IsSubsequence<T(==)>(a: seq<T>, b: seq<T>)
    decreases |b|
  {
    if b == [] then a == []
    else IsSubsequence(a, b[1..]) || (a != [] && a[0] == b[0] && IsSubsequence(a[1..], b[1..]))
  }
}

/** The part of JavaScript's value semantics the model needs: truthiness. */
module Js {
  import opened Wrappers

  /** A JavaScript value, as far as the modelled code inspects it. Numbers are
      modelled as integers (NaN and fractions never reach the modelled code);
      every object is truthy, so objects are opaque. */
  datatype Value =
    | Undefined
    | Null
    | Bool(b: bool)
    | Number(n: int)
    | Str(s: string)
    | Object(id: nat)

  /** JavaScript's `ToBoolean`: `undefined`, `null`, `false`, `0` and `""` are falsy. */
  predicate Truthy(v: Value) {
    match v
    case Undefined => false
    case Null => false
    case Bool(b) => b
    case Number(n) => n != 0
    case Str(s) => s != ""
    case Object(_) => true
  }

  /** An optional string property read as a JavaScript value. */
  function OfText(o: Option<string>): Value {
    match o
    case None => Undefined
    case Some(s) => Str(s)
  }

  /** An optional number property read as a JavaScript value. */
  function OfNumber(o: Option<int>): Value {
    match o
    case None => Undefined
    case Some(n) => Number(n)
  }

  /** A present, non-empty string: the only truthy optional string. */
  lemma TruthyText(o: Option<string>)
    ensures Truthy(OfText(o)) <==> o.Some? && o.value != ""
  {
  }
}

/** JavaScript values as `JSON.parse` produces them, and the parts of the
    language's semantics the test scripts depend on: truthiness, `typeof`,
    the value-returning `&&` and `||`, property access, `Array.isArray`
    and `>= 0` on numbers. */
module JsValue {

  datatype Option<+T> = None | Some(value: T)

  /** A JavaScript number, kept abstract: NaN, a finite value, or an
      infinity (`JSON.parse("1e400")` is `Infinity`). */
  datatype Number = NaN | Finite(r: real) | Infinite(negative: bool)

  datatype Value =
    | Undefined
    | Null
    | Bool(b: bool)
    | Num(n: Number)
    | Str(s: string)
    | Arr(elems: seq<Value>)
    | Obj(props: map<string, Value>)

  /** How evaluating an expression ended: with a value, or by throwing. */
  datatype Completion = Normal(v: Value) | Throw

  /** `undefined`, `null`, `false`, `0`, `NaN` and `""` are falsy;
      every other value is truthy. */
  predicate Truthy(v: Value) {
    match v
    case Undefined => false
    case Null => false
    case Bool(b) => b
    case Num(n) => n.Infinite? || (n.Finite? && n.r != 0.0)
    case Str(s) => s != []
    case Arr(_) => true
    case Obj(_) => true
  }

  /** `typeof v` */
  function TypeOf(v: Value): string {
    match v
    case Undefined => "undefined"
    case Null => "object"
    case Bool(_) => "boolean"
    case Num(_) => "number"
    case Str(_) => "string"
    case Arr(_) => "object"
    case Obj(_) => "object"
  }

  /** `a && b`: the first operand when it is falsy, otherwise the second.
      Only the result is modelled; a right operand that cannot be
      evaluated for every left operand is written as an explicit `if`
      at the use site. */
  function And(a: Value, b: Value): (r: Value)
    ensures Truthy(r) <==> Truthy(a) && Truthy(b)
    ensures !Truthy(a) ==> r == a
    ensures Truthy(a) ==> r == b
  {
    if Truthy(a) then b else a
  }

  /** `a || b`: the first operand when it is truthy, otherwise the second. */
  function Or(a: Value, b: Value): (r: Value)
    ensures Truthy(r) <==> Truthy(a) || Truthy(b)
    ensures Truthy(a) ==> r == a
    ensures !Truthy(a) ==> r == b
  {
    if Truthy(a) then a else b
  }

  /** `null` and `undefined`: the values whose property access throws. */
  predicate Nullish(v: Value) {
    v.Undefined? || v.Null?
  }

  /** `v.key` for a value that has properties: an own property of an
      object, otherwise `undefined`. */
  function Prop(v: Value, key: string): (r: Value)
    requires !Nullish(v)
    ensures r != Undefined ==> v.Obj? && key in v.props && r == v.props[key]
    ensures v.Obj? && key in v.props ==> r == v.props[key]
  {
    if v.Obj? && key in v.props then v.props[key] else Undefined
  }

  /** `v.key` as an expression: it throws a TypeError on `null` and
      `undefined`. */
  function Get(v: Value, key: string): (r: Completion)
    ensures r.Throw? <==> Nullish(v)
    ensures r.Normal? ==> r.v == Prop(v, key)
  {
    if Nullish(v) then Throw else Normal(Prop(v, key))
  }

  /** Converting `v` to text, as a template literal `${v}` does, throws a
      TypeError. Parsed JSON holds no functions, so an object with an own
      `toString` key has neither a callable `toString` nor a `valueOf`
      that yields a primitive; an array's text joins its elements' texts,
      so it throws when one of them does. Every other value converts. */
  predicate ToStringThrows(v: Value)
    decreases v
  {
    match v
    case Obj(props) => "toString" in props
    case Arr(elems) => exists i :: 0 <= i < |elems| && ToStringThrows(elems[i])
    case _ => false
  }

  /** `Array.isArray(v)` */
  predicate IsArray(v: Value) {
    v.Arr?
  }

  /** `n >= 0` for a number: false for NaN and for negative values. */
  predicate AtLeastZero(n: Number) {
    match n
    case NaN => false
    case Finite(r) => r >= 0.0
    case Infinite(negative) => !negative
  }
}

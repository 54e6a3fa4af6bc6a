/**
 * The slice of JavaScript semantics the scanner relies on: decoded JSON values,
 * truthiness, `||`, property reads and the string conversion done by a
 * template literal.
 */
module Js {
  import opened Fallible

  /**
   * A value produced by `res.json()`, plus `Undefined`, which is what reading
   * an absent property gives. JSON has no NaN, so no value here is NaN.
   */
  datatype Value =
    | Undefined
    | Null
    | Bool(b: bool)
    | Num(n: real)      // the number `res.json()` produced, after rounding to a double
    | Str(s: string)
    | Arr(elems: seq<Value>)
    | Obj(fields: map<string, Value>)

  /** The ways an `await` in the scanner can throw. */
  datatype JsError =
    | FetchRejected   // `fetch` itself rejected (DNS failure, reset connection, ...)
    | InvalidJson     // `res.json()` rejected: the body is not JSON
    | TypeError       // a property read on null, a call of a non-function, a failed string conversion

  /** ECMAScript ToBoolean. */
  predicate Truthy(v: Value) {
    match v
    case Undefined => false
    case Null => false
    case Bool(b) => b
    case Num(n) => n != 0.0
    case Str(s) => |s| > 0
    case Arr(_) => true
    case Obj(_) => true
  }

  /** `a || b`: the first operand when it is truthy, else the second. */
  function Or(a: Value, b: Value): Value {
    if Truthy(a) then a else b
  }

  /** Reading a property of `v` does not throw. */
  predicate Readable(v: Value) {
    !v.Undefined? && !v.Null?
  }

  /**
   * `v[key]`: an object's own field, else `undefined`. This is exact for keys
   * that no built-in prototype defines. Of the keys the scanner reads, only
   * `link` is inherited by strings (`String.prototype.link`). A string item
   * has an undefined `title` and is always filtered out, so that difference
   * never reaches a message.
   */
  function Get(v: Value, key: string): (r: Value)
    requires Readable(v)
    ensures !v.Obj? ==> r == Undefined
    ensures v.Obj? && key !in v.fields ==> r == Undefined
    ensures v.Obj? && key in v.fields ==> r == v.fields[key]
  {
    match v
    case Obj(fields) => if key in fields then fields[key] else Undefined
    case _ => Undefined
  }

  /**
   * `v` can be converted to a string without throwing: a JSON object can only
   * fail to convert when it carries its own (non-callable) `toString` key, and
   * an array converts when all of its elements do.
   */
  ghost predicate Printable(v: Value) {
    match v
    case Obj(fields) => "toString" !in fields
    case Arr(elems) => forall e :: e in elems ==> Printable(e)
    case _ => true
  }

  /**
   * ECMAScript ToString, as a template literal applies it. `showNumber` is
   * Number::toString, which the model leaves to the caller. `None` is the
   * TypeError raised for an object whose `toString` and `valueOf` yield no
   * primitive.
   */
  function Render(v: Value, showNumber: real -> string): (r: Option<string>)
    ensures v.Str? ==> r == Some(v.s)
    decreases v, 1, 0
  {
    match v
    case Undefined => Some("undefined")
    case Null => Some("null")
    case Bool(b) => Some(if b then "true" else "false")
    case Num(n) => Some(showNumber(n))
    case Str(s) => Some(s)
    case Arr(elems) => RenderFrom(v, 0, showNumber)
    case Obj(fields) => if "toString" in fields then None else Some("[object Object]")
  }

  /**
   * `Array.prototype.join(",")` on the elements of `v` from index `i` on:
   * `null` and `undefined` elements become the empty string.
   */
  function RenderFrom(v: Value, i: nat, showNumber: real -> string): Option<string>
    requires v.Arr? && i <= |v.elems|
    decreases v, 0, |v.elems| - i
  {
    if i == |v.elems| then Some("")
    else
      var e := v.elems[i];
      var head := if e.Undefined? || e.Null? then Some("") else Render(e, showNumber);
      match head
      case None => None
      case Some(h) =>
        if i + 1 == |v.elems| then Some(h)
        else
          match RenderFrom(v, i + 1, showNumber)
          case None => None
          case Some(t) => Some(h + "," + t)
  }

  /** Conversion fails exactly on the values that are not `Printable`. */
  lemma {:induction false} RenderDefinedIff(v: Value, showNumber: real -> string)
    ensures Render(v, showNumber).Some? <==> Printable(v)
    decreases v, 1, 0
  {
    if v.Arr? {
      RenderFromDefinedIff(v, 0, showNumber);
    }
  }

  lemma {:induction false} RenderFromDefinedIff(v: Value, i: nat, showNumber: real -> string)
    requires v.Arr? && i <= |v.elems|
    ensures RenderFrom(v, i, showNumber).Some? <==>
              forall k :: i <= k < |v.elems| ==> Printable(v.elems[k])
    decreases v, 0, |v.elems| - i
  {
    if i < |v.elems| {
      var e := v.elems[i];
      RenderDefinedIff(e, showNumber);
      if i + 1 < |v.elems| {
        RenderFromDefinedIff(v, i + 1, showNumber);
      }
    }
  }
}

/*
 * The runtime value model of the evaluator (src/runtime/value.rs) and its
 * exception taxonomy (src/runtime/exception.rs).
 */
module Values {

  datatype Option<T> = None | Some(value: T)

  /** The result of a pure helper whose source either returns or panics. */
  datatype Fallible<T> = Ok(value: T) | Panic

  /** A handle into the shared object heap (see module Objects). */
  type Ref = nat

  /**
   * A runtime value. Numbers are real numbers rather than IEEE doubles.
   * An Object value is a handle, so that two values can share one object.
   */
  datatype Value =
    | Number(n: real)
    | Undefined
    | Boolean(b: bool)
    | String(text: string)
    | Object(ref: Ref)

  /** The language-level exceptions. Dafny's `==` on this type is the derived equality. */
  datatype Exception =
    | Exception(message: string)
    | TypeError(message: string)
    | ReferenceError(name: string)

  /**
   * The result of evaluating one IR node. `Val` and `NoVal` are the `Some`/`None`
   * (or `Ok`/no result) of the source's `evaluate`, `Exc` its `Err`, `Fatal` a
   * panic, and `OutOfFuel` means the evaluation was cut off by the fuel bound.
   */
  datatype Outcome =
    | Val(value: Value)
    | NoVal
    | Exc(error: Exception)
    | Fatal
    | OutOfFuel
  {
    /** The evaluation ended the whole program (panic) or ran out of fuel. */
    predicate Aborted() {
      Fatal? || OutOfFuel?
    }

    /** `unwrap_or(Value::Undefined)`: anything but a value becomes Undefined. */
    function ValueOrUndefined(): (v: Value)
      ensures Val? ==> v == value
      ensures !Val? ==> v == Undefined
    {
      if Val? then value else Undefined
    }
  }

  /** An `Option<Value>` as an evaluation outcome. */
  function FromOption(o: Option<Value>): (r: Outcome)
    ensures r.Val? <==> o.Some?
    ensures o.Some? ==> r.value == o.value
    ensures o.None? ==> r == NoVal
  {
    match o
    case Some(v) => Val(v)
    case None => NoVal
  }

  // ---------------------------------------------------------------------------
  // The success!, exception! and bail! macros
  // ---------------------------------------------------------------------------

  /** `success!()`: a successful evaluation without a meaningful value. */
  function SuccessUndefined(): (r: Outcome)
    ensures r.Val? && r.ValueOrUndefined() == Undefined
  {
    Val(Undefined)
  }

  /** `success!(v)`. */
  function Success(v: Value): (r: Outcome)
    ensures r.Val? && r.ValueOrUndefined() == v
  {
    Val(v)
  }

  /** `exception!(e)`. */
  function Raise(e: Exception): (r: Outcome)
    ensures !r.Val? && !r.Aborted() && r.ValueOrUndefined() == Undefined
    ensures r.Exc? && r.error == e
  {
    Exc(e)
  }

  // ---------------------------------------------------------------------------
  // Display of exceptions
  // ---------------------------------------------------------------------------

  const ReferencePrefix: string := "Cannot find variable \""

  /** The message an exception displays as. */
  function ExceptionMessage(e: Exception): (s: string)
    ensures !e.ReferenceError? ==> s == e.message
    ensures e.ReferenceError? ==> |s| == |ReferencePrefix| + |e.name| + 1
    ensures e.ReferenceError? ==> s[..|ReferencePrefix|] == ReferencePrefix && s[|s| - 1] == '"'
    ensures e.ReferenceError? ==> s[|ReferencePrefix|..|s| - 1] == e.name
  {
    match e
    case Exception(m) => m
    case TypeError(m) => m
    case ReferenceError(n) => ReferencePrefix + n + "\""
  }

  /** Two reference errors display alike only if they name the same variable. */
  lemma ReferenceMessageInjective(a: string, b: string)
    requires ExceptionMessage(ReferenceError(a)) == ExceptionMessage(ReferenceError(b))
    ensures a == b
  {
    var sa, sb := ExceptionMessage(ReferenceError(a)), ExceptionMessage(ReferenceError(b));
    assert |a| == |b|;
    forall i | 0 <= i < |a|
      ensures a[i] == b[i]
    {
      assert sa[|ReferencePrefix| + i] == a[i];
      assert sb[|ReferencePrefix| + i] == b[i];
    }
  }

  // ---------------------------------------------------------------------------
  // Display of values
  // ---------------------------------------------------------------------------

  /**
   * How a value displays: a fixed text, the decimal rendering of a number
   * (whose digits are not modelled), or a panic (objects are unimplemented).
   */
  datatype Rendering = Text(s: string) | NumberText(n: real) | Unrenderable

  function Display(v: Value): (r: Rendering)
    ensures r.Unrenderable? <==> v.Object?
    ensures r.NumberText? <==> v.Number?
    ensures v.Undefined? ==> r == Text("Undefined")
    ensures v.Boolean? ==> r == Text(if v.b then "true" else "false")
  {
    match v
    case Number(n) => NumberText(n)
    case Undefined => Text("Undefined")
    case Boolean(b) => Text(if b then "true" else "false")
    case String(s) => Text(s)
    case Object(_) => Unrenderable
  }

  // ---------------------------------------------------------------------------
  // Equality of values
  // ---------------------------------------------------------------------------

  /**
   * The `PartialEq` of value.rs as written: only numbers and Undefined ever
   * compare equal; Booleans, strings and objects fall through to `false`.
   */
  function ValueEqAsWritten(a: Value, b: Value): (r: bool)
    ensures r <==> a == b && (a.Number? || a.Undefined?)
  {
    match (a, b)
    case (Number(x), Number(y)) => x == y
    case (Undefined, Undefined) => true
    case (Object(_), Object(_)) => false
    case _ => false
  }

  /**
   * Under the equality as written, a Boolean is not equal to itself, so no
   * value compares equal to `Boolean(true)`: a `for` loop whose test is
   * compared that way never runs its body.
   */
  lemma BooleansNeverEqualAsWritten(b: bool, v: Value)
    ensures !ValueEqAsWritten(Boolean(b), Boolean(b))
    ensures !ValueEqAsWritten(v, Boolean(true))
  {
  }

  /**
   * The evidently intended equality: numbers, Booleans, strings and Undefined
   * compare structurally; objects are never equal, not even to themselves.
   */
  function ValueEq(a: Value, b: Value): (r: bool)
    ensures r <==> a == b && !a.Object?
  {
    match (a, b)
    case (Number(x), Number(y)) => x == y
    case (Boolean(x), Boolean(y)) => x == y
    case (String(x), String(y)) => x == y
    case (Undefined, Undefined) => true
    case (Object(_), Object(_)) => false
    case _ => false
  }

  /** The two equalities agree everywhere except on Booleans and strings. */
  lemma ValueEqAgreesOutsideBooleansAndStrings(a: Value, b: Value)
    requires !a.Boolean? && !a.String?
    ensures ValueEq(a, b) == ValueEqAsWritten(a, b)
  {
  }
}

/**
 Panic values as the helpers see them: the dynamically typed `interface{}`
 that `recover()` returns, reduced to a closed variant, together with the
 outcome of running a test function and Go's `==` on interface values.
 */
module Payloads {

  datatype Option<+T> = None | Some(value: T)

  /** A panic value. `Nil` is Go's nil interface, which is also what
      `recover()` yields when nothing panicked. */
  datatype Payload =
    | Nil
      /** a value of dynamic type `string` */
    | Str(s: string)
      /** an `error` value whose `Error()` method returns `msg`; `id` stands for
          its identity (two `errors.New` results with the same text are
          different pointers, hence unequal) */
    | Err(id: nat, msg: string)
      /** a comparable value of any other dynamic type `tag` (an `int`, a
          `float64`, ...); `v` encodes the value within that type */
    | Other(tag: string, v: int)
      /** a value of a dynamic type `tag` that Go cannot compare with `==`,
          such as a `[]string` */
    | Uncomparable(tag: string, elems: seq<string>)

  /** What happens when a test function `f` is called: it returns, or it
      panics with a value. */
  datatype Outcome = Returned | Panicked(p: Payload)

  /** The value `recover()` returns in the helpers' deferred function. */
  function Recover(f: Outcome): Payload
  {
    match f
    case Returned => Nil
    case Panicked(p) => p
  }

  /** The text a payload is checked by in `PanicsStr` and `PanicsRE`: the string
      itself for a `string`, the `Error()` text for an `error`, none otherwise. */
  function TextOf(p: Payload): Option<string>
  {
    match p
    case Str(s) => Some(s)
    case Err(_, msg) => Some(msg)
    case _ => None
  }

  /** The dynamic type of an interface value; `NoType` for nil. */
  datatype DynType = NoType | StringType | ErrorType | Named(tag: string, comparable: bool)

  function TypeOf(p: Payload): DynType
  {
    match p
    case Nil => NoType
    case Str(_) => StringType
    case Err(_, _) => ErrorType
    case Other(t, _) => Named(t, true)
    case Uncomparable(t, _) => Named(t, false)
  }

  predicate IsComparable(t: DynType)
  {
    !t.Named? || t.comparable
  }

  /** Identity of the errors the Go runtime itself panics with. */
  const RuntimeErrorId: nat := 0

  /** The runtime error Go panics with when `==` meets two values of the same
      uncomparable type. */
  function UncomparableError(tag: string): Payload
  {
    Err(RuntimeErrorId, "runtime error: comparing uncomparable type " + tag)
  }

  /** The result of evaluating `a == b` on two interface values: a boolean, or
      the runtime panic it raises. */
  datatype Comparison = Compared(equal: bool) | ComparePanic(p: Payload)

  /** Go's `==` on interface values: values of different dynamic types are
      unequal, values of the same comparable type are compared, and values of
      the same uncomparable type make `==` panic. */
  function InterfaceEquals(a: Payload, b: Payload): (r: Comparison)
    ensures TypeOf(a) != TypeOf(b) ==> r == Compared(false)
    ensures TypeOf(a) == TypeOf(b) && IsComparable(TypeOf(a)) ==> r == Compared(a == b)
    ensures TypeOf(a) == TypeOf(b) && !IsComparable(TypeOf(a)) ==> r == ComparePanic(UncomparableError(a.tag))
  {
    if a.Uncomparable? && b.Uncomparable? && a.tag == b.tag then
      ComparePanic(UncomparableError(a.tag))
    else
      Compared(a == b)
  }
}

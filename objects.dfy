/**
 * The interpreter's value and expression type (`Object`), shared by the parser,
 * the environment and the evaluator, and the signed 64-bit integers it carries.
 */
module Objects {

  const MinI64: int := -0x8000_0000_0000_0000
  const MaxI64: int := 0x7fff_ffff_ffff_ffff

  predicate InI64(x: int) { MinI64 <= x <= MaxI64 }

  /** Rust's `i64`. */
  newtype I64 = x: int | -0x8000_0000_0000_0000 <= x <= 0x7fff_ffff_ffff_ffff

  /**
   * An expression tree and a runtime value at once. `Lambda` carries its
   * parameter names and its body forms, and no environment.
   */
  datatype Object =
    | Void
    | Integer(n: I64)
    | Bool(b: bool)
    | Symbol(name: string)
    | Lambda(params: seq<string>, body: seq<Object>)
    | List(items: seq<Object>)

  /** Number of nodes of a tree; a termination measure for structural proofs. */
  function Size(x: Object): (n: nat)
    ensures n >= 1
  {
    match x
    case List(xs) => 1 + SizeAll(xs)
    case Lambda(_, body) => 1 + SizeAll(body)
    case _ => 1
  }

  function SizeAll(xs: seq<Object>): nat
  {
    if xs == [] then 0 else Size(xs[0]) + SizeAll(xs[1..])
  }
}

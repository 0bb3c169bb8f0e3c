/**
 * What the evaluator (`src/evaluator.rs`) computes, as pure functions over the
 * frame-stack view of the environment. Every function returns its result
 * together with the environment afterwards, since `define` changes it.
 *
 * The source recurses without bound; here every evaluation carries `fuel`,
 * spent one unit per list form entered, and running out is the error
 * `OutOfFuel`. A panic of the source (indexing past the end of a list,
 * integer overflow, division by zero) is the error `Panic`.
 */
module Semantics {
  import opened Wrappers
  import opened Objects
  import opened Environment
  import Parser

  /** The ways the source panics instead of returning an error. */
  datatype Trap = IndexOutOfBounds | Overflow | DivideByZero

  /** The evaluator's errors, one per message the source formats. */
  datatype EvalError =
    | ParseFailed(cause: Parser.ParseError)
    | UnboundSymbol(name: string)
    | NotALambda(name: string)
    | WrongArity
    | LeftNotInteger(found: Object)
    | RightNotInteger(found: Object)
    | InvalidOperator(op: string)
    | OperatorNotSymbol
    | InvalidDefine
    | ConditionNotBool
    | InvalidLambdaParameter
    | InvalidLambda
    | Panic(trap: Trap)
    | OutOfFuel

  /** A result and the environment after computing it. */
  datatype Outcome<T> = Outcome(res: Result<T, EvalError>, env: Env)

  /** Evaluation only ever changes the innermost scope. */
  predicate SameOuter(before: Env, after: Env)
  {
    |after| == |before| && Outer(after) == Outer(before)
  }

  // ---------------------------------------------------------------------------
  // Integer arithmetic of `i64`

  /** An `i64` result, or the overflow panic of a debug build. */
  function Checked(v: int): (r: Result<Object, EvalError>)
    ensures r.Ok? <==> InI64(v)
    ensures r.Ok? ==> r.value.Integer? && r.value.n as int == v
    ensures r.Err? ==> r.error == Panic(Overflow)
  {
    if InI64(v) then Ok(Integer(v as I64)) else Err(Panic(Overflow))
  }

  /**
   * Rust's integer `/`: the quotient rounded toward zero. The remainder it
   * leaves is smaller than the divisor and has the dividend's sign, which
   * fixes the quotient.
   */
  function TruncDiv(a: int, b: int): (q: int)
    requires b != 0
    ensures Abs(a - q * b) < Abs(b)
    ensures a - q * b == 0 || (a - q * b < 0 <==> a < 0)
  {
    var m := Abs(a) / Abs(b);
    var q := if (a < 0) != (b < 0) then -(m as int) else m;
    QuotientRemainder(a, b, m, q);
    q
  }

  function Abs(a: int): nat
  {
    if a < 0 then -a else a
  }

  lemma QuotientRemainder(a: int, b: int, m: nat, q: int)
    requires b != 0 && m == Abs(a) / Abs(b)
    requires q == if (a < 0) != (b < 0) then -(m as int) else m
    ensures Abs(a - q * b) < Abs(b)
    ensures a - q * b == 0 || (a - q * b < 0 <==> a < 0)
  {
    var n := Abs(b);
    var r := Abs(a) % n;
    assert Abs(a) == m * n + r && 0 <= r < n;
    var p := m * n;
    SignedProduct(m, b);
    if a >= 0 {
      assert q * b == p;
    } else {
      assert q * b == -p;
    }
  }

  /** How a product with `q` and with `-q` relates to `q * |b|`. */
  lemma SignedProduct(q: int, b: int)
    ensures b >= 0 ==> q * b == q * Abs(b) && (-q) * b == -(q * Abs(b))
    ensures b < 0 ==> q * b == -(q * Abs(b)) && (-q) * b == q * Abs(b)
  {
  }

  /** The operators `eval_list` hands to `eval_binary_op` (`*` is not among them). */
  function IsBinaryOperator(s: string): (b: bool)
    ensures b <==> s != "*" && ApplyOperator(s, 0, 1) != Err(InvalidOperator(s))
  {
    s == "+" || s == "-" || s == "/" || s == "<" || s == ">" || s == "=" || s == "!="
  }

  /** The operator dispatch of `eval_binary_op` on two integers. */
  function ApplyOperator(op: string, a: I64, b: I64): (r: Result<Object, EvalError>)
    ensures op in {"+", "-", "*", "/"} && r.Ok? ==> r.value.Integer?
    ensures op in {"<", ">", "=", "!="} ==> r.Ok? && r.value.Bool?
    ensures op !in {"+", "-", "*", "/", "<", ">", "=", "!="} ==> r == Err(InvalidOperator(op))
  {
    if op == "+" then Checked(a as int + b as int)
    else if op == "-" then Checked(a as int - b as int)
    else if op == "*" then Checked(a as int * b as int)
    else if op == "/" then
      if b == 0 then Err(Panic(DivideByZero)) else Checked(TruncDiv(a as int, b as int))
    else if op == "<" then Ok(Bool(a < b))
    else if op == ">" then Ok(Bool(a > b))
    else if op == "=" then Ok(Bool(a == b))
    else if op == "!=" then Ok(Bool(a != b))
    else Err(InvalidOperator(op))
  }

  /** `+` and `-` give the exact result when it fits in 64 bits, and panic otherwise. */
  lemma AddSub(a: I64, b: I64)
    ensures ApplyOperator("+", a, b) == (if InI64(a as int + b as int) then Ok(Integer((a as int + b as int) as I64)) else Err(Panic(Overflow)))
    ensures ApplyOperator("-", a, b) == (if InI64(a as int - b as int) then Ok(Integer((a as int - b as int) as I64)) else Err(Panic(Overflow)))
  {
  }

  /** `/` panics on a zero divisor and on the one quotient that overflows, `MIN / -1`. */
  lemma Divide(a: I64, b: I64)
    ensures b == 0 ==> ApplyOperator("/", a, b) == Err(Panic(DivideByZero))
    ensures b != 0 ==> (ApplyOperator("/", a, b).Err? <==> a as int == MinI64 && b == -1)
    ensures b != 0 && ApplyOperator("/", a, b).Ok? ==>
      ApplyOperator("/", a, b).value.n as int == TruncDiv(a as int, b as int)
    ensures b != 0 && ApplyOperator("/", a, b).Ok? ==>
      var q := ApplyOperator("/", a, b).value.n as int;
      Abs(a as int - q * b as int) < Abs(b as int)
      && (a as int - q * b as int == 0 || (a as int - q * b as int < 0 <==> a < 0))
  {
    if b != 0 {
      var q := TruncDiv(a as int, b as int);
      if a as int == MinI64 && b == -1 {
        assert q == -MinI64;
      } else {
        TruncDivBound(a as int, b as int);
      }
    }
  }

  /** Apart from `MIN / -1`, an `i64` quotient fits in 64 bits. */
  lemma TruncDivBound(a: int, b: int)
    requires InI64(a) && InI64(b) && b != 0
    requires !(a == MinI64 && b == -1)
    ensures InI64(TruncDiv(a, b))
  {
    var q := Abs(a) / Abs(b);
    assert TruncDiv(a, b) == q || TruncDiv(a, b) == -(q as int);
    assert q <= Abs(a) by {
      DivLeq(Abs(a), Abs(b));
    }
    if Abs(b) == 1 {
      assert q == Abs(a);
      assert a != MinI64 || b == 1;
    } else {
      assert q * 2 <= Abs(a) by {
        DivHalf(Abs(a), Abs(b));
      }
    }
  }

  lemma DivLeq(x: nat, y: nat)
    requires y > 0
    ensures x / y <= x
  {
    var q := x / y;
    assert x == q * y + x % y;
    MulAtLeast(q, y, 1);
  }

  /** `q * y` grows with `y`. */
  lemma {:induction false} MulAtLeast(q: nat, y: nat, k: nat)
    requires y >= k
    ensures q * y >= q * k
    decreases y - k
  {
    if y > k {
      MulAtLeast(q, y - 1, k);
      assert q * y == q * (y - 1) + q;
    }
  }

  lemma DivHalf(x: nat, y: nat)
    requires y >= 2
    ensures (x / y) * 2 <= x
  {
    assert x == (x / y) * y + x % y;
    MulAtLeast(x / y, y, 2);
  }

  /** The comparison operators give booleans and never fail. */
  lemma Compare(a: I64, b: I64)
    ensures ApplyOperator("<", a, b) == Ok(Bool(a < b)) && ApplyOperator(">", a, b) == Ok(Bool(b < a))
    ensures ApplyOperator("=", a, b) == Ok(Bool(a == b)) && ApplyOperator("!=", a, b) == Ok(Bool(!(a == b)))
  {
  }

  // ---------------------------------------------------------------------------
  // The evaluator

  /** `eval_obj`. */
  function EvalObj(fuel: nat, x: Object, env: Env): (o: Outcome<Object>)
    ensures SameOuter(env, o.env)
    decreases fuel, 0, 0
  {
    match x
    case Void => Outcome(Ok(Void), env)
    case Integer(n) => Outcome(Ok(Integer(n)), env)
    case Bool(_) => Outcome(Ok(x), env)
    case Symbol(s) => EvalSymbol(s, env)
    case Lambda(_, _) => Outcome(Ok(Void), env)
    case List(items) =>
      if fuel == 0 then Outcome(Err(OutOfFuel), env) else EvalList(fuel - 1, items, env)
  }

  /** `eval_symbol`. */
  function EvalSymbol(s: string, env: Env): (o: Outcome<Object>)
    ensures o.env == env
    ensures o.res.Ok? <==> Lookup(env, s).Some?
    ensures o.res.Ok? ==> o.res.value == Lookup(env, s).value
    ensures o.res.Err? ==> o.res.error == UnboundSymbol(s)
  {
    match Lookup(env, s)
    case None => Outcome(Err(UnboundSymbol(s)), env)
    case Some(v) => Outcome(Ok(v), env)
  }

  /** `eval_list`: a form is chosen by its head symbol; any other list is evaluated element by element. */
  function EvalList(fuel: nat, list: seq<Object>, env: Env): (o: Outcome<Object>)
    ensures SameOuter(env, o.env)
    decreases fuel, 3, 0
  {
    if list == [] then Outcome(Err(Panic(IndexOutOfBounds)), env)
    else match list[0]
      case Symbol(s) =>
        if IsBinaryOperator(s) then EvalBinaryOp(fuel, list, env)
        else if s == "define" then EvalDefine(fuel, list, env)
        else if s == "if" then EvalIf(fuel, list, env)
        else if s == "lambda" then Outcome(EvalFunctionDefinition(list), env)
        else EvalFunctionCall(fuel, s, list, env)
      case _ => EvalEach(fuel, list, 0, [], env)
  }

  /** The loop of `eval_list` from element `i` on: results that are `Void` are dropped. */
  function EvalEach(fuel: nat, list: seq<Object>, i: nat, acc: seq<Object>, env: Env): (o: Outcome<Object>)
    requires i <= |list|
    ensures SameOuter(env, o.env)
    decreases fuel, 1, |list| - i
  {
    if i == |list| then Outcome(Ok(List(acc)), env)
    else
      var v := EvalObj(fuel, list[i], env);
      if v.res.Err? then Outcome(Err(v.res.error), v.env)
      else EvalEach(fuel, list, i + 1, if v.res.value == Void then acc else acc + [v.res.value], v.env)
  }

  /** `eval_binary_op`. */
  function EvalBinaryOp(fuel: nat, list: seq<Object>, env: Env): (o: Outcome<Object>)
    ensures SameOuter(env, o.env)
    ensures |list| != 3 ==> o == Outcome(Err(WrongArity), env)
    decreases fuel, 2, 0
  {
    if |list| != 3 then Outcome(Err(WrongArity), env)
    else
      var l := EvalObj(fuel, list[1], env);
      if l.res.Err? then Outcome(Err(l.res.error), l.env)
      else
        var r := EvalObj(fuel, list[2], l.env);
        if r.res.Err? then Outcome(Err(r.res.error), r.env)
        else if !l.res.value.Integer? then Outcome(Err(LeftNotInteger(l.res.value)), r.env)
        else if !r.res.value.Integer? then Outcome(Err(RightNotInteger(r.res.value)), r.env)
        else if !list[0].Symbol? then Outcome(Err(OperatorNotSymbol), r.env)
        else Outcome(ApplyOperator(list[0].name, l.res.value.n, r.res.value.n), r.env)
  }

  /** `eval_define`. */
  function EvalDefine(fuel: nat, list: seq<Object>, env: Env): (o: Outcome<Object>)
    ensures SameOuter(env, o.env)
    ensures |list| != 3 ==> o == Outcome(Err(WrongArity), env)
    ensures |list| == 3 && !list[1].Symbol? ==> o == Outcome(Err(InvalidDefine), env)
    ensures o.res.Ok? ==> o.res.value == Void && |list| == 3 && list[1].Symbol?
    ensures o.res.Ok? ==> list[1].name in Top(o.env) && Lookup(o.env, list[1].name) == Some(Top(o.env)[list[1].name])
    decreases fuel, 2, 0
  {
    if |list| != 3 then Outcome(Err(WrongArity), env)
    else if !list[1].Symbol? then Outcome(Err(InvalidDefine), env)
    else
      var v := EvalObj(fuel, list[2], env);
      if v.res.Err? then Outcome(Err(v.res.error), v.env)
      else Outcome(Ok(Void), SetTop(v.env, list[1].name, v.res.value))
  }

  /** `eval_if`. */
  function EvalIf(fuel: nat, list: seq<Object>, env: Env): (o: Outcome<Object>)
    ensures SameOuter(env, o.env)
    ensures |list| != 4 ==> o == Outcome(Err(WrongArity), env)
    decreases fuel, 2, 0
  {
    if |list| != 4 then Outcome(Err(WrongArity), env)
    else
      var c := EvalObj(fuel, list[1], env);
      if c.res.Err? then Outcome(Err(c.res.error), c.env)
      else if !c.res.value.Bool? then Outcome(Err(ConditionNotBool), c.env)
      else if c.res.value.b then EvalObj(fuel, list[2], c.env)
      else EvalObj(fuel, list[3], c.env)
  }

  /** The parameter loop of `eval_function_definition`: every parameter must be a symbol. */
  function ParamNames(ps: seq<Object>): (r: Option<seq<string>>)
    ensures r.Some? <==> forall i :: 0 <= i < |ps| ==> ps[i].Symbol?
    ensures r.Some? ==> |r.value| == |ps| && forall i :: 0 <= i < |ps| ==> r.value[i] == ps[i].name
  {
    if ps == [] then Some([])
    else if !ps[0].Symbol? then None
    else match ParamNames(ps[1..])
      case None => None
      case Some(rest) => Some([ps[0].name] + rest)
  }

  /** `eval_function_definition`; it never touches the environment. */
  function EvalFunctionDefinition(list: seq<Object>): (r: Result<Object, EvalError>)
    ensures r.Ok? <==> |list| >= 3 && list[1].List? && list[2].List?
                       && forall j :: 0 <= j < |list[1].items| ==> list[1].items[j].Symbol?
    ensures r.Ok? ==> r.value.Lambda? && r.value.body == list[2].items
                      && |r.value.params| == |list[1].items|
                      && forall j :: 0 <= j < |list[1].items| ==> r.value.params[j] == list[1].items[j].name
    ensures |list| < 2 ==> r == Err(Panic(IndexOutOfBounds))
    ensures |list| >= 2 && !list[1].List? ==> r == Err(InvalidLambda)
    ensures |list| >= 2 && list[1].List? && ParamNames(list[1].items).None? ==> r == Err(InvalidLambdaParameter)
    ensures |list| == 2 && list[1].List? && ParamNames(list[1].items).Some? ==> r == Err(Panic(IndexOutOfBounds))
    ensures |list| >= 3 && list[1].List? && ParamNames(list[1].items).Some? && !list[2].List? ==> r == Err(InvalidLambda)
  {
    if |list| < 2 then Err(Panic(IndexOutOfBounds))
    else if !list[1].List? then Err(InvalidLambda)
    else match ParamNames(list[1].items)
      case None => Err(InvalidLambdaParameter)
      case Some(params) =>
        if |list| < 3 then Err(Panic(IndexOutOfBounds))
        else if !list[2].List? then Err(InvalidLambda)
        else Ok(Lambda(params, list[2].items))
  }

  /**
   * `eval_function_call`: the arguments are evaluated in the caller's scope,
   * the body runs in a new scope inside it holding the parameters, and that
   * scope is dropped afterwards.
   */
  function EvalFunctionCall(fuel: nat, name: string, list: seq<Object>, env: Env): (o: Outcome<Object>)
    ensures SameOuter(env, o.env)
    ensures Lookup(env, name) == None ==> o == Outcome(Err(UnboundSymbol(name)), env)
    ensures Lookup(env, name).Some? && !Lookup(env, name).value.Lambda? ==> o == Outcome(Err(NotALambda(name)), env)
    decreases fuel, 2, 0
  {
    match Lookup(env, name)
    case None => Outcome(Err(UnboundSymbol(name)), env)
    case Some(f) =>
      if !f.Lambda? then Outcome(Err(NotALambda(name)), env)
      else
        var b := BindArgs(fuel, f.params, list, 0, map[], env);
        if b.res.Err? then Outcome(Err(b.res.error), b.env)
        else
          var r := EvalObj(fuel, List(f.body), b.env + [b.res.value]);
          var caller: Env := Outer(r.env);
          Outcome(r.res, caller)
  }

  /** The argument loop of `eval_function_call` from parameter `i` on; `list[i + 1]` is the argument. */
  function BindArgs(fuel: nat, params: seq<string>, list: seq<Object>, i: nat, frame: Frame, env: Env): (o: Outcome<Frame>)
    requires i <= |params|
    ensures SameOuter(env, o.env)
    decreases fuel, 1, |params| - i
  {
    if i == |params| then Outcome(Ok(frame), env)
    else if i + 1 >= |list| then Outcome(Err(Panic(IndexOutOfBounds)), env)
    else
      var v := EvalObj(fuel, list[i + 1], env);
      if v.res.Err? then Outcome(Err(v.res.error), v.env)
      else BindArgs(fuel, params, list, i + 1, frame[params[i] := v.res.value], v.env)
  }

  /** `eval`: parses the text and evaluates the parsed list. */
  function EvalText(fuel: nat, text: string, env: Env): (o: Outcome<Object>)
    ensures SameOuter(env, o.env)
  {
    match Parser.ParseText(text)
    case Err(e) => Outcome(Err(ParseFailed(e)), env)
    case Ok(x) => EvalObj(fuel, x, env)
  }
}

/**
 * Laws of the evaluator (`src/evaluator.rs`), stated over the reference
 * semantics in module `Semantics`: what each special form does, what a
 * procedure call evaluates and what it leaves behind, and a few worked
 * programs.
 */
module EvaluationLaws {
  import opened Wrappers
  import opened Objects
  import opened Environment
  import opened Semantics
  import Parser
  import Sequences

  /** How `eval_list` dispatches on a head symbol, one unfolding at a time. */
  lemma Dispatch(fuel: nat, list: seq<Object>, env: Env)
    requires list != [] && list[0].Symbol?
    ensures EvalObj(fuel + 1, List(list), env) == EvalList(fuel, list, env)
    ensures IsBinaryOperator(list[0].name) ==> EvalList(fuel, list, env) == EvalBinaryOp(fuel, list, env)
    ensures list[0].name == "define" ==> EvalList(fuel, list, env) == EvalDefine(fuel, list, env)
    ensures list[0].name == "if" ==> EvalList(fuel, list, env) == EvalIf(fuel, list, env)
    ensures list[0].name == "lambda" ==> EvalList(fuel, list, env) == Outcome(EvalFunctionDefinition(list), env)
    ensures !IsBinaryOperator(list[0].name) && list[0].name !in {"define", "if", "lambda"} ==>
              EvalList(fuel, list, env) == EvalFunctionCall(fuel, list[0].name, list, env)
  {
  }

  // ---------------------------------------------------------------------------
  // Atoms

  /** Integers, booleans and `Void` evaluate to themselves; a lambda value evaluates to `Void`. */
  lemma SelfEvaluating(fuel: nat, x: Object, env: Env)
    ensures x.Void? || x.Integer? || x.Bool? ==> EvalObj(fuel, x, env) == Outcome(Ok(x), env)
    ensures x.Lambda? ==> EvalObj(fuel, x, env) == Outcome(Ok(Void), env)
    ensures x.Symbol? ==> EvalObj(fuel, x, env).res == (if Lookup(env, x.name).Some? then Ok(Lookup(env, x.name).value) else Err(UnboundSymbol(x.name)))
  {
  }

  /** The empty list is not a form: evaluating `()` indexes past its end. */
  lemma EmptyListTraps(fuel: nat, env: Env)
    ensures EvalObj(fuel + 1, List([]), env) == Outcome(Err(Panic(IndexOutOfBounds)), env)
  {
  }

  // ---------------------------------------------------------------------------
  // Binary operators

  /**
   * Operands are evaluated left to right; when both give integers without
   * touching the scopes, the form computes `ApplyOperator` on them.
   */
  lemma OperatorOnValues(fuel: nat, op: string, x: Object, y: Object, a: I64, b: I64, env: Env)
    requires IsBinaryOperator(op)
    requires EvalObj(fuel, x, env) == Outcome(Ok(Integer(a)), env)
    requires EvalObj(fuel, y, env) == Outcome(Ok(Integer(b)), env)
    ensures EvalObj(fuel + 1, List([Symbol(op), x, y]), env) == Outcome(ApplyOperator(op, a, b), env)
  {
    var list := [Symbol(op), x, y];
    Dispatch(fuel, list, env);
    assert list[1] == x && list[2] == y;
  }

  /**
   * The operator form step by step: the left operand is evaluated first, the
   * right one in the scopes the left one leaves, and only then are both
   * checked to be integers. Whatever the first failing step is decides the
   * result, and the scopes stay as that step left them.
   */
  lemma OperatorSteps(fuel: nat, op: string, x: Object, y: Object, env: Env)
    requires IsBinaryOperator(op)
    ensures var l := EvalObj(fuel, x, env);
            var r := EvalObj(fuel, y, l.env);
            EvalObj(fuel + 1, List([Symbol(op), x, y]), env)
            == if l.res.Err? then Outcome(Err(l.res.error), l.env)
               else if r.res.Err? then Outcome(Err(r.res.error), r.env)
               else if !l.res.value.Integer? then Outcome(Err(LeftNotInteger(l.res.value)), r.env)
               else if !r.res.value.Integer? then Outcome(Err(RightNotInteger(r.res.value)), r.env)
               else Outcome(ApplyOperator(op, l.res.value.n, r.res.value.n), r.env)
  {
    var list := [Symbol(op), x, y];
    Dispatch(fuel, list, env);
    assert list[1] == x && list[2] == y;
  }

  /**
   * An operand that defines is seen by the operand after it:
   * `(+ (define a 1) a)` with `a` unbound reads `a` as 1 but fails because the
   * left operand is `Void`, and `a` stays bound.
   */
  lemma OperandDefinesForNext(fuel: nat, env: Env)
    requires Lookup(env, "a") == None
    ensures var o := EvalObj(fuel + 2, List([Symbol("+"), List([Symbol("define"), Symbol("a"), Integer(1)]), Symbol("a")]), env);
            o.res == Err(LeftNotInteger(Void)) && Lookup(o.env, "a") == Some(Integer(1))
  {
    var def := List([Symbol("define"), Symbol("a"), Integer(1)]);
    var e1 := SetTop(env, "a", Integer(1));
    assert EvalObj(fuel + 1, def, env) == Outcome(Ok(Void), e1) by {
      DefineBinds(fuel, "a", Integer(1), env);
    }
    assert EvalObj(fuel + 1, Symbol("a"), e1) == Outcome(Ok(Integer(1)), e1) by {
      SetThenGet(env, "a", Integer(1));
    }
    OperatorSteps(fuel + 1, "+", def, Symbol("a"), env);
  }

  /** `(/ -7 2)` is -3: division rounds toward zero, not down. */
  lemma DivisionTruncates(fuel: nat, env: Env)
    ensures EvalObj(fuel + 1, List([Symbol("/"), Integer(-7), Integer(2)]), env) == Outcome(Ok(Integer(-3)), env)
  {
    OperatorOnIntegers(fuel, "/", -7, 2, env);
    assert TruncDiv(-7, 2) == -3;
  }

  /** An operator applied to two integer literals computes `ApplyOperator` and leaves the scopes alone. */
  lemma OperatorOnIntegers(fuel: nat, op: string, a: I64, b: I64, env: Env)
    requires IsBinaryOperator(op)
    ensures EvalObj(fuel + 1, List([Symbol(op), Integer(a), Integer(b)]), env) == Outcome(ApplyOperator(op, a, b), env)
  {
    OperatorOnValues(fuel, op, Integer(a), Integer(b), a, b, env);
  }

  /**
   * A successful operator form yields an integer for `+ - /` and a boolean
   * for `< > = !=`; integer operands are required on both sides.
   */
  lemma OperatorResultKind(fuel: nat, op: string, x: Object, y: Object, env: Env)
    requires IsBinaryOperator(op)
    ensures var o := EvalObj(fuel + 1, List([Symbol(op), x, y]), env);
            && (o.res.Ok? ==> EvalObj(fuel, x, env).res.Ok? && EvalObj(fuel, x, env).res.value.Integer?)
            && (op in {"+", "-", "/"} && o.res.Ok? ==> o.res.value.Integer?)
            && (op in {"<", ">", "=", "!="} && o.res.Ok? ==> o.res.value.Bool?)
  {
    var list := [Symbol(op), x, y];
    Dispatch(fuel, list, env);
    assert list[1] == x && list[2] == y;
  }

  /** The left operand's failure is final: the right operand is never evaluated. */
  lemma OperatorLeftFirst(fuel: nat, op: string, x: Object, y1: Object, y2: Object, env: Env)
    requires IsBinaryOperator(op)
    requires EvalObj(fuel, x, env).res.Err?
    ensures EvalObj(fuel + 1, List([Symbol(op), x, y1]), env) == EvalObj(fuel + 1, List([Symbol(op), x, y2]), env)
    ensures EvalObj(fuel + 1, List([Symbol(op), x, y1]), env).res == EvalObj(fuel, x, env).res
  {
    Dispatch(fuel, [Symbol(op), x, y1], env);
    Dispatch(fuel, [Symbol(op), x, y2], env);
    assert [Symbol(op), x, y1][1] == x && [Symbol(op), x, y2][1] == x;
  }

  /** An operator form of any other length fails before any operand is evaluated. */
  lemma OperatorArity(fuel: nat, op: string, args: seq<Object>, env: Env)
    requires IsBinaryOperator(op) && |args| != 2
    ensures EvalObj(fuel + 1, List([Symbol(op)] + args), env) == Outcome(Err(WrongArity), env)
  {
    assert ([Symbol(op)] + args)[0] == Symbol(op);
    Dispatch(fuel, [Symbol(op)] + args, env);
  }

  /**
   * `*` is not among the operators `eval_list` recognises: `(* a b)` is a call
   * of whatever `*` is bound to, and with `*` unbound it fails without
   * evaluating its operands.
   */
  lemma StarIsACall(fuel: nat, args: seq<Object>, env: Env)
    ensures EvalObj(fuel + 1, List([Symbol("*")] + args), env) == EvalFunctionCall(fuel, "*", [Symbol("*")] + args, env)
    ensures Lookup(env, "*") == None ==> EvalObj(fuel + 1, List([Symbol("*")] + args), env) == Outcome(Err(UnboundSymbol("*")), env)
  {
    var list := [Symbol("*")] + args;
    assert list[0] == Symbol("*");
    Dispatch(fuel, list, env);
  }

  /** Nested arithmetic: `(+ (- 10 4) (/ 7 2))` is 9, division truncating. */
  lemma NestedArithmetic(fuel: nat, env: Env)
    ensures EvalObj(fuel + 2, List([Symbol("+"), List([Symbol("-"), Integer(10), Integer(4)]), List([Symbol("/"), Integer(7), Integer(2)])]), env)
         == Outcome(Ok(Integer(9)), env)
  {
    OperatorOnIntegers(fuel, "-", 10, 4, env);
    OperatorOnIntegers(fuel, "/", 7, 2, env);
    assert TruncDiv(7, 2) == 3;
    var list := [Symbol("+"), List([Symbol("-"), Integer(10), Integer(4)]), List([Symbol("/"), Integer(7), Integer(2)])];
    Dispatch(fuel + 1, list, env);
    assert EvalObj(fuel + 1, list[1], env) == Outcome(Ok(Integer(6)), env);
    assert EvalObj(fuel + 1, list[2], env) == Outcome(Ok(Integer(3)), env);
  }

  // ---------------------------------------------------------------------------
  // define

  /**
   * `(define name e)` evaluates `e` once; on success it binds the value in the
   * innermost scope, after which `name` looks up to it, and no outer scope
   * changes. On failure the error is passed on and nothing is bound.
   */
  lemma DefineBinds(fuel: nat, name: string, e: Object, env: Env)
    ensures var v := EvalObj(fuel, e, env);
            var o := EvalObj(fuel + 1, List([Symbol("define"), Symbol(name), e]), env);
            && (v.res.Ok? ==> o == Outcome(Ok(Void), SetTop(v.env, name, v.res.value)) && Lookup(o.env, name) == Some(v.res.value))
            && (v.res.Err? ==> o == Outcome(Err(v.res.error), v.env))
            && Outer(o.env) == Outer(env)
  {
    var list := [Symbol("define"), Symbol(name), e];
    assert list[0] == Symbol("define") && list[1] == Symbol(name) && list[2] == e;
    Dispatch(fuel, list, env);
    var v := EvalObj(fuel, e, env);
    if v.res.Ok? {
      SetThenGet(v.env, name, v.res.value);
    }
  }

  /** After `(define x 10)`, the symbol `x` evaluates to 10. */
  lemma DefineThenLookup(fuel: nat, env: Env)
    ensures var o := EvalObj(fuel + 1, List([Symbol("define"), Symbol("x"), Integer(10)]), env);
            o.res == Ok(Void) && EvalObj(fuel, Symbol("x"), o.env).res == Ok(Integer(10))
  {
    DefineBinds(fuel, "x", Integer(10), env);
  }

  // ---------------------------------------------------------------------------
  // if

  /** When the condition is true, the result is the consequent's, whatever the alternative is. */
  lemma IfTrue(fuel: nat, c: Object, t: Object, e1: Object, e2: Object, env: Env)
    requires EvalObj(fuel, c, env).res == Ok(Bool(true))
    ensures EvalObj(fuel + 1, List([Symbol("if"), c, t, e1]), env) == EvalObj(fuel, t, EvalObj(fuel, c, env).env)
    ensures EvalObj(fuel + 1, List([Symbol("if"), c, t, e1]), env) == EvalObj(fuel + 1, List([Symbol("if"), c, t, e2]), env)
  {
    assert [Symbol("if"), c, t, e1][0] == Symbol("if") && [Symbol("if"), c, t, e1][1] == c && [Symbol("if"), c, t, e1][2] == t;
    assert [Symbol("if"), c, t, e2][0] == Symbol("if") && [Symbol("if"), c, t, e2][1] == c && [Symbol("if"), c, t, e2][2] == t;
    Dispatch(fuel, [Symbol("if"), c, t, e1], env);
    Dispatch(fuel, [Symbol("if"), c, t, e2], env);
  }

  /** When the condition is false, the result is the alternative's, whatever the consequent is. */
  lemma IfFalse(fuel: nat, c: Object, t1: Object, t2: Object, e: Object, env: Env)
    requires EvalObj(fuel, c, env).res == Ok(Bool(false))
    ensures EvalObj(fuel + 1, List([Symbol("if"), c, t1, e]), env) == EvalObj(fuel, e, EvalObj(fuel, c, env).env)
    ensures EvalObj(fuel + 1, List([Symbol("if"), c, t1, e]), env) == EvalObj(fuel + 1, List([Symbol("if"), c, t2, e]), env)
  {
    assert [Symbol("if"), c, t1, e][0] == Symbol("if") && [Symbol("if"), c, t1, e][1] == c && [Symbol("if"), c, t1, e][3] == e;
    assert [Symbol("if"), c, t2, e][0] == Symbol("if") && [Symbol("if"), c, t2, e][1] == c && [Symbol("if"), c, t2, e][3] == e;
    Dispatch(fuel, [Symbol("if"), c, t1, e], env);
    Dispatch(fuel, [Symbol("if"), c, t2, e], env);
  }

  /** A condition that is not a boolean is an error, and neither branch is evaluated. */
  lemma IfNeedsBool(fuel: nat, c: Object, t: Object, e: Object, env: Env)
    requires EvalObj(fuel, c, env).res.Ok? && !EvalObj(fuel, c, env).res.value.Bool?
    ensures EvalObj(fuel + 1, List([Symbol("if"), c, t, e]), env) == Outcome(Err(ConditionNotBool), EvalObj(fuel, c, env).env)
  {
    assert [Symbol("if"), c, t, e][0] == Symbol("if") && [Symbol("if"), c, t, e][1] == c;
    Dispatch(fuel, [Symbol("if"), c, t, e], env);
  }

  /**
   * A condition that fails makes the whole form fail with its error, in the
   * scopes the condition left; neither branch is evaluated, so the branches
   * do not matter.
   */
  lemma IfConditionFails(fuel: nat, c: Object, t1: Object, e1: Object, t2: Object, e2: Object, env: Env)
    requires EvalObj(fuel, c, env).res.Err?
    ensures EvalObj(fuel + 1, List([Symbol("if"), c, t1, e1]), env)
         == Outcome(Err(EvalObj(fuel, c, env).res.error), EvalObj(fuel, c, env).env)
    ensures EvalObj(fuel + 1, List([Symbol("if"), c, t1, e1]), env) == EvalObj(fuel + 1, List([Symbol("if"), c, t2, e2]), env)
  {
    assert [Symbol("if"), c, t1, e1][0] == Symbol("if") && [Symbol("if"), c, t1, e1][1] == c;
    assert [Symbol("if"), c, t2, e2][0] == Symbol("if") && [Symbol("if"), c, t2, e2][1] == c;
    Dispatch(fuel, [Symbol("if"), c, t1, e1], env);
    Dispatch(fuel, [Symbol("if"), c, t2, e2], env);
  }

  /** `(if (> 3 2) 1 2)` is 1. */
  lemma IfExample(fuel: nat, env: Env)
    ensures EvalObj(fuel + 2, List([Symbol("if"), List([Symbol(">"), Integer(3), Integer(2)]), Integer(1), Integer(2)]), env)
         == Outcome(Ok(Integer(1)), env)
  {
    OperatorOnIntegers(fuel, ">", 3, 2, env);
    IfTrue(fuel + 1, List([Symbol(">"), Integer(3), Integer(2)]), Integer(1), Integer(2), Integer(2), env);
  }

  // ---------------------------------------------------------------------------
  // lambda

  /** A `lambda` form evaluates to `eval_function_definition`'s result and changes no scope. */
  lemma LambdaForm(fuel: nat, rest: seq<Object>, env: Env)
    ensures EvalObj(fuel + 1, List([Symbol("lambda")] + rest), env) == Outcome(EvalFunctionDefinition([Symbol("lambda")] + rest), env)
  {
    assert ([Symbol("lambda")] + rest)[0] == Symbol("lambda");
    Dispatch(fuel, [Symbol("lambda")] + rest, env);
  }

  /** `(lambda (n) (+ n n))` is the procedure with parameter `n` and body `+ n n`. */
  lemma LambdaExample(fuel: nat, env: Env)
    ensures EvalObj(fuel + 1, List([Symbol("lambda"), List([Symbol("n")]), List([Symbol("+"), Symbol("n"), Symbol("n")])]), env)
         == Outcome(Ok(Lambda(["n"], [Symbol("+"), Symbol("n"), Symbol("n")])), env)
  {
    var rest := [List([Symbol("n")]), List([Symbol("+"), Symbol("n"), Symbol("n")])];
    var list := [Symbol("lambda"), List([Symbol("n")]), List([Symbol("+"), Symbol("n"), Symbol("n")])];
    assert [Symbol("lambda")] + rest == list;
    LambdaForm(fuel, rest, env);
    assert list[1].items[0] == Symbol("n");
    var r := EvalFunctionDefinition(list);
    assert r.Ok?;
    assert r.value.params == ["n"];
  }

  // ---------------------------------------------------------------------------
  // Procedure calls

  /** Arguments after the last parameter are never looked at: the binding loop stops at the parameter count. */
  lemma {:induction false} BindArgsIgnoresExtra(fuel: nat, params: seq<string>, list: seq<Object>, extra: seq<Object>, i: nat, frame: Frame, env: Env)
    requires i <= |params| < |list|
    ensures BindArgs(fuel, params, list + extra, i, frame, env) == BindArgs(fuel, params, list, i, frame, env)
    decreases |params| - i
  {
    if i < |params| {
      assert (list + extra)[i + 1] == list[i + 1];
      var v := EvalObj(fuel, list[i + 1], env);
      if v.res.Ok? {
        BindArgsIgnoresExtra(fuel, params, list, extra, i + 1, frame[params[i] := v.res.value], v.env);
      }
    }
  }

  /** The arguments `list[i + 1..]` all evaluate without error, each in the scopes the previous one left. */
  predicate ArgsSucceed(fuel: nat, list: seq<Object>, i: nat, env: Env)
    decreases |list| - i
  {
    i + 1 >= |list|
    || (var v := EvalObj(fuel, list[i + 1], env); v.res.Ok? && ArgsSucceed(fuel, list, i + 1, v.env))
  }

  /**
   * Fewer arguments than parameters never bind: either some argument fails,
   * or every argument evaluates and the loop then indexes past the list. With
   * literal arguments nothing else can happen and the scopes are untouched.
   */
  lemma {:induction false} BindArgsTooFew(fuel: nat, params: seq<string>, list: seq<Object>, i: nat, frame: Frame, env: Env)
    requires i <= |params| && i < |list| <= |params|
    ensures BindArgs(fuel, params, list, i, frame, env).res.Err?
    ensures ArgsSucceed(fuel, list, i, env) ==> BindArgs(fuel, params, list, i, frame, env).res == Err(Panic(IndexOutOfBounds))
    ensures (forall k :: i < k < |list| ==> list[k].Integer?) ==>
              BindArgs(fuel, params, list, i, frame, env) == Outcome(Err(Panic(IndexOutOfBounds)), env)
    decreases |params| - i
  {
    if i + 1 < |list| {
      var v := EvalObj(fuel, list[i + 1], env);
      if v.res.Ok? {
        BindArgsTooFew(fuel, params, list, i + 1, frame[params[i] := v.res.value], v.env);
      }
    }
  }

  /**
   * The binding loop binds exactly the remaining parameters on top of
   * `frame`, and succeeds only when there is an argument for each of them.
   */
  lemma {:induction false} BindArgsBinds(fuel: nat, params: seq<string>, list: seq<Object>, i: nat, frame: Frame, env: Env)
    requires i <= |params|
    ensures var b := BindArgs(fuel, params, list, i, frame, env);
            b.res.Ok? ==> |list| > |params| || i == |params|
    ensures var b := BindArgs(fuel, params, list, i, frame, env);
            b.res.Ok? ==> forall p :: p in b.res.value <==> p in frame || p in params[i..]
    decreases |params| - i
  {
    if i < |params| && i + 1 < |list| {
      var v := EvalObj(fuel, list[i + 1], env);
      if v.res.Ok? {
        var f' := frame[params[i] := v.res.value];
        BindArgsBinds(fuel, params, list, i + 1, f', v.env);
        assert params[i..] == [params[i]] + params[i + 1..];
      }
    }
  }

  /**
   * With every argument a literal integer, binding succeeds without touching
   * the scopes, and each parameter is bound to the argument in its position;
   * a parameter name that occurs twice gets the later argument.
   */
  lemma {:induction false} BindArgsLiterals(fuel: nat, params: seq<string>, list: seq<Object>, i: nat, frame: Frame, env: Env)
    requires i <= |params| < |list|
    requires forall k :: 1 <= k < |list| ==> list[k].Integer?
    ensures var b := BindArgs(fuel, params, list, i, frame, env);
            b.env == env && b.res.Ok?
            && (forall k :: i <= k < |params| ==> params[k] in b.res.value)
            && (forall k :: i <= k < |params| && params[k] !in params[k + 1..] ==> b.res.value[params[k]] == list[k + 1])
            && (forall p :: p in frame && p !in params[i..] ==> p in b.res.value && b.res.value[p] == frame[p])
    decreases |params| - i
  {
    if i < |params| {
      var f' := frame[params[i] := list[i + 1]];
      BindArgsLiterals(fuel, params, list, i + 1, f', env);
      var b := BindArgs(fuel, params, list, i + 1, f', env);
      assert BindArgs(fuel, params, list, i, frame, env) == b;
      assert params[i..] == [params[i]] + params[i + 1..];
      forall p | p in frame && p !in params[i..]
        ensures p in b.res.value && b.res.value[p] == frame[p]
      {
        assert p !in params[i + 1..];
      }
    }
  }

  /** A call with more arguments than parameters behaves as if the extra ones were not written. */
  lemma ExtraArgumentsIgnored(fuel: nat, name: string, list: seq<Object>, extra: seq<Object>, env: Env)
    requires Lookup(env, name).Some? && Lookup(env, name).value.Lambda?
    requires |Lookup(env, name).value.params| < |list|
    ensures EvalFunctionCall(fuel, name, list + extra, env) == EvalFunctionCall(fuel, name, list, env)
  {
    BindArgsIgnoresExtra(fuel, Lookup(env, name).value.params, list, extra, 0, map[], env);
  }

  /**
   * A call with fewer arguments than parameters is an error: an argument's
   * own error, or, once every argument has evaluated, the index panic of
   * reading the missing one.
   */
  lemma MissingArgumentsFail(fuel: nat, name: string, list: seq<Object>, env: Env)
    requires Lookup(env, name).Some? && Lookup(env, name).value.Lambda?
    requires 0 < |list| <= |Lookup(env, name).value.params|
    ensures EvalFunctionCall(fuel, name, list, env).res.Err?
    ensures ArgsSucceed(fuel, list, 0, env) ==> EvalFunctionCall(fuel, name, list, env).res == Err(Panic(IndexOutOfBounds))
    ensures (forall k :: 0 < k < |list| ==> list[k].Integer?) ==>
              EvalFunctionCall(fuel, name, list, env) == Outcome(Err(Panic(IndexOutOfBounds)), env)
  {
    BindArgsTooFew(fuel, Lookup(env, name).value.params, list, 0, map[], env);
  }

  /**
   * The argument loop stops at the first failing argument: when the arguments
   * for parameters `i` to `j - 1` bind and argument `j + 1` fails, the loop
   * fails with that argument's error in the scopes it left, whatever follows.
   */
  lemma {:induction false} BindArgsStops(fuel: nat, params: seq<string>, list: seq<Object>, i: nat, j: nat, frame: Frame, env: Env)
    requires i <= j < |params| && j + 1 < |list|
    requires var p := BindArgs(fuel, params[..j], list, i, frame, env);
             p.res.Ok? && EvalObj(fuel, list[j + 1], p.env).res.Err?
    ensures var p := BindArgs(fuel, params[..j], list, i, frame, env);
            var f := EvalObj(fuel, list[j + 1], p.env);
            BindArgs(fuel, params, list, i, frame, env) == Outcome(Err(f.res.error), f.env)
    decreases j - i
  {
    if i < j {
      assert params[..j][i] == params[i];
      var v := EvalObj(fuel, list[i + 1], env);
      if v.res.Ok? {
        BindArgsStops(fuel, params, list, i + 1, j, frame[params[i] := v.res.value], v.env);
      }
    }
  }

  /**
   * A call whose arguments fail to bind fails with the binding error, in the
   * scopes argument evaluation left; the body never runs.
   */
  lemma CallArgumentFails(fuel: nat, list: seq<Object>, env: Env)
    requires list != [] && list[0].Symbol? && !IsBinaryOperator(list[0].name) && list[0].name !in {"define", "if", "lambda"}
    requires Lookup(env, list[0].name).Some? && Lookup(env, list[0].name).value.Lambda?
    requires BindArgs(fuel, Lookup(env, list[0].name).value.params, list, 0, map[], env).res.Err?
    ensures var b := BindArgs(fuel, Lookup(env, list[0].name).value.params, list, 0, map[], env);
            EvalObj(fuel + 1, List(list), env) == Outcome(Err(b.res.error), b.env)
  {
    Dispatch(fuel, list, env);
  }

  /**
   * A call stops at its first failing argument: when the arguments for the
   * first `j` parameters bind and argument `j + 1` fails, the call fails with
   * that argument's error, the later arguments are never evaluated and the
   * body never runs. This holds with too few arguments as well.
   */
  lemma CallStopsAtArgument(fuel: nat, list: seq<Object>, j: nat, env: Env)
    requires list != [] && list[0].Symbol? && !IsBinaryOperator(list[0].name) && list[0].name !in {"define", "if", "lambda"}
    requires Lookup(env, list[0].name).Some? && Lookup(env, list[0].name).value.Lambda?
    requires j < |Lookup(env, list[0].name).value.params| && j + 1 < |list|
    requires var p := BindArgs(fuel, Lookup(env, list[0].name).value.params[..j], list, 0, map[], env);
             p.res.Ok? && EvalObj(fuel, list[j + 1], p.env).res.Err?
    ensures var p := BindArgs(fuel, Lookup(env, list[0].name).value.params[..j], list, 0, map[], env);
            var f := EvalObj(fuel, list[j + 1], p.env);
            EvalObj(fuel + 1, List(list), env) == Outcome(Err(f.res.error), f.env)
  {
    BindArgsStops(fuel, Lookup(env, list[0].name).value.params, list, 0, j, map[], env);
    CallArgumentFails(fuel, list, env);
  }

  /**
   * A successful binding runs the body as one list in a new scope on top of the
   * caller's; afterwards that scope is gone, so nothing the body defines is
   * visible to the caller, who keeps only what argument evaluation did.
   */
  lemma CallDropsScope(fuel: nat, name: string, list: seq<Object>, env: Env)
    requires Lookup(env, name).Some? && Lookup(env, name).value.Lambda?
    requires BindArgs(fuel, Lookup(env, name).value.params, list, 0, map[], env).res.Ok?
    ensures var f := Lookup(env, name).value;
            var b := BindArgs(fuel, f.params, list, 0, map[], env);
            var o := EvalFunctionCall(fuel, name, list, env);
            o.env == b.env && o.res == EvalObj(fuel, List(f.body), b.env + [b.res.value]).res
  {
    var f := Lookup(env, name).value;
    var b := BindArgs(fuel, f.params, list, 0, map[], env);
    var r := EvalObj(fuel, List(f.body), b.env + [b.res.value]);
    assert Outer(b.env + [b.res.value]) == b.env;
  }

  /**
   * A call whose arguments bind to `frame` without touching the scopes, and
   * whose body then yields `v`, yields `v` and leaves the caller's scopes as
   * they were.
   */
  lemma CallYields(fuel: nat, list: seq<Object>, params: seq<string>, body: seq<Object>, frame: Frame, v: Object, after: Frame, env: Env)
    requires list != [] && list[0].Symbol? && !IsBinaryOperator(list[0].name) && list[0].name !in {"define", "if", "lambda"}
    requires Lookup(env, list[0].name) == Some(Lambda(params, body))
    requires BindArgs(fuel, params, list, 0, map[], env) == Outcome(Ok(frame), env)
    requires EvalObj(fuel, List(body), env + [frame]) == Outcome(Ok(v), env + [after])
    ensures EvalObj(fuel + 1, List(list), env) == Outcome(Ok(v), env)
  {
    Dispatch(fuel, list, env);
    CallDropsScope(fuel, list[0].name, list, env);
  }

  /** A call with one literal argument binds the one parameter to it. */
  lemma BindOneLiteral(fuel: nat, p: string, head: Object, n: I64, env: Env)
    ensures BindArgs(fuel, [p], [head, Integer(n)], 0, map[], env) == Outcome(Ok(map[p := Integer(n)]), env)
  {
    var list := [head, Integer(n)];
    assert list[1] == Integer(n);
    assert BindArgs(fuel, [p], list, 1, map[p := Integer(n)], env) == Outcome(Ok(map[p := Integer(n)]), env);
  }

  /** With `double` bound to `(lambda (n) (+ n n))`, `(double 5)` is 10 and the caller's scopes are as before. */
  lemma CallExample(fuel: nat, env: Env)
    requires Lookup(env, "double") == Some(Lambda(["n"], [Symbol("+"), Symbol("n"), Symbol("n")]))
    ensures EvalObj(fuel + 2, List([Symbol("double"), Integer(5)]), env) == Outcome(Ok(Integer(10)), env)
  {
    var frame := map["n" := Integer(5)];
    BindOneLiteral(fuel + 1, "n", Symbol("double"), 5, env);
    var inner := env + [frame];
    assert Lookup(inner, "n") == Some(Integer(5));
    OperatorOnValues(fuel, "+", Symbol("n"), Symbol("n"), 5, 5, inner);
    assert ApplyOperator("+", 5, 5) == Ok(Integer(10));
    CallYields(fuel + 1, [Symbol("double"), Integer(5)], ["n"], [Symbol("+"), Symbol("n"), Symbol("n")], frame, Integer(10), frame, env);
  }

  /** With `f` bound to `(lambda () (+ y 0))`, `(f)` is the value `y` has where `f` is called. */
  lemma CallSeesCallerBinding(fuel: nat, scope: Env, y: I64)
    requires Lookup(scope, "f") == Some(Lambda([], [Symbol("+"), Symbol("y"), Integer(0)]))
    requires Lookup(scope, "y") == Some(Integer(y))
    ensures EvalObj(fuel + 2, List([Symbol("f")]), scope) == Outcome(Ok(Integer(y)), scope)
  {
    var fScope := scope + [map[]];
    assert Lookup(fScope, "y") == Some(Integer(y)) by {
      assert Outer(fScope) == scope;
    }
    OperatorOnValues(fuel, "+", Symbol("y"), Integer(0), y, 0, fScope);
    assert ApplyOperator("+", y, 0) == Ok(Integer(y));
    CallYields(fuel + 1, [Symbol("f")], [], [Symbol("+"), Symbol("y"), Integer(0)], map[], Integer(y), map[], scope);
  }

  /**
   * Scope is dynamic: a procedure sees the bindings of the scope it is called
   * from. With `f` bound to `(lambda () (+ y 0))` and `g` to `(lambda (y) (f))`,
   * `(g 7)` is 7 whatever `y` is bound to where `f` was defined.
   */
  lemma DynamicScope(fuel: nat, env: Env)
    requires Lookup(env, "f") == Some(Lambda([], [Symbol("+"), Symbol("y"), Integer(0)]))
    requires Lookup(env, "g") == Some(Lambda(["y"], [Symbol("f")]))
    ensures EvalObj(fuel + 3, List([Symbol("g"), Integer(7)]), env) == Outcome(Ok(Integer(7)), env)
  {
    var frame := map["y" := Integer(7)];
    BindOneLiteral(fuel + 2, "y", Symbol("g"), 7, env);
    var gScope := env + [frame];
    assert Lookup(gScope, "f") == Lookup(env, "f");
    assert Lookup(gScope, "y") == Some(Integer(7));
    CallSeesCallerBinding(fuel, gScope, 7);
    CallYields(fuel + 2, [Symbol("g"), Integer(7)], ["y"], [Symbol("f")], frame, Integer(7), frame, env);
  }

  // ---------------------------------------------------------------------------
  // Lists whose head is not a symbol

  /** The atoms of `xs` that do not evaluate to `Void`, in order. */
  function Kept(xs: seq<Object>): (r: seq<Object>)
    ensures |r| <= |xs|
    ensures forall k :: 0 <= k < |r| ==> r[k] in xs && !r[k].Void? && !r[k].Lambda?
  {
    if xs == [] then []
    else if xs[0].Void? || xs[0].Lambda? then Kept(xs[1..])
    else [xs[0]] + Kept(xs[1..])
  }

  predicate IsAtom(x: Object)
  {
    x.Void? || x.Integer? || x.Bool? || x.Lambda?
  }

  /** One step of `Kept` from position `i`. */
  lemma KeptStep(list: seq<Object>, i: nat)
    requires i < |list|
    ensures Kept(list[i..]) == (if list[i].Void? || list[i].Lambda? then [] else [list[i]]) + Kept(list[i + 1..])
  {
    assert list[i..][0] == list[i] && list[i..][1..] == list[i + 1..];
  }

  /**
   * Element-by-element evaluation, on success, yields a list that extends
   * `acc` by at most one value per remaining element, none of them `Void`.
   */
  lemma {:induction false} EvalEachCollects(fuel: nat, list: seq<Object>, i: nat, acc: seq<Object>, env: Env)
    requires i <= |list|
    ensures var o := EvalEach(fuel, list, i, acc, env);
            o.res.Ok? ==>
              && o.res.value.List?
              && |acc| <= |o.res.value.items| <= |acc| + (|list| - i)
              && o.res.value.items[..|acc|] == acc
              && forall k :: |acc| <= k < |o.res.value.items| ==> o.res.value.items[k] != Void
    decreases |list| - i
  {
    if i < |list| {
      var v := EvalObj(fuel, list[i], env);
      if v.res.Ok? {
        var acc' := if v.res.value == Void then acc else acc + [v.res.value];
        EvalEachCollects(fuel, list, i + 1, acc', v.env);
        var o := EvalEach(fuel, list, i + 1, acc', v.env);
        assert EvalEach(fuel, list, i, acc, env) == o;
        if o.res.Ok? {
          var items := o.res.value.items;
          assert items[..|acc|] == items[..|acc'|][..|acc|];
        }
      }
    }
  }

  /**
   * The element loop run over `list` is the loop run over its first `j`
   * elements, then continued from element `j` with what that run collected
   * and in the scopes it left; a failure among the first `j` elements is the
   * failure of the whole loop.
   */
  lemma {:induction false} EvalEachSplit(fuel: nat, list: seq<Object>, i: nat, j: nat, acc: seq<Object>, env: Env)
    requires i <= j <= |list|
    ensures var p := EvalEach(fuel, list[..j], i, acc, env);
            p.res.Err? ==> EvalEach(fuel, list, i, acc, env) == p
    ensures var p := EvalEach(fuel, list[..j], i, acc, env);
            p.res.Ok? && p.res.value.List? ==> EvalEach(fuel, list, i, acc, env) == EvalEach(fuel, list, j, p.res.value.items, p.env)
    decreases j - i
  {
    if i < j {
      assert list[..j][i] == list[i];
      var v := EvalObj(fuel, list[i], env);
      if v.res.Ok? {
        var acc' := if v.res.value == Void then acc else acc + [v.res.value];
        EvalEachSplit(fuel, list, i + 1, j, acc', v.env);
      }
    }
  }

  /**
   * The loop stops at the first error: when elements `i` to `j - 1` succeed
   * and element `j` fails, the loop fails with element `j`'s error in the
   * scopes it left, whatever follows element `j`.
   */
  lemma EvalEachStops(fuel: nat, list: seq<Object>, i: nat, j: nat, acc: seq<Object>, env: Env)
    requires i <= j < |list|
    requires var p := EvalEach(fuel, list[..j], i, acc, env);
             p.res.Ok? && EvalObj(fuel, list[j], p.env).res.Err?
    ensures var p := EvalEach(fuel, list[..j], i, acc, env);
            var f := EvalObj(fuel, list[j], p.env);
            EvalEach(fuel, list, i, acc, env) == Outcome(Err(f.res.error), f.env)
  {
    EvalEachCollects(fuel, list[..j], i, acc, env);
    EvalEachSplit(fuel, list, i, j, acc, env);
  }

  /**
   * A list whose head is not a symbol stops at its first failing element:
   * the result is that element's error, in the scopes left by the elements
   * before it, and the elements after it are never evaluated.
   */
  lemma ListStopsAtFirstError(fuel: nat, list: seq<Object>, j: nat, env: Env)
    requires j < |list| && !list[0].Symbol?
    requires var p := EvalEach(fuel, list[..j], 0, [], env);
             p.res.Ok? && EvalObj(fuel, list[j], p.env).res.Err?
    ensures var p := EvalEach(fuel, list[..j], 0, [], env);
            var f := EvalObj(fuel, list[j], p.env);
            EvalObj(fuel + 1, List(list), env) == Outcome(Err(f.res.error), f.env)
  {
    assert EvalObj(fuel + 1, List(list), env) == EvalEach(fuel, list, 0, [], env);
    EvalEachStops(fuel, list, 0, j, [], env);
  }

  /** Element-by-element evaluation of atoms keeps the non-`Void` results in order and changes no scope. */
  lemma {:induction false} EvalEachAtoms(fuel: nat, list: seq<Object>, i: nat, acc: seq<Object>, env: Env)
    requires i <= |list|
    requires forall k :: 0 <= k < |list| ==> IsAtom(list[k])
    ensures EvalEach(fuel, list, i, acc, env) == Outcome(Ok(List(acc + Kept(list[i..]))), env)
    decreases |list| - i
  {
    if i == |list| {
      assert list[i..] == [];
      assert acc + Kept(list[i..]) == acc;
    } else {
      var x := list[i];
      var v := if x.Void? || x.Lambda? then Void else x;
      assert EvalObj(fuel, x, env) == Outcome(Ok(v), env) by {
        SelfEvaluating(fuel, x, env);
      }
      var acc' := if v == Void then acc else acc + [v];
      assert EvalEach(fuel, list, i, acc, env) == EvalEach(fuel, list, i + 1, acc', env);
      EvalEachAtoms(fuel, list, i + 1, acc', env);
      KeptStep(list, i);
      Sequences.AppendAssoc(acc, if v == Void then [] else [v], Kept(list[i + 1..]));
    }
  }

  /** A list of atoms that does not start with a symbol evaluates to the list of its non-`Void` values. */
  lemma ListOfAtoms(fuel: nat, list: seq<Object>, env: Env)
    requires list != [] && !list[0].Symbol?
    requires forall k :: 0 <= k < |list| ==> IsAtom(list[k])
    ensures EvalObj(fuel + 1, List(list), env) == Outcome(Ok(List(Kept(list))), env)
  {
    EvalEachAtoms(fuel, list, 0, [], env);
    assert list[0..] == list;
    assert [] + Kept(list) == Kept(list);
    assert EvalList(fuel, list, env) == EvalEach(fuel, list, 0, [], env);
  }

  /**
   * Bindings made before a failure stay: `((define r 10) (* r r))` with `*`
   * unbound fails, yet `r` is bound to 10 afterwards.
   */
  lemma BindingsOutliveFailure(fuel: nat, env: Env)
    requires Lookup(env, "*") == None
    ensures var o := EvalObj(fuel + 2, List([List([Symbol("define"), Symbol("r"), Integer(10)]), List([Symbol("*"), Symbol("r"), Symbol("r")])]), env);
            o.res == Err(UnboundSymbol("*")) && Lookup(o.env, "r") == Some(Integer(10))
  {
    var def := List([Symbol("define"), Symbol("r"), Integer(10)]);
    var mul := [Symbol("*"), Symbol("r"), Symbol("r")];
    var list := [def, List(mul)];
    var e1 := SetTop(env, "r", Integer(10));
    assert EvalObj(fuel + 1, def, env) == Outcome(Ok(Void), e1) by {
      DefineBinds(fuel, "r", Integer(10), env);
    }
    assert EvalObj(fuel + 1, List(mul), e1) == Outcome(Err(UnboundSymbol("*")), e1) by {
      SetKeepsOthers(env, "r", Integer(10), "*");
      StarIsACall(fuel, [Symbol("r"), Symbol("r")], e1);
      assert [Symbol("*")] + [Symbol("r"), Symbol("r")] == mul;
    }
    assert list[0] == def && list[1] == List(mul);
    assert EvalEach(fuel + 1, list, 1, [], e1) == Outcome(Err(UnboundSymbol("*")), e1);
    assert EvalEach(fuel + 1, list, 0, [], env) == Outcome(Err(UnboundSymbol("*")), e1);
    assert EvalObj(fuel + 2, List(list), env) == EvalEach(fuel + 1, list, 0, [], env);
    SetThenGet(env, "r", Integer(10));
  }

  // ---------------------------------------------------------------------------
  // From text

  /** `eval("(+ 1 2)")` is 3. */
  lemma EvalTextExample(fuel: nat, env: Env)
    ensures EvalText(fuel + 1, "(+ 1 2)", env) == Outcome(Ok(Integer(3)), env)
  {
    Parser.ParseExample();
    OperatorOnIntegers(fuel, "+", 1, 2, env);
  }
}

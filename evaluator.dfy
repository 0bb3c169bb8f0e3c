/**
 * The evaluator (`src/evaluator.rs`) as it runs: methods over the scope
 * objects of `Environment.Meta`, which update the bindings of the current
 * scope in place. Each method is proved to compute exactly what the function
 * of the same name in `Semantics` describes, on the scope chain it sees.
 *
 * A method only ever writes the bindings of the scope it is given (and of
 * scopes it creates itself), so no ancestor scope changes during evaluation.
 */
module Evaluator {
  import opened Wrappers
  import opened Objects
  import opened Environment
  import Parser
  import S = Semantics

  /** `eval`: parses the text and evaluates the parsed list in `meta`. */
  method Eval(fuel: nat, param: string, meta: Meta) returns (r: Result<Object, S.EvalError>)
    requires meta.Valid()
    modifies meta`vars
    ensures meta.Valid()
    ensures S.Outcome(r, meta.Frames()) == S.EvalText(fuel, param, old(meta.Frames()))
  {
    var paramList := Parser.Parse(param);
    if paramList.Err? {
      return Err(S.ParseFailed(paramList.error));
    }
    r := EvalObj(fuel, paramList.value, meta);
  }

  /** `eval_obj`: atoms evaluate to themselves, symbols are looked up, lists are forms. */
  method EvalObj(fuel: nat, obj: Object, meta: Meta) returns (r: Result<Object, S.EvalError>)
    requires meta.Valid()
    modifies meta`vars
    ensures meta.Valid()
    ensures S.Outcome(r, meta.Frames()) == S.EvalObj(fuel, obj, old(meta.Frames()))
    decreases fuel, 0, 0
  {
    ghost var env := meta.Frames();
    ghost var o := S.EvalObj(fuel, obj, env);
    match obj {
      case Void =>
        r := Ok(Void);
        assert o == S.Outcome(r, env);
      case Integer(n) =>
        r := Ok(Integer(n));
        assert o == S.Outcome(r, env);
      case Bool(_) =>
        r := Ok(obj);
        assert o == S.Outcome(r, env);
      case Symbol(s) =>
        assert o == S.EvalSymbol(s, env);
        r := EvalSymbol(s, meta);
      case Lambda(_, _) =>
        r := Ok(Void);
        assert o == S.Outcome(r, env);
      case List(list) =>
        if fuel == 0 {
          assert o == S.Outcome(Err(S.OutOfFuel), env);
          return Err(S.OutOfFuel);
        }
        assert o == S.EvalList(fuel - 1, list, env);
        r := EvalList(fuel - 1, list, meta);
    }
  }

  /** `eval_symbol`: the innermost binding of `s`, or an unbound-symbol error. */
  method EvalSymbol(s: string, meta: Meta) returns (r: Result<Object, S.EvalError>)
    requires meta.Valid()
    ensures r.Ok? <==> Lookup(meta.Frames(), s).Some?
    ensures r.Ok? ==> r.value == Lookup(meta.Frames(), s).value
    ensures r.Err? ==> r.error == S.UnboundSymbol(s)
    ensures S.Outcome(r, meta.Frames()) == S.EvalSymbol(s, meta.Frames())
  {
    var val := meta.Get(s);
    if val.None? {
      return Err(S.UnboundSymbol(s));
    }
    r := Ok(val.value);
  }

  /** `eval_list`: dispatch on the head symbol, or evaluate every element and keep the non-`Void` results. */
  method EvalList(fuel: nat, list: seq<Object>, meta: Meta) returns (r: Result<Object, S.EvalError>)
    requires meta.Valid()
    modifies meta`vars
    ensures meta.Valid()
    ensures S.Outcome(r, meta.Frames()) == S.EvalList(fuel, list, old(meta.Frames()))
    decreases fuel, 3, 0
  {
    ghost var env := meta.Frames();
    if list == [] {
      // `list[0]` panics
      return Err(S.Panic(S.IndexOutOfBounds));
    }
    ghost var o := S.EvalList(fuel, list, env);
    if list[0].Symbol? {
      var s := list[0].name;
      if S.IsBinaryOperator(s) {
        assert o == S.EvalBinaryOp(fuel, list, env);
        r := EvalBinaryOp(fuel, list, meta);
      } else if s == "define" {
        assert o == S.EvalDefine(fuel, list, env);
        r := EvalDefine(fuel, list, meta);
      } else if s == "if" {
        assert o == S.EvalIf(fuel, list, env);
        r := EvalIf(fuel, list, meta);
      } else if s == "lambda" {
        assert o == S.Outcome(S.EvalFunctionDefinition(list), env);
        r := EvalFunctionDefinition(list);
      } else {
        assert o == S.EvalFunctionCall(fuel, s, list, env);
        r := EvalFunctionCall(fuel, s, list, meta);
      }
    } else {
      assert o == S.EvalEach(fuel, list, 0, [], env);
      r := EvalEach(fuel, list, meta);
    }
  }

  /**
   * The loop of `eval_list` for a list whose head is not a symbol: each element
   * is evaluated in turn, the first error stops the loop, and the results that
   * are not `Void` are collected into a new list.
   */
  method EvalEach(fuel: nat, list: seq<Object>, meta: Meta) returns (r: Result<Object, S.EvalError>)
    requires meta.Valid()
    modifies meta`vars
    ensures meta.Valid()
    ensures S.Outcome(r, meta.Frames()) == S.EvalEach(fuel, list, 0, [], old(meta.Frames()))
    decreases fuel, 1, 0
  {
    ghost var env := meta.Frames();
    var newList: seq<Object> := [];
    var i := 0;
    while i < |list|
      invariant 0 <= i <= |list|
      invariant meta.Valid()
      invariant S.EvalEach(fuel, list, i, newList, meta.Frames()) == S.EvalEach(fuel, list, 0, [], env)
    {
      ghost var before := meta.Frames();
      var res := EvalObj(fuel, list[i], meta);
      ghost var v := S.EvalObj(fuel, list[i], before);
      assert res == v.res && meta.Frames() == v.env;
      if res.Err? {
        return Err(res.error);
      }
      if res.value != Void {
        newList := newList + [res.value];
      }
      i := i + 1;
    }
    r := Ok(List(newList));
  }

  /**
   * `eval_function_call`: the head must name a lambda; each parameter is bound,
   * in a new scope inside the caller's, to its argument evaluated in the
   * caller's scope; then the body runs as one list in the new scope.
   */
  method EvalFunctionCall(fuel: nat, s: string, list: seq<Object>, meta: Meta) returns (r: Result<Object, S.EvalError>)
    requires meta.Valid()
    modifies meta`vars
    ensures meta.Valid()
    ensures S.Outcome(r, meta.Frames()) == S.EvalFunctionCall(fuel, s, list, old(meta.Frames()))
    decreases fuel, 2, 0
  {
    ghost var env := meta.Frames();
    var lambda := meta.Get(s);
    if lambda.None? {
      return Err(S.UnboundSymbol(s));
    }
    var func := lambda.value;
    if func.Lambda? {
      var newMeta := new Meta.Extend(meta);
      var bound := BindArgs(fuel, func.params, list, meta, newMeta);
      if bound.Err? {
        return Err(bound.error);
      }
      assert newMeta.Frames() == meta.Frames() + [newMeta.vars];
      r := EvalObj(fuel, List(func.body), newMeta);
    } else {
      r := Err(S.NotALambda(s));
    }
  }

  /**
   * The argument loop of `eval_function_call`: argument `i + 1` is evaluated
   * in the caller's scope `meta` and bound to parameter `i` in the new scope
   * `callee`, whose bindings are returned.
   */
  method BindArgs(fuel: nat, params: seq<string>, list: seq<Object>, meta: Meta, callee: Meta)
    returns (r: Result<Frame, S.EvalError>)
    requires meta.Valid() && callee.Valid() && callee.parent == meta && callee.vars == map[]
    modifies meta`vars, callee`vars
    ensures meta.Valid() && callee.Valid()
    ensures S.Outcome(r, meta.Frames()) == S.BindArgs(fuel, params, list, 0, map[], old(meta.Frames()))
    ensures r.Ok? ==> callee.vars == r.value
    decreases fuel, 1, 0
  {
    ghost var bound := S.BindArgs(fuel, params, list, 0, map[], meta.Frames());
    var i := 0;
    while i < |params|
      invariant 0 <= i <= |params|
      invariant meta.Valid() && callee.Valid()
      invariant S.BindArgs(fuel, params, list, i, callee.vars, meta.Frames()) == bound
    {
      if i + 1 >= |list| {
        // `list[i + 1]` panics: fewer arguments than parameters
        return Err(S.Panic(S.IndexOutOfBounds));
      }
      ghost var before := meta.Frames();
      var val := EvalObj(fuel, list[i + 1], meta);
      ghost var v := S.EvalObj(fuel, list[i + 1], before);
      assert val == v.res && meta.Frames() == v.env;
      if val.Err? {
        return Err(val.error);
      }
      callee.Set(params[i], val.value);
      i := i + 1;
    }
    r := Ok(callee.vars);
  }

  /** `eval_binary_op`: three elements, both operands evaluated left to right, both integers. */
  method EvalBinaryOp(fuel: nat, list: seq<Object>, meta: Meta) returns (r: Result<Object, S.EvalError>)
    requires meta.Valid()
    modifies meta`vars
    ensures meta.Valid()
    ensures S.Outcome(r, meta.Frames()) == S.EvalBinaryOp(fuel, list, old(meta.Frames()))
    decreases fuel, 2, 0
  {
    if |list| != 3 {
      return Err(S.WrongArity);
    }
    var operator := list[0];
    var left := EvalObj(fuel, list[1], meta);
    if left.Err? {
      return Err(left.error);
    }
    var right := EvalObj(fuel, list[2], meta);
    if right.Err? {
      return Err(right.error);
    }
    if !left.value.Integer? {
      return Err(S.LeftNotInteger(left.value));
    }
    if !right.value.Integer? {
      return Err(S.RightNotInteger(right.value));
    }
    match operator {
      case Symbol(op) => r := S.ApplyOperator(op, left.value.n, right.value.n);
      case _ => r := Err(S.OperatorNotSymbol);
    }
  }

  /** `eval_define`: evaluates the value and binds it in the current scope. */
  method EvalDefine(fuel: nat, list: seq<Object>, meta: Meta) returns (r: Result<Object, S.EvalError>)
    requires meta.Valid()
    modifies meta`vars
    ensures meta.Valid()
    ensures S.Outcome(r, meta.Frames()) == S.EvalDefine(fuel, list, old(meta.Frames()))
    decreases fuel, 2, 0
  {
    if |list| != 3 {
      return Err(S.WrongArity);
    }
    if !list[1].Symbol? {
      return Err(S.InvalidDefine);
    }
    var sym := list[1].name;
    var val := EvalObj(fuel, list[2], meta);
    if val.Err? {
      return Err(val.error);
    }
    meta.Set(sym, val.value);
    r := Ok(Void);
  }

  /** `eval_if`: evaluates the condition, then exactly one branch. */
  method EvalIf(fuel: nat, list: seq<Object>, meta: Meta) returns (r: Result<Object, S.EvalError>)
    requires meta.Valid()
    modifies meta`vars
    ensures meta.Valid()
    ensures S.Outcome(r, meta.Frames()) == S.EvalIf(fuel, list, old(meta.Frames()))
    decreases fuel, 2, 0
  {
    if |list| != 4 {
      return Err(S.WrongArity);
    }
    var obj := EvalObj(fuel, list[1], meta);
    if obj.Err? {
      return Err(obj.error);
    }
    if !obj.value.Bool? {
      return Err(S.ConditionNotBool);
    }
    if obj.value.b {
      r := EvalObj(fuel, list[2], meta);
    } else {
      r := EvalObj(fuel, list[3], meta);
    }
  }

  /**
   * `eval_function_definition`: element 1 must be a list of symbols and
   * element 2 a list; the result is the lambda value, and no scope changes.
   */
  method EvalFunctionDefinition(list: seq<Object>) returns (r: Result<Object, S.EvalError>)
    ensures r == S.EvalFunctionDefinition(list)
  {
    if |list| < 2 {
      // `list[1]` panics
      return Err(S.Panic(S.IndexOutOfBounds));
    }
    if !list[1].List? {
      return Err(S.InvalidLambda);
    }
    var ps := list[1].items;
    var params: seq<string> := [];
    var i := 0;
    while i < |ps|
      invariant 0 <= i <= |ps|
      invariant |params| == i
      invariant forall j :: 0 <= j < i ==> ps[j].Symbol? && params[j] == ps[j].name
    {
      if !ps[i].Symbol? {
        return Err(S.InvalidLambdaParameter);
      }
      params := params + [ps[i].name];
      i := i + 1;
    }
    assert S.ParamNames(ps).Some?;
    assert S.ParamNames(ps).value == params by {
      var names := S.ParamNames(ps).value;
      assert |names| == |params| && forall j :: 0 <= j < |ps| ==> names[j] == params[j];
    }
    if |list| < 3 {
      // `list[2]` panics
      return Err(S.Panic(S.IndexOutOfBounds));
    }
    if !list[2].List? {
      return Err(S.InvalidLambda);
    }
    r := Ok(Lambda(params, list[2].items));
  }
}

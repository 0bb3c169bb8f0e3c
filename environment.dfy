/**
 * The variable environment (`src/meta.rs`): a chain of scopes, each with its
 * own table of bindings and an optional parent. Lookup walks from the
 * innermost scope outwards; `set` always writes into the innermost scope.
 *
 * The chain is specified as a sequence of frames, outermost first and
 * innermost last; the class `Meta` is one scope of the chain and its
 * `Frames()` is the sequence it sees.
 */
module Environment {
  import opened Wrappers
  import opened Objects

  /** The bindings of one scope (`HashMap<String, Object>`). */
  type Frame = map<string, Object>

  /** A chain of scopes, outermost first; there is always at least one. */
  type Env = e: seq<Frame> | |e| > 0 witness [map[]]

  /** The innermost scope. */
  function Top(env: Env): Frame
  {
    env[|env| - 1]
  }

  /** The chain without its innermost scope. */
  function Outer(env: Env): seq<Frame>
  {
    env[..|env| - 1]
  }

  /** `Meta::get`: the value in the innermost scope that binds `name`. */
  function Lookup(env: Env, name: string): (r: Option<Object>)
    ensures name in Top(env) ==> r == Some(Top(env)[name])
    ensures r.None? ==> forall j :: 0 <= j < |env| ==> name !in env[j]
    decreases |env|
  {
    if name in Top(env) then Some(Top(env)[name])
    else if |env| == 1 then None
    else
      var o: Env := Outer(env);
      assert forall j :: 0 <= j < |o| ==> o[j] == env[j];
      Lookup(o, name)
  }

  /** `Meta::set`: binds `name` in the innermost scope, replacing any earlier binding there. */
  function SetTop(env: Env, name: string, val: Object): (r: Env)
    ensures |r| == |env| && Outer(r) == Outer(env)
    ensures Top(r) == Top(env)[name := val]
  {
    Outer(env) + [Top(env)[name := val]]
  }

  /** `Meta::new`: one empty scope. */
  function Empty(): (r: Env)
    ensures |r| == 1 && Top(r) == map[]
  {
    [map[]]
  }

  /** `Meta::extend`: a new empty scope inside `env`. */
  function Nest(env: Env): (r: Env)
    ensures |r| == |env| + 1 && Outer(r) == env && Top(r) == map[]
  {
    env + [map[]]
  }

  /** Every name is unbound in a fresh environment. */
  lemma EmptyBindsNothing(name: string)
    ensures Lookup(Empty(), name) == None
  {
  }

  /** A value just set is the value looked up. */
  lemma SetThenGet(env: Env, name: string, val: Object)
    ensures Lookup(SetTop(env, name, val), name) == Some(val)
  {
  }

  /** Setting one name leaves every other name as it was. */
  lemma SetKeepsOthers(env: Env, name: string, val: Object, other: string)
    requires other != name
    ensures Lookup(SetTop(env, name, val), other) == Lookup(env, other)
  {
  }

  /** An empty inner scope is transparent: it sees exactly what its parent sees. */
  lemma ExtendTransparent(env: Env, name: string)
    ensures Lookup(Nest(env), name) == Lookup(env, name)
  {
    assert Outer(Nest(env)) == env;
  }

  /** A binding in an inner scope shadows the parent's; the parent itself is unchanged. */
  lemma Shadowing(env: Env, name: string, val: Object)
    ensures Lookup(SetTop(Nest(env), name, val), name) == Some(val)
    ensures Outer(SetTop(Nest(env), name, val)) == env
  {
  }

  /** Lookup finds the binding of the innermost scope that has one. */
  lemma {:induction false} LookupInnermost(env: Env, name: string, k: nat)
    requires k < |env| && name in env[k]
    requires forall j :: k < j < |env| ==> name !in env[j]
    ensures Lookup(env, name) == Some(env[k][name])
    decreases |env|
  {
    if k < |env| - 1 {
      assert name !in Top(env);
      var o: Env := Outer(env);
      assert forall j :: k < j < |o| ==> o[j] == env[j];
      LookupInnermost(o, name, k);
    }
  }

  /** Lookup fails exactly when no scope binds the name. */
  lemma {:induction false} LookupNone(env: Env, name: string)
    ensures Lookup(env, name) == None <==> forall j :: 0 <= j < |env| ==> name !in env[j]
    decreases |env|
  {
    if name !in Top(env) && |env| > 1 {
      var o: Env := Outer(env);
      LookupNone(o, name);
      assert forall j :: 0 <= j < |o| ==> o[j] == env[j];
    }
  }

  /** Whatever lookup returns was bound in some scope. */
  lemma {:induction false} LookupFound(env: Env, name: string)
    requires Lookup(env, name).Some?
    ensures exists j :: 0 <= j < |env| && name in env[j] && env[j][name] == Lookup(env, name).value
    decreases |env|
  {
    if name in Top(env) {
      assert name in env[|env| - 1];
    } else {
      var o: Env := Outer(env);
      LookupFound(o, name);
      var j :| 0 <= j < |o| && name in o[j] && o[j][name] == Lookup(o, name).value;
      assert env[j] == o[j];
    }
  }

  // ---------------------------------------------------------------------------
  // The scope objects

  /**
   * One scope (`struct Meta`). `parent` never changes after construction; the
   * bindings `vars` are updated in place. `Repr` is this scope and all its
   * ancestors.
   */
  class Meta {
    var vars: Frame
    const parent: Meta?
    ghost const Repr: set<Meta>

    /** The chain is finite and acyclic. */
    ghost predicate Valid()
      decreases Repr
    {
      && this in Repr
      && (parent == null ==> Repr == {this})
      && (parent != null ==>
            && parent in Repr && Repr == {this} + parent.Repr && this !in parent.Repr
            && parent.Repr < Repr && parent.Valid())
    }

    /** The scopes this one sees, outermost first, itself last. */
    ghost function Frames(): (r: Env)
      requires Valid()
      reads Repr
      ensures Top(r) == vars
      ensures parent == null ==> |r| == 1
      decreases Repr
    {
      if parent == null then
        var r: seq<Frame> := [vars];
        assert |r| == 1;
        r
      else
        var r: seq<Frame> := parent.Frames() + [vars];
        assert |r| > 0;
        r
    }

    /** `Meta::new`. */
    constructor New()
      ensures Valid() && fresh(Repr)
      ensures parent == null && vars == map[]
      ensures Frames() == Empty()
    {
      vars := map[];
      parent := null;
      Repr := {this};
    }

    /** `Meta::extend`. */
    constructor Extend(p: Meta)
      requires p.Valid()
      ensures Valid() && Repr == {this} + p.Repr
      ensures parent == p && vars == map[]
      ensures Frames() == Nest(p.Frames())
    {
      vars := map[];
      parent := p;
      Repr := {this} + p.Repr;
    }

    /** `Meta::get`. */
    function Get(name: string): (r: Option<Object>)
      requires Valid()
      reads Repr
      ensures r == Lookup(Frames(), name)
      decreases Repr
    {
      if name in vars then Some(vars[name])
      else if parent == null then None
      else parent.Get(name)
    }

    /** `Meta::set`. */
    method Set(name: string, val: Object)
      requires Valid()
      modifies this`vars
      ensures Valid()
      ensures vars == old(vars)[name := val]
      ensures Frames() == SetTop(old(Frames()), name, val)
    {
      vars := vars[name := val];
    }
  }
}

/** Properties of the structured evaluator and the integer/boolean Prelude,
    each stated against an independent reference definition. */
module EvaluatorProps {
  import opened Values
  import opened Evaluator
  import Reactive

  /** Reference: `x1 op x2 op ... op xn`, bracketed from the left. */
  function LeftFold(p: PreludeOp, ns: seq<int>): int
    requires p in {Add, Sub, Mul} && |ns| >= 1
    decreases |ns|
  {
    if |ns| == 1 then ns[0] else IntOp(p, LeftFold(p, ns[..|ns| - 1]), ns[|ns| - 1])
  }

  /** Reference: the conjunction (`And`) or disjunction (`Or`) of `bs`. */
  function BoolFold(p: PreludeOp, bs: seq<bool>): bool
    requires p in {And, Or} && |bs| >= 1
    decreases |bs|
  {
    if |bs| == 1 then bs[0]
    else if p == And then BoolFold(p, bs[..|bs| - 1]) && bs[|bs| - 1]
    else BoolFold(p, bs[..|bs| - 1]) || bs[|bs| - 1]
  }

  /** Reference: `base[k1][k2]...[kn]`, with the last key applied last. */
  function PathGet(base: Value, keys: seq<string>): Result<Value>
    decreases |keys|
  {
    if |keys| == 0 then Ok(base)
    else
      var x :- PathGet(base, keys[..|keys| - 1]);
      Index(x, Str(keys[|keys| - 1]))
  }

  /** The environment's registry still maps `OpName(p)` to the Prelude's `p`. */
  predicate Registered(env: Env, p: PreludeOp) {
    OpName(p) in env.externs && env.externs[OpName(p)] == Builtin(p)
  }

  /** Every argument is evaluated, left to right, into the list `vs`. */
  lemma {:induction false} EvalEachAll(env: Env, host: HostExterns, e: Value, vs: seq<Value>, i: nat)
    requires e.Expr? && |vs| == |e.args| && i <= |vs|
    requires forall k :: 0 <= k < |vs| ==> Eval(env, host, e.args[k]) == Ok(vs[k])
    ensures EvalEach(env, host, e, i) == Ok(vs[i..])
    decreases |vs| - i
  {
    if i < |vs| {
      EvalEachAll(env, host, e, vs, i + 1);
      assert Eval(env, host, e.args[i]) == Ok(vs[i]);
      assert vs[i..] == [vs[i]] + vs[i + 1..];
    }
  }

  lemma {:induction false} IntFoldFrom(p: PreludeOp, ns: seq<int>, i: nat)
    requires p in {Add, Sub, Mul} && 1 <= i <= |ns|
    ensures FoldFrom(p, Num(LeftFold(p, ns[..i])), seq(|ns|, k requires 0 <= k < |ns| => Num(ns[k])), i)
         == Ok(Num(LeftFold(p, ns)))
    decreases |ns| - i
  {
    var vs := seq(|ns|, k requires 0 <= k < |ns| => Num(ns[k]));
    if i == |ns| {
      assert ns[..i] == ns;
    } else {
      assert ns[..i + 1][..i] == ns[..i];
      assert LeftFold(p, ns[..i + 1]) == IntOp(p, LeftFold(p, ns[..i]), ns[i]);
      IntFoldFrom(p, ns, i + 1);
    }
  }

  /** `+`, `-` and `*` evaluate every argument and fold them from the left:
      `(- a b c)` is `(a - b) - c`. */
  lemma {:induction false} ArithLeftFolds(env: Env, host: HostExterns, p: PreludeOp, args: seq<Value>, ns: seq<int>)
    requires p in {Add, Sub, Mul} && Registered(env, p)
    requires |args| == |ns| >= 1
    requires forall k :: 0 <= k < |args| ==> Eval(env, host, args[k]) == Ok(Num(ns[k]))
    ensures Eval(env, host, Expr(OpName(p), args)) == Ok(Num(LeftFold(p, ns)))
  {
    var e := Expr(OpName(p), args);
    var vs := seq(|ns|, k requires 0 <= k < |ns| => Num(ns[k]));
    EvalEachAll(env, host, e, vs, 0);
    assert vs[0..] == vs;
    assert ns[..1] == [ns[0]];
    IntFoldFrom(p, ns, 1);
  }

  /** The variadic operators throw on an empty argument list (`reduce` of `[]`). */
  lemma EmptyReduceThrows(env: Env, host: HostExterns, p: PreludeOp)
    requires Variadic(p) && Registered(env, p)
    ensures Eval(env, host, Expr(OpName(p), [])) == Fail(EmptyReduce(OpName(p)))
  {
    var e := Expr(OpName(p), []);
    assert EvalEach(env, host, e, 0) == Ok([]);
    assert Eval(env, host, e) == ApplyPrelude(env, host, e, p);
  }

  lemma {:induction false} BoolFoldFrom(p: PreludeOp, bs: seq<bool>, i: nat)
    requires p in {And, Or} && 1 <= i <= |bs|
    ensures FoldFrom(p, Bool(BoolFold(p, bs[..i])), seq(|bs|, k requires 0 <= k < |bs| => Bool(bs[k])), i)
         == Ok(Bool(BoolFold(p, bs)))
    decreases |bs| - i
  {
    if i == |bs| {
      assert bs[..i] == bs;
    } else {
      assert bs[..i + 1][..i] == bs[..i];
      BoolFoldFrom(p, bs, i + 1);
    }
  }

  /** On booleans, `and` and `or` compute the conjunction and the disjunction
      of all evaluated arguments (every argument is evaluated: no short circuit). */
  lemma {:induction false} LogicLeftFolds(env: Env, host: HostExterns, p: PreludeOp, args: seq<Value>, bs: seq<bool>)
    requires p in {And, Or} && Registered(env, p)
    requires |args| == |bs| >= 1
    requires forall k :: 0 <= k < |args| ==> Eval(env, host, args[k]) == Ok(Bool(bs[k]))
    ensures Eval(env, host, Expr(OpName(p), args)) == Ok(Bool(BoolFold(p, bs)))
    ensures p == And ==> (Eval(env, host, Expr(OpName(p), args)) == Ok(Bool(true)) <==> forall k :: 0 <= k < |bs| ==> bs[k])
  {
    var e := Expr(OpName(p), args);
    var vs := seq(|bs|, k requires 0 <= k < |bs| => Bool(bs[k]));
    EvalEachAll(env, host, e, vs, 0);
    assert vs[0..] == vs;
    assert bs[..1] == [bs[0]];
    BoolFoldFrom(p, bs, 1);
    if p == And {
      AndIsAll(bs);
    }
  }

  /** The first argument that throws decides `args.map(eval)`: every
      argument before it was evaluated successfully, and its fault is the
      result. */
  lemma {:induction false} EvalEachFirstFault(env: Env, host: HostExterns, e: Value, i: nat, k: nat)
    requires e.Expr? && i <= k < |e.args|
    requires forall j :: i <= j < k ==> Eval(env, host, e.args[j]).Ok?
    requires Eval(env, host, e.args[k]).Fail?
    ensures EvalEach(env, host, e, i) == Fail(Eval(env, host, e.args[k]).fault)
    decreases k - i
  {
    if i < k {
      assert Eval(env, host, e.args[i]).Ok?;
      EvalEachFirstFault(env, host, e, i + 1, k);
    }
  }

  /** `and` and `or` do not short-circuit: all arguments are evaluated before
      the fold, so an argument that throws makes the whole expression throw,
      even after a `false` (for `and`) or a `true` (for `or`) that would
      already decide it. The same holds for `+`, `-` and `*`. */
  lemma NoShortCircuit(env: Env, host: HostExterns, p: PreludeOp, args: seq<Value>, k: nat)
    requires Variadic(p) && Registered(env, p)
    requires k < |args|
    requires forall j :: 0 <= j < k ==> Eval(env, host, args[j]).Ok?
    requires Eval(env, host, args[k]).Fail?
    ensures Eval(env, host, Expr(OpName(p), args)) == Fail(Eval(env, host, args[k]).fault)
  {
    var e := Expr(OpName(p), args);
    EvalEachFirstFault(env, host, e, 0, k);
    assert Eval(env, host, e) == ApplyPrelude(env, host, e, p);
  }

  /** Concretely: `(and false (bad))` and `(or true (bad))` throw when no
      extern function `bad` is registered. */
  lemma NoShortCircuitExample(env: Env, host: HostExterns, bad: string)
    requires Registered(env, And) && Registered(env, Or) && bad !in env.externs
    ensures Eval(env, host, Expr("and", [Bool(false), Expr(bad, [])])) == Fail(NoExternFunction(bad))
    ensures Eval(env, host, Expr("or", [Bool(true), Expr(bad, [])])) == Fail(NoExternFunction(bad))
  {
    assert OpName(And) == "and" && OpName(Or) == "or";
    NoShortCircuit(env, host, And, [Bool(false), Expr(bad, [])], 1);
    NoShortCircuit(env, host, Or, [Bool(true), Expr(bad, [])], 1);
  }

  lemma {:induction false} AndIsAll(bs: seq<bool>)
    requires |bs| >= 1
    ensures BoolFold(And, bs) <==> forall k :: 0 <= k < |bs| ==> bs[k]
    decreases |bs|
  {
    if |bs| > 1 {
      var init := bs[..|bs| - 1];
      AndIsAll(init);
      assert forall k :: 0 <= k < |init| ==> init[k] == bs[k];
    }
  }

  /** `#VAR` and `$VAR` use their first argument raw, as a variable name,
      without evaluating it; a missing variable reads as `undefined`. */
  lemma VarReadsRawName(env: Env, host: HostExterns, name: string, rest: seq<Value>)
    requires Registered(env, StaticVar) && Registered(env, ReactiveVar)
    ensures Eval(env, host, Expr("#VAR", [Str(name)] + rest))
         == Ok(if name in env.statics then env.statics[name] else Undefined)
    ensures Eval(env, host, Expr("$VAR", [Str(name)] + rest))
         == Ok(if name in env.reactives then Reactive.Read(env.reactives[name]) else Undefined)
  {
    assert OpName(StaticVar) == "#VAR" && OpName(ReactiveVar) == "$VAR";
  }

  /** A `SevenExpr` passed to `#VAR` or `$VAR` is not evaluated: the
      expression object itself is the key, which JavaScript turns into
      "[object Object]", whatever the expression would have evaluated to. */
  lemma VarDoesNotEvaluateName(env: Env, host: HostExterns, op: string, inner: seq<Value>, rest: seq<Value>)
    requires Registered(env, StaticVar) && Registered(env, ReactiveVar)
    ensures Eval(env, host, Expr("#VAR", [Expr(op, inner)] + rest)) == Ok(Get(env.statics, "[object Object]"))
    ensures Eval(env, host, Expr("$VAR", [Expr(op, inner)] + rest))
         == Ok(if "[object Object]" in env.reactives then Reactive.Read(env.reactives["[object Object]"]) else Undefined)
  {
    assert OpName(StaticVar) == "#VAR" && OpName(ReactiveVar) == "$VAR";
  }

  /** Reference: the JavaScript ordering operators on numbers. */
  predicate Ordered(p: PreludeOp, a: int, b: int)
    requires p in {Lt, Gt, Le, Ge}
  {
    match p
    case Lt => a < b
    case Gt => b < a
    case Le => !(b < a)
    case Ge => !(a < b)
  }

  /** `<`, `>`, `<=`, `>=` evaluate their first two arguments and compare
      them as numbers; further arguments are never evaluated. */
  lemma CompareIntegers(env: Env, host: HostExterns, p: PreludeOp, args: seq<Value>, a: int, b: int)
    requires p in {Lt, Gt, Le, Ge} && Registered(env, p)
    requires |args| >= 2
    requires Eval(env, host, args[0]) == Ok(Num(a)) && Eval(env, host, args[1]) == Ok(Num(b))
    ensures Eval(env, host, Expr(OpName(p), args)) == Ok(Bool(Ordered(p, a, b)))
  {
    var e := Expr(OpName(p), args);
    assert EvalArg(env, host, e, 0) == Ok(Num(a)) && EvalArg(env, host, e, 1) == Ok(Num(b));
    assert Eval(env, host, e) == ApplyPrelude(env, host, e, p);
  }

  /** Values that `==` compares without coercion: two primitives of the
      same kind, or anything against `undefined`. */
  predicate Uncoerced(x: Value, y: Value) {
    || x.Undefined? || y.Undefined?
    || (x.Num? && y.Num?) || (x.Bool? && y.Bool?) || (x.Str? && y.Str?)
  }

  /** `==` and `!=` evaluate both arguments and, without coercion, compare
      them by value: `undefined` equals only `undefined`. */
  lemma LooseEqualityOnPrimitives(env: Env, host: HostExterns, p: PreludeOp, args: seq<Value>, x: Value, y: Value)
    requires p in {Eq, Ne} && Registered(env, p)
    requires |args| >= 2 && Uncoerced(x, y)
    requires Eval(env, host, args[0]) == Ok(x) && Eval(env, host, args[1]) == Ok(y)
    ensures Eval(env, host, Expr(OpName(p), args)) == Ok(Bool(if p == Eq then x == y else x != y))
  {
    var e := Expr(OpName(p), args);
    assert EvalArg(env, host, e, 0) == Ok(x) && EvalArg(env, host, e, 1) == Ok(y);
    assert Eval(env, host, e) == ApplyPrelude(env, host, e, p);
  }

  /** `not` negates the truthiness of its evaluated first argument; with no
      argument it negates `undefined` and yields true. */
  lemma NotNegatesTruthiness(env: Env, host: HostExterns, args: seq<Value>, x: Value)
    requires Registered(env, Not)
    requires |args| >= 1 ==> Eval(env, host, args[0]) == Ok(x)
    ensures |args| >= 1 ==> Eval(env, host, Expr("not", args)) == Ok(Bool(!Truthy(x)))
    ensures |args| == 0 ==> Eval(env, host, Expr("not", args)) == Ok(Bool(true))
  {
    assert OpName(Not) == "not";
    var e := Expr("not", args);
    assert Eval(env, host, e) == ApplyPrelude(env, host, e, Not);
    if |args| >= 1 {
      assert EvalArg(env, host, e, 0) == Ok(x);
    } else {
      assert EvalArg(env, host, e, 0) == Ok(Undefined);
    }
  }

  lemma {:induction false} ChaseFollowsPath(env: Env, host: HostExterns, e: Value, base: Value, keys: seq<string>, i: nat)
    requires e.Expr? && |e.args| == |keys| + 1 && 1 <= i <= |e.args|
    requires forall k :: 1 <= k < |e.args| ==> Eval(env, host, e.args[k]) == Ok(Str(keys[k - 1]))
    requires PathGet(base, keys[..i - 1]).Ok?
    ensures Chase(env, host, e, PathGet(base, keys[..i - 1]).value, i) == PathGet(base, keys)
    decreases |e.args| - i
  {
    var x := PathGet(base, keys[..i - 1]).value;
    if i == |e.args| {
      assert keys[..i - 1] == keys;
    } else {
      assert keys[..i][..i - 1] == keys[..i - 1];
      assert PathGet(base, keys[..i]) == Index(x, Str(keys[i - 1]));
      if PathGet(base, keys[..i]).Ok? {
        ChaseFollowsPath(env, host, e, base, keys, i + 1);
      } else {
        PathFailureSticks(base, keys, i);
      }
    }
  }

  /** Once a prefix of the path fails, the whole path fails the same way. */
  lemma {:induction false} PathFailureSticks(base: Value, keys: seq<string>, i: nat)
    requires i <= |keys| && PathGet(base, keys[..i]).Fail?
    ensures PathGet(base, keys) == PathGet(base, keys[..i])
    decreases |keys| - i
  {
    if i < |keys| {
      assert keys[..i + 1][..i] == keys[..i];
      PathFailureSticks(base, keys, i + 1);
    } else {
      assert keys[..i] == keys;
    }
  }

  /** `.` evaluates its base, then each key from left to right, indexing as it
      goes: `(. obj "a" "b")` is `obj["a"]["b"]`. */
  lemma PathIndexesLeftToRight(env: Env, host: HostExterns, args: seq<Value>, base: Value, keys: seq<string>)
    requires Registered(env, Path)
    requires |args| == |keys| + 1
    requires Eval(env, host, args[0]) == Ok(base)
    requires forall k :: 1 <= k < |args| ==> Eval(env, host, args[k]) == Ok(Str(keys[k - 1]))
    ensures Eval(env, host, Expr(".", args)) == PathGet(base, keys)
  {
    assert OpName(Path) == ".";
    var e := Expr(".", args);
    assert keys[..0] == [];
    assert EvalArg(env, host, e, 0) == Ok(base);
    assert Eval(env, host, e) == ApplyPrelude(env, host, e, Path);
    assert ApplyPrelude(env, host, e, Path) == Chase(env, host, e, base, 1);
    ChaseFollowsPath(env, host, e, base, keys, 1);
  }

  /** A machine's registry right after construction. */
  function InitialEnv(): Env {
    Env(map[], map[], PreludeTable())
  }

  /** Worked example: `(+ 2 3 4)` is 9. */
  lemma SumExample(host: HostExterns)
    ensures Eval(InitialEnv(), host, Expr("+", [Num(2), Num(3), Num(4)])) == Ok(Num(9))
  {
    var env := InitialEnv();
    assert Registered(env, Add);
    ArithLeftFolds(env, host, Add, [Num(2), Num(3), Num(4)], [2, 3, 4]);
    assert [2, 3, 4][..2] == [2, 3] && [2, 3][..1] == [2];
  }

  /** Worked example: `(. {a: {b: 7}} "a" "b")` is 7. */
  lemma PathExample(host: HostExterns)
    ensures Eval(InitialEnv(), host, Expr(".", [Obj(map["a" := Obj(map["b" := Num(7)])]), Str("a"), Str("b")]))
         == Ok(Num(7))
  {
    var env := InitialEnv();
    var inner := Obj(map["b" := Num(7)]);
    var obj := Obj(map["a" := inner]);
    assert Registered(env, Path);
    PathIndexesLeftToRight(env, host, [obj, Str("a"), Str("b")], obj, ["a", "b"]);
    assert ["a", "b"][..1] == ["a"] && ["a"][..0] == [];
    assert PathGet(obj, ["a"]) == Ok(inner);
  }

  /** Worked example: `(#VAR "missing")` is `undefined` on a fresh machine. */
  lemma MissingStaticExample(host: HostExterns)
    ensures Eval(InitialEnv(), host, Expr("#VAR", [Str("missing")])) == Ok(Undefined)
  {
    var env := InitialEnv();
    assert Registered(env, StaticVar) && Registered(env, ReactiveVar);
    VarReadsRawName(env, host, "missing", []);
    assert [Str("missing")] + [] == [Str("missing")];
  }
}

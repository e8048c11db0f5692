/** The structured evaluator `SevenMachine.eval` and the built-in extern
    functions the machine registers at construction (the Prelude). An extern
    function receives its arguments unevaluated and evaluates them itself, so
    evaluation and the Prelude are one mutually recursive definition. */
module Evaluator {
  import opened Values
  import Reactive

  /** The Prelude's operators, in registration order. */
  datatype PreludeOp =
    | Add | Sub | Mul | Div | Mod | Abs
    | BitAnd | BitOr | BitXor
    | Lt | Gt | Le | Ge | Eq | Ne | And | Or | Not
    | StaticVar | ReactiveVar | Path

  /** The name each Prelude operator is registered under. */
  function OpName(op: PreludeOp): string {
    match op
    case Add => "+" case Sub => "-" case Mul => "*" case Div => "/" case Mod => "%" case Abs => "ABS"
    case BitAnd => "&" case BitOr => "|" case BitXor => "^"
    case Lt => "<" case Gt => ">" case Le => "<=" case Ge => ">=" case Eq => "==" case Ne => "!="
    case And => "and" case Or => "or" case Not => "not"
    case StaticVar => "#VAR" case ReactiveVar => "$VAR" case Path => "."
  }

  /** An entry of the extern-function registry: a Prelude function, or a
      host-supplied one known only by an opaque handle. */
  datatype Extern = Builtin(op: PreludeOp) | Host(id: nat)

  /** The parts of a machine the Prelude functions read. A host extern
      function is called with the whole machine as `this` and could read or
      change any of it; the model gives it only this view, and no effects. */
  datatype Env = Env(
    statics: map<string, Value>,
    reactives: map<string, Reactive.ReactiveVar>,
    externs: map<string, Extern>)

  /** Host extern functions, as a side-effect-free oracle: handle, raw
      arguments and the view `Env` of the machine, to a value or a thrown
      fault. */
  type HostExterns = (nat, seq<Value>, Env) -> Result<Value>

  /** The registry the constructor builds from the four Prelude groups. */
  function PreludeTable(): (t: map<string, Extern>)
    ensures forall op: PreludeOp :: OpName(op) in t && t[OpName(op)] == Builtin(op)
  {
    map[
      "+" := Builtin(Add), "-" := Builtin(Sub), "*" := Builtin(Mul), "/" := Builtin(Div),
      "%" := Builtin(Mod), "ABS" := Builtin(Abs),
      "&" := Builtin(BitAnd), "|" := Builtin(BitOr), "^" := Builtin(BitXor),
      "<" := Builtin(Lt), ">" := Builtin(Gt), "<=" := Builtin(Le), ">=" := Builtin(Ge),
      "==" := Builtin(Eq), "!=" := Builtin(Ne), "and" := Builtin(And), "or" := Builtin(Or),
      "not" := Builtin(Not),
      "#VAR" := Builtin(StaticVar), "$VAR" := Builtin(ReactiveVar), "." := Builtin(Path)]
  }

  /** `registerExternFunction`: the last registration for a name wins. */
  function RegisterExtern(env: Env, name: string, f: Extern): (env': Env)
    ensures name in env'.externs && env'.externs[name] == f
    ensures forall n :: n != name ==> (n in env'.externs <==> n in env.externs)
    ensures forall n :: n != name && n in env.externs ==> env'.externs[n] == env.externs[n]
    ensures env'.statics == env.statics && env'.reactives == env.reactives
  {
    env.(externs := env.externs[name := f])
  }

  /** `eval`: a value that is not a `SevenExpr` is returned as it is; a
      `SevenExpr` is handed, with its raw arguments, to the extern function
      registered under its operator name (calling a missing one throws). */
  function Eval(env: Env, host: HostExterns, v: Value): (r: Result<Value>)
    ensures !v.Expr? ==> r == Ok(v)
    ensures v.Expr? && v.op !in env.externs ==> r == Fail(NoExternFunction(v.op))
    ensures v.Expr? && v.op in env.externs && env.externs[v.op].Host? ==>
      r == host(env.externs[v.op].id, v.args, env)
    decreases v
  {
    match v
    case Expr(op, args) =>
      if op !in env.externs then Fail(NoExternFunction(op))
      else
        (match env.externs[op]
         case Host(id) => host(id, args, env)
         case Builtin(p) => ApplyPrelude(env, host, v, p))
    case _ => Ok(v)
  }

  /** The Prelude functions, applied to the raw arguments of `e`. */
  function ApplyPrelude(env: Env, host: HostExterns, e: Value, p: PreludeOp): Result<Value>
    requires e.Expr?
    decreases e, 1
  {
    match p
    case Add => var vs :- EvalEach(env, host, e, 0); Reduce(p, vs)
    case Sub => var vs :- EvalEach(env, host, e, 0); Reduce(p, vs)
    case Mul => var vs :- EvalEach(env, host, e, 0); Reduce(p, vs)
    case And => var vs :- EvalEach(env, host, e, 0); Reduce(p, vs)
    case Or => var vs :- EvalEach(env, host, e, 0); Reduce(p, vs)
    case Lt => var a :- EvalArg(env, host, e, 0); var b :- EvalArg(env, host, e, 1); Compare(p, a, b)
    case Gt => var a :- EvalArg(env, host, e, 0); var b :- EvalArg(env, host, e, 1); Compare(p, a, b)
    case Le => var a :- EvalArg(env, host, e, 0); var b :- EvalArg(env, host, e, 1); Compare(p, a, b)
    case Ge => var a :- EvalArg(env, host, e, 0); var b :- EvalArg(env, host, e, 1); Compare(p, a, b)
    case Eq => var a :- EvalArg(env, host, e, 0); var b :- EvalArg(env, host, e, 1); Compare(p, a, b)
    case Ne => var a :- EvalArg(env, host, e, 0); var b :- EvalArg(env, host, e, 1); Compare(p, a, b)
    case Not => var a :- EvalArg(env, host, e, 0); Ok(Bool(!Truthy(a)))
    case StaticVar =>
      var key :- RawKey(e.args);
      Ok(Get(env.statics, key))
    case ReactiveVar =>
      var key :- RawKey(e.args);
      Ok(if key in env.reactives then Reactive.Read(env.reactives[key]) else Undefined)
    case Path => var x :- EvalArg(env, host, e, 0); Chase(env, host, e, x, 1)
    case _ => Fail(Unmodelled(OpName(p)))
  }

  /** `m.eval(args[i])`; a missing argument is `undefined`, which evaluates to itself. */
  function EvalArg(env: Env, host: HostExterns, e: Value, i: nat): Result<Value>
    requires e.Expr?
    decreases e, 0, 0
  {
    if i < |e.args| then Eval(env, host, e.args[i]) else Ok(Undefined)
  }

  /** `args.slice(i).map(v => m.eval(v))`: left to right, the first fault wins. */
  function EvalEach(env: Env, host: HostExterns, e: Value, i: nat): Result<seq<Value>>
    requires e.Expr?
    decreases e, 0, |e.args| - i
  {
    if i >= |e.args| then Ok([])
    else
      var v :- Eval(env, host, e.args[i]);
      var vs :- EvalEach(env, host, e, i + 1);
      Ok([v] + vs)
  }

  /** The loop of `.`: each key is evaluated, then used to index the value so far. */
  function Chase(env: Env, host: HostExterns, e: Value, x: Value, i: nat): Result<Value>
    requires e.Expr?
    decreases e, 0, |e.args| - i
  {
    if i >= |e.args| then Ok(x)
    else
      var key :- Eval(env, host, e.args[i]);
      var y :- Index(x, key);
      Chase(env, host, e, y, i + 1)
  }

  /** `x[key]` for the values this model covers. */
  function Index(x: Value, key: Value): (r: Result<Value>)
    ensures x.Undefined? ==> r == Fail(PropertyOfUndefined)
    ensures x.Obj? && key.Str? ==> r == Ok(Get(x.fields, key.s))
    ensures r.Ok? ==> x.Obj? && key.Str?
  {
    if x.Undefined? then Fail(PropertyOfUndefined)
    else if !key.Str? then Fail(Unmodelled("non-string property key"))
    else if x.Obj? then Ok(Get(x.fields, key.s))
    else Fail(Unmodelled("property of a primitive"))
  }

  /** The property key JavaScript makes from a plain object or a `SevenExpr`
      instance: neither has a `toString` of its own. */
  const ObjectKey: string := "[object Object]"

  /** The raw first argument of `#VAR` / `$VAR` used as a property key, as
      JavaScript converts it: a missing argument is the key "undefined", a
      boolean its name, an object without its own conversion methods
      `ObjectKey`. */
  function RawKey(args: seq<Value>): Result<string> {
    if |args| == 0 then Ok("undefined")
    else match args[0]
      case Str(s) => Ok(s)
      case Undefined => Ok("undefined")
      case Bool(b) => Ok(if b then "true" else "false")
      case Expr(_, _) => Ok(ObjectKey)
      case Obj(fields) =>
        if "toString" in fields || "valueOf" in fields then Fail(Unmodelled("object with its own key conversion"))
        else Ok(ObjectKey)
      case _ => Fail(Unmodelled("numeric or host-reference variable name"))
  }

  /** The binary callback given to `reduce` by the variadic operators. */
  function Combine(p: PreludeOp, a: Value, b: Value): Result<Value>
    requires Variadic(p)
  {
    if p == And then Ok(if Truthy(a) then b else a)
    else if p == Or then Ok(if Truthy(a) then a else b)
    else if a.Num? && b.Num? then Ok(Num(IntOp(p, a.n, b.n)))
    else Fail(Unmodelled("arithmetic on a non-integer"))
  }

  /** The operators whose arguments are all evaluated and then reduced. */
  predicate Variadic(p: PreludeOp) {
    p in {Add, Sub, Mul, And, Or}
  }

  /** JavaScript `+`, `-`, `*` on integers (exact while below 2^53). */
  function IntOp(p: PreludeOp, a: int, b: int): int
    requires p in {Add, Sub, Mul}
  {
    if p == Add then a + b else if p == Sub then a - b else a * b
  }

  /** `Array.prototype.reduce` without an initial value: an empty list throws,
      a single element is returned without calling the callback. */
  function Reduce(p: PreludeOp, vs: seq<Value>): (r: Result<Value>)
    requires Variadic(p)
    ensures |vs| == 0 ==> r == Fail(EmptyReduce(OpName(p)))
    ensures |vs| == 1 ==> r == Ok(vs[0])
  {
    if |vs| == 0 then Fail(EmptyReduce(OpName(p))) else FoldFrom(p, vs[0], vs, 1)
  }

  function FoldFrom(p: PreludeOp, acc: Value, vs: seq<Value>, i: nat): Result<Value>
    requires Variadic(p)
    decreases |vs| - i
  {
    if i >= |vs| then Ok(acc)
    else
      var next :- Combine(p, acc, vs[i]);
      FoldFrom(p, next, vs, i + 1)
  }

  /** The binary comparisons. Loose equality is only modelled where it does
      not coerce: equal tags among primitives, or `undefined` on one side. */
  function Compare(p: PreludeOp, a: Value, b: Value): Result<Value>
    requires p in {Lt, Gt, Le, Ge, Eq, Ne}
  {
    if p == Eq then var eq :- LooseEquals(a, b); Ok(Bool(eq))
    else if p == Ne then var eq :- LooseEquals(a, b); Ok(Bool(!eq))
    else if a.Num? && b.Num? then
      Ok(Bool(if p == Lt then a.n < b.n else if p == Gt then a.n > b.n else if p == Le then a.n <= b.n else a.n >= b.n))
    else Fail(Unmodelled("comparison of non-integers"))
  }

  function LooseEquals(a: Value, b: Value): Result<bool> {
    if a.Undefined? || b.Undefined? then Ok(a.Undefined? && b.Undefined?)
    else if a.Num? && b.Num? then Ok(a.n == b.n)
    else if a.Bool? && b.Bool? then Ok(a.b == b.b)
    else if a.Str? && b.Str? then Ok(a.s == b.s)
    else Fail(Unmodelled("loose equality with coercion or object identity"))
  }
}

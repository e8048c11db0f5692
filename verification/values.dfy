/** The value domain shared by the whole engine: the untyped JavaScript values
    that operands, variables and component results carry, the faults that
    abort a step, and a failure-compatible Result type. */
module Values {

  /** A closed stand-in for "any JavaScript value" the engine handles.
      `Expr` is an instance of `SevenExpr` (operator name `_` and raw
      arguments); `Ref` is an opaque host reference (a function, a class
      instance) that the engine only passes around. */
  datatype Value =
    | Undefined
    | Num(n: int)
    | Bool(b: bool)
    | Str(s: string)
    | Obj(fields: map<string, Value>)
    | Expr(op: string, args: seq<Value>)
    | Ref(id: nat)

  /** JavaScript truthiness (`!!v`) over this domain. */
  predicate Truthy(v: Value) {
    match v
    case Undefined => false
    case Num(n) => n != 0
    case Bool(b) => b
    case Str(s) => s != ""
    case Obj(_) => true
    case Expr(_, _) => true
    case Ref(_) => true
  }

  /** Why a step, an evaluation or an instruction threw. */
  datatype Fault =
      /** CALL_COMPONENT named a component that is not registered. */
    | NoComponent(name: string)
      /** RETURN found the call stack empty. */
    | EmptyCallStack
      /** SET_REACTIVE_VAR named a reactive variable that does not exist
          (assigning `.value` on `undefined`). */
    | NoReactiveVariable(name: string)
      /** An evaluator was called without its receiver (`this` is undefined). */
    | UnboundEvaluator
      /** A `SevenExpr` named an operator no extern function is registered for. */
    | NoExternFunction(op: string)
      /** `reduce` over an empty argument list. */
    | EmptyReduce(op: string)
      /** Property access on `undefined`. */
    | PropertyOfUndefined
      /** A fault raised inside host code (an extern function or a host expression). */
    | HostFault(code: nat)
      /** JavaScript behaviour outside this model (coercions, floating point). */
    | Unmodelled(what: string)

  datatype Option<+T> = None | Some(value: T)

  datatype Result<+T> = Ok(value: T) | Fail(fault: Fault) {
    predicate IsFailure() {
      Fail?
    }

    function PropagateFailure<U>(): Result<U>
      requires Fail?
    {
      Fail(fault)
    }

    function Extract(): T
      requires Ok?
    {
      value
    }
  }

  /** The "undefined"-defaulting lookup of a JavaScript object used as a map. */
  function Get(m: map<string, Value>, key: string): (r: Value)
    ensures key in m ==> r == m[key]
    ensures key !in m ==> r == Undefined
  {
    if key in m then m[key] else Undefined
  }
}

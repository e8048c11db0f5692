/** The `SevenMachine` execution engine of lib/Seven.js as an immutable state
    and pure transitions. Components are oracles: given their handle, their
    arguments and the machine, they answer with a result value and what they
    did to the machine (load a program or a sub-program, lock it). */
module Machine {
  import opened Values
  import opened Evaluator
  import Reactive
  import Registry

  /** The seven instruction kinds (`SevenMachineInstr`). Jump targets are
      absolute positions in the current program. */
  datatype Instr =
    | SetStaticVar(name: string, value: Value, eval: bool)
    | SetReactiveVar(name: string, value: Value, eval: bool)
    | Goto(target: int)
    | CondGoto(target: int, condition: Value, eval: bool)
    | Call(target: int)
    | Return
    | CallComponent(name: string, args: Value)

  /** The numeric tag `_` of each kind (`SevenMachineInstrType`). */
  function Opcode(i: Instr): (c: nat)
    ensures 1 <= c <= 7
    ensures c == 1 <==> i.SetStaticVar?
    ensures c == 2 <==> i.SetReactiveVar?
    ensures c == 3 <==> i.Goto?
    ensures c == 4 <==> i.CondGoto?
    ensures c == 5 <==> i.Call?
    ensures c == 6 <==> i.Return?
    ensures c == 7 <==> i.CallComponent?
  {
    match i
    case SetStaticVar(_, _, _) => 1
    case SetReactiveVar(_, _, _) => 2
    case Goto(_) => 3
    case CondGoto(_, _, _) => 4
    case Call(_) => 5
    case Return => 6
    case CallComponent(_, _) => 7
  }

  type Program = seq<Instr>

  /** A saved `(program, position)` pair of the continuation stack. */
  datatype Continuation = Continuation(program: Program, position: int)

  /** The machine's fields. Both stacks have their top at the end, as with
      `push`/`pop` on a JavaScript array. */
  datatype Machine = Machine(
    program: Program,
    position: int,
    callStack: seq<int>,
    continuations: seq<Continuation>,
    statics: map<string, Value>,
    reactives: map<string, Reactive.ReactiveVar>,
    externs: map<string, Extern>,
    components: Registry.ComponentTable,
    locked: bool,
    stepRequested: bool)

  /** What a component did to the machine during its call. */
  datatype Load = NoLoad | LoadsProgram(program: Program) | LoadsSubProgram(program: Program)

  /** A component's answer: the value `call` returned, the program it loaded,
      and whether it locked the machine. */
  datatype Reply = Reply(result: Value, load: Load, lock: bool)

  /** Host component implementations: handle, `instr.args` and the machine. */
  type Components = (nat, Value, Machine) -> Reply

  /** The constructor: the initial program at position 0, empty stacks and
      maps, unlocked, with the Prelude registered as extern functions. */
  function New(program: Program): (m: Machine)
    ensures m.program == program && m.position == 0
    ensures m.callStack == [] && m.continuations == []
    ensures !m.locked && !m.stepRequested && Registry.Valid(m.components)
    ensures m.statics == map[] && m.reactives == map[]
    ensures m.components == Registry.Empty() && m.externs == PreludeTable()
    ensures forall op: PreludeOp :: OpName(op) in m.externs && m.externs[OpName(op)] == Builtin(op)
  {
    Machine(program, 0, [], [], map[], map[], PreludeTable(), Registry.Empty(), false, false)
  }

  /** What the Prelude functions see of the machine. */
  function EnvOf(m: Machine): Env {
    Env(m.statics, m.reactives, m.externs)
  }

  /** `currentInstr` is defined: the position indexes an instruction. */
  predicate HasInstr(m: Machine) {
    0 <= m.position < |m.program|
  }

  function CurrentInstr(m: Machine): Instr
    requires HasInstr(m)
  {
    m.program[m.position]
  }

  /** The `halted` getter, which is true exactly when there IS a current
      instruction. */
  predicate Halted(m: Machine) {
    HasInstr(m)
  }

  /** `getStaticVariableValueByName`. */
  function StaticValue(m: Machine, name: string): (r: Value)
    ensures name in m.statics ==> r == m.statics[name]
    ensures name !in m.statics ==> r == Undefined
  {
    Get(m.statics, name)
  }

  /** `getReactiveVariableByName`. */
  function ReactiveVariable(m: Machine, name: string): (r: Option<Reactive.ReactiveVar>)
    ensures r.Some? <==> name in m.reactives
    ensures r.Some? ==> r.value == m.reactives[name]
  {
    if name in m.reactives then Some(m.reactives[name]) else None
  }

  /** `registerComponent`. */
  function RegisterComponent(m: Machine, c: Registry.Component): (m': Machine)
    requires Registry.Valid(m.components)
    ensures Registry.Valid(m'.components)
    ensures Registry.Lookup(m'.components, c.name) == Some(c)
    ensures forall n :: n != c.name ==> Registry.Lookup(m'.components, n) == Registry.Lookup(m.components, n)
    ensures m' == m.(components := m'.components)
  {
    m.(components := Registry.Register(m.components, c))
  }

  /** `registerExternFunction`. */
  function RegisterExternFunction(m: Machine, name: string, f: Extern): (m': Machine)
    ensures name in m'.externs && m'.externs[name] == f
    ensures forall n :: n != name ==> (n in m'.externs <==> n in m.externs)
    ensures forall n :: n != name && n in m.externs ==> m'.externs[n] == m.externs[n]
    ensures m' == m.(externs := m'.externs)
  {
    m.(externs := RegisterExtern(EnvOf(m), name, f).externs)
  }

  /** `loadProgram`: new program at position 0; neither stack is touched. */
  function LoadProgram(m: Machine, p: Program): (m': Machine)
    ensures m'.program == p && m'.position == 0
    ensures m' == m.(program := p, position := 0)
  {
    m.(program := p, position := 0)
  }

  /** `loadSubProgram`: save the current `(program, position)` pair on the
      continuation stack, then load. */
  function LoadSubProgram(m: Machine, p: Program): (m': Machine)
    ensures m'.continuations == m.continuations + [Continuation(m.program, m.position)]
    ensures m'.program == p && m'.position == 0
    ensures m'.callStack == m.callStack && m'.statics == m.statics && m'.reactives == m.reactives
    ensures m' == m.(program := p, position := 0,
                     continuations := m.continuations + [Continuation(m.program, m.position)])
  {
    LoadProgram(m.(continuations := m.continuations + [Continuation(m.program, m.position)]), p)
  }

  function Lock(m: Machine): (m': Machine)
    ensures m'.locked && m' == m.(locked := true)
  {
    m.(locked := true)
  }

  /** The evaluator as the lib step calls it: `(instr.eval ? this.jsEval :
      this.eval)(operand)` calls a detached method, so `this` is undefined
      under strict mode. A literal comes back unchanged; a `SevenExpr`, or
      any operand of the host-expression path, makes the evaluator throw. */
  function CallSiteEval(operand: Value, eval: bool): (r: Result<Value>)
    ensures r.Ok? <==> !eval && !operand.Expr?
    ensures r.Ok? ==> r.value == operand
    ensures r.Fail? ==> r.fault == UnboundEvaluator
  {
    if eval || operand.Expr? then Fail(UnboundEvaluator) else Ok(operand)
  }

  /** The outcome of one instruction: the next machine and `keepStepping`,
      or a thrown fault (in which case nothing was changed). */
  datatype Effect = Next(m: Machine, keepStepping: bool) | Threw(fault: Fault)

  /** Exactly when an instruction throws. */
  predicate Throws(m: Machine, instr: Instr) {
    match instr
    case SetStaticVar(_, value, eval) => eval || value.Expr?
    case SetReactiveVar(name, value, eval) => eval || value.Expr? || name !in m.reactives
    case Goto(_) => false
    case CondGoto(_, c, eval) => eval || !c.Num?
    case Call(_) => false
    case Return => |m.callStack| == 0
    case CallComponent(name, _) => Registry.Lookup(m.components, name).None?
  }

  /** The program a component loaded during its call, if any. */
  function ApplyLoad(m: Machine, load: Load): (m': Machine)
    ensures m'.callStack == m.callStack && m'.statics == m.statics && m'.reactives == m.reactives
    ensures m'.stepRequested == m.stepRequested && m'.locked == m.locked
    ensures m'.components == m.components && m'.externs == m.externs
    ensures load.NoLoad? ==> m' == m
  {
    match load
    case NoLoad => m
    case LoadsProgram(p) => LoadProgram(m, p)
    case LoadsSubProgram(p) => LoadSubProgram(m, p)
  }

  /** The effect of a component's own actions during its call. */
  function ApplyReply(m: Machine, reply: Reply): (m': Machine)
    ensures m'.callStack == m.callStack && m'.statics == m.statics && m'.reactives == m.reactives
    ensures m'.stepRequested == m.stepRequested && m'.locked == (m.locked || reply.lock)
  {
    var m1 := ApplyLoad(m, reply.load);
    if reply.lock then Lock(m1) else m1
  }

  /** One pass through the `switch` of `step`: the instruction `instr`
      executed at `m.position`. */
  function Exec(m: Machine, instr: Instr, comp: Components): (r: Effect)
    ensures r.Threw? <==> Throws(m, instr)
    ensures r.Next? ==> r.m.stepRequested == m.stepRequested && (m.locked ==> r.m.locked)
    ensures r.Next? ==> r.m.components == m.components && r.m.externs == m.externs
    ensures r.Next? ==> m.continuations <= r.m.continuations && |r.m.continuations| <= |m.continuations| + 1
    ensures r.Next? && !instr.CallComponent? ==>
      r.m.program == m.program && r.m.continuations == m.continuations && r.m.locked == m.locked && r.keepStepping
  {
    match instr
    case SetStaticVar(name, value, eval) =>
      var v := CallSiteEval(value, eval);
      if v.Fail? then Threw(v.fault)
      else Next(m.(statics := m.statics[name := v.value], position := m.position + 1), true)
    case SetReactiveVar(name, value, eval) =>
      var v := CallSiteEval(value, eval);
      if v.Fail? then Threw(v.fault)
      else if name !in m.reactives then Threw(NoReactiveVariable(name))
      else
        var rv := Reactive.Write(m.reactives[name], v.value);
        Next(m.(reactives := m.reactives[name := rv], position := m.position + 1), true)
    case Goto(target) =>
      Next(m.(position := target), true)
    case CondGoto(_, condition, eval) =>
      var v := CallSiteEval(condition, eval);
      if v.Fail? then Threw(v.fault)
      else if !v.value.Num? then Threw(Unmodelled("non-integer jump target"))
      else Next(m.(position := v.value.n), true)
    case Call(target) =>
      Next(m.(position := target, callStack := m.callStack + [target]), true)
    case Return =>
      if |m.callStack| == 0 then Threw(EmptyCallStack)
      else Next(m.(position := m.callStack[|m.callStack| - 1], callStack := m.callStack[..|m.callStack| - 1]), true)
    case CallComponent(name, args) =>
      match Registry.Lookup(m.components, name)
      case None => Threw(NoComponent(name))
      case Some(c) =>
        var reply := comp(c.impl, args, m);
        var m1 := ApplyReply(m, reply);
        Next(m1.(position := m1.position + 1), Truthy(reply.result))
  }

  /** Why `step` handed control back to its caller. */
  datatype Pause =
      /** No current instruction and no continuation left. */
    | Exhausted
      /** `step(true)` after one instruction. */
    | SingleStep
      /** A component's falsy result stopped the burst. */
    | ComponentPaused
      /** The machine was locked; the step is deferred to `unlock`. */
    | LockDeferred
      /** No step was taken at all. */
    | Idle

  /** A call of `step` returns, throws (leaving the machine as far as it got),
      or would still be running when the fuel ran out. */
  datatype StepResult =
    | Returned(machine: Machine, why: Pause)
    | Faulted(machine: Machine, fault: Fault)
    | OutOfFuel(machine: Machine)

  /** Pop the top continuation and restore its program and position as saved. */
  function Resume(m: Machine): (m': Machine)
    requires |m.continuations| > 0
    ensures m'.program == m.continuations[|m.continuations| - 1].program
    ensures m'.position == m.continuations[|m.continuations| - 1].position
    ensures m'.continuations == m.continuations[..|m.continuations| - 1]
    ensures m' == m.(program := m'.program, position := m'.position, continuations := m'.continuations)
  {
    var top := m.continuations[|m.continuations| - 1];
    m.(program := top.program, position := top.position, continuations := m.continuations[..|m.continuations| - 1])
  }

  /** `step(singleStep)`, at most `fuel` loop iterations. The source's outer
      loop (pop continuations while there is no current instruction) and its
      inner do-while (execute, then stop or carry on) are flattened into one
      loop: the inner loop's own condition is always true when it is reached,
      so every exit of the inner loop is either a return or a jump back to
      the outer loop's "no current instruction" check. */
  function Step(m: Machine, single: bool, comp: Components, fuel: nat): (r: StepResult)
    ensures r.Returned? && r.why == Exhausted ==> !HasInstr(r.machine) && r.machine.continuations == []
    ensures r.Returned? && r.why in {SingleStep, ComponentPaused} ==> HasInstr(r.machine)
    ensures r.Returned? && r.why == SingleStep ==> single
    ensures r.Returned? && r.why == LockDeferred ==> HasInstr(r.machine) && r.machine.locked && r.machine.stepRequested
    ensures r.Returned? ==> r.why != Idle
    ensures (m.stepRequested ==> m.locked) ==> (r.machine.stepRequested ==> r.machine.locked)
    decreases fuel
  {
    if fuel == 0 then OutOfFuel(m)
    else if !HasInstr(m) then
      if |m.continuations| == 0 then Returned(m, Exhausted)
      else Step(Resume(m), single, comp, fuel - 1)
    else if m.locked then Returned(m.(stepRequested := true), LockDeferred)
    else
      match Exec(m, CurrentInstr(m), comp)
      case Threw(f) => Faulted(m, f)
      case Next(m', keep) =>
        if HasInstr(m') && single then Returned(m', SingleStep)
        else if HasInstr(m') && !keep then Returned(m', ComponentPaused)
        else Step(m', single, comp, fuel - 1)
  }

  /** `unlock`: clear the lock, and if a step was requested while locked,
      clear the request and take exactly one `step()`. */
  function Unlock(m: Machine, comp: Components, fuel: nat): (r: StepResult)
    ensures !m.stepRequested ==> r == Returned(m.(locked := false), Idle)
    ensures m.stepRequested ==> r == Step(m.(locked := false, stepRequested := false), false, comp, fuel)
  {
    var m1 := m.(locked := false);
    if m.stepRequested then Step(m1.(stepRequested := false), false, comp, fuel)
    else Returned(m1, Idle)
  }

  /** `run`: `while (!this.halted) this.step();` with the inverted `halted`,
      so it steps only while there is NO current instruction. */
  function Run(m: Machine, comp: Components, fuel: nat): (r: StepResult)
    ensures r.Returned? ==> HasInstr(r.machine)
    decreases fuel
  {
    if Halted(m) then Returned(m, Idle)
    else if fuel == 0 then OutOfFuel(m)
    else
      match Step(m, false, comp, fuel)
      case Returned(m', _) => Run(m', comp, fuel - 1)
      case r => r
  }
}

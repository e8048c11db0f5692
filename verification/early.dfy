/** The earlier engine of src/Seven.ts. It shares the machine state and the
    instruction set with lib/Seven.js but has no lock, no single-step mode
    and no structured evaluator at its call sites: a non-`eval` operand is
    stored as it is (a `SevenExpr` included), and an `eval` operand goes to
    the host-expression evaluator, which sees the two variable maps. */
module EarlyMachine {
  import opened Values
  import M = Machine
  import Reactive
  import Registry

  /** The part of `_expose()` a host expression is modelled as reading: the
      two variable maps, as they are when the operand is evaluated. The
      exposed object also carries `runProgram`, and its maps are the
      machine's own objects; the effects host code could have through them
      (loading a program, writing variables) are not modelled. */
  datatype Exposed = Exposed(reactives: map<string, Reactive.ReactiveVar>, statics: map<string, Value>)

  /** The host-expression evaluator `eval(source)`: arbitrary host code,
      kept as a side-effect-free oracle over the exposed view. */
  type HostEval = (Value, Exposed) -> Result<Value>

  function Expose(m: M.Machine): Exposed {
    Exposed(m.reactives, m.statics)
  }

  /** `instr.eval ? this.eval(operand) : operand`. */
  function Operand(m: M.Machine, operand: Value, eval: bool, host: HostEval): (r: Result<Value>)
    ensures !eval ==> r == Ok(operand)
  {
    if eval then host(operand, Expose(m)) else Ok(operand)
  }

  /** One pass through the `switch` of the earlier `step`. */
  function Exec(m: M.Machine, instr: M.Instr, comp: M.Components, host: HostEval): (r: M.Effect)
    ensures r.Next? ==> r.m.locked == m.locked && r.m.stepRequested == m.stepRequested
    ensures r.Next? ==> m.continuations <= r.m.continuations && |r.m.continuations| <= |m.continuations| + 1
    ensures r.Next? && !instr.CallComponent? ==>
      r.m.program == m.program && r.m.continuations == m.continuations && r.keepStepping
  {
    match instr
    case SetStaticVar(name, value, eval) =>
      var v := Operand(m, value, eval, host);
      if v.Fail? then M.Threw(v.fault)
      else M.Next(m.(statics := m.statics[name := v.value], position := m.position + 1), true)
    case SetReactiveVar(name, value, eval) =>
      var v := Operand(m, value, eval, host);
      if v.Fail? then M.Threw(v.fault)
      else if name !in m.reactives then M.Threw(NoReactiveVariable(name))
      else
        var rv := Reactive.Write(m.reactives[name], v.value);
        M.Next(m.(reactives := m.reactives[name := rv], position := m.position + 1), true)
    case Goto(target) =>
      M.Next(m.(position := target), true)
    case CondGoto(_, condition, eval) =>
      var v := Operand(m, condition, eval, host);
      if v.Fail? then M.Threw(v.fault)
      else if !v.value.Num? then M.Threw(Unmodelled("non-integer jump target"))
      else M.Next(m.(position := v.value.n), true)
    case Call(target) =>
      M.Next(m.(position := target, callStack := m.callStack + [target]), true)
    case Return =>
      if |m.callStack| == 0 then M.Threw(EmptyCallStack)
      else M.Next(m.(position := m.callStack[|m.callStack| - 1], callStack := m.callStack[..|m.callStack| - 1]), true)
    case CallComponent(name, args) =>
      match Registry.Lookup(m.components, name)
      case None => M.Threw(NoComponent(name))
      case Some(c) =>
        var reply := comp(c.impl, args, m);
        var m1 := M.ApplyLoad(m, reply.load);
        M.Next(m1.(position := m1.position + 1), Truthy(reply.result))
  }

  /** `_expose().runProgram`: the earlier spelling of `loadSubProgram`. */
  function RunProgram(m: M.Machine, p: M.Program): (m': M.Machine)
    ensures m'.continuations == m.continuations + [M.Continuation(m.program, m.position)]
    ensures m'.program == p && m'.position == 0
    ensures m'.callStack == m.callStack
  {
    M.LoadSubProgram(m, p)
  }

  /** The earlier `step()`, at most `fuel` loop iterations: like the lib
      loop with the lock check and the single-step exit removed. */
  function Step(m: M.Machine, comp: M.Components, host: HostEval, fuel: nat): (r: M.StepResult)
    ensures r.Returned? ==> r.why in {M.Exhausted, M.ComponentPaused}
    ensures r.Returned? && r.why == M.Exhausted ==> !M.HasInstr(r.machine) && r.machine.continuations == []
    ensures r.Returned? && r.why == M.ComponentPaused ==> M.HasInstr(r.machine)
    decreases fuel
  {
    if fuel == 0 then M.OutOfFuel(m)
    else if !M.HasInstr(m) then
      if |m.continuations| == 0 then M.Returned(m, M.Exhausted)
      else Step(M.Resume(m), comp, host, fuel - 1)
    else
      match Exec(m, M.CurrentInstr(m), comp, host)
      case Threw(f) => M.Faulted(m, f)
      case Next(m', keep) =>
        if M.HasInstr(m') && !keep then M.Returned(m', M.ComponentPaused)
        else Step(m', comp, host, fuel - 1)
  }

  // ---------------------------------------------------------------------
  // Properties of the earlier engine

  /** SET_STATIC_VAR / SET_REACTIVE_VAR without `eval` store `value` as it
      is, even a `SevenExpr`, and advance by one. */
  lemma SetStoresVerbatim(m: M.Machine, name: string, v: Value, comp: M.Components, host: HostEval)
    ensures
      var r := Exec(m, M.SetStaticVar(name, v, false), comp, host);
      r.Next? && r.m.statics == m.statics[name := v] && r.m.position == m.position + 1
      && r.m.callStack == m.callStack && r.m.reactives == m.reactives
    ensures name in m.reactives ==>
      var r := Exec(m, M.SetReactiveVar(name, v, false), comp, host);
      r.Next? && name in r.m.reactives && Reactive.Read(r.m.reactives[name]) == v
      && r.m.position == m.position + 1 && r.m.callStack == m.callStack && r.m.statics == m.statics
  {
  }

  /** With `eval`, the stored value is whatever the host expression yields
      from the two exposed variable maps. */
  lemma SetStoresHostValue(m: M.Machine, name: string, src: Value, comp: M.Components, host: HostEval)
    requires host(src, Expose(m)).Ok?
    ensures Exec(m, M.SetStaticVar(name, src, true), comp, host)
         == M.Next(m.(statics := m.statics[name := host(src, Expose(m)).value], position := m.position + 1), true)
  {
  }

  /** GOTO sets the position to `target`; COND_GOTO without `eval` copies
      `condition` into the position and never reads `target`. */
  lemma JumpsCopyOperand(m: M.Machine, t: int, t': int, c: int, comp: M.Components, host: HostEval)
    ensures Exec(m, M.Goto(t), comp, host) == M.Next(m.(position := t), true)
    ensures Exec(m, M.CondGoto(t', Num(c), false), comp, host) == M.Next(m.(position := c), true)
  {
  }

  /** CALL pushes its target and jumps there; RETURN throws on an empty call
      stack and otherwise pops into the position, so CALL t; RETURN lands on
      t with the call stack restored. */
  lemma CallReturn(m: M.Machine, t: int, comp: M.Components, host: HostEval)
    ensures Exec(m, M.Call(t), comp, host) == M.Next(m.(position := t, callStack := m.callStack + [t]), true)
    ensures |m.callStack| == 0 <==> Exec(m, M.Return, comp, host) == M.Threw(EmptyCallStack)
    ensures Exec(Exec(m, M.Call(t), comp, host).m, M.Return, comp, host) == M.Next(m.(position := t), true)
  {
    assert (m.callStack + [t])[..|m.callStack|] == m.callStack;
  }

  /** CALL_COMPONENT on an unregistered name aborts `step` with the machine
      unchanged. */
  lemma UnknownComponentFaults(m: M.Machine, comp: M.Components, host: HostEval, fuel: nat)
    requires M.HasInstr(m) && fuel >= 1 && M.CurrentInstr(m).CallComponent?
    requires Registry.Lookup(m.components, M.CurrentInstr(m).name).None?
    ensures Step(m, comp, host, fuel) == M.Faulted(m, NoComponent(M.CurrentInstr(m).name))
  {
  }

  /** A registered component advances the position by one after its call;
      its falsy result ends `step` only if an instruction remains. */
  lemma ComponentPausesOnlyWithInstr(m: M.Machine, comp: M.Components, host: HostEval, fuel: nat)
    requires M.HasInstr(m) && M.CurrentInstr(m).CallComponent?
    requires Registry.Lookup(m.components, M.CurrentInstr(m).name).Some?
    ensures
      var i := M.CurrentInstr(m);
      var reply := comp(Registry.Lookup(m.components, i.name).value.impl, i.args, m);
      var e := Exec(m, i, comp, host);
      && e.Next? && e.keepStepping == Truthy(reply.result)
      && (reply.load.NoLoad? ==> e.m.position == m.position + 1)
      && (M.HasInstr(e.m) && !Truthy(reply.result) ==> Step(m, comp, host, fuel + 1) == M.Returned(e.m, M.ComponentPaused))
      && (!M.HasInstr(e.m) ==> Step(m, comp, host, fuel + 1) == Step(e.m, comp, host, fuel))
  {
  }

  /** When the program is exhausted, a saved continuation is restored
      exactly, and an empty continuation stack ends `step` with the machine
      unchanged. */
  lemma ExhaustedProgram(m: M.Machine, comp: M.Components, host: HostEval, fuel: nat)
    requires !M.HasInstr(m)
    ensures m.continuations == [] ==> Step(m, comp, host, fuel + 1) == M.Returned(m, M.Exhausted)
    ensures |m.continuations| > 0 ==>
      var top := m.continuations[|m.continuations| - 1];
      Step(m, comp, host, fuel + 1)
      == Step(m.(program := top.program, position := top.position,
                 continuations := m.continuations[..|m.continuations| - 1]), comp, host, fuel)
  {
  }

  /** `runProgram` followed by stepping an empty program resumes the caller
      exactly where it was. */
  lemma RunProgramRoundTrip(m: M.Machine, comp: M.Components, host: HostEval, fuel: nat)
    ensures Step(RunProgram(m, []), comp, host, fuel + 1) == Step(m, comp, host, fuel)
  {
    var m1 := RunProgram(m, []);
    assert m1.continuations[..|m1.continuations| - 1] == m.continuations;
    assert M.Resume(m1) == m;
  }

  // ---------------------------------------------------------------------
  // Where the two engines agree and differ

  /** An instruction whose operands the lib call sites can handle. */
  predicate LiteralInstr(i: M.Instr) {
    match i
    case SetStaticVar(_, v, eval) => !eval && !v.Expr?
    case SetReactiveVar(_, v, eval) => !eval && !v.Expr?
    case CondGoto(_, c, eval) => !eval && !c.Expr?
    case _ => true
  }

  predicate LiteralProgram(p: M.Program) {
    forall k :: 0 <= k < |p| ==> LiteralInstr(p[k])
  }

  /** The current program and every saved one are literal. */
  predicate LiteralMachine(m: M.Machine) {
    && LiteralProgram(m.program)
    && forall k :: 0 <= k < |m.continuations| ==> LiteralProgram(m.continuations[k].program)
  }

  predicate LiteralLoad(l: M.Load) {
    match l
    case NoLoad => true
    case LoadsProgram(p) => LiteralProgram(p)
    case LoadsSubProgram(p) => LiteralProgram(p)
  }

  /** Components the earlier engine could host: they never lock (it has no
      lock) and only load literal programs. */
  ghost predicate Tame(comp: M.Components) {
    forall id, args, m :: !comp(id, args, m).lock && LiteralLoad(comp(id, args, m).load)
  }

  lemma ExecAgrees(m: M.Machine, i: M.Instr, comp: M.Components, host: HostEval)
    requires LiteralInstr(i) && Tame(comp)
    ensures Exec(m, i, comp, host) == M.Exec(m, i, comp)
  {
    if i.CallComponent? && Registry.Lookup(m.components, i.name).Some? {
      var c := Registry.Lookup(m.components, i.name).value;
      assert !comp(c.impl, i.args, m).lock;
    }
  }

  lemma ExecKeepsLiteral(m: M.Machine, i: M.Instr, comp: M.Components)
    requires LiteralMachine(m) && Tame(comp)
    requires M.Exec(m, i, comp).Next?
    ensures LiteralMachine(M.Exec(m, i, comp).m)
  {
    var m' := M.Exec(m, i, comp).m;
    if i.CallComponent? {
      var c := Registry.Lookup(m.components, i.name).value;
      var reply := comp(c.impl, i.args, m);
      assert LiteralLoad(reply.load);
      if reply.load.LoadsSubProgram? {
        assert m'.continuations == m.continuations + [M.Continuation(m.program, m.position)];
        assert forall k :: 0 <= k < |m'.continuations| ==> LiteralProgram(m'.continuations[k].program);
      }
    }
  }

  /** On an unlocked machine whose programs are all literal, with components
      that never lock, the earlier `step()` and the lib `step(false)` do the
      same thing, iteration for iteration. */
  lemma {:induction false} StepAgrees(m: M.Machine, comp: M.Components, host: HostEval, fuel: nat)
    requires !m.locked && LiteralMachine(m) && Tame(comp)
    ensures Step(m, comp, host, fuel) == M.Step(m, false, comp, fuel)
    decreases fuel
  {
    if fuel > 0 {
      if !M.HasInstr(m) {
        if |m.continuations| > 0 {
          var m1 := M.Resume(m);
          assert forall k :: 0 <= k < |m1.continuations| ==> m1.continuations[k] == m.continuations[k];
          assert LiteralProgram(m.continuations[|m.continuations| - 1].program);
          StepAgrees(m1, comp, host, fuel - 1);
        }
      } else {
        var i := M.CurrentInstr(m);
        assert LiteralInstr(i);
        ExecAgrees(m, i, comp, host);
        var e := M.Exec(m, i, comp);
        if e.Next? {
          ExecKeepsLiteral(m, i, comp);
          if i.CallComponent? {
            var c := Registry.Lookup(m.components, i.name).value;
            assert !comp(c.impl, i.args, m).lock;
          }
          assert !e.m.locked;
          if !(M.HasInstr(e.m) && !e.keepStepping) {
            StepAgrees(e.m, comp, host, fuel - 1);
          }
        }
      }
    }
  }

  /** The engines part ways on a `SevenExpr` operand: the earlier one stores
      the expression object itself, the lib one throws. */
  lemma ExprOperandDiffers(m: M.Machine, name: string, op: string, args: seq<Value>, comp: M.Components, host: HostEval)
    ensures Exec(m, M.SetStaticVar(name, Expr(op, args), false), comp, host).Next?
    ensures M.Exec(m, M.SetStaticVar(name, Expr(op, args), false), comp) == M.Threw(UnboundEvaluator)
  {
  }
}

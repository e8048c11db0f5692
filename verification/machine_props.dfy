/** Properties of the lib/Seven.js engine: what each opcode changes and
    leaves alone, call-stack and continuation-stack discipline, when `step`
    pauses, and the lock/unlock protocol. */
module MachineProps {
  import opened Values
  import opened Machine
  import Reactive
  import Registry
  import EvaluatorProps

  // ---------------------------------------------------------------------
  // Per-opcode transitions

  /** SET_STATIC_VAR with a literal stores it verbatim under `name`, changes
      no other variable, and advances by one; neither stack moves. */
  lemma SetStaticStoresLiteral(m: Machine, name: string, v: Value, comp: Components)
    requires !v.Expr?
    ensures
      var r := Exec(m, SetStaticVar(name, v, false), comp);
      && r.Next? && r.keepStepping
      && StaticValue(r.m, name) == v
      && (forall k :: k != name ==> StaticValue(r.m, k) == StaticValue(m, k))
      && r.m.position == m.position + 1
      && r.m.callStack == m.callStack && r.m.continuations == m.continuations
      && r.m.reactives == m.reactives && r.m.program == m.program
  {
  }

  /** SET_REACTIVE_VAR with a literal writes it into the existing reactive
      variable `name` (keeping its subscribers), changes no other variable,
      and advances by one; neither stack moves. */
  lemma SetReactiveStoresLiteral(m: Machine, name: string, v: Value, comp: Components)
    requires !v.Expr? && name in m.reactives
    ensures
      var r := Exec(m, SetReactiveVar(name, v, false), comp);
      && r.Next? && r.keepStepping
      && name in r.m.reactives && Reactive.Read(r.m.reactives[name]) == v
      && r.m.reactives[name].subscribers == m.reactives[name].subscribers
      && (forall k :: k != name ==> ReactiveVariable(r.m, k) == ReactiveVariable(m, k))
      && r.m.position == m.position + 1
      && r.m.callStack == m.callStack && r.m.continuations == m.continuations
      && r.m.statics == m.statics && r.m.program == m.program
  {
  }

  /** At the lib call sites a `SevenExpr` operand or `eval: true` throws
      before anything is stored, and a missing reactive variable throws too. */
  lemma SetFaults(m: Machine, name: string, v: Value, eval: bool, comp: Components)
    ensures (eval || v.Expr?) ==> Exec(m, SetStaticVar(name, v, eval), comp) == Threw(UnboundEvaluator)
    ensures (eval || v.Expr?) ==> Exec(m, SetReactiveVar(name, v, eval), comp) == Threw(UnboundEvaluator)
    ensures !eval && !v.Expr? && name !in m.reactives ==>
      Exec(m, SetReactiveVar(name, v, eval), comp) == Threw(NoReactiveVariable(name))
  {
  }

  /** GOTO sets the position to its target and nothing else. */
  lemma GotoJumps(m: Machine, t: int, comp: Components)
    ensures Exec(m, Goto(t), comp) == Next(m.(position := t), true)
  {
  }

  /** COND_GOTO copies its (literal) condition into the position and never
      reads its target: two COND_GOTOs that differ only in target agree. */
  lemma CondGotoIgnoresTarget(m: Machine, t1: int, t2: int, c: Value, eval: bool, comp: Components)
    ensures Exec(m, CondGoto(t1, c, eval), comp) == Exec(m, CondGoto(t2, c, eval), comp)
    ensures !eval && c.Num? ==> Exec(m, CondGoto(t1, c, eval), comp) == Next(m.(position := c.n), true)
  {
  }

  /** CALL t then RETURN lands on t itself (CALL pushes its target, not a
      return address) with the call stack as it was before the CALL. */
  lemma CallThenReturn(m: Machine, t: int, comp: Components)
    ensures Exec(m, Call(t), comp).Next?
    ensures
      var m1 := Exec(m, Call(t), comp).m;
      && m1.position == t && m1.callStack == m.callStack + [t]
      && Exec(m1, Return, comp).Next?
      && Exec(m1, Return, comp).m.position == t
      && Exec(m1, Return, comp).m.callStack == m.callStack
      && Exec(m1, Return, comp).m == m.(position := t)
  {
    var m1 := Exec(m, Call(t), comp).m;
    assert (m.callStack + [t])[..|m.callStack|] == m.callStack;
  }

  /** Executing a whole instruction sequence, one after the other, with
      nothing in between (no re-read of the program). */
  function ExecAll(m: Machine, instrs: seq<Instr>, comp: Components): Effect
    decreases |instrs|
  {
    if |instrs| == 0 then Next(m, true)
    else
      match Exec(m, instrs[0], comp)
      case Threw(f) => Threw(f)
      case Next(m', _) => ExecAll(m', instrs[1..], comp)
  }

  /** Calls and returns nest: k CALLs followed by k RETURNs leave the call
      stack as it was, and the position is the first CALL's target. */
  lemma {:induction false} NestedCallsReturn(m: Machine, targets: seq<int>, comp: Components)
    requires |targets| >= 1
    ensures
      var instrs := seq(|targets|, i requires 0 <= i < |targets| => Call(targets[i]))
                    + seq(|targets|, _ => Return);
      var r := ExecAll(m, instrs, comp);
      r.Next? && r.m.callStack == m.callStack && r.m.position == targets[0]
  {
    var calls := seq(|targets|, i requires 0 <= i < |targets| => Call(targets[i]));
    var rets := seq(|targets|, _ => Return);
    CallsPush(m, targets, rets, comp);
    var m1 := m.(position := targets[|targets| - 1], callStack := m.callStack + targets);
    ReturnsPop(m1, m.callStack, targets, comp);
  }

  lemma {:induction false} CallsPush(m: Machine, targets: seq<int>, rest: seq<Instr>, comp: Components)
    requires |targets| >= 1
    ensures ExecAll(m, seq(|targets|, i requires 0 <= i < |targets| => Call(targets[i])) + rest, comp)
         == ExecAll(m.(position := targets[|targets| - 1], callStack := m.callStack + targets), rest, comp)
    decreases |targets|
  {
    var calls := seq(|targets|, i requires 0 <= i < |targets| => Call(targets[i]));
    var m1 := m.(position := targets[0], callStack := m.callStack + [targets[0]]);
    assert (calls + rest)[0] == Call(targets[0]);
    assert Exec(m, Call(targets[0]), comp) == Next(m1, true);
    if |targets| == 1 {
      assert (calls + rest)[1..] == rest;
      assert m.callStack + targets == m.callStack + [targets[0]];
    } else {
      var tail := targets[1..];
      assert (calls + rest)[1..] == seq(|tail|, i requires 0 <= i < |tail| => Call(tail[i])) + rest;
      CallsPush(m1, tail, rest, comp);
      assert m1.callStack + tail == m.callStack + targets;
    }
  }

  lemma {:induction false} ReturnsPop(m: Machine, base: seq<int>, targets: seq<int>, comp: Components)
    requires |targets| >= 1 && m.callStack == base + targets
    ensures
      var r := ExecAll(m, seq(|targets|, _ => Return), comp);
      r.Next? && r.m.callStack == base && r.m.position == targets[0]
    decreases |targets|
  {
    var rets := seq(|targets|, _ => Return);
    var n := |m.callStack|;
    var m1 := m.(position := targets[|targets| - 1], callStack := base + targets[..|targets| - 1]);
    assert m.callStack[..n - 1] == base + targets[..|targets| - 1];
    assert Exec(m, Return, comp) == Next(m1, true);
    if |targets| == 1 {
      assert rets[1..] == [];
      assert base + targets[..0] == base;
    } else {
      var init := targets[..|targets| - 1];
      assert rets[1..] == seq(|init|, _ => Return);
      ReturnsPop(m1, base, init, comp);
    }
  }

  /** RETURN on an empty call stack throws; otherwise it pops the top into
      the position. */
  lemma ReturnPops(m: Machine, comp: Components)
    ensures |m.callStack| == 0 <==> Exec(m, Return, comp) == Threw(EmptyCallStack)
    ensures |m.callStack| > 0 ==>
      Exec(m, Return, comp).Next? &&
      Exec(m, Return, comp).m.position == m.callStack[|m.callStack| - 1] &&
      Exec(m, Return, comp).m.callStack + [m.callStack[|m.callStack| - 1]] == m.callStack
  {
  }

  /** CALL_COMPONENT on an unregistered name throws, and `step` reports the
      fault with the position and both stacks exactly as they were. */
  lemma UnknownComponentFaults(m: Machine, single: bool, comp: Components, fuel: nat)
    requires HasInstr(m) && !m.locked && fuel >= 1
    requires CurrentInstr(m).CallComponent?
    requires Registry.Lookup(m.components, CurrentInstr(m).name).None?
    ensures Step(m, single, comp, fuel) == Faulted(m, NoComponent(CurrentInstr(m).name))
  {
  }

  /** A registered component: `keepStepping` is the truthiness of its result,
      and the position is incremented AFTER the call, on whatever program the
      component left loaded. */
  lemma ComponentAdvancesAfterCall(m: Machine, name: string, args: Value, comp: Components)
    requires Registry.Lookup(m.components, name).Some?
    ensures
      var c := Registry.Lookup(m.components, name).value;
      var reply := comp(c.impl, args, m);
      var r := Exec(m, CallComponent(name, args), comp);
      && r.Next?
      && r.keepStepping == Truthy(reply.result)
      && r.m.callStack == m.callStack && r.m.statics == m.statics && r.m.reactives == m.reactives
      && (reply.load.NoLoad? ==> r.m.program == m.program && r.m.position == m.position + 1
                                 && r.m.continuations == m.continuations)
  {
  }

  /** A component that calls `loadSubProgram` saves a continuation pointing
      at the CALL_COMPONENT itself, and the sub-program starts at position 1,
      skipping its first instruction. */
  lemma ComponentSubProgramQuirk(m: Machine, name: string, args: Value, comp: Components, p: Program)
    requires Registry.Lookup(m.components, name).Some?
    requires comp(Registry.Lookup(m.components, name).value.impl, args, m).load == LoadsSubProgram(p)
    ensures
      var r := Exec(m, CallComponent(name, args), comp);
      && r.Next?
      && r.m.program == p && r.m.position == 1
      && r.m.continuations == m.continuations + [Continuation(m.program, m.position)]
  {
  }

  // ---------------------------------------------------------------------
  // The step loop

  /** With no current instruction and no continuation, `step` returns with
      the machine unchanged. */
  lemma ExhaustedStepIsNoOp(m: Machine, single: bool, comp: Components, fuel: nat)
    requires !HasInstr(m) && m.continuations == [] && fuel >= 1
    ensures Step(m, single, comp, fuel) == Returned(m, Exhausted)
  {
  }

  /** With no current instruction, `step` pops the top continuation and
      carries on from exactly the saved program and position, within the
      same call, and whether or not the machine is locked. */
  lemma StepResumesContinuation(m: Machine, single: bool, comp: Components, fuel: nat)
    requires !HasInstr(m) && |m.continuations| > 0
    ensures
      var top := m.continuations[|m.continuations| - 1];
      Step(m, single, comp, fuel + 1)
      == Step(m.(program := top.program, position := top.position,
                 continuations := m.continuations[..|m.continuations| - 1]), single, comp, fuel)
  {
  }

  /** `loadSubProgram` is undone by the sub-program's end: whatever happened
      inside it, once the continuation stack is back to what loading left and
      there is no current instruction, `step` resumes the exact pair saved. */
  lemma SubProgramEndRestores(m: Machine, p: Program, later: Machine, single: bool, comp: Components, fuel: nat)
    requires later.continuations == LoadSubProgram(m, p).continuations
    requires !HasInstr(later)
    ensures Step(later, single, comp, fuel + 1)
         == Step(later.(program := m.program, position := m.position, continuations := m.continuations),
                 single, comp, fuel)
  {
    assert later.continuations[..|later.continuations| - 1] == m.continuations;
  }

  /** Loading an empty sub-program and stepping is the same as stepping the
      machine as it was before the load. */
  lemma EmptySubProgramRoundTrip(m: Machine, single: bool, comp: Components, fuel: nat)
    ensures Step(LoadSubProgram(m, []), single, comp, fuel + 1) == Step(m, single, comp, fuel)
  {
    var m1 := LoadSubProgram(m, []);
    assert m1.continuations[..|m1.continuations| - 1] == m.continuations;
    assert Resume(m1) == m;
  }

  /** `step(true)`, or a component's falsy result, hands control back right
      after the instruction, provided the program still has an instruction at
      the new position. */
  lemma StepPausesAfterOne(m: Machine, single: bool, comp: Components, fuel: nat)
    requires HasInstr(m) && !m.locked && fuel >= 1
    requires Exec(m, CurrentInstr(m), comp).Next?
    ensures
      var e := Exec(m, CurrentInstr(m), comp);
      (HasInstr(e.m) && (single || !e.keepStepping)) ==>
        Step(m, single, comp, fuel) == Returned(e.m, if single then SingleStep else ComponentPaused)
  {
  }

  /** Without a current instruction after it, the same instruction does NOT
      pause: `step` goes on (to the continuation stack) in the same call. */
  lemma StepContinuesAtEnd(m: Machine, single: bool, comp: Components, fuel: nat)
    requires HasInstr(m) && !m.locked
    requires Exec(m, CurrentInstr(m), comp).Next?
    requires !HasInstr(Exec(m, CurrentInstr(m), comp).m)
    ensures Step(m, single, comp, fuel + 1) == Step(Exec(m, CurrentInstr(m), comp).m, single, comp, fuel)
  {
  }

  // ---------------------------------------------------------------------
  // Lock and unlock

  /** A locked step that finds a current instruction executes nothing: it
      only records that a step was requested. */
  lemma LockedStepOnlyRequests(m: Machine, single: bool, comp: Components, fuel: nat)
    requires m.locked && HasInstr(m) && fuel >= 1
    ensures Step(m, single, comp, fuel) == Returned(m.(stepRequested := true), LockDeferred)
  {
  }

  /** Steps requested while locked: `n` calls of `step`. */
  function StepTimes(m: Machine, n: nat, single: bool, comp: Components, fuel: nat): Machine
    decreases n
  {
    if n == 0 then m else StepTimes(Step(m, single, comp, fuel).machine, n - 1, single, comp, fuel)
  }

  lemma {:induction false} LockedStepsCollapse(m: Machine, n: nat, single: bool, comp: Components, fuel: nat)
    requires m.locked && HasInstr(m) && fuel >= 1
    ensures StepTimes(m, n, single, comp, fuel) == m.(stepRequested := m.stepRequested || n >= 1)
    decreases n
  {
    if n > 0 {
      LockedStepOnlyRequests(m, single, comp, fuel);
      var m1 := m.(stepRequested := true);
      LockedStepsCollapse(m1, n - 1, single, comp, fuel);
    }
  }

  /** lock(), then n step() calls, then unlock(): the requests collapse into
      one, so unlock takes exactly one step if n >= 1 and none if n == 0, and
      in both cases leaves the machine unlocked with no request pending. */
  lemma {:induction false} LockStepsUnlock(m: Machine, n: nat, single: bool, comp: Components, fuel: nat, fuel': nat)
    requires !m.locked && !m.stepRequested && HasInstr(m) && fuel >= 1
    ensures
      var locked := StepTimes(Lock(m), n, single, comp, fuel);
      Unlock(locked, comp, fuel')
      == (if n == 0 then Returned(m, Idle) else Step(m, false, comp, fuel'))
  {
    LockedStepsCollapse(Lock(m), n, single, comp, fuel);
    var locked := StepTimes(Lock(m), n, single, comp, fuel);
    assert locked == m.(locked := true, stepRequested := n >= 1);
  }

  /** A locked machine with no current instruction still pops a continuation
      (the lock is only consulted once an instruction is found). */
  lemma LockedStepStillResumes(m: Machine, single: bool, comp: Components, fuel: nat)
    requires m.locked && !HasInstr(m) && |m.continuations| > 0
    requires HasInstr(Resume(m))
    ensures fuel >= 2 ==> Step(m, single, comp, fuel) == Returned(Resume(m).(stepRequested := true), LockDeferred)
  {
  }

  /** A request is only ever pending while the machine is locked: `lock`,
      `unlock` and `step` all keep this. */
  lemma RequestImpliesLocked(m: Machine, single: bool, comp: Components, fuel: nat)
    requires m.stepRequested ==> m.locked
    ensures Lock(m).stepRequested ==> Lock(m).locked
    ensures Step(m, single, comp, fuel).machine.stepRequested ==> Step(m, single, comp, fuel).machine.locked
    ensures Unlock(m, comp, fuel).machine.stepRequested ==> Unlock(m, comp, fuel).machine.locked
  {
  }

  // ---------------------------------------------------------------------
  // run

  /** `halted` is inverted: it holds exactly when `step` has an instruction
      to execute, and fails exactly on a machine where an unlocked `step`
      with nothing to resume returns at once, unchanged. */
  lemma HaltedIsInverted(m: Machine, single: bool, comp: Components, fuel: nat)
    requires fuel >= 1
    ensures Halted(m) <==> HasInstr(m)
    ensures Halted(m) && !m.locked ==> Step(m, single, comp, fuel) != Returned(m, Exhausted)
    ensures !Halted(m) && m.continuations == [] ==> Step(m, single, comp, fuel) == Returned(m, Exhausted)
  {
  }

  /** `run` does nothing when there is a current instruction. */
  lemma RunIsNoOpWithInstr(m: Machine, comp: Components, fuel: nat)
    requires HasInstr(m)
    ensures Run(m, comp, fuel) == Returned(m, Idle)
  {
  }

  /** With no instruction and no continuation, `run` never returns: `step`
      leaves the machine as it is and `halted` stays false. */
  lemma {:induction false} RunSpinsWhenExhausted(m: Machine, comp: Components, fuel: nat)
    requires !HasInstr(m) && m.continuations == []
    ensures Run(m, comp, fuel) == OutOfFuel(m)
    decreases fuel
  {
    if fuel > 0 {
      ExhaustedStepIsNoOp(m, false, comp, fuel);
      RunSpinsWhenExhausted(m, comp, fuel - 1);
    }
  }

  // ---------------------------------------------------------------------
  // The Prelude on a new machine

  /** What the Prelude sees of a new machine is the empty variable maps and
      the Prelude's own registry. */
  lemma NewMachineEnv(p: Program)
    ensures EnvOf(New(p)) == EvaluatorProps.InitialEnv()
  {
  }

  /** The worked Prelude examples hold on any new machine. */
  lemma PreludeOnNewMachine(p: Program, host: Evaluator.HostExterns)
    ensures Evaluator.Eval(EnvOf(New(p)), host, Expr("+", [Num(2), Num(3), Num(4)])) == Ok(Num(9))
    ensures Evaluator.Eval(EnvOf(New(p)), host,
              Expr(".", [Obj(map["a" := Obj(map["b" := Num(7)])]), Str("a"), Str("b")])) == Ok(Num(7))
    ensures Evaluator.Eval(EnvOf(New(p)), host, Expr("#VAR", [Str("missing")])) == Ok(Undefined)
  {
    NewMachineEnv(p);
    EvaluatorProps.SumExample(host);
    EvaluatorProps.PathExample(host);
    EvaluatorProps.MissingStaticExample(host);
  }

  // ---------------------------------------------------------------------
  // A worked scenario

  /** `[SET_STATIC_VAR x=1, GOTO 3, SET_STATIC_VAR x=2, CALL_COMPONENT "done"]`. */
  function ScenarioProgram(): Program {
    [SetStaticVar("x", Num(1), false), Goto(3), SetStaticVar("x", Num(2), false),
     CallComponent("done", Obj(map[]))]
  }

  /** A fresh machine on that program with a component "done" registered. */
  function Scenario(): Machine {
    RegisterComponent(New(ScenarioProgram()), Registry.Component("done", 0))
  }

  /** A component that does nothing and asks to keep stepping. */
  function KeepGoing(id: nat, args: Value, m: Machine): Reply {
    Reply(Bool(true), NoLoad, false)
  }

  /** One `step()` runs the whole program in a burst: GOTO skips the second
      assignment, so `x` ends as 1 and the program is exhausted. */
  lemma ScenarioStepSkipsSecondAssignment()
    ensures Step(Scenario(), false, KeepGoing, 4).Returned?
    ensures Step(Scenario(), false, KeepGoing, 4).why == Exhausted
    ensures StaticValue(Step(Scenario(), false, KeepGoing, 4).machine, "x") == Num(1)
  {
    ScenarioHasDone();
    ScenarioBurst(Scenario());
  }

  lemma ScenarioBurst(m0: Machine)
    requires m0.program == ScenarioProgram() && m0.position == 0 && !m0.locked && m0.continuations == []
    requires Registry.Lookup(m0.components, "done").Some?
    ensures Step(m0, false, KeepGoing, 4).Returned?
    ensures Step(m0, false, KeepGoing, 4).why == Exhausted
    ensures StaticValue(Step(m0, false, KeepGoing, 4).machine, "x") == Num(1)
  {
    var m1 := m0.(statics := m0.statics["x" := Num(1)], position := 1);
    assert CurrentInstr(m0) == SetStaticVar("x", Num(1), false);
    assert Exec(m0, CurrentInstr(m0), KeepGoing) == Next(m1, true);
    assert Step(m0, false, KeepGoing, 4) == Step(m1, false, KeepGoing, 3);
    var m2 := m1.(position := 3);
    assert CurrentInstr(m1) == Goto(3);
    assert Step(m1, false, KeepGoing, 3) == Step(m2, false, KeepGoing, 2);
    var m3 := m2.(position := 4);
    assert CurrentInstr(m2) == CallComponent("done", Obj(map[]));
    assert Exec(m2, CurrentInstr(m2), KeepGoing) == Next(m3, true);
    assert Step(m2, false, KeepGoing, 2) == Step(m3, false, KeepGoing, 1);
    assert Step(m3, false, KeepGoing, 1) == Returned(m3, Exhausted);
  }

  lemma ScenarioHasDone()
    ensures Registry.Lookup(Scenario().components, "done") == Some(Registry.Component("done", 0))
    ensures Scenario().statics == map[] && Scenario().position == 0 && !Scenario().locked
  {
  }

  /** `run()` on the same fresh machine executes nothing: position 0 holds
      an instruction, so `halted` is already true. */
  lemma ScenarioRunDoesNothing(fuel: nat)
    ensures Run(Scenario(), KeepGoing, fuel) == Returned(Scenario(), Idle)
    ensures StaticValue(Run(Scenario(), KeepGoing, fuel).machine, "x") == Undefined
  {
  }
}

# SevenMachine in Dafny

A model of the execution engine of *seven*, a small virtual machine for
scripted scenes. A `SevenMachine` runs a program, which is a list of seven
kinds of instruction:

- assign a static variable;
- assign a reactive variable;
- jump;
- conditional jump;
- call and return;
- call a host *component*.

Components are registered by name. A component can stop a burst of
execution by returning a falsy value. It can also load a program, or push
the current program and load a sub-program; the sub-program's end resumes
the caller. A machine can be locked. A `step()` asked for while the
machine is locked is deferred until `unlock()`. Operands may be
`SevenExpr` trees, which the structured evaluator hands to the registered
*extern functions*. The built-in ones form the *Prelude*: arithmetic,
comparisons, boolean connectives, variable reads and property paths.

Two versions of the engine are modelled:

- The current one in `lib/Seven.js`, in modules `Machine` and
  `Evaluator`. It has lock/unlock, single-step mode and the structured
  evaluator with the Prelude.
- The earlier one in `src/Seven.ts`, in module `EarlyMachine`. It has no
  lock and no single-step mode. A host-expression evaluator (an oracle
  here) handles operands marked `eval`. `_expose().runProgram` plays the
  part of `loadSubProgram`.

Layout:

- `values.dfy`: the JavaScript values the engine carries, JavaScript
  truthiness, faults, and `Result`/`Option`.
- `registry.dfy`: the component dictionary, with its cached list and
  dirty flag.
- `reactive.dfy`: `SevenReactiveVariable`.
- `evaluator.dfy` / `evaluator_props.dfy`: `eval`, the Prelude, and its
  properties. Each property is stated against a reference definition.
- `machine.dfy` / `machine_props.dfy`: the state, the instruction
  transitions, `step`, `lock`/`unlock` and `run`, and their properties.
- `early.dfy`: the earlier engine. A proof shows that it agrees with the
  current one under four conditions: the machine is unlocked; the current
  program and every saved one have literal operands only; components never
  lock; and components only load such literal programs.

The machine is an immutable value and every operation is a pure function.
The host side is passed in as parameters:

- Components are an oracle `(handle, args, machine) -> Reply`. A reply is
  the component's result plus what it did to the machine: loaded a
  program, loaded a sub-program, and/or locked it.
- Host extern functions are an oracle too. It sees only the variable maps
  and the extern table, and it has no effect on the machine.
- The host-expression evaluator of the earlier engine is an oracle.

`step` and `run` take a `fuel` bound on loop iterations. They answer
`OutOfFuel` when the bound runs out.

The engine's quirks are modelled as the code has them, and lemmas state
them:

- CALL pushes its *target*, not a return address. So CALL t; RETURN lands
  on t (`MachineProps.CallThenReturn`).
- COND_GOTO ignores `target` and jumps to the value of its `condition`.
- CALL_COMPONENT increments the position *after* the component ran. A
  sub-program loaded by a component therefore starts at position 1. The
  saved continuation points back at the CALL_COMPONENT
  (`MachineProps.ComponentSubProgramQuirk`).
- The single-step and component-pause exits fire only when an
  instruction remains at the new position.
- In `lib/Seven.js` the call sites invoke `this.eval` / `this.jsEval`
  detached, as `(c ? this.jsEval : this.eval)(x)`. `this` is then
  undefined under strict mode. A literal operand passes through, but a
  `SevenExpr` operand or `eval: true` throws (`Fault.UnboundEvaluator`).
  The Prelude is therefore reachable only through `eval` called as a
  method, and the `Evaluator` module models that call.
- `halted` is true when there IS a current instruction. `run()` therefore
  does nothing on a machine with a current instruction, and never returns
  on an exhausted one (`MachineProps.RunIsNoOpWithInstr`,
  `MachineProps.RunSpinsWhenExhausted`).
- `subscribe` never records the subscriber, and the `value` setter
  notifies no one. Subscriber lists therefore stay empty, and
  `unsubscribe` is a no-op (`Reactive.SubscribersStayEmpty`,
  `Reactive.UnsubscribeIsNoOp`).

Three behaviours of the code deserve a note, because a reader would
expect otherwise:

- CALL pushes its target. The source's own comment on the call stack
  (lib/Seven.js:48, src/Seven.ts:120) says it stores the position after
  the CALL. The model follows the code (`MachineProps.CallThenReturn`).
- `run()` on a fresh machine executes nothing
  (`MachineProps.ScenarioRunDoesNothing`), while one `step()` runs the
  program (`MachineProps.ScenarioStepSkipsSecondAssignment`).
- `SevenReactiveVariable` notifies no one: it never stores a subscriber.

## Model

| member | source | states |
|---|---|---|
| Values.Get | lib/Seven.js:102-104 | a present key yields its value, a missing key yields `undefined` |
| Registry.Empty | lib/Seven.js:40-42 | a new machine's registry has no entries, an empty cache that is clean, and is valid |
| Registry.IndexOf | lib/Seven.js:59-61 | the first entry with that name, or -1 exactly when no entry has it |
| Registry.Lookup | lib/Seven.js:59-61 | `getComponentByName` finds a component exactly when one is registered under that name, and it carries that name |
| Registry.Register | lib/Seven.js:83-87 | registration keeps names unique, marks the cache stale, makes the name resolve to the new component (last registration wins), leaves every other name's lookup unchanged, and grows the registry only for a new name |
| Registry.CurrentComponent | lib/Seven.js:62-82 | the list returned is always the dictionary's current values, even when the cache was stale; afterwards the cache is clean and mirrors the dictionary |
| Registry.RegisterThenListContains | src/Seven.ts:57-75 | after registering a component, the component list contains it and every previously registered component with another name |
| Reactive.Read | lib/Seven.js:10 | the `value` getter returns the stored value; the value read is always the last one written (stated by `Reactive.Write` and `Reactive.ReadsLastWrite`) |
| Reactive.New | lib/Seven.js:5-8 | a new reactive variable reads as its initial value and has no subscribers |
| Reactive.Write | lib/Seven.js:9-14 | the setter makes the value read back as written and leaves the subscriber list alone |
| Reactive.Subscribe | lib/Seven.js:15-25 | `subscribe` returns a handle for the callback and does not change the variable |
| Reactive.IndexOf | lib/Seven.js:19 | `indexOf` returns the first occurrence, or -1 exactly when the callback is absent |
| Reactive.Unsubscribe | lib/Seven.js:18-23 | `unsubscribe` keeps the value; it changes nothing when the callback is absent, and otherwise removes exactly the first occurrence |
| Reactive.SubscribersStayEmpty | lib/Seven.js:4-27 | after any sequence of writes, subscribes and unsubscribes on a new variable, the subscriber list is still empty |
| Reactive.ReadsLastWrite | src/Seven.ts:5-6 | the value reads as the last one written, whatever subscribe/unsubscribe calls follow |
| Reactive.UnsubscribeIsNoOp | src/Seven.ts:14-23 | calling a subscription's `unsubscribe` any number of times leaves the variable exactly as it was |
| Evaluator.PreludeTable | lib/Seven.js:55-57 | the constructor registers every Prelude operator under its name |
| Evaluator.RegisterExtern | lib/Seven.js:88-91 | the new entry wins for its name; every other name keeps its entry |
| Evaluator.Eval | lib/Seven.js:140-149 | a non-`SevenExpr` evaluates to itself; an unregistered operator throws; a host extern gets the raw arguments |
| EvaluatorProps.ArithLeftFolds | lib/Seven.js:277-279 | `+`, `-`, `*` on integer-valued arguments evaluate every argument and fold them left-bracketed (equal to the reference `LeftFold`) |
| EvaluatorProps.EmptyReduceThrows | lib/Seven.js:277-297 | a variadic operator with no arguments throws, as `reduce` without an initial value does |
| EvaluatorProps.LogicLeftFolds | lib/Seven.js:296-297 | `and`/`or` over boolean-valued arguments evaluate every argument (no short circuit) and yield their conjunction/disjunction; `and` is true iff every argument is (that no argument is skipped is `EvaluatorProps.NoShortCircuit`) |
| EvaluatorProps.EvalEachFirstFault | lib/Seven.js:277 | `args.map(eval)` throws the fault of the first argument that throws, after evaluating every argument before it |
| EvaluatorProps.NoShortCircuit | lib/Seven.js:296-297 | `and`, `or`, `+`, `-`, `*` evaluate every argument before folding: an argument that throws makes the expression throw, whatever the arguments before it |
| EvaluatorProps.NoShortCircuitExample | lib/Seven.js:296-297 | `(and false (bad))` and `(or true (bad))` throw when `bad` is not registered |
| EvaluatorProps.AndIsAll | lib/Seven.js:296 | the reference conjunction is true iff every element is |
| EvaluatorProps.VarReadsRawName | lib/Seven.js:301-302 | `#VAR`/`$VAR` use their first argument unevaluated as the name, reading the static value or the reactive variable's value, `undefined` when missing |
| EvaluatorProps.VarDoesNotEvaluateName | lib/Seven.js:301-302 | a `SevenExpr` given to `#VAR`/`$VAR` is not evaluated: the expression object is the key, read as "[object Object]" |
| EvaluatorProps.CompareIntegers | lib/Seven.js:290-293 | `<`, `>`, `<=`, `>=` on two integer-valued arguments yield the numeric ordering (the reference `Ordered`) |
| EvaluatorProps.LooseEqualityOnPrimitives | lib/Seven.js:294-295 | `==`/`!=` on primitives of one kind, or against `undefined`, yield value equality/inequality |
| EvaluatorProps.NotNegatesTruthiness | lib/Seven.js:298 | `not` yields the negated truthiness of its evaluated first argument, and true without one |
| Evaluator.Reduce | lib/Seven.js:277-297 | `reduce` without an initial value throws on an empty list and returns a single element as it is |
| Evaluator.Index | lib/Seven.js:306 | indexing `undefined` throws; an object indexed by a string yields that property or `undefined`; nothing else succeeds in this model |
| EvaluatorProps.PathIndexesLeftToRight | lib/Seven.js:303-309 | `.` evaluates the base and every key, and indexes left to right (equal to the reference `PathGet`) |
| EvaluatorProps.ChaseFollowsPath | lib/Seven.js:305-307 | each loop iteration of `.` continues the reference path from the prefix already indexed |
| EvaluatorProps.PathFailureSticks | lib/Seven.js:306 | once indexing `undefined` throws on a prefix, the whole path throws the same fault |
| EvaluatorProps.EvalEachAll | lib/Seven.js:277 | `args.map(eval)` yields exactly the values of the arguments, in order |
| EvaluatorProps.SumExample | lib/Seven.js:277 | `(+ 2 3 4)` is 9 on a new machine |
| EvaluatorProps.PathExample | lib/Seven.js:303-309 | `(. {a:{b:7}} "a" "b")` is 7 on a new machine |
| EvaluatorProps.MissingStaticExample | lib/Seven.js:301 | `(#VAR "missing")` is `undefined` on a new machine |
| Machine.Opcode | lib/Seven.js:264-273 | the tags are SET_STATIC_VAR 1, SET_REACTIVE_VAR 2, GOTO 3, COND_GOTO 4, CALL 5, RETURN 6, CALL_COMPONENT 7, each tag belonging to exactly one kind |
| Machine.New | lib/Seven.js:38-58 | a new machine is at position 0 of its program, with empty stacks, empty static and reactive maps, an empty clean component registry, unlocked, with nothing requested, and exactly the Prelude as its extern functions |
| Machine.Halted | lib/Seven.js:150-156 | `halted` is true exactly when there IS a current instruction (stated by `MachineProps.HaltedIsInverted`) |
| Machine.StaticValue | lib/Seven.js:102-104 | `getStaticVariableValueByName` yields the stored value, or `undefined` for a name never assigned |
| Machine.ReactiveVariable | lib/Seven.js:92-94 | `getReactiveVariableByName` yields the variable exactly when one is stored under the name |
| Machine.RegisterComponent | lib/Seven.js:83-87 | the name resolves to the new component, other names are unaffected, and nothing but the registry changes |
| Machine.RegisterExternFunction | lib/Seven.js:88-91 | the name maps to the new extern, other names are unaffected, and nothing but the extern table changes |
| Machine.LoadProgram | lib/Seven.js:133-136 | the new program is loaded at position 0; neither stack nor any variable changes |
| Machine.LoadSubProgram | lib/Seven.js:254-260 | the current (program, position) pair is pushed on the continuation stack, then the new program is loaded at 0; nothing else changes (call stack, variables, lock, request flag, registries) |
| Machine.Lock | lib/Seven.js:157 | the machine becomes locked and nothing else changes |
| Machine.CallSiteEval | lib/Seven.js:194-208 | at the detached call sites, an operand comes back unchanged exactly when it is a literal without `eval`; otherwise the call throws |
| Machine.ApplyLoad | lib/Seven.js:133-136 | a program loaded by a component leaves the call stack, the variables, the lock, the request flag and both registries unchanged; no load leaves the machine as it was |
| Machine.ApplyReply | lib/Seven.js:220 | a component's actions keep stepRequested and variables, and the machine ends locked iff it was or the component locked it |
| Machine.Exec | lib/Seven.js:192-231 | an instruction throws exactly in the cases `Throws` lists; otherwise it keeps registries and the request flag, never unlocks, only grows the continuation stack by at most one, and every opcode other than CALL_COMPONENT keeps the program and continues stepping |
| Machine.Resume | lib/Seven.js:181-184 | popping a continuation restores exactly the saved program and position and removes only the top |
| Machine.Step | lib/Seven.js:170-246 | `step` stops with an exhausted program only when no continuation remains; a single-step or component pause leaves a current instruction; a lock deferral records the request; and a pending request implies the lock |
| Machine.Unlock | lib/Seven.js:158-164 | `unlock` clears the lock, and takes exactly one `step()` (clearing the request) iff a step was requested |
| Machine.Run | lib/Seven.js:247-251 | whenever `run` returns, there is a current instruction |
| MachineProps.SetStaticStoresLiteral | lib/Seven.js:198-202 | SET_STATIC_VAR stores a literal under its name, changes no other variable, advances by one and moves no stack |
| MachineProps.SetReactiveStoresLiteral | lib/Seven.js:193-197 | SET_REACTIVE_VAR writes a literal into the existing variable, keeps its subscribers and every other variable, and advances by one |
| MachineProps.SetFaults | lib/Seven.js:193-202 | an `eval` or `SevenExpr` operand throws; so does an unknown reactive variable |
| MachineProps.GotoJumps | lib/Seven.js:203-206 | GOTO changes only the position, to its target |
| MachineProps.CondGotoIgnoresTarget | lib/Seven.js:207-210 | COND_GOTO never reads its target and jumps to its condition's value |
| MachineProps.CallThenReturn | lib/Seven.js:211-214 | CALL t then RETURN lands on t with the call stack as before |
| MachineProps.NestedCallsReturn | lib/Seven.js:211-230 | k CALLs followed by k RETURNs restore the call stack and end on the first CALL's target |
| MachineProps.CallsPush | lib/Seven.js:211-214 | a run of CALLs pushes its targets in order and ends on the last one |
| MachineProps.ReturnsPop | lib/Seven.js:224-230 | a run of RETURNs pops those targets back off, ending on the first |
| MachineProps.ReturnPops | lib/Seven.js:224-230 | RETURN throws iff the call stack is empty, and otherwise pops its top into the position |
| MachineProps.UnknownComponentFaults | lib/Seven.js:215-219 | CALL_COMPONENT of an unregistered name makes `step` throw with the machine unchanged |
| MachineProps.ComponentAdvancesAfterCall | lib/Seven.js:215-223 | `keepStepping` is the truthiness of the component's result, and without a load the position advances by one |
| MachineProps.ComponentSubProgramQuirk | lib/Seven.js:220-221 | a component loading a sub-program saves a continuation at the CALL_COMPONENT and the sub-program starts at position 1 |
| MachineProps.ExhaustedStepIsNoOp | lib/Seven.js:176-180 | with no instruction and no continuation, `step` returns with the machine unchanged |
| MachineProps.StepResumesContinuation | lib/Seven.js:176-185 | with no instruction, `step` resumes the top continuation within the same call |
| MachineProps.SubProgramEndRestores | lib/Seven.js:254-260 | at a sub-program's end, `step` resumes exactly the (program, position) saved by `loadSubProgram` |
| MachineProps.EmptySubProgramRoundTrip | lib/Seven.js:257-260 | loading an empty sub-program and stepping equals stepping the machine before the load |
| MachineProps.StepPausesAfterOne | lib/Seven.js:235-243 | single-step mode, or a falsy component result, returns right after the instruction when an instruction remains |
| MachineProps.StepContinuesAtEnd | lib/Seven.js:235-237 | with no instruction after it, the same instruction does not pause and `step` goes on |
| MachineProps.LockedStepOnlyRequests | lib/Seven.js:188-191 | a locked `step` that finds an instruction only records the request |
| MachineProps.LockedStepsCollapse | lib/Seven.js:188-191 | any number of locked steps leave the machine as one request would |
| MachineProps.LockStepsUnlock | lib/Seven.js:157-164 | lock, n steps, unlock: no step when n is 0, exactly one step otherwise |
| MachineProps.LockedStepStillResumes | lib/Seven.js:174-191 | a locked machine with an exhausted program still pops a continuation before deferring |
| MachineProps.RequestImpliesLocked | lib/Seven.js:157-191 | lock, step and unlock keep "a step is requested only while locked" |
| MachineProps.HaltedIsInverted | lib/Seven.js:150-156 | `halted` holds exactly when there is a current instruction, so an unlocked `step` on a halted machine does some work, and on a non-halted machine with no continuation it returns at once |
| MachineProps.RunIsNoOpWithInstr | lib/Seven.js:150-156 | `run` does nothing when there is a current instruction |
| MachineProps.RunSpinsWhenExhausted | lib/Seven.js:247-251 | with no instruction and no continuation, `run` never returns |
| MachineProps.NewMachineEnv | lib/Seven.js:38-58 | what the Prelude sees of a new machine is empty variable maps and the Prelude registry |
| MachineProps.PreludeOnNewMachine | lib/Seven.js:276-310 | on any new machine, `(+ 2 3 4)` is 9, `(. {a:{b:7}} "a" "b")` is 7 and `(#VAR "missing")` is `undefined` |
| MachineProps.ScenarioStepSkipsSecondAssignment | lib/Seven.js:170-246 | one `step` of the four-instruction program sets x to 1, skips the jumped-over assignment and exhausts the program |
| MachineProps.ScenarioBurst | lib/Seven.js:198-223 | the same burst for any unlocked machine on that program with the component registered |
| MachineProps.ScenarioHasDone | lib/Seven.js:83-87 | the worked machine has the component registered and starts clean |
| MachineProps.ScenarioRunDoesNothing | lib/Seven.js:247-251 | `run` on that fresh machine executes nothing and x stays `undefined` |
| EarlyMachine.Expose | src/Seven.ts:191-199 | the view a host expression reads: the two variable maps as they are (used by `EarlyMachine.SetStoresHostValue`); `runProgram` and the live references are left out |
| EarlyMachine.Operand | src/Seven.ts:138-152 | an operand without `eval` is used verbatim |
| EarlyMachine.Exec | src/Seven.ts:136-171 | the earlier instructions never lock, grow the continuation stack by at most one, and all but CALL_COMPONENT keep the program and continue |
| EarlyMachine.RunProgram | src/Seven.ts:188-199 | `runProgram` saves the current pair as a continuation and loads at 0 |
| EarlyMachine.Step | src/Seven.ts:122-176 | the earlier `step` only stops for an exhausted program with no continuation, or for a component pause with an instruction left |
| EarlyMachine.SetStoresVerbatim | src/Seven.ts:137-146 | without `eval`, both assignments store the operand as given, even a `SevenExpr` |
| EarlyMachine.SetStoresHostValue | src/Seven.ts:113-115 | with `eval`, the stored value is what the host expression yields from the exposed maps |
| EarlyMachine.JumpsCopyOperand | src/Seven.ts:147-154 | GOTO jumps to its target; COND_GOTO copies its condition into the position |
| EarlyMachine.CallReturn | src/Seven.ts:155-170 | CALL pushes its target; RETURN throws iff the stack is empty; CALL t; RETURN lands on t |
| EarlyMachine.UnknownComponentFaults | src/Seven.ts:159-161 | an unregistered component makes `step` throw with the machine unchanged |
| EarlyMachine.ComponentPausesOnlyWithInstr | src/Seven.ts:159-174 | a component's falsy result ends `step` only if an instruction remains |
| EarlyMachine.ExhaustedProgram | src/Seven.ts:124-133 | an exhausted program resumes its continuation exactly, or ends `step` unchanged |
| EarlyMachine.RunProgramRoundTrip | src/Seven.ts:188-199 | `runProgram([])` then stepping equals stepping the machine before |
| EarlyMachine.ExecAgrees | src/Seven.ts:136-171 | on literal operands and non-locking components, each earlier instruction does what the current one does |
| EarlyMachine.ExecKeepsLiteral | src/Seven.ts:159-165 | executing an instruction keeps every loaded and saved program literal |
| EarlyMachine.StepAgrees | src/Seven.ts:122-176 | on literal programs and non-locking components, the earlier `step()` equals the current `step(false)` |
| EarlyMachine.ExprOperandDiffers | src/Seven.ts:143 | a `SevenExpr` operand is stored by the earlier engine and throws in the current one |

## Left out

- `jsEval`, and the host-expression `eval` of the earlier engine: they run arbitrary host source. The earlier one is an oracle (`EarlyMachine.HostEval`). The current one is only reached unbound, which always throws.
- Reactive variables are modelled as values held in the machine's map. The source holds `SevenReactiveVariable` objects by reference, and the host fills the live map returned by `reactiveVariableMap`. One object stored under two names, or kept by the host, would see every SET_REACTIVE_VAR write; the model has no such sharing, and `MachineProps.SetReactiveStoresLiteral`'s "every other variable unchanged" holds only for unshared objects.
- Side effects of host expressions in the earlier engine: `_expose()` also hands out `runProgram`, and its two maps are the machine's live objects, so an `eval` operand could load a program or write variables before its instruction stores the result. `EarlyMachine.HostEval` is a side-effect-free oracle over the two maps.
- Property access on anything but an object with a string key: the value domain has no arrays, so `.` with a numeric key, or on a string, number or boolean, yields `Unmodelled`. Objects carry only their own properties.
- `#VAR`/`$VAR` with a numeric or host-reference name, or with an object that defines its own `toString`/`valueOf`: the key conversion yields `Unmodelled`.
- Host extern functions (`Evaluator.HostExterns`): in the source they receive the whole machine as `this` (lib/Seven.js:144). They could read the position, program and stacks, and load programs, write variables or register externs between the evaluation of sibling arguments. The model gives them only the variable maps and the extern table, as a side-effect-free oracle.
- Several loads in one component call: a component could call `loadProgram` or `loadSubProgram` any number of times. A `Reply` carries at most one load per component call, so `Machine.Exec` grows the continuation stack by at most one.
- `console.log` in `eval` and the trace: output only, with no effect on the state.
- Prelude `/`, `%`, `ABS`, `&`, `|` and `^`: they yield `Unmodelled`. They need floating-point division and 32-bit bitwise conversions. `ABS` also applies `Math.abs` to its raw, unevaluated argument.
- JavaScript coercions, NaN and floating point: arithmetic and ordering are modelled on integers only, and loose equality only when it does not coerce. Other cases yield `Unmodelled`. Integers are unbounded, so values beyond 2^53 do not lose precision as they would in JavaScript.
- COND_GOTO with a non-integer condition: it yields `Unmodelled`. JavaScript would index the program with it, usually finding no instruction.
- Inherited properties: a lookup of names such as `toString` in a dictionary would find prototype members. The model treats those names as missing.
- Registry enumeration order: `for ... in` visits integer-like keys first, in ascending order. The model keeps plain insertion order.
- Components that re-enter the machine during their call: they can register, step, unlock, set variables or throw. Only a component's load and lock are modelled. A component's own exceptions are not modelled.
- `Machine.Step`, `EarlyMachine.Step`, `Machine.Run`: they are bounded by `fuel`. A run that would not terminate shows up as `OutOfFuel`.
- `Machine.Run`: states only that it returns with a current instruction. That it never returns on an exhausted machine is a separate lemma (`MachineProps.RunSpinsWhenExhausted`).
- Subscriber notification: the code has none, so none is modelled.
- Accessors that only return a field (`currentProgram`, `currentPosition`, `staticVariableMap`, `reactiveVariableMap`, `locked`): they are record fields of `Machine`.
- `lib/Seven.d.ts` is not part of this model: it holds type declarations only.
- The `SevenExpr` constructor of the earlier engine: it copies arbitrary named fields onto the object. Its expressions are only stored there, never evaluated.

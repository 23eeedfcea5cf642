/** Properties of whole runs of the virtual machine, and how it uses the
    pairs the loader resolved. */
module BfInterpProofs {
  import opened Wrappers
  import opened BfTypes
  import opened BfTypesProofs
  import opened BfInterp

  /** What each of the six non-loop commands does when it does not fail:
      the whole machine after the step, with the program counter moved on by
      one and everything not named unchanged. `LoopStepFollowsPartner` does
      the same for the two loop commands. */
  lemma StepEffect(m: Machine)
    requires m.vm.Valid() && m.vm.programCnt < |m.vm.program.instructions|
    requires !Blocked(m)
    ensures var vm, h := m.vm, m.vm.head;
      vm.Current().raw == PointerIncrement ==>
        Step(m) == Success(m.(vm := vm.(
          cells := if h == |vm.cells| - 1 then vm.cells + [0] else vm.cells,
          head := h + 1, programCnt := vm.programCnt + 1)))
    ensures var vm, h := m.vm, m.vm.head;
      vm.Current().raw == PointerDecrement ==>
        Step(m) == Success(m.(vm := vm.(head := h - 1, programCnt := vm.programCnt + 1)))
    ensures var vm, h := m.vm, m.vm.head;
      vm.Current().raw == DataIncrement ==>
        Step(m) == Success(m.(vm := vm.(cells := vm.cells[h := Increment(vm.cells[h])],
          programCnt := vm.programCnt + 1)))
    ensures var vm, h := m.vm, m.vm.head;
      vm.Current().raw == DataDecrement ==>
        Step(m) == Success(m.(vm := vm.(cells := vm.cells[h := Decrement(vm.cells[h])],
          programCnt := vm.programCnt + 1)))
    ensures var vm, h := m.vm, m.vm.head;
      vm.Current().raw == DataOutput ==>
        Step(m) == Success(m.(vm := vm.(programCnt := vm.programCnt + 1),
          output := m.output + [vm.cells[h]], tail := vm.cells[h]))
    ensures var vm, h := m.vm, m.vm.head;
      vm.Current().raw == DataInput ==>
        Step(m) == Success(m.(vm := vm.(cells := vm.cells[h := m.input[m.read]],
          programCnt := vm.programCnt + 1), read := m.read + 1))
  {
  }

  /** One successful step uses one unit of fuel. */
  lemma RunUnfold(m: Machine, fuel: nat)
    requires m.vm.Valid() && m.vm.programCnt < |m.vm.program.instructions|
    requires Step(m).Success?
    ensures Run(m, fuel + 1) == Run(Step(m).value, fuel)
  {}

  /** A run whose first step succeeds ends as the run from the machine that
      step produced, with one unit of fuel less. */
  lemma RunThrough(m: Machine, next: Machine, before: nat, after: nat, e: Execution)
    requires m.vm.Valid() && m.vm.programCnt < |m.vm.program.instructions|
    requires Step(m) == Success(next) && before == after + 1
    requires Run(next, after) == e
    ensures Run(m, before) == e
  {
    RunUnfold(m, after);
  }

  /** A run that cannot take a first step ends the same way with any fuel
      that lets it start. */
  lemma RunStopsAtOnce(m: Machine, f: nat, g: nat)
    requires m.vm.Valid() && f <= g
    requires m.vm.programCnt >= |m.vm.program.instructions| || (Step(m).Failure? && f > 0)
    ensures Run(m, g) == Run(m, f)
  {}

  /** Without fuel, a run that has not finished is cut off. */
  lemma RunWithoutFuel(m: Machine)
    requires m.vm.Valid() && m.vm.programCnt < |m.vm.program.instructions|
    ensures Run(m, 0).status == OutOfFuel
  {}

  /** Once a run has stopped for a reason other than fuel, more fuel gives
      the same result: the fuel bound only cuts off runs, it never changes
      one. */
  lemma {:induction false} RunFuelMonotone(m: Machine, f: nat, g: nat)
    requires m.vm.Valid()
    requires f <= g
    requires !Run(m, f).status.OutOfFuel?
    ensures Run(m, g) == Run(m, f)
    decreases f, 1
  {
    if m.vm.programCnt < |m.vm.program.instructions| && Step(m).Success? {
      RunWithoutFuel(m);
      RunFuelMonotoneAfterStep(m, f, g);
    } else {
      RunStopsAtOnce(m, f, g);
    }
  }

  /** The inductive step of `RunFuelMonotone`: a successful first step
      leaves one unit less of each fuel for the rest of the run. */
  lemma {:induction false} RunFuelMonotoneAfterStep(m: Machine, f: nat, g: nat)
    requires m.vm.Valid() && m.vm.programCnt < |m.vm.program.instructions|
    requires Step(m).Success?
    requires 0 < f <= g
    requires !Run(m, f).status.OutOfFuel?
    ensures Run(m, g) == Run(m, f)
    decreases f, 0
  {
    var next := Step(m).value;
    var f1, g1 := f - 1, g - 1;
    RunThrough(m, next, f, f1, Run(next, f1));
    RunFuelMonotone(next, f1, g1);
    RunThrough(m, next, g, g1, Run(next, f1));
  }

  /** A run that aborts stops at the instruction whose step fails, and the
      error it reports is the one that step returns. */
  lemma {:induction false} RunAbortsAtFailingStep(m: Machine, fuel: nat)
    requires m.vm.Valid()
    ensures var e := Run(m, fuel);
      e.status.Aborted? ==> Step(e.machine) == Failure(e.status.error)
    decreases fuel
  {
    if m.vm.programCnt < |m.vm.program.instructions| && fuel > 0 && Step(m).Success? {
      var next := Step(m).value;
      var f1 := fuel - 1;
      RunThrough(m, next, fuel, f1, Run(next, f1));
      RunAbortsAtFailingStep(next, f1);
    }
  }

  /** Every loop instruction has a partner (what validation establishes). */
  ghost predicate AllResolved(p: Program) {
    forall i :: 0 <= i < |p.instructions| ==> !p.instructions[i].raw.Unresolved()
  }

  /** A validated program never fails with a bracket error at run time. */
  lemma ValidatedRunHasNoBracketError(m: Machine, fuel: nat)
    requires m.vm.Valid()
    requires MatchSquareBracket(m.vm.program).Success?
    ensures var e := Run(m, fuel); !(e.status.Aborted? && e.status.error.BracketPairErr?)
  {
    var e := Run(m, fuel);
    RunAbortsAtFailingStep(m, fuel);
    if e.status.Aborted? {
      assert e.machine.vm.program == m.vm.program;
      assert !e.machine.vm.Current().raw.Unresolved();
    }
  }

  /** The loop steps of a program whose pairs are resolved and symmetric:
      a '[' on a zero cell continues just after its partner ']', a ']' on a
      nonzero cell continues just after its partner '[', and otherwise
      execution falls through to the next instruction. */
  lemma LoopStepFollowsPartner(m: Machine)
    requires m.vm.Valid() && m.vm.programCnt < |m.vm.program.instructions|
    requires Symmetric(m.vm.program.instructions) && AllResolved(m.vm.program)
    requires m.vm.Current().raw.IsLoop()
    ensures var s := m.vm.program.instructions;
      var pc := m.vm.programCnt;
      var zero := m.vm.cells[m.vm.head] == 0;
      var r := Step(m);
      && (s[pc].raw.LoopStart? && zero ==>
            r.Success? && pc + 1 < r.value.vm.programCnt <= |s|
            && s[r.value.vm.programCnt - 1].raw == LoopTerminate(Some(pc)))
      && (s[pc].raw.LoopTerminate? && !zero ==>
            r.Success? && r.value.vm.programCnt <= pc
            && s[r.value.vm.programCnt - 1].raw == LoopStart(Some(pc)))
      && (s[pc].raw.LoopStart? != zero ==> r == Success(m.(vm := m.vm.(programCnt := pc + 1))))
  {
    var s := m.vm.program.instructions;
    var pc := m.vm.programCnt;
    assert !s[pc].raw.Unresolved();
    var j := s[pc].raw.partner.value;
    if s[pc].raw.LoopStart? {
      assert pc < j < |s| && s[j].raw == LoopTerminate(Some(pc));
    } else {
      assert j < pc && s[j].raw == LoopStart(Some(pc));
    }
  }

  /** On a loaded and validated program the loop instructions jump along the
      pairs the loader resolved. */
  lemma LoopJumpsFollowPairs(path: string, src: string, m: Machine)
    requires m.vm.program == NewProgram(path, src)
    requires MatchSquareBracket(m.vm.program).Success?
    requires m.vm.Valid() && m.vm.programCnt < |m.vm.program.instructions|
    requires m.vm.Current().raw.IsLoop()
    ensures var s := m.vm.program.instructions;
      var pc := m.vm.programCnt;
      var zero := m.vm.cells[m.vm.head] == 0;
      var r := Step(m);
      && (s[pc].raw.LoopStart? && zero ==>
            r.Success? && pc + 1 < r.value.vm.programCnt <= |s|
            && s[r.value.vm.programCnt - 1].raw == LoopTerminate(Some(pc)))
      && (s[pc].raw.LoopTerminate? && !zero ==>
            r.Success? && r.value.vm.programCnt <= pc
            && s[r.value.vm.programCnt - 1].raw == LoopStart(Some(pc)))
      && (s[pc].raw.LoopStart? != zero ==> r == Success(m.(vm := m.vm.(programCnt := pc + 1))))
  {
    NewProgramPairs(path, src);
    LoopStepFollowsPartner(m);
  }

  /** Reading a byte and then writing it copies the byte from input to output. */
  lemma ReadThenWrite(vm: VirtualMachine, input: seq<Byte>, pos: nat, output: seq<Byte>)
    requires vm.Valid() && vm.programCnt < |vm.program.instructions|
    requires pos < |input|
    ensures ReadValue(vm, input, pos).Success?
    ensures var (v, next) := ReadValue(vm, input, pos).value;
      next == pos + 1 && WriteValue(v, output) == output + [input[pos]]
  {
  }

  /** On normal completion the output always ends with a line feed, and the
      bytes before it are those the program wrote (the appended one only when
      the program did not end with a line feed itself, or wrote nothing). */
  lemma FinishedOutputEndsWithNewline(vm: VirtualMachine, input: seq<Byte>, fuel: nat)
    requires vm.Valid()
    ensures var r := Interpret(vm, input, fuel);
      var written := Run(Machine(vm, input, 0, [], 0), fuel).machine.output;
      r.status.Finished? ==>
        && |r.output| > 0 && r.output[|r.output| - 1] == NewLine
        && (r.output == written <==> (written != [] && written[|written| - 1] == NewLine))
  {
  }
}

/** The brainfuck virtual machine: a tape of 8-bit wrapping cells, a head,
    an extensibility flag and a program counter over a borrowed instruction
    sequence. Each instruction is one pure `Step`; `Interpret` drives the
    steps with a fuel bound, since a brainfuck program need not terminate.
    The byte channels are sequences: the whole input with a read position
    (like the `Cursor` the tests read from), and the output written so far. */
module BfInterp {
  import opened Wrappers
  import opened BfTypes

  type Byte = x: int | 0 <= x < 256

  /** Tape length used when the requested length is 0. */
  const DefaultCells: nat := 30000

  /** The line feed byte. */
  const NewLine: Byte := 10

  // ---------------------------------------------------------------------
  // The cell operations (`CellKind` for `u8`)
  // ---------------------------------------------------------------------

  /** `wrapping_add(1)`. */
  function Increment(c: Byte): (r: Byte)
    ensures r == if c == 255 then 0 else c + 1
  {
    (c + 1) % 256
  }

  /** `wrapping_sub(1)`, the inverse of `Increment`. */
  function Decrement(c: Byte): (r: Byte)
    ensures r == if c == 0 then 255 else c - 1
    ensures Increment(r) == c
  {
    (c - 1) % 256
  }

  // ---------------------------------------------------------------------
  // Machine state and errors
  // ---------------------------------------------------------------------

  datatype VirtualMachine = VirtualMachine(
    cells: seq<Byte>,
    head: nat,
    allowExtend: bool,
    program: Program,
    programCnt: nat)
  {
    /** The head is on the tape (so the tape is not empty). */
    predicate Valid() {
      head < |cells|
    }

    /** The instruction about to run. */
    function Current(): CharInfo
      requires programCnt < |program.instructions|
    {
      program.instructions[programCnt]
    }
  }

  /** Every error carries the instruction that caused it. An I/O error here
      is a read with no input left; writes to the output cannot fail. */
  datatype VmError =
    | HeadInvalidPositionErr(cmd: CharInfo)
    | IOErr(cmd: CharInfo)
    | BracketPairErr(cmd: CharInfo)
  {
    function Cmd(): CharInfo {
      match this
      case HeadInvalidPositionErr(c) => c
      case IOErr(c) => c
      case BracketPairErr(c) => c
    }
  }

  /** `BFVirtualMachine::new`: a zeroed tape of `len` cells (30000 when `len`
      is 0), head and program counter at 0. */
  function NewVm(len: nat, extendable: bool, p: Program): (vm: VirtualMachine)
    ensures |vm.cells| == (if len > 0 then len else DefaultCells)
    ensures forall i :: 0 <= i < |vm.cells| ==> vm.cells[i] == 0
    ensures vm.head == 0 && vm.programCnt == 0
    ensures vm.allowExtend == extendable && vm.program == p
    ensures vm.Valid()
  {
    var cellLen := if len > 0 then len else DefaultCells;
    VirtualMachine(seq(cellLen, _ => 0), 0, extendable, p, 0)
  }

  // ---------------------------------------------------------------------
  // The single operations
  // ---------------------------------------------------------------------

  /** `move_head_left`: fails at cell 0; the tape never changes. */
  function MoveHeadLeft(vm: VirtualMachine): (r: Result<VirtualMachine, VmError>)
    requires vm.Valid() && vm.programCnt < |vm.program.instructions|
    ensures r.Failure? <==> vm.head == 0
    ensures r.Failure? ==> r.error == HeadInvalidPositionErr(vm.Current())
    ensures r.Success? ==> r.value.Valid() && r.value.head + 1 == vm.head
    ensures r.Success? ==> r.value.(head := vm.head) == vm
  {
    if vm.head > 0 then Success(vm.(head := vm.head - 1))
    else Failure(HeadInvalidPositionErr(vm.Current()))
  }

  /** `move_head_right`: at the last cell it either appends one zero cell
      (extensible tape) or fails; the tape never shrinks. */
  function MoveHeadRight(vm: VirtualMachine): (r: Result<VirtualMachine, VmError>)
    requires vm.Valid() && vm.programCnt < |vm.program.instructions|
    ensures r.Failure? <==> vm.head == |vm.cells| - 1 && !vm.allowExtend
    ensures r.Failure? ==> r.error == HeadInvalidPositionErr(vm.Current())
    ensures r.Success? ==> r.value.Valid() && r.value.head == vm.head + 1
    ensures r.Success? ==>
      r.value.cells == (if vm.head == |vm.cells| - 1 then vm.cells + [0] else vm.cells)
    ensures r.Success? ==> r.value.(cells := vm.cells, head := vm.head) == vm
  {
    if vm.head >= |vm.cells| - 1 then
      if vm.allowExtend then Success(vm.(cells := vm.cells + [0], head := vm.head + 1))
      else Failure(HeadInvalidPositionErr(vm.Current()))
    else Success(vm.(head := vm.head + 1))
  }

  /** `add_head_by_one`: only the head cell changes, to its wrapped successor. */
  function AddHeadByOne(vm: VirtualMachine): (r: VirtualMachine)
    requires vm.Valid()
    ensures r.Valid() && |r.cells| == |vm.cells|
    ensures r.cells[vm.head] == Increment(vm.cells[vm.head])
    ensures forall i :: 0 <= i < |vm.cells| && i != vm.head ==> r.cells[i] == vm.cells[i]
    ensures r.(cells := vm.cells) == vm
  {
    vm.(cells := vm.cells[vm.head := Increment(vm.cells[vm.head])])
  }

  /** `minus_head_by_one`: only the head cell changes, to its wrapped predecessor. */
  function MinusHeadByOne(vm: VirtualMachine): (r: VirtualMachine)
    requires vm.Valid()
    ensures r.Valid() && |r.cells| == |vm.cells|
    ensures r.cells[vm.head] == Decrement(vm.cells[vm.head])
    ensures forall i :: 0 <= i < |vm.cells| && i != vm.head ==> r.cells[i] == vm.cells[i]
    ensures r.(cells := vm.cells) == vm
  {
    vm.(cells := vm.cells[vm.head := Decrement(vm.cells[vm.head])])
  }

  /** `read_value`: consume exactly one input byte, the one at position
      `pos`, into the head cell; with no input left it fails and nothing
      changes. */
  function ReadValue(vm: VirtualMachine, input: seq<Byte>, pos: nat): (r: Result<(VirtualMachine, nat), VmError>)
    requires vm.Valid() && vm.programCnt < |vm.program.instructions|
    ensures r.Failure? <==> pos >= |input|
    ensures r.Failure? ==> r.error == IOErr(vm.Current())
    ensures r.Success? ==> r.value.1 == pos + 1
    ensures r.Success? ==> r.value.0.Valid() && |r.value.0.cells| == |vm.cells|
    ensures r.Success? ==> r.value.0.cells[vm.head] == input[pos]
    ensures r.Success? ==>
      forall i :: 0 <= i < |vm.cells| && i != vm.head ==> r.value.0.cells[i] == vm.cells[i]
    ensures r.Success? ==> r.value.0.(cells := vm.cells) == vm
  {
    if pos >= |input| then Failure(IOErr(vm.Current()))
    else Success((vm.(cells := vm.cells[vm.head := input[pos]]), pos + 1))
  }

  /** `write_value`: append the head cell's byte to the output. */
  function WriteValue(vm: VirtualMachine, output: seq<Byte>): (r: seq<Byte>)
    requires vm.Valid()
    ensures |r| == |output| + 1 && r[..|output|] == output
    ensures r[|output|] == vm.cells[vm.head]
  {
    output + [vm.cells[vm.head]]
  }

  /** `start_loop`: jump to the partner exactly when the head cell is 0; a
      missing partner is an error only when the jump is taken. */
  function StartLoop(vm: VirtualMachine, idx: Option<nat>): (r: Result<VirtualMachine, VmError>)
    requires vm.Valid() && vm.programCnt < |vm.program.instructions|
    ensures vm.cells[vm.head] != 0 ==> r == Success(vm)
    ensures vm.cells[vm.head] == 0 ==> (r.Success? <==> idx.Some?)
    ensures vm.cells[vm.head] == 0 && idx.Some? ==> r == Success(vm.(programCnt := idx.value))
    ensures r.Failure? ==> r.error == BracketPairErr(vm.Current())
  {
    if vm.cells[vm.head] == 0 then
      match idx
      case Some(target) => Success(vm.(programCnt := target))
      case None => Failure(BracketPairErr(vm.Current()))
    else Success(vm)
  }

  /** `stop_loop`: jump back to the partner exactly when the head cell is
      not 0; a missing partner is an error only when the jump is taken. */
  function StopLoop(vm: VirtualMachine, idx: Option<nat>): (r: Result<VirtualMachine, VmError>)
    requires vm.Valid() && vm.programCnt < |vm.program.instructions|
    ensures vm.cells[vm.head] == 0 ==> r == Success(vm)
    ensures vm.cells[vm.head] != 0 ==> (r.Success? <==> idx.Some?)
    ensures vm.cells[vm.head] != 0 && idx.Some? ==> r == Success(vm.(programCnt := idx.value))
    ensures r.Failure? ==> r.error == BracketPairErr(vm.Current())
  {
    if vm.cells[vm.head] > 0 then
      match idx
      case Some(target) => Success(vm.(programCnt := target))
      case None => Failure(BracketPairErr(vm.Current()))
    else Success(vm)
  }

  // ---------------------------------------------------------------------
  // The dispatch loop of `interpret`
  // ---------------------------------------------------------------------

  /** The machine together with its channels (the input and how much of it
      has been read, the output so far) and `interpret`'s local `tail` (the
      byte most recently written, 0 before any write). */
  datatype Machine = Machine(vm: VirtualMachine, input: seq<Byte>, read: nat, output: seq<Byte>, tail: Byte)

  /** The byte most recently written, 0 before any write. */
  function LastWritten(output: seq<Byte>): Byte {
    if output == [] then 0 else output[|output| - 1]
  }

  /** What any number of steps keeps: the program and the flag, the head on
      the tape, a tape that only grows (and only when extensible), output
      that is only appended to, input that is only consumed from the front,
      and `tail` tracking the byte most recently written. */
  ghost predicate Follows(m: Machine, m': Machine) {
    && m'.vm.Valid()
    && m'.vm.program == m.vm.program && m'.vm.allowExtend == m.vm.allowExtend
    && |m'.vm.cells| >= |m.vm.cells|
    && (!m.vm.allowExtend ==> |m'.vm.cells| == |m.vm.cells|)
    && m.output <= m'.output
    && m'.input == m.input && m.read <= m'.read
    && (m.tail == LastWritten(m.output) ==> m'.tail == LastWritten(m'.output))
  }

  lemma FollowsTransitive(m1: Machine, m2: Machine, m3: Machine)
    requires Follows(m1, m2) && Follows(m2, m3)
    ensures Follows(m1, m3)
  {
  }

  /** The five ways the current instruction can fail: `<` on cell 0, `>` on
      the last cell of a tape that may not grow, `,` with no input left, and
      a loop jump that has to be taken but has no partner. */
  predicate Blocked(m: Machine)
    requires m.vm.Valid() && m.vm.programCnt < |m.vm.program.instructions|
  {
    var vm := m.vm;
    var instr := vm.Current().raw;
    || (instr == PointerDecrement && vm.head == 0)
    || (instr == PointerIncrement && vm.head == |vm.cells| - 1 && !vm.allowExtend)
    || (instr == DataInput && m.read >= |m.input|)
    || (instr == LoopStart(None) && vm.cells[vm.head] == 0)
    || (instr == LoopTerminate(None) && vm.cells[vm.head] != 0)
  }

  /** One iteration of the loop: run the current instruction, then add 1 to
      the program counter. A failing instruction leaves everything as it was. */
  function Step(m: Machine): (r: Result<Machine, VmError>)
    requires m.vm.Valid() && m.vm.programCnt < |m.vm.program.instructions|
    ensures r.Failure? <==> Blocked(m)
    ensures r.Failure? ==> r.error.Cmd() == m.vm.Current()
    ensures r.Success? && !m.vm.Current().raw.IsLoop() ==>
      r.value.vm.programCnt == m.vm.programCnt + 1
    ensures r.Success? ==> Follows(m, r.value)
    ensures r.Success? ==>
      || (r.value.output == m.output && r.value.tail == m.tail)
      || (r.value.output == m.output + [r.value.tail])
    ensures r.Success? ==> r.value.read == m.read || r.value.read == m.read + 1
  {
    var vm := m.vm;
    match vm.Current().raw
    case PointerIncrement =>
      var v :- MoveHeadRight(vm);
      Success(m.(vm := v.(programCnt := v.programCnt + 1)))
    case PointerDecrement =>
      var v :- MoveHeadLeft(vm);
      Success(m.(vm := v.(programCnt := v.programCnt + 1)))
    case DataIncrement =>
      var v := AddHeadByOne(vm);
      Success(m.(vm := v.(programCnt := v.programCnt + 1)))
    case DataDecrement =>
      var v := MinusHeadByOne(vm);
      Success(m.(vm := v.(programCnt := v.programCnt + 1)))
    case DataOutput =>
      var tail := vm.cells[vm.head];
      var out := WriteValue(vm, m.output);
      Success(m.(vm := vm.(programCnt := vm.programCnt + 1), output := out, tail := tail))
    case DataInput =>
      var got :- ReadValue(vm, m.input, m.read);
      var (v, pos) := got;
      Success(m.(vm := v.(programCnt := v.programCnt + 1), read := pos))
    case LoopStart(idx) =>
      var v :- StartLoop(vm, idx);
      Success(m.(vm := v.(programCnt := v.programCnt + 1)))
    case LoopTerminate(idx) =>
      var v :- StopLoop(vm, idx);
      Success(m.(vm := v.(programCnt := v.programCnt + 1)))
  }

  /** How a run of the loop ended. */
  datatype Status =
    | Finished                  // the program counter left the program
    | Aborted(error: VmError)   // an instruction failed; `?` returned it
    | OutOfFuel                 // the fuel bound was reached first

  datatype Execution = Execution(status: Status, machine: Machine)

  /** `while program_cnt < len { step }`, for at most `fuel` iterations. On
      an error the machine is the one the failing instruction saw. */
  function Run(m: Machine, fuel: nat): (e: Execution)
    requires m.vm.Valid()
    ensures e.machine.vm.Valid() && e.machine.vm.program == m.vm.program
    ensures e.status.Finished? <==> e.machine.vm.programCnt >= |e.machine.vm.program.instructions|
    ensures e.status.Aborted? ==>
      e.machine.vm.programCnt < |e.machine.vm.program.instructions|
      && e.status.error.Cmd() == e.machine.vm.Current()
    decreases fuel
  {
    if m.vm.programCnt >= |m.vm.program.instructions| then Execution(Finished, m)
    else if fuel == 0 then Execution(OutOfFuel, m)
    else
      match Step(m)
      case Failure(err) => Execution(Aborted(err), m)
      case Success(next) =>
        Run(next, fuel - 1)
  }

  /** A run keeps everything `Follows` promises. */
  lemma {:induction false} RunFollows(m: Machine, fuel: nat)
    requires m.vm.Valid()
    ensures Follows(m, Run(m, fuel).machine)
    decreases fuel
  {
    if m.vm.programCnt < |m.vm.program.instructions| && fuel > 0 && Step(m).Success? {
      var next := Step(m).value;
      RunFollows(next, fuel - 1);
      FollowsTransitive(m, next, Run(next, fuel - 1).machine);
    }
  }

  /** `BFPrintNewLine::print_newline`: a line feed unless the last byte
      written was one. */
  function PrintNewline(tail: Byte, output: seq<Byte>): (r: seq<Byte>)
    ensures tail != NewLine ==> r == output + [NewLine]
    ensures tail == NewLine ==> r == output
  {
    if tail != NewLine then output + [NewLine] else output
  }

  /** The observable outcome of `interpret`. */
  datatype Interpretation = Interpretation(status: Status, vm: VirtualMachine, read: nat, output: seq<Byte>)

  /** `interpret`: run from the machine's current state with `tail` 0; on
      normal completion (only then) finish with `print_newline`. */
  function Interpret(vm: VirtualMachine, input: seq<Byte>, fuel: nat): (r: Interpretation)
    requires vm.Valid()
    ensures var written := Run(Machine(vm, input, 0, [], 0), fuel).machine.output;
      && r.status == Run(Machine(vm, input, 0, [], 0), fuel).status
      && (r.status.Finished? ==>
            r.output == written + (if LastWritten(written) != NewLine then [NewLine] else []))
      && (!r.status.Finished? ==> r.output == written)
    ensures r.vm.Valid() && r.vm.program == vm.program
  {
    RunFollows(Machine(vm, input, 0, [], 0), fuel);
    var e := Run(Machine(vm, input, 0, [], 0), fuel);
    var out := if e.status.Finished? then PrintNewline(e.machine.tail, e.machine.output) else e.machine.output;
    Interpretation(e.status, e.machine.vm, e.machine.read, out)
  }
}

/** The repository's unit and integration tests, restated as lemmas about
    the model: concrete texts loaded, validated and run. Literal texts are
    scanned in pieces of a few characters, each piece with its own lemma. */
module BfExamples {
  import opened Wrappers
  import opened BfTypes
  import opened BfTypesProofs
  import opened BfInterp
  import opened BfInterpProofs

  // ---------------------------------------------------------------------
  // Loading
  // ---------------------------------------------------------------------

  /** Scanning a line in two pieces is scanning it whole, the second piece
      starting where the first one's columns end. */
  lemma {:induction false} ScanLineAppend(st: Scanner, a: string, b: string, line: nat, col: nat)
    requires st.Wf()
    ensures ScanLine(st, a + b, line, col) == ScanLine(ScanLine(st, a, line, col), b, line, col + |a|)
    decreases |a|
  {
    if a == [] {
      assert a + b == b;
    } else {
      assert (a + b)[0] == a[0];
      assert (a + b)[1..] == a[1..] + b;
      ScanLineAppend(ScanChar(st, a[0], line, col), a[1..], b, line, col + 1);
    }
  }

  /** Two consecutive pieces of one line scan like their concatenation. */
  lemma ScanThen(st: Scanner, mid: Scanner, end: Scanner, a: string, b: string, line: nat, col: nat)
    requires st.Wf() && mid.Wf()
    requires ScanLine(st, a, line, col) == mid && ScanLine(mid, b, line, col + |a|) == end
    ensures ScanLine(st, a + b, line, col) == end
  {
    ScanLineAppend(st, a, b, line, col);
  }

  /** A text without line feeds is one line, scanned from column 1. */
  lemma SingleLine(path: string, s: string)
    requires s != [] && '\n' !in s
    ensures NewProgram(path, s).instructions == ScanLine(Scanner([], []), s, 1, 1).instrs
  {
    assert NewlineIndex(s) == |s|;
    assert Lines(s) == [s];
    assert [s][1..] == [];
    var st := Scanner([], []);
    assert ScanLines(st, [s], 1) == ScanLines(ScanLine(st, s, 1, 1), [], 2);
  }

  // The four pieces of "test001++  hello --".

  lemma ChunkA()
    ensures ScanLine(Scanner([], []), "test0", 1, 1) == Scanner([], [])
  {}

  lemma ChunkB()
    ensures ScanLine(Scanner([], []), "01++ ", 1, 6)
         == Scanner([CharInfo(DataIncrement, 1, 8), CharInfo(DataIncrement, 1, 9)], [])
  {}

  lemma ChunkC(st: Scanner)
    requires st.Wf()
    ensures ScanLine(st, " hell", 1, 11) == st
  {}

  lemma ChunkD()
    ensures ScanLine(Scanner([CharInfo(DataIncrement, 1, 8), CharInfo(DataIncrement, 1, 9)], []), "o --", 1, 16)
         == Scanner([CharInfo(DataIncrement, 1, 8), CharInfo(DataIncrement, 1, 9),
                     CharInfo(DataDecrement, 1, 18), CharInfo(DataDecrement, 1, 19)], [])
  {}

  /** The four pieces scanned in a row. */
  lemma LineColumnScan()
    ensures ScanLine(Scanner([], []), "test0" + ("01++ " + (" hell" + "o --")), 1, 1)
         == Scanner([CharInfo(DataIncrement, 1, 8), CharInfo(DataIncrement, 1, 9),
                     CharInfo(DataDecrement, 1, 18), CharInfo(DataDecrement, 1, 19)], [])
  {
    var s0 := Scanner([], []);
    var s1 := Scanner([CharInfo(DataIncrement, 1, 8), CharInfo(DataIncrement, 1, 9)], []);
    var s2 := Scanner([CharInfo(DataIncrement, 1, 8), CharInfo(DataIncrement, 1, 9),
                       CharInfo(DataDecrement, 1, 18), CharInfo(DataDecrement, 1, 19)], []);
    ChunkA();
    ChunkB();
    ChunkC(s1);
    ChunkD();
    ScanThen(s1, s1, s2, " hell", "o --", 1, 11);
    ScanThen(s0, s1, s2, "01++ ", " hell" + "o --", 1, 6);
    ScanThen(s0, s0, s2, "test0", "01++ " + (" hell" + "o --"), 1, 1);
  }

  /** `test_line_col_bf_char`: only the four commands are kept, each with
      its line and column; the comment characters take up columns. */
  lemma TestLineColumn()
    ensures NewProgram("", "test001++  hello --").instructions == [
      CharInfo(DataIncrement, 1, 8), CharInfo(DataIncrement, 1, 9),
      CharInfo(DataDecrement, 1, 18), CharInfo(DataDecrement, 1, 19)]
  {
    assert "test001++  hello --" == "test0" + ("01++ " + (" hell" + "o --"));
    SingleLine("", "test0" + ("01++ " + (" hell" + "o --")));
    LineColumnScan();
  }

  /** ...and the text validates, having no loops. */
  lemma TestLineColumnValidates()
    ensures MatchSquareBracket(NewProgram("", "test001++  hello --")).Success?
  {
    TestLineColumn();
  }

  /** The bracket depth of a concatenation adds up. */
  lemma {:induction false} DepthAppend(a: string, b: string)
    ensures Depth(a + b) == Depth(a) + Depth(b)
    decreases |b|
  {
    if b == [] {
      assert a + b == a;
    } else {
      var b' := b[..|b| - 1];
      assert (a + b)[..|a + b| - 1] == a + b';
      assert (a + b)[|a + b| - 1] == b[|b| - 1];
      DepthAppend(a, b');
    }
  }

  /** A text without brackets has depth 0. */
  lemma {:induction false} DepthWithoutBrackets(s: string)
    requires '[' !in s && ']' !in s
    ensures Depth(s) == 0
    decreases |s|
  {
    if s != [] {
      assert s[|s| - 1] in s;
      DepthWithoutBrackets(s[..|s| - 1]);
    }
  }

  /** Two '[' and one ']' between bracket-free pieces leave depth 1. */
  lemma OneLeftOpen(p: string, q: string)
    requires '[' !in p && ']' !in p && '[' !in q && ']' !in q
    ensures Depth(p + "[" + q + "[]") == 1
  {
    DepthWithoutBrackets(p);
    DepthWithoutBrackets(q);
    DepthAppend(p, "[");
    DepthAppend(p + "[", q);
    DepthAppend(p + "[" + q, "[]");
  }

  /** `test_match_square_bracket`: the text opens two loops and closes one,
      so validation rejects it. */
  lemma TestRejectsUnclosed()
    ensures MatchSquareBracket(NewProgram("", "test001++  hello --[>,<+>--,[]")).Failure?
  {
    var p, q := "test001++  hello --", ">,<+>--,";
    assert "test001++  hello --[>,<+>--,[]" == p + "[" + q + "[]";
    OneLeftOpen(p, q);
    ValidateIffBalanced("", p + "[" + q + "[]");
  }

  /** The instructions of "hello++--,><>". */
  const HelloInstrs: seq<CharInfo> := [
    CharInfo(DataIncrement, 1, 6), CharInfo(DataIncrement, 1, 7),
    CharInfo(DataDecrement, 1, 8), CharInfo(DataDecrement, 1, 9),
    CharInfo(DataInput, 1, 10), CharInfo(PointerIncrement, 1, 11),
    CharInfo(PointerDecrement, 1, 12), CharInfo(PointerIncrement, 1, 13)]

  // The three pieces of "hello++--,><>".

  lemma HelloChunkA()
    ensures ScanLine(Scanner([], []), "hello", 1, 1) == Scanner([], [])
  {}

  lemma HelloChunkB()
    ensures ScanLine(Scanner([], []), "++--,", 1, 6) == Scanner(HelloInstrs[..5], [])
  {}

  lemma HelloChunkC()
    ensures ScanLine(Scanner(HelloInstrs[..5], []), "><>", 1, 11) == Scanner(HelloInstrs, [])
  {
    assert HelloInstrs == HelloInstrs[..5] + [HelloInstrs[5], HelloInstrs[6], HelloInstrs[7]];
  }

  lemma HelloLoads()
    ensures NewProgram("", "hello++--,><>").instructions == HelloInstrs
  {
    var a, b, c := "hello", "++--,", "><>";
    assert "hello++--,><>" == a + (b + c);
    SingleLine("", a + (b + c));
    ScanLineAppend(Scanner([], []), a, b + c, 1, 1);
    HelloChunkA();
    ScanLineAppend(Scanner([], []), b, c, 1, 6);
    HelloChunkB();
    HelloChunkC();
  }

  // ---------------------------------------------------------------------
  // Running
  // ---------------------------------------------------------------------

  /** The instructions of ",[-.]": the pair (1, 4) is resolved. */
  const CountdownInstrs: seq<CharInfo> := [
    CharInfo(DataInput, 1, 1), CharInfo(LoopStart(Some(4)), 1, 2),
    CharInfo(DataDecrement, 1, 3), CharInfo(DataOutput, 1, 4),
    CharInfo(LoopTerminate(Some(1)), 1, 5)]

  lemma CountdownLoads()
    ensures NewProgram("", ",[-.]").instructions == CountdownInstrs
  {
    SingleLine("", ",[-.]");
  }

  /** v-1, v-2, ..., 0. */
  function Countdown(v: Byte): (r: seq<Byte>)
    ensures |r| == v
    ensures forall i :: 0 <= i < v ==> r[i] == v - 1 - i
  {
    if v == 0 then [] else [v - 1] + Countdown(v - 1)
  }

  /** The final machine of the countdown loop entered at `m`. */
  function CountdownEnd(m: Machine, v: Byte): Machine
    requires m.vm.Valid()
  {
    m.(vm := m.vm.(cells := m.vm.cells[m.vm.head := 0], programCnt := 5),
       output := m.output + Countdown(v), tail := 0)
  }

  /** The machine after one pass of "-.]" from the loop body's start. */
  function AfterRound(m: Machine, v: Byte): Machine
    requires m.vm.Valid() && v > 0
  {
    m.(vm := m.vm.(cells := m.vm.cells[m.vm.head := v - 1], programCnt := if v == 1 then 5 else 2),
       output := m.output + [v - 1], tail := v - 1)
  }

  /** One round "-.]" of the loop body, entered with v > 0 in the head cell:
      write v-1, and leave the loop when that is 0. */
  lemma CountdownRound(m: Machine, v: Byte, fuel: nat, total: nat)
    requires m.vm.program.instructions == CountdownInstrs
    requires m.vm.Valid() && m.vm.programCnt == 2
    requires v == m.vm.cells[m.vm.head] && v > 0
    requires total == fuel + 3
    ensures Run(m, total) == Run(AfterRound(m, v), fuel)
  {
    var h := m.vm.head;
    var m1 := m.(vm := m.vm.(cells := m.vm.cells[h := v - 1], programCnt := 3));
    assert Step(m) == Success(m1);
    var m2 := m1.(vm := m1.vm.(programCnt := 4), output := m.output + [v - 1], tail := v - 1);
    assert Step(m1) == Success(m2);
    var m3 := AfterRound(m, v);
    assert Step(m2) == Success(m3);
    var f2 := total - 1;
    var f1 := f2 - 1;
    RunThrough(m2, m3, f1, fuel, Run(m3, fuel));
    RunThrough(m1, m2, f2, f1, Run(m3, fuel));
    RunThrough(m, m1, total, f2, Run(m3, fuel));
  }

  lemma CountdownLast(m: Machine, k: nat)
    requires m.vm.program.instructions == CountdownInstrs
    requires m.vm.Valid()
    ensures Run(AfterRound(m, 1), k) == Execution(Finished, CountdownEnd(m, 1))
  {
    assert Countdown(1) == [0];
  }

  lemma CountdownEndShift(m: Machine, v: Byte)
    requires m.vm.Valid() && v > 1
    ensures CountdownEnd(AfterRound(m, v), v - 1) == CountdownEnd(m, v)
  {
    assert m.output + Countdown(v) == m.output + [v - 1] + Countdown(v - 1);
  }

  /** The loop body entered with v > 0 runs v rounds, 3v steps, and writes
      v-1, ..., 0; `total` is the fuel, 3v + k. */
  lemma {:induction false} CountdownLoop(m: Machine, v: Byte, k: nat, total: nat)
    requires m.vm.program.instructions == CountdownInstrs
    requires m.vm.Valid() && m.vm.programCnt == 2
    requires v == m.vm.cells[m.vm.head] && v > 0
    requires total == 3 * v + k
    ensures Run(m, total) == Execution(Finished, CountdownEnd(m, v))
    decreases v
  {
    var rest := total - 3;
    CountdownRound(m, v, rest, total);
    if v == 1 {
      CountdownLast(m, rest);
    } else {
      CountdownLoop(AfterRound(m, v), v - 1, k, rest);
      CountdownEndShift(m, v);
    }
  }

  /** The run of ",[-.]" on a fresh machine with input byte v: 3v + 2
      steps, then the program counter has left the program. */
  lemma CountdownRun(v: Byte, vm: VirtualMachine, k: nat, total: nat)
    requires vm.program.instructions == CountdownInstrs
    requires vm.Valid() && vm.head == 0 && vm.programCnt == 0
    requires total == 3 * v + 2 + k
    ensures var e := Run(Machine(vm, [v], 0, [], 0), total);
      e.status == Finished && e.machine.output == Countdown(v) && e.machine.read == 1
  {
    var m0 := Machine(vm, [v], 0, [], 0);
    var m1 := m0.(vm := vm.(cells := vm.cells[0 := v], programCnt := 1), read := 1);
    assert Step(m0) == Success(m1);
    var f1 := total - 1;
    var f2 := f1 - 1;
    if v == 0 {
      var m2 := m1.(vm := m1.vm.(programCnt := 5));
      assert Step(m1) == Success(m2);
      RunThrough(m1, m2, f1, f2, Execution(Finished, m2));
      RunThrough(m0, m1, total, f1, Execution(Finished, m2));
    } else {
      var m2 := m1.(vm := m1.vm.(programCnt := 2));
      assert Step(m1) == Success(m2);
      CountdownLoop(m2, v, k, f2);
      var e := Execution(Finished, CountdownEnd(m2, v));
      RunThrough(m1, m2, f1, f2, e);
      RunThrough(m0, m1, total, f1, e);
    }
  }

  /** `test_loop`, for every input byte v, every tape length and any fuel
      from 3v + 2 on: ",[-.]" writes v-1, ..., 0 and then the closing line
      feed (for input 6: 5, 4, 3, 2, 1, 0, 10). */
  lemma CountdownProgram(v: Byte, len: nat, fuel: nat)
    requires fuel >= 3 * v + 2
    ensures var p := NewProgram("", ",[-.]");
      var r := Interpret(NewVm(len, false, p), [v], fuel);
      r.status == Finished && r.output == Countdown(v) + [NewLine] && r.read == 1
  {
    CountdownLoads();
    CountdownInterpret(v, NewVm(len, false, NewProgram("", ",[-.]")), fuel - (3 * v + 2), fuel);
  }

  /** `interpret` on a fresh machine holding the instructions of ",[-.]". */
  lemma CountdownInterpret(v: Byte, vm: VirtualMachine, k: nat, fuel: nat)
    requires vm.program.instructions == CountdownInstrs
    requires vm.Valid() && vm.head == 0 && vm.programCnt == 0
    requires fuel == 3 * v + 2 + k
    ensures var r := Interpret(vm, [v], fuel);
      r.status == Finished && r.output == Countdown(v) + [NewLine] && r.read == 1
  {
    CountdownRun(v, vm, k, fuel);
    assert LastWritten(Countdown(v)) == 0;
  }

  /** With no input the same program stops at its ',' with an I/O error,
      writing nothing, not even the line feed. */
  lemma CountdownNoInput(len: nat, fuel: nat)
    requires fuel > 0
    ensures var p := NewProgram("", ",[-.]");
      var r := Interpret(NewVm(len, false, p), [], fuel);
      r.status == Aborted(IOErr(CharInfo(DataInput, 1, 1))) && r.output == []
  {
    CountdownLoads();
  }

  /** `test_move_head` and `test_move_head_extend`, for any program with an
      instruction to blame (such as "hello++--,><>", by `HelloLoads`): on a
      two-cell tape the head cannot move left from cell 0; moving right
      works once, and a second time only on an extensible tape. */
  lemma TestMoveHead(p: Program, extendable: bool)
    requires |p.instructions| > 0
    ensures var vm := NewVm(2, extendable, p);
      && MoveHeadLeft(vm).Failure?
      && MoveHeadRight(vm).Success?
      && (MoveHeadRight(MoveHeadRight(vm).value).Success? <==> extendable)
  {
    var vm := NewVm(2, extendable, p);
    var r := MoveHeadRight(vm).value;
    assert r.head == 1 && |r.cells| == 2;
  }

  /** `test_rw_cells` and `test_inc_dec_data`, for one byte: what is read
      comes back out unchanged, one more, or one less. */
  lemma TestReadModifyWrite(vm: VirtualMachine, input: seq<Byte>, pos: nat, output: seq<Byte>)
    requires vm.Valid() && vm.programCnt < |vm.program.instructions| && pos < |input|
    ensures var v := ReadValue(vm, input, pos).value.0;
      && WriteValue(v, output) == output + [input[pos]]
      && WriteValue(AddHeadByOne(v), output) == output + [Increment(input[pos])]
      && WriteValue(MinusHeadByOne(v), output) == output + [Decrement(input[pos])]
  {}
}

/** The integration test `test_input_output`
    (rust_bft/bft/tests/integration_test.rs): ",>,>,>,>,>,.<.<.<.<.<." reads
    six bytes into six cells and writes them back to front. The program is
    loaded in chunks of five characters, and its run is built from
    straight-line pieces whose step counts add up. */
module BfReverseExample {
  import opened Wrappers
  import opened BfTypes
  import opened BfInterp
  import opened BfInterpProofs
  import opened BfExamples

  /** The command at index `i` of ",>,>,>,>,>,.<.<.<.<.<.": ",>" pairs up
      to index 10, ".<" pairs from index 11 on. */
  function ReverseCmd(i: nat): CmdName {
    if i < 11 then (if i % 2 == 0 then DataInput else PointerIncrement)
    else (if i % 2 == 1 then DataOutput else PointerDecrement)
  }

  /** The instructions of ",>,>,>,>,>,.<.<.<.<.<.", all on line 1. */
  const ReverseInstrs: seq<CharInfo> := seq(22, i requires 0 <= i => CharInfo(ReverseCmd(i), 1, i + 1))

  // Loading

  /** The loader on each five-character chunk of the text, continuing from
      the instructions of the chunks before it. */
  lemma ReverseChunk0()
    ensures ScanLine(Scanner(ReverseInstrs[..0], []), ",>,>,", 1, 1) == Scanner(ReverseInstrs[..5], [])
  {
    assert ReverseInstrs[..5] == ReverseInstrs[..0] + [CharInfo(DataInput, 1, 1), CharInfo(PointerIncrement, 1, 2), CharInfo(DataInput, 1, 3), CharInfo(PointerIncrement, 1, 4), CharInfo(DataInput, 1, 5)];
  }

  lemma ReverseChunk1()
    ensures ScanLine(Scanner(ReverseInstrs[..5], []), ">,>,>", 1, 6) == Scanner(ReverseInstrs[..10], [])
  {
    assert ReverseInstrs[..10] == ReverseInstrs[..5] + [CharInfo(PointerIncrement, 1, 6), CharInfo(DataInput, 1, 7), CharInfo(PointerIncrement, 1, 8), CharInfo(DataInput, 1, 9), CharInfo(PointerIncrement, 1, 10)];
  }

  lemma ReverseChunk2()
    ensures ScanLine(Scanner(ReverseInstrs[..10], []), ",.<.<", 1, 11) == Scanner(ReverseInstrs[..15], [])
  {
    assert ReverseInstrs[..15] == ReverseInstrs[..10] + [CharInfo(DataInput, 1, 11), CharInfo(DataOutput, 1, 12), CharInfo(PointerDecrement, 1, 13), CharInfo(DataOutput, 1, 14), CharInfo(PointerDecrement, 1, 15)];
  }

  lemma ReverseChunk3()
    ensures ScanLine(Scanner(ReverseInstrs[..15], []), ".<.<.", 1, 16) == Scanner(ReverseInstrs[..20], [])
  {
    assert ReverseInstrs[..20] == ReverseInstrs[..15] + [CharInfo(DataOutput, 1, 16), CharInfo(PointerDecrement, 1, 17), CharInfo(DataOutput, 1, 18), CharInfo(PointerDecrement, 1, 19), CharInfo(DataOutput, 1, 20)];
  }

  lemma ReverseChunk4()
    ensures ScanLine(Scanner(ReverseInstrs[..20], []), "<.", 1, 21) == Scanner(ReverseInstrs[..22], [])
  {
    assert ReverseInstrs[..22] == ReverseInstrs[..20] + [CharInfo(PointerDecrement, 1, 21), CharInfo(DataOutput, 1, 22)];
  }

  /** The loader on the text from chunk 3 (and, below, from chunks 2, 1
      and 0) to the end. */
  lemma ReverseFrom3()
    ensures ScanLine(Scanner(ReverseInstrs[..15], []), ".<.<." + ("<."), 1, 16) == Scanner(ReverseInstrs, [])
  {
    ReverseChunk3();
    ReverseChunk4();
    assert ReverseInstrs[..22] == ReverseInstrs;
    ScanThen(Scanner(ReverseInstrs[..15], []), Scanner(ReverseInstrs[..20], []), Scanner(ReverseInstrs, []),
      ".<.<.", "<.", 1, 16);
  }

  lemma ReverseFrom2()
    ensures ScanLine(Scanner(ReverseInstrs[..10], []), ",.<.<" + (".<.<." + ("<.")), 1, 11) == Scanner(ReverseInstrs, [])
  {
    ReverseChunk2();
    ReverseFrom3();
    ScanThen(Scanner(ReverseInstrs[..10], []), Scanner(ReverseInstrs[..15], []), Scanner(ReverseInstrs, []),
      ",.<.<", ".<.<." + ("<."), 1, 11);
  }

  lemma ReverseFrom1()
    ensures ScanLine(Scanner(ReverseInstrs[..5], []), ">,>,>" + (",.<.<" + (".<.<." + ("<."))), 1, 6) == Scanner(ReverseInstrs, [])
  {
    ReverseChunk1();
    ReverseFrom2();
    ScanThen(Scanner(ReverseInstrs[..5], []), Scanner(ReverseInstrs[..10], []), Scanner(ReverseInstrs, []),
      ">,>,>", ",.<.<" + (".<.<." + ("<.")), 1, 6);
  }

  lemma ReverseFrom0()
    ensures ScanLine(Scanner(ReverseInstrs[..0], []), ",>,>," + (">,>,>" + (",.<.<" + (".<.<." + ("<.")))), 1, 1) == Scanner(ReverseInstrs, [])
  {
    ReverseChunk0();
    ReverseFrom1();
    ScanThen(Scanner(ReverseInstrs[..0], []), Scanner(ReverseInstrs[..5], []), Scanner(ReverseInstrs, []),
      ",>,>,", ">,>,>" + (",.<.<" + (".<.<." + ("<."))), 1, 1);
  }

  /** The text loads as the 22 instructions of `ReverseInstrs`, with no
      loop instructions and so nothing left on the stack. */
  lemma ReverseLoads()
    ensures NewProgram("", ",>,>,>,>,>,.<.<.<.<.<.").instructions == ReverseInstrs
  {
    assert ",>,>,>,>,>,.<.<.<.<.<." == ",>,>," + (">,>,>" + (",.<.<" + (".<.<." + ("<."))));
    SingleLine("", ",>,>," + (">,>,>" + (",.<.<" + (".<.<." + ("<.")))));
    ReverseFrom0();
    assert ReverseInstrs[..0] == [];
  }

  // Straight-line execution

  /** `m` takes `n` successful steps of `step` and arrives at `m'`. */
  ghost predicate ReachesBy(step: Machine --> Result<Machine, VmError>, m: Machine, n: nat, m': Machine)
    decreases n
  {
    if n == 0 then m' == m
    else step.requires(m) && step(m).Success? && ReachesBy(step, step(m).value, n - 1, m')
  }

  lemma {:induction false} ReachesByThen(step: Machine --> Result<Machine, VmError>,
                                         m: Machine, a: nat, mid: Machine, b: nat, end: Machine)
    requires ReachesBy(step, m, a, mid) && ReachesBy(step, mid, b, end)
    ensures ReachesBy(step, m, a + b, end)
    decreases a
  {
    if a > 0 {
      ReachesByThen(step, step(m).value, a - 1, mid, b, end);
    }
  }

  /** `m` runs `n` instructions without failing or finishing and arrives at `m'`. */
  ghost predicate Reaches(m: Machine, n: nat, m': Machine) {
    m.vm.Valid() && ReachesBy(Step, m, n, m')
  }

  lemma ReachesThen(m: Machine, a: nat, mid: Machine, b: nat, end: Machine, n: nat)
    requires Reaches(m, a, mid) && Reaches(mid, b, end) && n == a + b
    ensures Reaches(m, n, end)
  {
    ReachesByThen(Step, m, a, mid, b, end);
  }

  /** Fuel spent on steps that are known to succeed is spent exactly: with
      `total` = n + `rest` units, the run goes on from `m'` with `rest`. */
  lemma {:induction false} RunAfterReaches(m: Machine, n: nat, m': Machine, rest: nat, total: nat)
    requires Reaches(m, n, m') && total == n + rest
    ensures m'.vm.Valid() && Run(m, total) == Run(m', rest)
    decreases n, 1
  {
    if n > 0 {
      RunAfterFirstStep(m, n, m', rest, total);
    }
  }

  /** The inductive step of `RunAfterReaches`. */
  lemma {:induction false} RunAfterFirstStep(m: Machine, n: nat, m': Machine, rest: nat, total: nat)
    requires Reaches(m, n, m') && n > 0 && total == n + rest
    ensures m'.vm.Valid() && Run(m, total) == Run(m', rest)
    decreases n, 0
  {
    var next := Step(m).value;
    var after := total - 1;
    assert Reaches(next, n - 1, m');
    RunAfterReaches(next, n - 1, m', rest, after);
    RunThrough(m, next, total, after, Run(m', rest));
  }

  /** The four commands of the program as single successful steps, as
      `StepEffect` gives them. */
  lemma StepRead(m: Machine)
    requires m.vm.Valid() && m.vm.programCnt < |m.vm.program.instructions|
    requires m.vm.Current().raw == DataInput && m.read < |m.input|
    ensures Reaches(m, 1, m.(vm := m.vm.(cells := m.vm.cells[m.vm.head := m.input[m.read]],
      programCnt := m.vm.programCnt + 1), read := m.read + 1))
  {
    StepEffect(m);
  }

  lemma StepRight(m: Machine)
    requires m.vm.Valid() && m.vm.programCnt < |m.vm.program.instructions|
    requires m.vm.Current().raw == PointerIncrement && m.vm.head + 1 < |m.vm.cells|
    ensures Reaches(m, 1, m.(vm := m.vm.(head := m.vm.head + 1, programCnt := m.vm.programCnt + 1)))
  {
    StepEffect(m);
  }

  lemma StepLeft(m: Machine)
    requires m.vm.Valid() && m.vm.programCnt < |m.vm.program.instructions|
    requires m.vm.Current().raw == PointerDecrement && m.vm.head > 0
    ensures Reaches(m, 1, m.(vm := m.vm.(head := m.vm.head - 1, programCnt := m.vm.programCnt + 1)))
  {
    StepEffect(m);
  }

  lemma StepWrite(m: Machine)
    requires m.vm.Valid() && m.vm.programCnt < |m.vm.program.instructions|
    requires m.vm.Current().raw == DataOutput
    ensures Reaches(m, 1, m.(vm := m.vm.(programCnt := m.vm.programCnt + 1),
      output := m.output + [m.vm.cells[m.vm.head]], tail := m.vm.cells[m.vm.head]))
  {
    StepEffect(m);
  }

  // Output order

  /** `s` back to front. */
  function Reverse(s: seq<Byte>): (r: seq<Byte>)
    ensures |r| == |s|
    ensures forall k :: 0 <= k < |s| ==> r[k] == s[|s| - 1 - k]
  {
    if s == [] then [] else [s[|s| - 1]] + Reverse(s[..|s| - 1])
  }

  lemma ReverseSnoc(c: seq<Byte>, n: nat)
    requires 1 <= n < |c|
    ensures Reverse(c[1..n + 1]) == [c[n]] + Reverse(c[1..n])
  {
    assert c[1..n + 1][..n - 1] == c[1..n];
  }

  /** Writing cell n and then cells n-1 down to 1 writes cells n down to 1. */
  lemma WriteThenReverse(out: seq<Byte>, c: seq<Byte>, n: nat)
    requires 1 <= n < |c|
    ensures (out + [c[n]]) + Reverse(c[1..n]) == out + Reverse(c[1..n + 1])
  {
    ReverseSnoc(c, n);
    assert (out + [c[n]]) + Reverse(c[1..n]) == out + ([c[n]] + Reverse(c[1..n]));
  }

  /** Taking the first byte off the front puts it at the back; this needs
      induction over `Reverse`, which builds from the back. */
  lemma ReverseCons(c: seq<Byte>, n: nat)
    requires 1 <= n <= |c|
    ensures Reverse(c[..n]) == Reverse(c[1..n]) + [c[0]]
  {
  }

  /** Stated as a lemma so that `ReverseWrites` can use it without the
      solver searching for it among that lemma's many facts. */
  lemma AppendAssoc(a: seq<Byte>, b: seq<Byte>, c: seq<Byte>)
    ensures (a + b) + c == a + (b + c)
  {
  }

  /** Instructions 2j and 2j+1 are ",>". */
  ghost predicate ReadPairAt(s: seq<CharInfo>, j: nat) {
    2 * j + 1 < |s| && s[2 * j].raw == DataInput && s[2 * j + 1].raw == PointerIncrement
  }

  /** Instructions 11+2j and 12+2j are ".<". */
  ghost predicate WritePairAt(s: seq<CharInfo>, j: nat) {
    12 + 2 * j < |s| && s[11 + 2 * j].raw == DataOutput && s[12 + 2 * j].raw == PointerDecrement
  }

  /** The layout of ",>,>,>,>,>,.<.<.<.<.<.": five reads each followed by a
      move right, a read, five writes each followed by a move left, a write. */
  ghost predicate ReverseShaped(s: seq<CharInfo>) {
    && |s| == 22
    && (forall j :: 0 <= j < 5 ==> ReadPairAt(s, j))
    && s[10].raw == DataInput
    && (forall j :: 0 <= j < 5 ==> WritePairAt(s, j))
    && s[21].raw == DataOutput
  }

  lemma ReverseInstrsShaped()
    ensures ReverseShaped(ReverseInstrs)
  {
  }

  /** One ",>" of the reading half. */
  lemma ReadPair(m: Machine, i: nat) returns (m': Machine)
    requires ReadPairAt(m.vm.program.instructions, i) && m.vm.Valid() && |m.vm.cells| >= 6
    requires i < 5 && m.vm.programCnt == 2 * i && m.vm.head == i && m.read == i && |m.input| >= 6
    ensures m' == m.(vm := m.vm.(cells := m.vm.cells[i := m.input[i]], head := i + 1, programCnt := 2 * i + 2),
                     read := i + 1)
    ensures Reaches(m, 2, m')
  {
    var m1 := m.(vm := m.vm.(cells := m.vm.cells[i := m.input[i]], programCnt := 2 * i + 1), read := i + 1);
    StepRead(m);
    m' := m1.(vm := m1.vm.(head := i + 1, programCnt := 2 * i + 2));
    StepRight(m1);
    ReachesThen(m, 1, m1, 1, m', 2);
  }

  /** The reading half ",>,>,>,>,>": after it the first five cells hold the
      first five input bytes and the head is on cell 5. */
  lemma {:induction false} ReadPhase(m: Machine, i: nat) returns (m': Machine)
    requires ReverseShaped(m.vm.program.instructions) && m.vm.Valid() && |m.vm.cells| >= 6
    requires i <= 5 && m.vm.programCnt == 2 * i && m.vm.head == i && m.read == i && |m.input| >= 6
    requires forall j :: 0 <= j < i ==> m.vm.cells[j] == m.input[j]
    ensures m'.vm.program == m.vm.program && m'.vm.Valid() && |m'.vm.cells| == |m.vm.cells|
    ensures m'.vm.programCnt == 10 && m'.vm.head == 5 && m'.read == 5
    ensures m'.input == m.input && m'.output == m.output && m'.tail == m.tail
    ensures forall j :: 0 <= j < 5 ==> m'.vm.cells[j] == m.input[j]
    ensures Reaches(m, 2 * (5 - i), m')
    decreases 5 - i
  {
    if i == 5 {
      m' := m;
    } else {
      var m2 := ReadPair(m, i);
      m' := ReadPhase(m2, i + 1);
      ReachesThen(m, 2, m2, 2 * (5 - (i + 1)), m', 2 * (5 - i));
    }
  }

  /** One ".<" of the writing half. */
  lemma WritePair(m: Machine, i: nat) returns (m': Machine)
    requires WritePairAt(m.vm.program.instructions, i) && m.vm.Valid() && |m.vm.cells| >= 6
    requires i < 5 && m.vm.programCnt == 11 + 2 * i && m.vm.head == 5 - i
    ensures m'.vm == m.vm.(head := 4 - i, programCnt := 13 + 2 * i) && m'.input == m.input && m'.read == m.read
    ensures m'.output == m.output + [m.vm.cells[5 - i]]
    ensures Reaches(m, 2, m')
  {
    var m1 := m.(vm := m.vm.(programCnt := 12 + 2 * i), output := m.output + [m.vm.cells[5 - i]], tail := m.vm.cells[5 - i]);
    StepWrite(m);
    m' := m1.(vm := m1.vm.(head := 4 - i, programCnt := 13 + 2 * i));
    StepLeft(m1);
    ReachesThen(m, 1, m1, 1, m', 2);
  }

  /** The pairs ".<" of the writing half: from cell 5 - i down to cell 1
      each cell is written, so cells 1 to 5 - i come out back to front. */
  lemma {:induction false} WritePhase(m: Machine, i: nat) returns (m': Machine)
    requires ReverseShaped(m.vm.program.instructions) && m.vm.Valid() && |m.vm.cells| >= 6
    requires i <= 5 && m.vm.programCnt == 11 + 2 * i && m.vm.head == 5 - i
    ensures m'.vm == m.vm.(head := 0, programCnt := 21) && m'.input == m.input && m'.read == m.read
    ensures m'.output == m.output + Reverse(m.vm.cells[1..6 - i])
    ensures Reaches(m, 2 * (5 - i), m')
    decreases 5 - i
  {
    if i == 5 {
      m' := m;
    } else {
      var m2 := WritePair(m, i);
      m' := WritePhase(m2, i + 1);
      WriteThenReverse(m.output, m.vm.cells, 5 - i);
      ReachesThen(m, 2, m2, 2 * (5 - (i + 1)), m', 2 * (5 - i));
    }
  }

  /** The reading half and the sixth read: cells 0 to 5 hold the six
      input bytes and the head is on cell 5. */
  lemma ReverseReads(m0: Machine) returns (m2: Machine)
    requires ReverseShaped(m0.vm.program.instructions) && m0.vm.Valid() && |m0.vm.cells| >= 6
    requires m0.vm.programCnt == 0 && m0.vm.head == 0 && m0.read == 0 && |m0.input| >= 6
    ensures m2.vm.program == m0.vm.program && m2.vm.Valid() && |m2.vm.cells| == |m0.vm.cells|
    ensures m2.vm.programCnt == 11 && m2.vm.head == 5 && m2.read == 6
    ensures m2.input == m0.input && m2.output == m0.output && m2.tail == m0.tail
    ensures m2.vm.cells[..6] == m0.input[..6]
    ensures Reaches(m0, 11, m2)
  {
    var m1 := ReadPhase(m0, 0);
    m2 := m1.(vm := m1.vm.(cells := m1.vm.cells[5 := m0.input[5]], programCnt := 11), read := 6);
    StepRead(m1);
    ReachesThen(m0, 10, m1, 1, m2, 11);
  }

  /** The writing half and the last write: the six cells come out back to
      front and the program counter leaves the program. */
  lemma ReverseWrites(m2: Machine) returns (m4: Machine)
    requires ReverseShaped(m2.vm.program.instructions) && m2.vm.Valid() && |m2.vm.cells| >= 6
    requires m2.vm.programCnt == 11 && m2.vm.head == 5
    ensures m4.vm.program == m2.vm.program && m4.vm.Valid()
    ensures m4.vm.programCnt == 22 && m4.read == m2.read && m4.input == m2.input
    ensures m4.output == m2.output + Reverse(m2.vm.cells[..6]) && m4.tail == m2.vm.cells[0]
    ensures Reaches(m2, 11, m4)
  {
    var m3 := WritePhase(m2, 0);
    m4 := m3.(vm := m3.vm.(programCnt := 22), output := m3.output + [m3.vm.cells[0]], tail := m3.vm.cells[0]);
    StepWrite(m3);
    ReachesThen(m2, 10, m3, 1, m4, 11);
    ReverseCons(m2.vm.cells, 6);
    AppendAssoc(m2.output, Reverse(m2.vm.cells[1..6]), [m2.vm.cells[0]]);
  }

  /** The run of the loaded program on a fresh machine: 22 steps, then the
      program counter has left the program. */
  lemma ReverseRun(input: seq<Byte>, vm: VirtualMachine, k: nat) returns (m4: Machine)
    requires |input| >= 6 && vm.Valid() && |vm.cells| >= 6 && vm.head == 0 && vm.programCnt == 0
    requires vm.program.instructions == ReverseInstrs
    ensures Run(Machine(vm, input, 0, [], 0), 22 + k) == Execution(Finished, m4)
    ensures m4.read == 6 && m4.output == Reverse(input[..6]) && m4.tail == input[0]
  {
    ReverseInstrsShaped();
    var m0 := Machine(vm, input, 0, [], 0);
    var m2 := ReverseReads(m0);
    m4 := ReverseWrites(m2);
    ReachesThen(m0, 11, m2, 11, m4, 22);
    RunAfterReaches(m0, 22, m4, k, 22 + k);
    assert [] + Reverse(m2.vm.cells[..6]) == Reverse(input[..6]);
    assert m2.vm.cells[0] == m2.vm.cells[..6][0] == input[0];
  }

  /** The whole program: with at least six input bytes and a tape of at
      least six cells it finishes after its 22 instructions, having read six
      bytes and written them in reverse order, then the closing line feed
      unless the first byte was one itself. */
  lemma ReverseProgram(input: seq<Byte>, len: nat, extendable: bool, k: nat)
    requires |input| >= 6 && (len == 0 || len >= 6)
    ensures var p := NewProgram("", ",>,>,>,>,>,.<.<.<.<.<.");
      var r := Interpret(NewVm(len, extendable, p), input, 22 + k);
      && r.status == Finished && r.read == 6
      && r.output == Reverse(input[..6]) + (if input[0] != NewLine then [NewLine] else [])
  {
    ReverseLoads();
    var vm := NewVm(len, extendable, NewProgram("", ",>,>,>,>,>,.<.<.<.<.<."));
    var m4 := ReverseRun(input, vm, k);
  }

  /** Six bytes back to front. */
  lemma ReverseSix(a: Byte, b: Byte, c: Byte, d: Byte, e: Byte, f: Byte)
    ensures Reverse([a, b, c, d, e, f]) == [f, e, d, c, b, a]
  {
    var r := Reverse([a, b, c, d, e, f]);
    assert r[0] == f && r[1] == e && r[2] == d && r[3] == c && r[4] == b && r[5] == a;
  }

  /** `test_input_output`, on any tape of at least six cells (the test uses
      1000) and with any fuel from 22 on: input 1, 2, 3, 4, 5, 6 gives 6, 5,
      4, 3, 2, 1 and the closing line feed. */
  lemma TestInputOutput(input: seq<Byte>, len: nat, k: nat)
    requires input == [1, 2, 3, 4, 5, 6] && len >= 6
    ensures var p := NewProgram("", ",>,>,>,>,>,.<.<.<.<.<.");
      var r := Interpret(NewVm(len, false, p), input, 22 + k);
      r.status == Finished && r.output == [6, 5, 4, 3, 2, 1, 10]
  {
    ReverseProgram(input, len, false, k);
    assert input[..6] == input;
    ReverseSix(1, 2, 3, 4, 5, 6);
  }
}

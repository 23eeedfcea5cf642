# A brainfuck loader and virtual machine, in Dafny

This project models the two library crates of a small brainfuck toolchain
written in Rust:

- `bft_types`: the eight commands (`BFCharCmdName`) and the loader
  `BFProgram::new`. The loader splits the text into lines the way
  `str::lines()` does. It keeps only the command characters, each tagged with
  its 1-based line and column (`BFCharInfo`). It pairs every `]` with the
  innermost open `[` through a stack of indices. `match_square_bracket` then
  accepts the program, or rejects it at the first bracket left without a
  partner.
- `bft_interp`: the virtual machine `BFVirtualMachine<u8>`. It has a tape of
  8-bit wrapping cells (30000 of them when the requested length is 0), a head,
  a flag that lets the tape grow to the right, and a program counter. The
  module covers every single operation: moving the head, changing a cell,
  reading and writing a byte, and jumping at a loop. It also covers the
  dispatch loop `interpret`, which runs the current instruction, adds 1 to the
  program counter, and stops at the first error. At normal completion it
  writes a line feed unless the last byte written was one (`print_newline`).

The modules follow the crates:

| module | file | contents |
|---|---|---|
| `Wrappers` | `wrappers.dfy` | `Option` and `Result`, used with `:-` as Rust's `?` |
| `BfTypes` | `bft_types.dfy` | commands, positions, the loader, the validation |
| `BfTypesProofs` | `bft_types_proofs.dfy` | reference definitions of the loader's results, and the theorems relating the two |
| `BfInterp` | `bft_interp.dfy` | the cell arithmetic, the machine, its operations, `Step`, `Run`, `Interpret` |
| `BfInterpProofs` | `bft_interp_proofs.dfy` | properties of whole runs, and how loops use the loader's pairs |
| `BfExamples` | `bft_examples.dfy` | the repository's unit and integration tests, as lemmas |
| `BfReverseExample` | `bft_reverse_example.dfy` | the integration test `test_input_output`, for every input and tape length |

Modelling choices:

- Cells are integers `0 <= x < 256`. `wrapping_add(1)` and `wrapping_sub(1)`
  are written out with `% 256`.
- The reader and the writer are parameters. Input is the whole byte sequence
  plus a read position, like the `Cursor` the tests read from. A read fails
  exactly when no input is left. Output is the sequence written so far, and a
  write cannot fail.
- Every operation is a pure function from a machine to a new machine (or an
  error). A failing operation changes nothing, as in the Rust code, where the
  error is returned before anything is mutated.
- `interpret`'s loop is `Run`, and `Run` takes a fuel bound because a
  brainfuck program need not terminate. A run ends as `Finished` (the program
  counter left the program), as `Aborted` with the first error, or as
  `OutOfFuel`.
- The loader's properties are not stated in terms of its stack. They are
  stated against independent definitions over the raw text: `Commands`,
  `LineOf` and `ColumnOf` for positions, and `Depth` and `Balanced` for
  bracket balance. The line-by-line loop is first proved equal to a flat
  character-by-character scan (`FlatScan`).

An aborted run writes no line feed. In `interpret`
(rust_bft/bft/bft_interp/src/lib.rs:288), the `BFPrintNewLine` value whose
drop writes the line feed is created only after the loop has ended normally.
An error returned by `?` leaves the function before that value exists.
`Interpret` models exactly that, and `CountdownNoInput` shows one such run.

## Model

| member | source | states |
|---|---|---|
| `BfTypes.RawInstruction` | rust_bft/bft/bft_types/src/lib.rs:106-118 | exactly the eight characters `><+-.,[]` are commands; each maps to the command whose symbol it is, and loop commands start with no partner |
| `BfTypes.Lines` | rust_bft/bft/bft_types/src/lib.rs:126 | `str::lines()` splits at line feeds: no line it returns contains one |
| `BfTypes.ScanChar` | rust_bft/bft/bft_types/src/lib.rs:129-146 | a non-command character leaves the loader's state unchanged; a command appends exactly one instruction; the stack only holds indices of existing instructions |
| `BfTypes.ScanLine` | rust_bft/bft/bft_types/src/lib.rs:127-148 | the character loop of one line keeps the stack well-formed and never drops an instruction |
| `BfTypes.ScanLines` | rust_bft/bft/bft_types/src/lib.rs:126-150 | the line loop keeps the stack well-formed and never drops an instruction |
| `BfTypes.FirstUnresolved` | rust_bft/bft/bft_types/src/lib.rs:172-200 | the scan of `match_square_bracket` stops at the first loop instruction without a partner, or at the end when there is none |
| `BfTypes.MatchSquareBracket` | rust_bft/bft/bft_types/src/lib.rs:171-203 | succeeds exactly when no loop instruction lacks a partner, leaving the program as it was; otherwise reports the program's name and the first instruction, in order, that lacks one |
| `BfTypesProofs.StripCarriageReturnInvisible` | rust_bft/bft/bft_types/src/lib.rs:126-128 | the `\r` that `lines()` drops before a `\n` would never have made an instruction, so dropping it does not change the result |
| `BfTypesProofs.ScanLinesIsFlat` | rust_bft/bft/bft_types/src/lib.rs:126-150 | the loop over lines, with the column reset to 1 on each line, equals one character-by-character scan in which `\n` starts the next line |
| `BfTypes.NewProgram` | rust_bft/bft/bft_types/src/lib.rs:103-156 | the program keeps the path it was given as its name |
| `BfTypesProofs.NewProgramIsFlat` | rust_bft/bft/bft_types/src/lib.rs:103-156 | `BFProgram::new` is the flat scan of the whole text from line 1, column 1 |
| `BfTypesProofs.ScanCharShaped` | rust_bft/bft/bft_types/src/lib.rs:136-142 | each command keeps the loader's invariant: the stack holds exactly the unresolved `[`s, in order; resolved partners point at each other and nest; a `]` resolves only when the stack is non-empty |
| `BfTypesProofs.ScanCharCommands` | rust_bft/bft/bft_types/src/lib.rs:129-135 | each character adds what the reference `Commands` adds: one instruction for a command, tagged with the line and column that `LineOf` and `ColumnOf` compute from the text before it |
| `BfTypesProofs.ScanCharBalance` | rust_bft/bft/bft_types/src/lib.rs:136-142 | a `]` stays unresolved exactly when some prefix of the text has more `]` than `[`; otherwise the stack depth is the text's bracket depth |
| `BfTypesProofs.FlatScanInvariant` | rust_bft/bft/bft_types/src/lib.rs:126-150 | the scan of any text preserves both invariants above |
| `BfTypesProofs.FinalScanner` | rust_bft/bft/bft_types/src/lib.rs:120-156 | the loader ends in a state satisfying both invariants, whose instructions are the program's |
| `BfTypesProofs.NewProgramCommands` | rust_bft/bft/bft_types/src/lib.rs:126-148 | only the eight command characters become instructions, one each, in source order, with their 1-based line and column (every character of a line takes a column) |
| `BfTypesProofs.ShapedUnmatched` | rust_bft/bft/bft_types/src/lib.rs:136-142 | from the invariant: a `]` is unresolved exactly when every earlier `[` is closed before it, and a `[` is unresolved exactly when every later `]` closes a `[` after it |
| `BfTypesProofs.NewProgramPairs` | rust_bft/bft/bft_types/src/lib.rs:136-142 | the loaded pairs point at each other, are nested and never cross, and a bracket is unresolved exactly when the stack gave it no partner |
| `BfTypesProofs.ValidateIffBalanced` | rust_bft/bft/bft_types/src/lib.rs:169-203 | validation of a loaded text succeeds exactly when the text's brackets are balanced: no prefix has more `]` than `[`, and the counts are equal |
| `BfTypesProofs.ValidateReportsPosition` | rust_bft/bft/bft_types/src/lib.rs:174-197 | a rejection names the first unresolved bracket, at that bracket's own line and column in the text |
| `BfInterp.Increment` | rust_bft/bft/bft_interp/src/lib.rs:295-297 | `wrapping_add(1)` on a byte: 255 goes to 0, every other value goes up by one |
| `BfInterp.Decrement` | rust_bft/bft/bft_interp/src/lib.rs:300-302 | `wrapping_sub(1)` on a byte: 0 goes to 255, every other value goes down by one; `Increment` undoes it |
| `BfInterp.NewVm` | rust_bft/bft/bft_interp/src/lib.rs:147-163 | the tape has the requested length (30000 when that is 0), every cell is 0, the head and the program counter are 0, and the flag and the program are the given ones |
| `BfInterp.MoveHeadLeft` | rust_bft/bft/bft_interp/src/lib.rs:166-175 | fails, blaming the current instruction, exactly at cell 0; otherwise the head moves one cell left and nothing else changes |
| `BfInterp.MoveHeadRight` | rust_bft/bft/bft_interp/src/lib.rs:178-190 | fails, blaming the current instruction, exactly at the last cell of a tape that may not grow; at the last cell of one that may, a zero cell is appended; the head moves one cell right and nothing else changes |
| `BfInterp.AddHeadByOne` | rust_bft/bft/bft_interp/src/lib.rs:193-195 | only the head cell changes, to its wrapped successor |
| `BfInterp.MinusHeadByOne` | rust_bft/bft/bft_interp/src/lib.rs:198-200 | only the head cell changes, to its wrapped predecessor |
| `BfInterp.ReadValue` | rust_bft/bft/bft_interp/src/lib.rs:203-217 | fails with an I/O error blaming the current instruction exactly when no input is left; otherwise consumes exactly one byte into the head cell and changes nothing else |
| `BfInterp.WriteValue` | rust_bft/bft/bft_interp/src/lib.rs:220-232 | appends exactly the head cell's byte to the output |
| `BfInterp.StartLoop` | rust_bft/bft/bft_interp/src/lib.rs:235-247 | on a nonzero cell does nothing; on a zero cell jumps to the recorded partner, or fails with a bracket error blaming the current instruction when there is none |
| `BfInterp.StopLoop` | rust_bft/bft/bft_interp/src/lib.rs:250-262 | on a zero cell does nothing; on a nonzero cell jumps back to the recorded partner, or fails with a bracket error blaming the current instruction when there is none |
| `BfInterp.Step` | rust_bft/bft/bft_interp/src/lib.rs:166-286 | one loop iteration: an error blames the instruction being run; otherwise the program, the flag and the input are kept, the tape only grows (and only when allowed), at most one byte is read, the output is unchanged or grows by the byte that becomes `tail`, after a non-loop instruction the program counter moves on by exactly one; and it fails exactly in five cases (`Blocked`): `<` on cell 0, `>` on the last cell of a tape that may not grow, `,` with no input left, and a `[` on a zero cell or a `]` on a nonzero cell that has no partner (what each command then does: `StepEffect` and `LoopStepFollowsPartner`) |
| `BfInterp.Run` | rust_bft/bft/bft_interp/src/lib.rs:270-287 | the loop keeps the head on the tape and the program unchanged; it finishes exactly when the program counter leaves the program; when it aborts, the error blames the instruction at which it stopped |
| `BfInterp.RunFollows` | rust_bft/bft/bft_interp/src/lib.rs:270-287 | a whole run keeps what each step keeps: program and flag, a tape that only grows (only when allowed), output only appended to, input only consumed, `tail` the last byte written |
| `BfInterp.PrintNewline` | rust_bft/bft/bft_interp/src/lib.rs:74-81 | appends a line feed exactly when the last written byte was not one |
| `BfInterp.Interpret` | rust_bft/bft/bft_interp/src/lib.rs:265-290 | the result is the loop's; the output is what the program wrote, with a line feed appended on normal completion only, and only when the program did not end with one |
| `BfInterpProofs.StepEffect` | rust_bft/bft/bft_interp/src/lib.rs:166-286 | what each non-loop command does when it does not fail, as the whole machine after the step: `>` moves the head right (appending a zero cell at the end of a growable tape), `<` moves it left, `+` and `-` replace the head cell by its wrapped successor or predecessor, `.` appends the head cell to the output and makes it `tail`, `,` stores the next input byte in the head cell and consumes it; the program counter moves on by one and nothing else changes |
| `BfInterpProofs.RunThrough` | rust_bft/bft/bft_interp/src/lib.rs:272-286 | when an iteration succeeds, the loop with one more unit of fuel ends exactly as the loop from the machine that iteration produced |
| `BfInterpProofs.RunUnfold` | rust_bft/bft/bft_interp/src/lib.rs:272-286 | a successful iteration costs one unit of fuel and the loop goes on from the machine it produced |
| `BfInterpProofs.RunFuelMonotone` | rust_bft/bft/bft_interp/src/lib.rs:272-287 | once a run has stopped for a reason other than fuel, more fuel gives the same result |
| `BfInterpProofs.RunAbortsAtFailingStep` | rust_bft/bft/bft_interp/src/lib.rs:272-286 | an aborted run stops at the instruction whose step fails, with exactly the error that step returns (the `?` propagation) |
| `BfInterpProofs.ValidatedRunHasNoBracketError` | rust_bft/bft/bft_interp/src/lib.rs:235-262 | a program that `match_square_bracket` accepts never aborts with a bracket error |
| `BfInterpProofs.LoopStepFollowsPartner` | rust_bft/bft/bft_interp/src/lib.rs:235-262 | with resolved, mutually pointing pairs, a `[` on a zero cell continues just after its `]`, a `]` on a nonzero cell continues just after its `[`, and otherwise execution falls through |
| `BfInterpProofs.LoopJumpsFollowPairs` | rust_bft/bft/bft_interp/src/lib.rs:281-286 | the same for every program loaded from text and accepted by validation |
| `BfInterpProofs.ReadThenWrite` | rust_bft/bft/bft_interp/src/lib.rs:203-232 | a read followed by a write copies the next input byte to the output |
| `BfInterpProofs.FinishedOutputEndsWithNewline` | rust_bft/bft/bft_interp/src/lib.rs:84-90 | on normal completion the output ends with a line feed, and it equals what the program wrote exactly when that already ended with one |
| `BfExamples.TestLineColumn` | rust_bft/bft/bft_types/src/lib.rs:218-252 | `"test001++  hello --"` loads as `+` at (1, 8) and (1, 9) and `-` at (1, 18) and (1, 19) |
| `BfExamples.TestLineColumnValidates` | rust_bft/bft/bft_types/src/lib.rs:218-220 | that program passes validation |
| `BfExamples.TestRejectsUnclosed` | rust_bft/bft/bft_types/src/lib.rs:254-258 | `"test001++  hello --[>,<+>--,[]"` fails validation |
| `BfExamples.HelloLoads` | rust_bft/bft/bft_interp/src/lib.rs:321 | `"hello++--,><>"` loads as its eight commands at columns 6 to 13 |
| `BfExamples.TestMoveHead` | rust_bft/bft/bft_interp/src/lib.rs:319-335 | on a two-cell tape the head cannot move left from cell 0, moves right once, and moves right a second time exactly when the tape may grow |
| `BfExamples.TestReadModifyWrite` | rust_bft/bft/bft_interp/src/lib.rs:337-376 | a byte read and written comes out unchanged, or one more or one less after `+` or `-` |
| `BfExamples.CountdownLoop` | rust_bft/bft/tests/integration_test.rs:58 | the body of `,[-.]`, entered with v > 0 in the head cell, runs 3v steps, writes v-1, ..., 0 and leaves the loop |
| `BfExamples.CountdownProgram` | rust_bft/bft/tests/integration_test.rs:56-66 | `,[-.]` on a fixed tape of any length, for any input byte v, finishes, given fuel for at least its 3v + 2 steps, with output v-1, ..., 0 and a line feed (for 6: 5, 4, 3, 2, 1, 0, 10) |
| `BfExamples.CountdownNoInput` | rust_bft/bft/bft_interp/src/lib.rs:208-214 | with no input, `,[-.]` aborts at its `,` with an I/O error and writes nothing, not even a line feed |
| `BfReverseExample.ReverseLoads` | rust_bft/bft/bft_types/src/lib.rs:103-156 | `",>,>,>,>,>,.<.<.<.<.<."` loads as its 22 commands, in order, at line 1, columns 1 to 22 |
| `BfReverseExample.ReachesThen` | rust_bft/bft/bft_interp/src/lib.rs:272-286 | two stretches of successful iterations, the second starting where the first ends, make one stretch whose length is the sum |
| `BfReverseExample.RunAfterReaches` | rust_bft/bft/bft_interp/src/lib.rs:272-286 | a stretch of n successful iterations uses exactly n units of fuel, and the loop goes on from the machine at its end |
| `BfReverseExample.Reverse` | rust_bft/bft/tests/integration_test.rs:29 | the reference for the expected output: the same bytes, back to front |
| `BfReverseExample.ReadPhase` | rust_bft/bft/bft_interp/src/lib.rs:178-217 | each `,>` stores the next input byte in the head cell and moves right, so after `,>,>,>,>,>` cells 0 to 4 hold the first five input bytes and the head is on cell 5 |
| `BfReverseExample.WritePhase` | rust_bft/bft/bft_interp/src/lib.rs:166-232 | each `.<` writes the head cell and moves left, so the pairs starting at cell 5 write cells 5 down to 1 and leave the tape unchanged |
| `BfReverseExample.ReverseRun` | rust_bft/bft/bft_interp/src/lib.rs:270-287 | on a fresh machine with at least six cells the loaded program finishes after its 22 instructions, having read six bytes and written them back to front |
| `BfReverseExample.ReverseProgram` | rust_bft/bft/tests/integration_test.rs:21-30 | for any input of at least six bytes and any tape of at least six cells, growable or not, `interpret` finishes with the six bytes back to front and then a line feed unless the first byte was one |
| `BfReverseExample.TestInputOutput` | rust_bft/bft/tests/integration_test.rs:21-30 | on input 1, 2, 3, 4, 5, 6 the output is 6, 5, 4, 3, 2, 1, 10 |

## Left out

- I/O errors other than end of input: a read fails only when the input is used up, and writes never fail. The `io::Error` inside `IOErr` is not modelled; only the instruction it blames is kept.
- The `Input a value:` prompt that `read_value` prints to standard output, and the message printed when the final line feed cannot be written.
- The `Display` implementations and the error message texts. These include `match_square_bracket`'s two messages, which name the opposite bracket ("no open bracket" for an unclosed `[`). `BracketError` keeps the name and the instruction, not the text.
- `print_info`, `BFProgram::from_file` (reading a file), the command-line parser, `main` and the unrelated `rustnews` crate.
- The generic cell type `T: CellKind`: only the `u8` implementation, which is the only one the repository has, is modelled.
- Rust's index panics: an operation that reads `instructions()[program_cnt]` requires the program counter to be inside the program, and `interpret` only calls them there.
- `Run`: the fuel bound is not in the source; a run that needs more steps ends as `OutOfFuel`, and `Interpret` then writes no line feed.
- `BfTypes.Lines`: the contract says only that no line holds a line feed. That the lines, scanned in turn, give what one flat scan of the text gives is `ScanLinesIsFlat`.
- `BfTypes.ScanLine`, `BfTypes.ScanLines`: the contracts state only that the stack stays well-formed and no instruction is lost. What the loops compute is stated by `ScanLinesIsFlat`, `NewProgramCommands` and `NewProgramPairs`.
- `BfTypes.NewProgram`: its own contract states only the program's name. What its instructions are is stated by `NewProgramCommands` (which commands, in which order, at which line and column), `NewProgramPairs` (the loop partners) and `NewProgramIsFlat`.
- `instructions()`: it is the field `Program.instructions`.
- The "Hello World!" integration test and the `test_increment` and `test_decrement` tests are not restated as lemmas. The loop test `,[-.]` is, for every input byte and tape length, and so is `test_input_output`, for every input of at least six bytes.
- `usize` overflow of the head, the program counter, and the line and column counters: they are unbounded naturals here. The tape of a program cannot grow past memory anyway.

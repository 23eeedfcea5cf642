/** The brainfuck program model: the eight commands, their source positions,
    and the loader that turns source text into a bracket-resolved instruction
    sequence (`BFProgram::new`) and then validates it (`match_square_bracket`). */
module BfTypes {
  import opened Wrappers

  /** One brainfuck command. The two loop commands carry the index of their
      partner in the instruction sequence once the loader has resolved it. */
  datatype CmdName =
    | PointerIncrement              // '>'
    | PointerDecrement              // '<'
    | DataIncrement                 // '+'
    | DataDecrement                 // '-'
    | DataOutput                    // '.'
    | DataInput                     // ','
    | LoopStart(partner: Option<nat>)      // '['
    | LoopTerminate(partner: Option<nat>)  // ']'
  {
    predicate IsLoop() {
      LoopStart? || LoopTerminate?
    }

    /** A loop command whose partner is still missing. */
    predicate Unresolved() {
      IsLoop() && partner.None?
    }
  }

  /** A command together with its 1-based line and column in the source. */
  datatype CharInfo = CharInfo(raw: CmdName, line: nat, column: nat)

  /** A loaded program: the name it came from (diagnostics only) and its
      instructions. `Program.instructions` is the model of `instructions()`. */
  datatype Program = Program(filename: string, instructions: seq<CharInfo>)

  /** The validation error: the first loop instruction left without a partner. */
  datatype BracketError = UnmatchedBracket(filename: string, at: CharInfo)

  /** The source character of each command (the inverse of `RawInstruction`). */
  function Symbol(k: CmdName): char {
    match k
    case PointerIncrement => '>'
    case PointerDecrement => '<'
    case DataIncrement => '+'
    case DataDecrement => '-'
    case DataOutput => '.'
    case DataInput => ','
    case LoopStart(_) => '['
    case LoopTerminate(_) => ']'
  }

  /** Maps a source character to its command; every other character is a comment. */
  function RawInstruction(ch: char): (r: Option<CmdName>)
    ensures r.Some? <==> ch in "><+-.,[]"
    ensures r.Some? ==> Symbol(r.value) == ch && !(r.value.IsLoop() && r.value.partner.Some?)
  {
    match ch
    case '>' => Some(PointerIncrement)
    case '<' => Some(PointerDecrement)
    case '+' => Some(DataIncrement)
    case '-' => Some(DataDecrement)
    case '.' => Some(DataOutput)
    case ',' => Some(DataInput)
    case '[' => Some(LoopStart(None))
    case ']' => Some(LoopTerminate(None))
    case _ => None
  }

  /** Index of the first '\n' in `s`, or `|s|` when there is none. */
  function NewlineIndex(s: string): (k: nat)
    ensures k <= |s|
    ensures k < |s| ==> s[k] == '\n'
    ensures forall i :: 0 <= i < k ==> s[i] != '\n'
  {
    if s == [] then 0
    else if s[0] == '\n' then 0
    else 1 + NewlineIndex(s[1..])
  }

  /** Drops one carriage return that ended a "\r\n" terminator. */
  function StripCarriageReturn(l: string): (r: string)
    ensures r == l || (r + ['\r'] == l)
  {
    if |l| > 0 && l[|l| - 1] == '\r' then l[..|l| - 1] else l
  }

  /** Rust's `str::lines()`: split at "\n" or "\r\n"; the final terminator is
      optional and does not produce an empty last line. */
  function Lines(s: string): (ls: seq<string>)
    ensures forall i :: 0 <= i < |ls| ==> '\n' !in ls[i]
    decreases |s|
  {
    if s == [] then []
    else
      var k := NewlineIndex(s);
      if k == |s| then [s]
      else [StripCarriageReturn(s[..k])] + Lines(s[k + 1..])
  }

  /** The loader's working state: the instructions pushed so far and the stack
      of indices of still-open `LoopStart` instructions. */
  datatype Scanner = Scanner(instrs: seq<CharInfo>, open: seq<nat>) {
    predicate Wf() {
      forall i :: 0 <= i < |open| ==> open[i] < |instrs|
    }
  }

  /** One character of a line at (`line`, `col`): a command is appended; a '['
      pushes its index; a ']' pops the innermost open '[' (if any) and the
      two become partners. */
  function ScanChar(st: Scanner, ch: char, line: nat, col: nat): (r: Scanner)
    requires st.Wf()
    ensures r.Wf()
    ensures RawInstruction(ch).None? ==> r == st
    ensures RawInstruction(ch).Some? ==> |r.instrs| == |st.instrs| + 1
  {
    match RawInstruction(ch)
    case None => st
    case Some(cmd) =>
      var index := |st.instrs|;
      var instrs := st.instrs + [CharInfo(cmd, line, col)];
      if ch == '[' then
        Scanner(instrs, st.open + [index])
      else if ch == ']' && |st.open| > 0 then
        var top := st.open[|st.open| - 1];
        var closed := instrs[index := CharInfo(LoopTerminate(Some(top)), line, col)];
        Scanner(closed[top := closed[top].(raw := LoopStart(Some(index)))], st.open[..|st.open| - 1])
      else
        Scanner(instrs, st.open)
  }

  /** The inner loop over the characters of one line; the column advances for
      every character, command or not. */
  function ScanLine(st: Scanner, chars: string, line: nat, col: nat): (r: Scanner)
    requires st.Wf()
    ensures r.Wf()
    ensures |r.instrs| >= |st.instrs|
    decreases |chars|
  {
    if chars == [] then st
    else ScanLine(ScanChar(st, chars[0], line, col), chars[1..], line, col + 1)
  }

  /** The outer loop over the lines; each line starts at column 1. */
  function ScanLines(st: Scanner, lines: seq<string>, line: nat): (r: Scanner)
    requires st.Wf()
    ensures r.Wf()
    ensures |r.instrs| >= |st.instrs|
    decreases |lines|
  {
    if lines == [] then st
    else ScanLines(ScanLine(st, lines[0], line, 1), lines[1..], line + 1)
  }

  /** `BFProgram::new`: load `src`, starting at line 1, with an empty stack. */
  function NewProgram(path: string, src: string): (p: Program)
    ensures p.filename == path
  {
    Program(path, ScanLines(Scanner([], []), Lines(src), 1).instrs)
  }

  /** Index of the first unresolved loop instruction at or after `from`, or
      `|instrs|` when there is none. */
  function FirstUnresolved(instrs: seq<CharInfo>, from: nat): (k: nat)
    requires from <= |instrs|
    ensures from <= k <= |instrs|
    ensures k < |instrs| ==> instrs[k].raw.Unresolved()
    ensures forall i :: from <= i < k ==> !instrs[i].raw.Unresolved()
    decreases |instrs| - from
  {
    if from == |instrs| then from
    else if instrs[from].raw.Unresolved() then from
    else FirstUnresolved(instrs, from + 1)
  }

  /** `match_square_bracket`: accept the program unchanged when every loop
      instruction has a partner, else report the first one, in sequence
      order, that has none. */
  function MatchSquareBracket(p: Program): (r: Result<Program, BracketError>)
    ensures r.Success? <==>
      forall i :: 0 <= i < |p.instructions| ==> !p.instructions[i].raw.Unresolved()
    ensures r.Success? ==> r.value == p
    ensures r.Failure? ==> r.error.filename == p.filename
    ensures r.Failure? ==>
      exists k :: 0 <= k < |p.instructions| && p.instructions[k] == r.error.at
        && p.instructions[k].raw.Unresolved()
        && forall i :: 0 <= i < k ==> !p.instructions[i].raw.Unresolved()
  {
    var k := FirstUnresolved(p.instructions, 0);
    if k == |p.instructions| then Success(p)
    else Failure(UnmatchedBracket(p.filename, p.instructions[k]))
  }
}

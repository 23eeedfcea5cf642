/** What the loader guarantees, stated against reference definitions that do
    not mention its stack:
    - `Commands`, `LineOf`, `ColumnOf`: which characters become instructions
      and where they sit in the text;
    - `Symmetric`, `Nested`, `NonCrossing`: the shape of the resolved pairs;
    - `Depth`, `Balanced`: bracket balance of the raw text. */
module BfTypesProofs {
  import opened Wrappers
  import opened BfTypes

  // ---------------------------------------------------------------------
  // A flat scanner over the raw text, equal to the loader's line loop
  // ---------------------------------------------------------------------

  /** Scan the text character by character: '\n' moves to column 1 of the
      next line, every other character takes one column. */
  function FlatScan(st: Scanner, s: string, line: nat, col: nat): (r: Scanner)
    requires st.Wf()
    ensures r.Wf()
    decreases |s|
  {
    if s == [] then st
    else if s[0] == '\n' then FlatScan(st, s[1..], line + 1, 1)
    else FlatScan(ScanChar(st, s[0], line, col), s[1..], line, col + 1)
  }

  lemma {:induction false} ScanLineIsFlat(st: Scanner, l: string, line: nat, col: nat)
    requires st.Wf()
    requires '\n' !in l
    ensures ScanLine(st, l, line, col) == FlatScan(st, l, line, col)
    decreases |l|
  {
    if l != [] {
      assert l[0] in l;
      assert forall c :: c in l[1..] ==> c in l;
      ScanLineIsFlat(ScanChar(st, l[0], line, col), l[1..], line, col + 1);
    }
  }

  /** Scanning `a + b` within one line is scanning `a`, then `b` further right. */
  lemma {:induction false} FlatScanAppend(st: Scanner, a: string, b: string, line: nat, col: nat)
    requires st.Wf()
    requires '\n' !in a
    ensures FlatScan(st, a + b, line, col) == FlatScan(ScanLine(st, a, line, col), b, line, col + |a|)
    decreases |a|
  {
    if a == [] {
      assert a + b == b;
    } else {
      assert a[0] in a;
      assert forall c :: c in a[1..] ==> c in a;
      assert (a + b)[0] == a[0];
      assert (a + b)[1..] == a[1..] + b;
      FlatScanAppend(ScanChar(st, a[0], line, col), a[1..], b, line, col + 1);
    }
  }

  lemma {:induction false} ScanLineSnoc(st: Scanner, a: string, c: char, line: nat, col: nat)
    requires st.Wf()
    ensures ScanLine(st, a + [c], line, col) == ScanChar(ScanLine(st, a, line, col), c, line, col + |a|)
    decreases |a|
  {
    if a == [] {
      assert a + [c] == [c];
    } else {
      assert (a + [c])[0] == a[0];
      assert (a + [c])[1..] == a[1..] + [c];
      ScanLineSnoc(ScanChar(st, a[0], line, col), a[1..], c, line, col + 1);
    }
  }

  /** The stripped '\r' takes a column but never makes an instruction, so it
      does not matter to the result. */
  lemma StripCarriageReturnInvisible(st: Scanner, l: string, line: nat)
    requires st.Wf()
    ensures ScanLine(st, StripCarriageReturn(l), line, 1) == ScanLine(st, l, line, 1)
  {
    if |l| > 0 && l[|l| - 1] == '\r' {
      var a := l[..|l| - 1];
      assert a + ['\r'] == l;
      ScanLineSnoc(st, a, '\r', line, 1);
    }
  }

  /** The loader's line-by-line loop over `str::lines()` is the flat scan. */
  lemma {:induction false} ScanLinesIsFlat(st: Scanner, s: string, line: nat)
    requires st.Wf()
    ensures ScanLines(st, Lines(s), line) == FlatScan(st, s, line, 1)
    decreases |s|
  {
    if s != [] {
      var k := NewlineIndex(s);
      assert '\n' !in s[..k];
      if k == |s| {
        assert s[..k] == s;
        assert Lines(s) == [s];
        assert Lines(s)[1..] == [];
        ScanLineIsFlat(st, s, line, 1);
      } else {
        var l := s[..k];
        var rest := s[k + 1..];
        var st1 := ScanLine(st, l, line, 1);
        LinesAtNewline(s, k);
        ScanLinesCons(st, StripCarriageReturn(l), Lines(rest), line);
        StripCarriageReturnInvisible(st, l, line);
        FlatScanLine(st, s, k, line);
        ScanLinesIsFlat(st1, rest, line + 1);
        calc {
          ScanLines(st, Lines(s), line);
          ScanLines(st, [StripCarriageReturn(l)] + Lines(rest), line);
          ScanLines(ScanLine(st, StripCarriageReturn(l), line, 1), Lines(rest), line + 1);
          ScanLines(st1, Lines(rest), line + 1);
          FlatScan(st1, rest, line + 1, 1);
          FlatScan(st, s, line, 1);
        }
      }
    }
  }

  /** At its first line feed, `str::lines()` splits off the first line. */
  lemma LinesAtNewline(s: string, k: nat)
    requires s != [] && k == NewlineIndex(s) && k < |s|
    ensures Lines(s) == [StripCarriageReturn(s[..k])] + Lines(s[k + 1..])
  {
  }

  /** The line loop takes one line at a time. */
  lemma ScanLinesCons(st: Scanner, l: string, ls: seq<string>, line: nat)
    requires st.Wf()
    ensures ScanLines(st, [l] + ls, line) == ScanLines(ScanLine(st, l, line, 1), ls, line + 1)
  {
    assert ([l] + ls)[1..] == ls;
  }

  /** The flat scan up to the first line feed is the scan of that line; the
      line feed then starts the next line. */
  lemma FlatScanLine(st: Scanner, s: string, k: nat, line: nat)
    requires st.Wf() && k < |s| && s[k] == '\n' && '\n' !in s[..k]
    ensures FlatScan(st, s, line, 1) == FlatScan(ScanLine(st, s[..k], line, 1), s[k + 1..], line + 1, 1)
  {
    assert s == s[..k] + s[k..];
    FlatScanAppend(st, s[..k], s[k..], line, 1);
    assert s[k..][0] == '\n';
    assert s[k..][1..] == s[k + 1..];
  }

  /** The whole loader as a flat scan of the text from (1, 1). */
  lemma NewProgramIsFlat(path: string, src: string)
    ensures NewProgram(path, src).instructions == FlatScan(Scanner([], []), src, 1, 1).instrs
  {
    ScanLinesIsFlat(Scanner([], []), src, 1);
  }

  // ---------------------------------------------------------------------
  // The shape of the resolved pairs, and the loader's invariant
  // ---------------------------------------------------------------------

  /** Resolved partners point at each other: a `LoopStart(Some(j))` at `i`
      has `i < j` and a `LoopTerminate(Some(i))` at `j`, and conversely. */
  ghost predicate Symmetric(s: seq<CharInfo>) {
    && (forall i :: 0 <= i < |s| && s[i].raw.LoopStart? && s[i].raw.partner.Some? ==>
          var j := s[i].raw.partner.value; i < j < |s| && s[j].raw == LoopTerminate(Some(i)))
    && (forall i :: 0 <= i < |s| && s[i].raw.LoopTerminate? && s[i].raw.partner.Some? ==>
          var j := s[i].raw.partner.value; j < i && s[j].raw == LoopStart(Some(i)))
  }

  /** `i` holds a '[' resolved to a partner after `k`, with `i < k`. */
  ghost predicate Encloses(s: seq<CharInfo>, i: int, k: int) {
    0 <= i < k < |s| && s[i].raw.LoopStart? && s[i].raw.partner.Some? && k < s[i].raw.partner.value
  }

  /** Strictly inside a resolved pair, every loop instruction is resolved,
      and its partner lies strictly inside the pair too. */
  ghost predicate Nested(s: seq<CharInfo>) {
    forall i, k :: Encloses(s, i, k) && s[k].raw.IsLoop() ==>
      s[k].raw.partner.Some? && i < s[k].raw.partner.value < s[i].raw.partner.value
  }

  /** No two resolved pairs (i, j) and (k, l) interleave as i < k < j < l. */
  ghost predicate NonCrossing(s: seq<CharInfo>) {
    forall i, k :: Encloses(s, i, k) && s[k].raw.LoopStart? && s[k].raw.partner.Some? ==>
      s[k].raw.partner.value < s[i].raw.partner.value
  }

  /** The loader's stack holds, in increasing order, exactly the indices of
      the '[' instructions that are still open. */
  ghost predicate StackExact(st: Scanner) {
    && (forall a, b :: 0 <= a < b < |st.open| ==> st.open[a] < st.open[b])
    && (forall a :: 0 <= a < |st.open| ==>
          st.open[a] < |st.instrs| && st.instrs[st.open[a]].raw == LoopStart(None))
    && (forall k :: 0 <= k < |st.instrs| && st.instrs[k].raw == LoopStart(None) ==> k in st.open)
  }

  /** A ']' left unresolved came before every '[' still on the stack. */
  ghost predicate ClosesFirst(st: Scanner) {
    forall k, a :: (0 <= k < |st.instrs| && 0 <= a < |st.open| && st.instrs[k].raw == LoopTerminate(None)) ==>
      k < st.open[a]
  }

  /** The loader's invariant between two characters. */
  ghost predicate Shaped(st: Scanner) {
    && st.Wf()
    && StackExact(st)
    && Symmetric(st.instrs)
    && Nested(st.instrs)
    && ClosesFirst(st)
  }

  lemma NestedNonCrossing(s: seq<CharInfo>)
    requires Nested(s)
    ensures NonCrossing(s)
  {
  }

  /** Appending a command that is neither a '[' nor a resolved ']'. */
  lemma ShapedAppend(st: Scanner, x: CharInfo)
    requires Shaped(st)
    requires x.raw != LoopStart(None) && !(x.raw.IsLoop() && x.raw.partner.Some?)
    requires x.raw == LoopTerminate(None) ==> st.open == []
    ensures Shaped(Scanner(st.instrs + [x], st.open))
  {
    AppendKeepsPairs(st.instrs, x);
    AppendKeepsStack(st, x);
  }

  /** The pairs of such an append are the old ones. */
  lemma AppendKeepsPairs(s: seq<CharInfo>, x: CharInfo)
    requires Symmetric(s) && Nested(s)
    requires !(x.raw.IsLoop() && x.raw.partner.Some?)
    ensures Symmetric(s + [x]) && Nested(s + [x])
  {
    var s' := s + [x];
    assert forall i :: 0 <= i < |s| ==> s'[i] == s[i];
    assert forall i, k :: Encloses(s', i, k) ==> Encloses(s, i, k);
  }

  /** The stack of such an append still matches the open '['s. */
  lemma AppendKeepsStack(st: Scanner, x: CharInfo)
    requires Shaped(st)
    requires x.raw != LoopStart(None)
    requires x.raw == LoopTerminate(None) ==> st.open == []
    ensures var r := Scanner(st.instrs + [x], st.open);
      r.Wf() && StackExact(r) && ClosesFirst(r)
  {
    var s := st.instrs;
    var s' := s + [x];
    assert forall i :: 0 <= i < |s| ==> s'[i] == s[i];
    forall k | 0 <= k < |s'| && s'[k].raw == LoopStart(None)
      ensures k in st.open
    {
      assert k < |s|;
    }
  }

  lemma PushStack(st: Scanner, line: nat, col: nat)
    requires Shaped(st)
    ensures StackExact(ScanChar(st, '[', line, col))
  {
    var r := ScanChar(st, '[', line, col);
    var n := |st.instrs|;
    assert r.open == st.open + [n];
    assert forall i :: 0 <= i < n ==> r.instrs[i] == st.instrs[i];
    forall k | 0 <= k < |r.instrs| && r.instrs[k].raw == LoopStart(None)
      ensures k in r.open
    {
      if k < n {
        assert k in st.open;
      }
    }
  }

  lemma PushPairs(st: Scanner, line: nat, col: nat)
    requires Shaped(st)
    ensures Symmetric(ScanChar(st, '[', line, col).instrs)
    ensures Nested(ScanChar(st, '[', line, col).instrs)
    ensures ClosesFirst(ScanChar(st, '[', line, col))
  {
    var r := ScanChar(st, '[', line, col);
    var s := st.instrs;
    var n := |s|;
    assert r.instrs == s + [CharInfo(LoopStart(None), line, col)];
    assert forall i :: 0 <= i < n ==> r.instrs[i] == s[i];
    assert forall i, k :: Encloses(r.instrs, i, k) ==> Encloses(s, i, k);
    forall k, a | 0 <= k < |r.instrs| && 0 <= a < |r.open| && r.instrs[k].raw == LoopTerminate(None)
      ensures k < r.open[a]
    {
      assert k < n;
      if a < |st.open| {
        assert r.open[a] == st.open[a];
      }
    }
  }

  /** Facts about the stack top `t` that a ']' pops. */
  lemma TopFacts(st: Scanner)
    requires Shaped(st)
    requires |st.open| > 0
    ensures var t := st.open[|st.open| - 1];
      && t < |st.instrs| && st.instrs[t].raw == LoopStart(None)
      && (forall k :: t < k < |st.instrs| && st.instrs[k].raw.LoopStart? ==> st.instrs[k].raw.partner.Some?)
      && (forall k :: 0 <= k < |st.instrs| && st.instrs[k].raw == LoopTerminate(None) ==> k < t)
  {
  }

  lemma PopStack(st: Scanner, line: nat, col: nat)
    requires Shaped(st)
    requires |st.open| > 0
    ensures StackExact(ScanChar(st, ']', line, col))
    ensures ClosesFirst(ScanChar(st, ']', line, col))
  {
    PopStackOpen(st, line, col);
    PopStackComplete(st, line, col);
    PopClosesFirst(st, line, col);
  }

  /** What a resolving ']' does to the loader's state: the top of the stack
      is popped, and the '[' there and the new ']' point at each other. */
  lemma PopFacts(st: Scanner, line: nat, col: nat)
    requires Shaped(st)
    requires |st.open| > 0
    ensures var r := ScanChar(st, ']', line, col);
      var t := st.open[|st.open| - 1];
      var n := |st.instrs|;
      && r.open == st.open[..|st.open| - 1]
      && |r.instrs| == n + 1 && t < n
      && r.instrs[t].raw == LoopStart(Some(n))
      && r.instrs[n].raw == LoopTerminate(Some(t))
      && (forall i :: 0 <= i < n && i != t ==> r.instrs[i] == st.instrs[i])
  {
    TopFacts(st);
  }

  /** After the pop the stack is still increasing and holds open '['s. */
  lemma PopStackOpen(st: Scanner, line: nat, col: nat)
    requires Shaped(st)
    requires |st.open| > 0
    ensures var r := ScanChar(st, ']', line, col);
      && (forall a, b :: 0 <= a < b < |r.open| ==> r.open[a] < r.open[b])
      && (forall a :: 0 <= a < |r.open| ==>
            r.open[a] < |r.instrs| && r.instrs[r.open[a]].raw == LoopStart(None))
  {
    var r := ScanChar(st, ']', line, col);
    PopFacts(st, line, col);
    forall a | 0 <= a < |r.open|
      ensures r.open[a] < |r.instrs| && r.instrs[r.open[a]].raw == LoopStart(None)
    {
      assert r.open[a] == st.open[a];
      assert st.open[a] < st.open[|st.open| - 1];
    }
  }

  /** After the pop every open '[' is still on the stack. */
  lemma PopStackComplete(st: Scanner, line: nat, col: nat)
    requires Shaped(st)
    requires |st.open| > 0
    ensures var r := ScanChar(st, ']', line, col);
      forall k :: 0 <= k < |r.instrs| && r.instrs[k].raw == LoopStart(None) ==> k in r.open
  {
    var r := ScanChar(st, ']', line, col);
    var t := st.open[|st.open| - 1];
    var n := |st.instrs|;
    PopFacts(st, line, col);
    forall k | 0 <= k < |r.instrs| && r.instrs[k].raw == LoopStart(None)
      ensures k in r.open
    {
      assert k != t && k != n;
      assert k in st.open;
      var a :| 0 <= a < |st.open| && st.open[a] == k;
      assert a != |st.open| - 1;
      assert r.open[a] == k;
    }
  }

  /** After the pop an unresolved ']' still precedes every open '['. */
  lemma PopClosesFirst(st: Scanner, line: nat, col: nat)
    requires Shaped(st)
    requires |st.open| > 0
    ensures ClosesFirst(ScanChar(st, ']', line, col))
  {
    var r := ScanChar(st, ']', line, col);
    var t := st.open[|st.open| - 1];
    var n := |st.instrs|;
    PopFacts(st, line, col);
    forall k, a | 0 <= k < |r.instrs| && 0 <= a < |r.open| && r.instrs[k].raw == LoopTerminate(None)
      ensures k < r.open[a]
    {
      assert k != n && k != t;
      assert r.open[a] == st.open[a];
    }
  }

  lemma PopSymmetric(st: Scanner, line: nat, col: nat)
    requires Shaped(st)
    requires |st.open| > 0
    ensures Symmetric(ScanChar(st, ']', line, col).instrs)
  {
    var s' := ScanChar(st, ']', line, col).instrs;
    var s := st.instrs;
    var n := |s|;
    var t := st.open[|st.open| - 1];
    TopFacts(st);
    assert |s'| == n + 1;
    assert s'[t].raw == LoopStart(Some(n));
    assert s'[n].raw == LoopTerminate(Some(t));
    assert forall i :: 0 <= i < n && i != t ==> s'[i] == s[i];
    forall i | 0 <= i < |s'| && s'[i].raw.LoopStart? && s'[i].raw.partner.Some?
      ensures var j := s'[i].raw.partner.value; i < j < |s'| && s'[j].raw == LoopTerminate(Some(i))
    {
      if i != t {
        var j := s[i].raw.partner.value;
        assert s[j].raw == LoopTerminate(Some(i));
      }
    }
    forall i | 0 <= i < |s'| && s'[i].raw.LoopTerminate? && s'[i].raw.partner.Some?
      ensures var j := s'[i].raw.partner.value; j < i && s'[j].raw == LoopStart(Some(i))
    {
      if i != n {
        var j := s[i].raw.partner.value;
        assert s[j].raw == LoopStart(Some(i));
      }
    }
  }

  lemma PopNested(st: Scanner, line: nat, col: nat)
    requires Shaped(st)
    requires |st.open| > 0
    ensures Nested(ScanChar(st, ']', line, col).instrs)
  {
    var s' := ScanChar(st, ']', line, col).instrs;
    var s := st.instrs;
    var n := |s|;
    var t := st.open[|st.open| - 1];
    TopFacts(st);
    assert |s'| == n + 1;
    assert s'[t].raw == LoopStart(Some(n));
    assert s'[n].raw == LoopTerminate(Some(t));
    assert forall i :: 0 <= i < n && i != t ==> s'[i] == s[i];
    forall i, k | Encloses(s', i, k) && s'[k].raw.IsLoop()
      ensures s'[k].raw.partner.Some? && i < s'[k].raw.partner.value < s'[i].raw.partner.value
    {
      if i == t {
        assert k < n && k != t;
        if s[k].raw.LoopTerminate? {
          var m := s[k].raw.partner.value;
          assert s[m].raw == LoopStart(Some(k));
          if m < t {
            assert Encloses(s, m, t);
            assert false;
          }
        }
      } else {
        assert Encloses(s, i, k);
        if k == t {
          assert false;
        }
      }
    }
  }

  lemma ScanCharShaped(st: Scanner, c: char, line: nat, col: nat)
    requires Shaped(st)
    ensures Shaped(ScanChar(st, c, line, col))
  {
    match RawInstruction(c)
    case None =>
    case Some(k) =>
      if c == '[' {
        PushStack(st, line, col);
        PushPairs(st, line, col);
      } else if c == ']' && |st.open| > 0 {
        PopStack(st, line, col);
        PopSymmetric(st, line, col);
        PopNested(st, line, col);
      } else {
        ShapedAppend(st, CharInfo(k, line, col));
      }
  }

  // ---------------------------------------------------------------------
  // Which characters become instructions, and at which position
  // ---------------------------------------------------------------------

  /** Number of occurrences of `c` in `s`. */
  ghost function Count(s: string, c: char): nat {
    if s == [] then 0
    else Count(s[..|s| - 1], c) + (if s[|s| - 1] == c then 1 else 0)
  }

  /** The line of the character that follows the text `p`: one more than the
      number of line feeds in `p`. */
  ghost function LineOf(p: string): nat {
    1 + Count(p, '\n')
  }

  /** The column of the character that follows the text `p`: one more than
      the number of characters after the last line feed of `p`. */
  ghost function ColumnOf(p: string): nat {
    if p == [] then 1
    else if p[|p| - 1] == '\n' then 1
    else ColumnOf(p[..|p| - 1]) + 1
  }

  /** Every command character of `s`, in order, with the position it has in
      `s` and no partner. */
  ghost function Commands(s: string): seq<CharInfo> {
    if s == [] then []
    else
      var p := s[..|s| - 1];
      Commands(p) + match RawInstruction(s[|s| - 1])
        case None => []
        case Some(k) => [CharInfo(k, LineOf(p), ColumnOf(p))]
  }

  /** A command with its partner forgotten. */
  function Unresolve(k: CmdName): CmdName {
    match k
    case LoopStart(_) => LoopStart(None)
    case LoopTerminate(_) => LoopTerminate(None)
    case _ => k
  }

  /** `instrs` is `cmds` up to bracket partners. */
  ghost predicate SameCommands(instrs: seq<CharInfo>, cmds: seq<CharInfo>) {
    && |instrs| == |cmds|
    && forall i :: 0 <= i < |instrs| ==>
         CharInfo(Unresolve(instrs[i].raw), instrs[i].line, instrs[i].column) == cmds[i]
  }

  lemma ScanCharCommands(st: Scanner, p: string, c: char, line: nat, col: nat)
    requires Shaped(st)
    requires SameCommands(st.instrs, Commands(p))
    requires line == LineOf(p) && col == ColumnOf(p)
    ensures SameCommands(ScanChar(st, c, line, col).instrs, Commands(p + [c]))
  {
    assert (p + [c])[..|p|] == p && (p + [c])[|p|] == c;
    var r := ScanChar(st, c, line, col);
    match RawInstruction(c)
    case None =>
    case Some(k) =>
      assert Commands(p + [c]) == Commands(p) + [CharInfo(k, line, col)];
      forall i | 0 <= i < |r.instrs|
        ensures CharInfo(Unresolve(r.instrs[i].raw), r.instrs[i].line, r.instrs[i].column)
             == Commands(p + [c])[i]
      {
        if i < |st.instrs| {
          if c == ']' && |st.open| > 0 {
            TopFacts(st);
          }
          assert Unresolve(r.instrs[i].raw) == Unresolve(st.instrs[i].raw);
        }
      }
  }

  /** A line feed moves to column 1 of the next line; any other character
      moves one column right on the same line. */
  lemma PositionAfter(p: string, c: char)
    ensures LineOf(p + [c]) == LineOf(p) + (if c == '\n' then 1 else 0)
    ensures ColumnOf(p + [c]) == if c == '\n' then 1 else ColumnOf(p) + 1
  {
    assert (p + [c])[..|p|] == p;
  }

  lemma {:induction false} FlatScanCommands(st: Scanner, p: string, s: string, line: nat, col: nat)
    requires Shaped(st)
    requires SameCommands(st.instrs, Commands(p))
    requires line == LineOf(p) && col == ColumnOf(p)
    ensures SameCommands(FlatScan(st, s, line, col).instrs, Commands(p + s))
    decreases |s|
  {
    if s == [] {
      assert p + s == p;
    } else {
      var p' := p + [s[0]];
      assert p + s == p' + s[1..];
      PositionAfter(p, s[0]);
      if s[0] == '\n' {
        FlatScanCommands(st, p', s[1..], line + 1, 1);
      } else {
        ScanCharCommands(st, p, s[0], line, col);
        ScanCharShaped(st, s[0], line, col);
        FlatScanCommands(ScanChar(st, s[0], line, col), p', s[1..], line, col + 1);
      }
    }
  }

  /** Only the eight command characters produce instructions, one each, in
      source order, tagged with their 1-based line and column (the column
      counting every character of the line, command or not). */
  lemma NewProgramCommands(path: string, src: string)
    ensures SameCommands(NewProgram(path, src).instructions, Commands(src))
  {
    NewProgramIsFlat(path, src);
    assert [] + src == src;
    assert Shaped(Scanner([], []));
    FlatScanCommands(Scanner([], []), [], src, 1, 1);
  }

  // ---------------------------------------------------------------------
  // Bracket balance of the raw text
  // ---------------------------------------------------------------------

  /** Number of '[' minus number of ']' in `p`. */
  ghost function Depth(p: string): int {
    if p == [] then 0
    else Depth(p[..|p| - 1]) + (if p[|p| - 1] == '[' then 1 else if p[|p| - 1] == ']' then -1 else 0)
  }

  /** Some non-empty prefix of `p` has more ']' than '['. */
  ghost predicate Dips(p: string) {
    p != [] && (Dips(p[..|p| - 1]) || Depth(p) < 0)
  }

  /** Every prefix has at least as many '[' as ']', and the whole text has
      as many of each. */
  ghost predicate Balanced(s: string) {
    && (forall k :: 0 <= k <= |s| ==> Depth(s[..k]) >= 0)
    && Depth(s) == 0
  }

  lemma {:induction false} DipsPrefixes(p: string)
    ensures Dips(p) <==> exists k :: 0 <= k <= |p| && Depth(p[..k]) < 0
    decreases |p|
  {
    if p == [] {
      assert forall k :: 0 <= k <= |p| ==> p[..k] == [];
    } else {
      var q := p[..|p| - 1];
      DipsPrefixes(q);
      assert forall k :: 0 <= k <= |q| ==> q[..k] == p[..k];
      assert p[..|p|] == p;
    }
  }

  ghost predicate HasUnresolvedClose(s: seq<CharInfo>) {
    exists k :: 0 <= k < |s| && s[k].raw == LoopTerminate(None)
  }

  /** After scanning `p`: a ']' is unresolved exactly when some prefix of `p`
      dips, and otherwise the stack depth is the bracket depth of `p`. */
  ghost predicate BalanceTracked(p: string, st: Scanner) {
    && (HasUnresolvedClose(st.instrs) <==> Dips(p))
    && (!Dips(p) ==> |st.open| == Depth(p))
  }

  /** A '[' deepens the text by one and a ']' makes it shallower by one;
      the text dips once it did before or its new depth is negative. */
  lemma DepthAfter(p: string, c: char)
    ensures Depth(p + [c]) == Depth(p) + (if c == '[' then 1 else if c == ']' then -1 else 0)
    ensures Dips(p + [c]) <==> Dips(p) || Depth(p + [c]) < 0
  {
    assert (p + [c])[..|p|] == p;
  }

  lemma ScanCharBalance(st: Scanner, p: string, c: char, line: nat, col: nat)
    requires Shaped(st)
    requires BalanceTracked(p, st)
    ensures BalanceTracked(p + [c], ScanChar(st, c, line, col))
  {
    DepthAfter(p, c);
    var p' := p + [c];
    var r := ScanChar(st, c, line, col);
    var s := st.instrs;
    assert !Dips(p) ==> Depth(p) >= 0;
    match RawInstruction(c)
    case None =>
    case Some(k) =>
      var n := |s|;
      if c == ']' && |st.open| > 0 {
        TopFacts(st);
        var t := st.open[|st.open| - 1];
        assert r.instrs[n].raw == LoopTerminate(Some(t));
        assert r.instrs[t].raw == LoopStart(Some(n));
        assert forall i :: 0 <= i < n && i != t ==> r.instrs[i] == s[i];
        if HasUnresolvedClose(s) {
          var u :| 0 <= u < n && s[u].raw == LoopTerminate(None);
          assert r.instrs[u] == s[u];
        }
        if HasUnresolvedClose(r.instrs) {
          var u :| 0 <= u < |r.instrs| && r.instrs[u].raw == LoopTerminate(None);
          assert s[u] == r.instrs[u];
        }
      } else {
        assert r.instrs == s + [CharInfo(k, line, col)];
        assert forall i :: 0 <= i < n ==> r.instrs[i] == s[i];
        if HasUnresolvedClose(s) {
          var u :| 0 <= u < n && s[u].raw == LoopTerminate(None);
          assert r.instrs[u] == s[u];
        }
        if c == ']' {
          assert r.instrs[n].raw == LoopTerminate(None);
        } else if HasUnresolvedClose(r.instrs) {
          var u :| 0 <= u < |r.instrs| && r.instrs[u].raw == LoopTerminate(None);
          assert u < n;
        }
      }
  }

  // ---------------------------------------------------------------------
  // The loader's results
  // ---------------------------------------------------------------------

  lemma {:induction false} FlatScanInvariant(st: Scanner, p: string, s: string, line: nat, col: nat)
    requires Shaped(st)
    requires BalanceTracked(p, st)
    ensures Shaped(FlatScan(st, s, line, col))
    ensures BalanceTracked(p + s, FlatScan(st, s, line, col))
    decreases |s|
  {
    if s == [] {
      assert p + s == p;
    } else {
      var p' := p + [s[0]];
      assert p + s == p' + s[1..];
      if s[0] == '\n' {
        ScanCharBalance(st, p, '\n', line, col);
        FlatScanInvariant(st, p', s[1..], line + 1, 1);
      } else {
        ScanCharShaped(st, s[0], line, col);
        ScanCharBalance(st, p, s[0], line, col);
        FlatScanInvariant(ScanChar(st, s[0], line, col), p', s[1..], line, col + 1);
      }
    }
  }

  /** The scanner state the loader ends in, with its invariant. */
  lemma FinalScanner(path: string, src: string) returns (st: Scanner)
    ensures st.Wf() && st.instrs == NewProgram(path, src).instructions
    ensures Shaped(st)
    ensures BalanceTracked(src, st)
  {
    NewProgramIsFlat(path, src);
    var init := Scanner([], []);
    assert Shaped(init);
    assert BalanceTracked([], init);
    assert [] + src == src;
    FlatScanInvariant(init, [], src, 1, 1);
    st := FlatScan(init, src, 1, 1);
  }

  /** A ']' stays unresolved exactly when every '[' before it is already
      closed before it (the stack was empty when it arrived). */
  ghost predicate UnmatchedClosesExact(s: seq<CharInfo>) {
    forall k :: 0 <= k < |s| && s[k].raw.LoopTerminate? ==>
      (s[k].raw.partner.None? <==>
        forall i :: 0 <= i < k && s[i].raw.LoopStart? ==> s[i].raw.partner.Some? && s[i].raw.partner.value < k)
  }

  /** A '[' stays unresolved exactly when every ']' after it closes a '['
      that came after it (it is never popped). */
  ghost predicate UnmatchedOpensExact(s: seq<CharInfo>) {
    forall i :: 0 <= i < |s| && s[i].raw.LoopStart? ==>
      (s[i].raw.partner.None? <==>
        forall k :: i < k < |s| && s[k].raw.LoopTerminate? ==> s[k].raw.partner.Some? && i < s[k].raw.partner.value)
  }

  lemma ShapedUnmatched(st: Scanner)
    requires Shaped(st)
    ensures UnmatchedClosesExact(st.instrs)
    ensures UnmatchedOpensExact(st.instrs)
  {
    var s := st.instrs;
    forall k | 0 <= k < |s| && s[k].raw.LoopTerminate?
      ensures s[k].raw.partner.None? <==>
        forall i :: 0 <= i < k && s[i].raw.LoopStart? ==> s[i].raw.partner.Some? && s[i].raw.partner.value < k
    {
      if s[k].raw.partner.None? {
        forall i | 0 <= i < k && s[i].raw.LoopStart?
          ensures s[i].raw.partner.Some? && s[i].raw.partner.value < k
        {
        }
      } else {
        var m := s[k].raw.partner.value;
        assert s[m].raw == LoopStart(Some(k));
      }
    }
    forall i | 0 <= i < |s| && s[i].raw.LoopStart?
      ensures s[i].raw.partner.None? <==>
        forall k :: i < k < |s| && s[k].raw.LoopTerminate? ==> s[k].raw.partner.Some? && i < s[k].raw.partner.value
    {
      if s[i].raw.partner.None? {
        assert i in st.open;
        forall k | i < k < |s| && s[k].raw.LoopTerminate?
          ensures s[k].raw.partner.Some? && i < s[k].raw.partner.value
        {
          if s[k].raw.partner.Some? {
            var m := s[k].raw.partner.value;
            assert s[m].raw == LoopStart(Some(k));
            if m < i {
              assert Encloses(s, m, i);
            }
          }
        }
      } else {
        var j := s[i].raw.partner.value;
        assert s[j].raw == LoopTerminate(Some(i));
      }
    }
  }

  /** The pairs the loader resolves: partners point at each other, follow the
      stack discipline (nested, never crossing), and a bracket is left
      unresolved exactly when the stack gave it no partner. */
  lemma NewProgramPairs(path: string, src: string)
    ensures var s := NewProgram(path, src).instructions;
      && Symmetric(s)
      && Nested(s)
      && NonCrossing(s)
      && UnmatchedClosesExact(s)
      && UnmatchedOpensExact(s)
  {
    var st := FinalScanner(path, src);
    NestedNonCrossing(st.instrs);
    ShapedUnmatched(st);
  }

  /** Validation of a loaded program succeeds exactly when the text's
      brackets are balanced. */
  lemma ValidateIffBalanced(path: string, src: string)
    ensures MatchSquareBracket(NewProgram(path, src)).Success? <==> Balanced(src)
  {
    var st := FinalScanner(path, src);
    var s := st.instrs;
    DipsPrefixes(src);
    var ok := forall i :: 0 <= i < |s| ==> !s[i].raw.Unresolved();
    if ok {
      assert !HasUnresolvedClose(s);
      if |st.open| > 0 {
        assert s[st.open[0]].raw.Unresolved();
      }
    }
    if Balanced(src) {
      assert !Dips(src);
      assert |st.open| == 0;
      assert !HasUnresolvedClose(s);
      assert forall i :: 0 <= i < |s| ==> s[i].raw != LoopTerminate(None);
    }
  }

  /** A rejected text is rejected at the first unresolved bracket, reported
      at that bracket's own line and column in the text. */
  lemma ValidateReportsPosition(path: string, src: string)
    ensures var s := NewProgram(path, src).instructions;
      var r := MatchSquareBracket(NewProgram(path, src));
      r.Failure? ==>
        exists k :: 0 <= k < |s| && k < |Commands(src)|
          && r.error.at == s[k]
          && Commands(src)[k] == CharInfo(Unresolve(s[k].raw), s[k].line, s[k].column)
          && s[k].raw.Unresolved()
          && forall i :: 0 <= i < k ==> !s[i].raw.Unresolved()
  {
    NewProgramCommands(path, src);
  }
}

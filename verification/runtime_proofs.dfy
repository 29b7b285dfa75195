/** What the routines `initCodeGenerator` creates do when the MicroJava VM
    runs them: each lemma starts one activation at a routine's entry, with the
    routine's code still in place in a larger code buffer, and states the
    machine it stops in. */
module RuntimeProofs {
  import opened Types
  import opened Bytecode
  import opened Runtime
  import opened Execution

  // ---------------------------------------------------------------- hosting

  /** `code` begins with everything the builder left in `r`: the routine built
      into `r` sits, unchanged, in `code`, whatever was emitted after it. */
  predicate Extends(code: Buf, r: Buf)
  {
    && Valid(code) && Valid(r) && |r.instrs| <= |code.instrs|
    && code.instrs[..|r.instrs|] == r.instrs
  }

  /** Every instruction of `r` keeps its address in a buffer that extends it. */
  lemma {:induction false} ExtendsAddrs(code: Buf, r: Buf, k: int)
    requires Extends(code, r) && 0 <= k < |r.instrs|
    ensures code.addrs[k] == r.addrs[k]
  {
    var big := Emit(code, Return);
    EmitValid(code, Return);
    ValidConsecutive(r);
    ValidConsecutive(code);
    ValidConsecutive(big);
    assert big.instrs[..|code.instrs|] == code.instrs;
    assert big.instrs[..|r.instrs|] == r.instrs;
    SameAddrs(code, big, k);
    SameAddrs(r, big, k);
  }

  /** A jump to the address of instruction `k` of `r` lands on it. */
  lemma {:induction false} Lands(code: Buf, r: Buf, k: int)
    requires Extends(code, r) && 0 <= k < |r.instrs|
    ensures IndexOf(code.addrs, r.addrs[k]) == Some(k)
  {
    ExtendsAddrs(code, r, k);
    IndexOfAddr(code, k);
  }

  /** Instruction `k` of the code `c` a builder appended to `p`. */
  lemma {:induction false} HostedAt(code: Buf, r: Buf, p: seq<Instr>, c: seq<Instr>, k: int, j: int)
    requires Extends(code, r) && r.instrs == p + c && 0 <= k < |c| && j == |p| + k
    ensures code.instrs[j] == c[k]
  {
    assert code.instrs[j] == code.instrs[..|r.instrs|][j];
  }

  /** Instructions `i` to `j` of the code `c` a builder appended to `p`. */
  lemma {:induction false} HostedSlice(code: Buf, r: Buf, p: seq<Instr>, c: seq<Instr>, i: int, j: int, lo: int, hi: int)
    requires Extends(code, r) && r.instrs == p + c && 0 <= i <= j <= |c| && lo == |p| + i && hi == |p| + j
    ensures code.instrs[lo..hi] == c[i..j]
  {
    var q := code.instrs[..|r.instrs|];
    assert code.instrs[lo..hi] == q[lo..hi];
    forall x | 0 <= x < hi - lo
      ensures q[lo..hi][x] == c[i..j][x]
    {
      assert q[lo + x] == (p + c)[lo + x];
    }
    assert q[lo..hi] == c[i..j];
  }

  // ---------------------------------------------------------------- strings

  /** What a routine's first `load_1` pushes: local 1 when the frame has it,
      otherwise whatever lies past the frame. */
  function Width(m: Machine): int
  {
    if 1 < |m.locals| then m.locals[1] else m.stale
  }

  /** The characters of `s` printed as characters, the first with width `w`
      and the others with width 1. */
  function Printout(s: string, w: int): (o: seq<Printed>)
    ensures |o| == |s|
  {
    seq(|s|, k requires 0 <= k < |s| => Printed(s[k] as int, if k == 0 then w else 1, true))
  }

  lemma {:induction false} PrintoutSnoc(s: string, w: int)
    requires |s| > 0
    ensures var n := |s| - 1;
            Printout(s[..n], w) + [Printed(s[n] as int, if n == 0 then w else 1, true)] == Printout(s, w)
  {
    var n := |s| - 1;
    var l := Printout(s[..n], w) + [Printed(s[n] as int, if n == 0 then w else 1, true)];
    var r := Printout(s, w);
    assert |l| == |r|;
    forall k | 0 <= k < |r|
      ensures l[k] == r[k]
    {
      if k < n {
        assert s[..n][k] == s[k];
      }
    }
  }

  /** The three instructions of one character. */
  lemma {:induction false} RunChar(code: Buf, m: Machine, s: string, i: nat)
    requires i < |s| && m.status.Running? && 0 <= m.ip && m.ip + 3 <= |code.instrs|
    requires code.instrs[m.ip..m.ip + 3] == CharCode(s, i)
    ensures Steps(code, m, 3)
            == m.(ip := m.ip + 3, out := m.out + [Printed(s[i] as int, if i == 0 then Width(m) else 1, true)])
  {
    var st := m.stack;
    var w := if i == 0 then Width(m) else 1;
    var m1 := m.(ip := m.ip + 1, stack := st + [s[i] as int]);
    var m2 := m.(ip := m.ip + 2, stack := st + [s[i] as int, w]);
    var m3 := m.(ip := m.ip + 3, out := m.out + [Printed(s[i] as int, w, true)]);
    assert code.instrs[m.ip] == CharCode(s, i)[0];
    assert code.instrs[m.ip + 1] == CharCode(s, i)[1];
    assert code.instrs[m.ip + 2] == CharCode(s, i)[2];
    assert (st + [s[i] as int, w])[..|st|] == st;
    assert Step(code, m) == m1;
    assert Step(code, m1) == m2;
    assert Step(code, m2) == m3;
    StepsVia(code, [m, m1, m2, m3]);
  }

  /** One more character after a run of `a` steps. */
  lemma {:induction false} RunCharAfter(code: Buf, m0: Machine, a: nat, s: string, i: nat)
    requires var m := Steps(code, m0, a);
             i < |s| && m.status.Running? && 0 <= m.ip && m.ip + 3 <= |code.instrs|
             && code.instrs[m.ip..m.ip + 3] == CharCode(s, i)
    ensures var m := Steps(code, m0, a);
            Steps(code, m0, a + 3)
            == m.(ip := m.ip + 3, out := m.out + [Printed(s[i] as int, if i == 0 then Width(m) else 1, true)])
  {
    var m := Steps(code, m0, a);
    assert code.instrs[m.ip] == CharCode(s, i)[0];
    assert code.instrs[m.ip + 1] == CharCode(s, i)[1];
    assert code.instrs[m.ip + 2] == CharCode(s, i)[2];
    RunChar(code, m, s, i);
    StepsAdd(code, m0, a, 3);
  }

  /** `printStringLiteral(s)` takes three steps a character and prints the
      characters of `s` in order; only the first one's width comes from
      local 1. */
  lemma {:induction false} RunPrintString(code: Buf, m: Machine, s: string)
    requires m.status.Running? && 0 <= m.ip && m.ip + 3 * |s| <= |code.instrs|
    requires code.instrs[m.ip..m.ip + 3 * |s|] == PrintStringCode(s)
    ensures Steps(code, m, 3 * |s|)
            == m.(ip := m.ip + 3 * |s|, out := m.out + Printout(s, Width(m)))
    decreases |s|
  {
    if |s| == 0 {
      assert m.out + Printout(s, Width(m)) == m.out;
    } else {
      var n := |s| - 1;
      assert PrintStringCode(s) == PrintStringCode(s[..n]) + CharCode(s, n);
      SliceSplit(code.instrs, m.ip, m.ip + 3 * n, m.ip + 3 * |s|);
      RunPrintString(code, m, s[..n]);
      RunPrintStringLast(code, m, s);
    }
  }

  /** The last character of `s` after the ones before it. */
  lemma {:induction false} RunPrintStringLast(code: Buf, m: Machine, s: string)
    requires |s| > 0 && m.status.Running? && 0 <= m.ip && m.ip + 3 * |s| <= |code.instrs|
    requires code.instrs[m.ip + 3 * (|s| - 1)..m.ip + 3 * |s|] == CharCode(s, |s| - 1)
    requires Steps(code, m, 3 * (|s| - 1))
             == m.(ip := m.ip + 3 * (|s| - 1), out := m.out + Printout(s[..|s| - 1], Width(m)))
    ensures Steps(code, m, 3 * |s|)
            == m.(ip := m.ip + 3 * |s|, out := m.out + Printout(s, Width(m)))
  {
    var n := |s| - 1;
    var w := Width(m);
    var a := Printout(s[..n], w);
    var x := Printed(s[n] as int, if n == 0 then w else 1, true);
    RunCharAfter(code, m, 3 * n, s, n);
    PrintoutSnoc(s, w);
    AppendAssoc(m.out, a, [x]);
  }

  // ---------------------------------------------------------------- guards

  /** The instructions of a hosted guard the runs below execute, with `k`
      the number of message instructions. */
  predicate GuardAt(code: Buf, n: int, op: Rel, k: int, c: int, t: int)
  {
    && 0 <= n && 0 <= k && n + 7 + k <= |code.instrs|
    && code.instrs[n] == Enter(1, 1) && code.instrs[n + 1] == Load(0)
    && code.instrs[n + 2] == Const(0) && code.instrs[n + 3] == Jcc(Inverse(op), t)
    && code.instrs[n + 4 + k] == Trap(c) && code.instrs[n + 5 + k] == Exit
    && code.instrs[n + 6 + k] == Return
    && IndexOf(code.addrs, t) == Some(n + 5 + k)
  }

  /** The instructions of a guard's code, with `k` its message's length. */
  lemma {:induction false} GuardCodeToAt(t: int, op: Rel, msg: string, c: int, k: int)
    requires k == 3 * |msg|
    ensures GuardShape(GuardCodeTo(t, op, msg, c), op, k, c, t)
    ensures GuardCodeTo(t, op, msg, c)[4..4 + k] == PrintStringCode(msg)
  {
    var head := [Enter(1, 1), Load(0), Const(0), Jcc(Inverse(op), t)];
    Middle(head, PrintStringCode(msg), [Trap(c), Exit, Return], 4, 4 + k);
  }

  /** A guard's instructions as a sequence. */
  predicate GuardShape(g: seq<Instr>, op: Rel, k: int, c: int, t: int)
  {
    && 0 <= k && |g| == 7 + k
    && g[0] == Enter(1, 1) && g[1] == Load(0) && g[2] == Const(0) && g[3] == Jcc(Inverse(op), t)
    && g[4 + k] == Trap(c) && g[5 + k] == Exit && g[6 + k] == Return
  }

  /** A guard's code a builder appended to `p`, with its final code at
      address `t`, is in place wherever the builder's buffer survives. */
  lemma {:induction false} GuardIn(code: Buf, r: Buf, p: seq<Instr>, g: seq<Instr>, op: Rel, k: int, c: int, t: int, n: int)
    requires Extends(code, r) && r.instrs == p + g && GuardShape(g, op, k, c, t)
    requires n == |p| && r.addrs[n + 5 + k] == t
    ensures GuardAt(code, n, op, k, c, t)
  {
    HostedAt(code, r, p, g, 0, n);
    HostedAt(code, r, p, g, 1, n + 1);
    HostedAt(code, r, p, g, 2, n + 2);
    HostedAt(code, r, p, g, 3, n + 3);
    HostedAt(code, r, p, g, 4 + k, n + 4 + k);
    HostedAt(code, r, p, g, 5 + k, n + 5 + k);
    HostedAt(code, r, p, g, 6 + k, n + 6 + k);
    Lands(code, r, n + 5 + k);
  }

  lemma {:induction false} GuardCodeIsTo(base: int, op: Rel, msg: string, c: int, t: int)
    requires t == base + 10 + Len(PrintStringCode(msg))
    ensures GuardCode(base, op, msg, c) == GuardCodeTo(t, op, msg, c)
  {
  }

  /** What `Guard(b, ..)` appends, with its skip target `t`. */
  lemma {:induction false} GuardBuilt(b: Buf, op: Rel, msg: string, c: int, t: int)
    requires 0 <= c < 256 && t == b.pc + 10 + Len(PrintStringCode(msg))
    ensures Guard(b, op, msg, c).instrs == b.instrs + GuardCodeTo(t, op, msg, c)
  {
    GuardCodeIsTo(b.pc, op, msg, c, t);
    GuardLayout(b, op, msg, c);
  }

  /** The message of a guard's code a builder appended to `p`. */
  lemma {:induction false} GuardMessageIn(code: Buf, r: Buf, p: seq<Instr>, g: seq<Instr>, k: int, n: int)
    requires Extends(code, r) && r.instrs == p + g && 0 <= k && 4 + k <= |g| && n == |p|
    ensures code.instrs[n + 4..n + 4 + k] == g[4..4 + k]
  {
    HostedSlice(code, r, p, g, 4, 4 + k, n + 4, n + 4 + k);
  }

  /** The guard `Guard(b, ..)` built after `b` is in place, with its skip
      target `t`, in every buffer that extends the builder's. */
  lemma {:induction false} GuardInPlace(code: Buf, b: Buf, op: Rel, msg: string, c: int, n: int, k: int, t: int)
    requires 0 <= c < 256 && Extends(code, Guard(b, op, msg, c))
    requires n == |b.instrs| && |b.addrs| == n && k == 3 * |msg| && t == b.pc + 10 + Len(PrintStringCode(msg))
    ensures GuardAt(code, n, op, k, c, t)
    ensures code.instrs[n + 4..n + 4 + k] == PrintStringCode(msg)
  {
    GuardBuilt(b, op, msg, c, t);
    GuardLabels(b, op, msg, c, n, k, t);
    GuardCodeToAt(t, op, msg, c, k);
    GuardIn(code, Guard(b, op, msg, c), b.instrs, GuardCodeTo(t, op, msg, c), op, k, c, t, n);
    GuardMessageIn(code, Guard(b, op, msg, c), b.instrs, GuardCodeTo(t, op, msg, c), k, n);
  }

  /** The comparison that opens a one-argument guard: the argument `x` moves
      into the frame, and the jump past the message is taken exactly when
      `op` fails for `x` and 0. */
  lemma {:induction false} RunGuardTest(code: Buf, n: int, op: Rel, k: int, c: int, t: int, m: Machine)
    requires GuardAt(code, n, op, k, c, t)
    requires m.status.Running? && m.ip == n && |m.stack| >= 1
    ensures Steps(code, m, 4)
            == m.(ip := if Holds(op, m.stack[|m.stack| - 1], 0) then n + 4 else n + 5 + k,
                  stack := m.stack[..|m.stack| - 1], locals := [m.stack[|m.stack| - 1]])
  {
    var st := m.stack[..|m.stack| - 1];
    var x := m.stack[|m.stack| - 1];
    assert m.stack[|m.stack| - 1..] == [x];
    var m1 := m.(ip := n + 1, stack := st, locals := [x]);
    var m2 := m1.(ip := n + 2, stack := st + [x]);
    var m3 := m1.(ip := n + 3, stack := st + [x, 0]);
    assert (st + [x, 0])[..|st|] == st;
    var m4 := m1.(ip := if Holds(op, x, 0) then n + 4 else n + 5 + k);
    StepEnter(code, m, 1, 1);
    StepLoad(code, m1, 0);
    StepConst(code, m2, 0);
    StepJcc(code, m3, Inverse(op), t, n + 5 + k);
    Via4(code, m, m1, m2, m3, m4);
  }

  /** A message printed after a run of `a` steps. */
  lemma {:induction false} RunPrintStringAfter(code: Buf, m0: Machine, a: nat, m: Machine, s: string)
    requires Steps(code, m0, a) == m
    requires m.status.Running? && 0 <= m.ip && m.ip + 3 * |s| <= |code.instrs|
    requires code.instrs[m.ip..m.ip + 3 * |s|] == PrintStringCode(s)
    ensures Steps(code, m0, a + 3 * |s|) == m.(ip := m.ip + 3 * |s|, out := m.out + Printout(s, Width(m)))
  {
    RunPrintString(code, m, s);
    StepsAdd(code, m0, a, 3 * |s|);
  }

  /** A message and a trap after a run of `a` steps; `j` is the trap's index. */
  lemma {:induction false} RunPrintTrapAfter(code: Buf, m0: Machine, a: nat, m: Machine, s: string, c: int, j: int)
    requires Steps(code, m0, a) == m
    requires m.status.Running? && 0 <= m.ip && m.ip + 3 * |s| < |code.instrs|
    requires code.instrs[m.ip..m.ip + 3 * |s|] == PrintStringCode(s)
    requires j == m.ip + 3 * |s| && code.instrs[j] == Trap(c)
    ensures Steps(code, m0, a + 3 * |s| + 1)
            == m.(ip := j, out := m.out + Printout(s, Width(m)), status := Trapped(c))
  {
    RunPrintStringAfter(code, m0, a, m, s);
    var m1 := m.(ip := j, out := m.out + Printout(s, Width(m)));
    StepTrap(code, m1, c);
    Via1(code, m1, m1.(status := Trapped(c)));
    StepsChain(code, m0, a + 3 * |s|, 1, m1.(status := Trapped(c)));
  }

  /** When `op` holds for the argument and 0, the guard prints its message,
      the first character with whatever lies past its one-slot frame as the
      width, and traps with `c`. */
  lemma {:induction false} RunGuardTraps(code: Buf, n: int, op: Rel, msg: string, c: int, t: int, m: Machine)
    requires GuardAt(code, n, op, 3 * |msg|, c, t)
    requires code.instrs[n + 4..n + 4 + 3 * |msg|] == PrintStringCode(msg)
    requires m.status.Running? && m.ip == n && |m.stack| >= 1
    requires Holds(op, m.stack[|m.stack| - 1], 0)
    ensures Steps(code, m, 5 + 3 * |msg|)
            == m.(ip := n + 4 + 3 * |msg|, stack := m.stack[..|m.stack| - 1], locals := [m.stack[|m.stack| - 1]],
                  out := m.out + Printout(msg, m.stale), status := Trapped(c))
  {
    RunGuardTest(code, n, op, 3 * |msg|, c, t, m);
    var m4 := m.(ip := n + 4, stack := m.stack[..|m.stack| - 1], locals := [m.stack[|m.stack| - 1]]);
    var head := 4;
    RunPrintTrapAfter(code, m, head, m4, msg, c, n + 4 + 3 * |msg|);
  }

  /** When `op` fails for the argument and 0, the guard pops the argument and
      returns. */
  lemma {:induction false} RunGuardReturns(code: Buf, n: int, op: Rel, k: int, c: int, t: int, m: Machine)
    requires GuardAt(code, n, op, k, c, t)
    requires m.status.Running? && m.ip == n && |m.stack| >= 1
    requires !Holds(op, m.stack[|m.stack| - 1], 0)
    ensures Steps(code, m, 6)
            == m.(ip := n + 6 + k, stack := m.stack[..|m.stack| - 1], locals := [], status := Returned)
  {
    RunGuardTest(code, n, op, k, c, t, m);
    var m4 := m.(ip := n + 5 + k, stack := m.stack[..|m.stack| - 1], locals := [m.stack[|m.stack| - 1]]);
    var m5 := m4.(ip := n + 6 + k, locals := []);
    StepExit(code, m4);
    StepReturn(code, m5);
    Via2(code, m4, m5, m5.(status := Returned));
    StepsChain(code, m, 4, 2, m5.(status := Returned));
  }

  /** `createArrayLengthCheckFunction`'s routine, in place at `n` (as
      `GuardInPlace` gives it for `LengthGuard`), called with the length `x`
      on the stack: a negative length prints the message and traps with 0,
      any other length returns with the stack popped. */
  lemma {:induction false} LengthCheckRun(code: Buf, n: int, msg: string, t: int, m: Machine)
    requires GuardAt(code, n, Lt, 3 * |msg|, 0, t) && code.instrs[n + 4..n + 4 + 3 * |msg|] == PrintStringCode(msg)
    requires m.status.Running? && m.ip == n && |m.stack| >= 1
    ensures var x := m.stack[|m.stack| - 1]; var st := m.stack[..|m.stack| - 1];
            && (x < 0 ==> Steps(code, m, 5 + 3 * |msg|)
                          == m.(ip := n + 4 + 3 * |msg|, stack := st, locals := [x],
                                out := m.out + Printout(msg, m.stale), status := Trapped(0)))
            && (x >= 0 ==> Steps(code, m, 6) == m.(ip := n + 6 + 3 * |msg|, stack := st, locals := [], status := Returned))
  {
    if m.stack[|m.stack| - 1] < 0 {
      RunGuardTraps(code, n, Lt, msg, 0, t, m);
    } else {
      RunGuardReturns(code, n, Lt, 3 * |msg|, 0, t, m);
    }
  }

  /** `createArrayMembersAccessCheckFunction`'s routine, called with the array
      reference `x`: null (0) prints the message and traps with 2, any other
      reference returns. */
  lemma {:induction false} AccessCheckRun(code: Buf, n: int, msg: string, t: int, m: Machine)
    requires GuardAt(code, n, Eq, 3 * |msg|, 2, t) && code.instrs[n + 4..n + 4 + 3 * |msg|] == PrintStringCode(msg)
    requires m.status.Running? && m.ip == n && |m.stack| >= 1
    ensures var x := m.stack[|m.stack| - 1]; var st := m.stack[..|m.stack| - 1];
            && (x == 0 ==> Steps(code, m, 5 + 3 * |msg|)
                           == m.(ip := n + 4 + 3 * |msg|, stack := st, locals := [x],
                                 out := m.out + Printout(msg, m.stale), status := Trapped(2)))
            && (x != 0 ==> Steps(code, m, 6) == m.(ip := n + 6 + 3 * |msg|, stack := st, locals := [], status := Returned))
  {
    if m.stack[|m.stack| - 1] == 0 {
      RunGuardTraps(code, n, Eq, msg, 2, t, m);
    } else {
      RunGuardReturns(code, n, Eq, 3 * |msg|, 2, t, m);
    }
  }

  // ---------------------------------------------------------------- index guard

  /** The instructions of a hosted index guard, with `k` the number of message
      instructions and `t` the address both failed checks jump to. */
  predicate IndexAt(code: Buf, n: int, k: int, t: int)
  {
    && 0 <= n && 0 <= k && n + 11 + k <= |code.instrs|
    && code.instrs[n] == Enter(2, 2) && code.instrs[n + 1] == Load(0)
    && code.instrs[n + 2] == ArrayLength && code.instrs[n + 3] == Load(1)
    && code.instrs[n + 4] == Jcc(Le, t) && code.instrs[n + 5] == Load(1)
    && code.instrs[n + 6] == Const(0) && code.instrs[n + 7] == Jcc(Lt, t)
    && code.instrs[n + 8] == Exit && code.instrs[n + 9] == Return
    && code.instrs[n + 10 + k] == Trap(1)
    && IndexOf(code.addrs, t) == Some(n + 10)
  }


  /** The index guard's code: the checks, then the message, then the trap. */
  lemma {:induction false} IndexCodeShape(base: int, msg: string, k: int)
    requires k == 3 * |msg|
    ensures var c := IndexGuardCode(base, msg);
            && |c| == 11 + k && c[..10] == IndexChecksCode(base)
            && c[10..10 + k] == PrintStringCode(msg) && c[10 + k] == Trap(1)
  {
    Middle(IndexChecksCode(base), PrintStringCode(msg), [Trap(1)], 10, 10 + k);
  }

  /** The checks of a hosted index guard, one instruction at a time. */
  lemma {:induction false} IndexChecksIn(code: Buf, r: Buf, p: seq<Instr>, c: seq<Instr>, base: int, n: int)
    requires Extends(code, r) && r.instrs == p + c && n == |p| && 10 <= |c| && c[..10] == IndexChecksCode(base)
    ensures n + 10 <= |code.instrs|
    ensures code.instrs[n] == Enter(2, 2) && code.instrs[n + 1] == Load(0)
    ensures code.instrs[n + 2] == ArrayLength && code.instrs[n + 3] == Load(1)
    ensures code.instrs[n + 4] == Jcc(Le, base + 16) && code.instrs[n + 5] == Load(1)
    ensures code.instrs[n + 6] == Const(0) && code.instrs[n + 7] == Jcc(Lt, base + 16)
    ensures code.instrs[n + 8] == Exit && code.instrs[n + 9] == Return
  {
    var h := IndexChecksCode(base);
    assert c[0] == h[0] && c[1] == h[1] && c[2] == h[2] && c[3] == h[3] && c[4] == h[4];
    assert c[5] == h[5] && c[6] == h[6] && c[7] == h[7] && c[8] == h[8] && c[9] == h[9];
    HostedAt(code, r, p, c, 0, n);
    HostedAt(code, r, p, c, 1, n + 1);
    HostedAt(code, r, p, c, 2, n + 2);
    HostedAt(code, r, p, c, 3, n + 3);
    HostedAt(code, r, p, c, 4, n + 4);
    HostedAt(code, r, p, c, 5, n + 5);
    HostedAt(code, r, p, c, 6, n + 6);
    HostedAt(code, r, p, c, 7, n + 7);
    HostedAt(code, r, p, c, 8, n + 8);
    HostedAt(code, r, p, c, 9, n + 9);
  }

  /** An index guard's code a builder appended to `p`, with the address `t`
      of its message, is in place wherever the builder's buffer survives. */
  lemma {:induction false} IndexIn(code: Buf, r: Buf, p: seq<Instr>, c: seq<Instr>, base: int, msg: string, n: int, k: int, t: int)
    requires Extends(code, r) && r.instrs == p + c && n == |p| && k == 3 * |msg|
    requires |c| == 11 + k && c[..10] == IndexChecksCode(base) && c[10..10 + k] == PrintStringCode(msg) && c[10 + k] == Trap(1)
    requires r.addrs[n + 10] == t && t == base + 16
    ensures IndexAt(code, n, k, t)
    ensures code.instrs[n + 10..n + 10 + k] == PrintStringCode(msg)
  {
    IndexChecksIn(code, r, p, c, base, n);
    HostedSlice(code, r, p, c, 10, 10 + k, n + 10, n + 10 + k);
    HostedAt(code, r, p, c, 10 + k, n + 10 + k);
    Lands(code, r, n + 10);
  }

  /** The index guard `IndexGuardWith(b, msg)` built after `b` is in place,
      both failed checks jumping to `t`, in every buffer that extends the
      builder's; `k` is the number of message instructions. */
  lemma {:induction false} IndexInPlace(code: Buf, b: Buf, msg: string, n: int, k: int, t: int)
    requires Extends(code, IndexGuardWith(b, msg)) && n == |b.instrs| && |b.addrs| == n
    requires k == 3 * |msg| && t == b.pc + 16
    ensures IndexAt(code, n, k, t)
    ensures code.instrs[n + 10..n + 10 + k] == PrintStringCode(msg)
  {
    IndexGuardLayout(b, msg);
    IndexGuardLabels(b, msg);
    IndexCodeShape(b.pc, msg, k);
    IndexIn(code, IndexGuardWith(b, msg), b.instrs, IndexGuardCode(b.pc, msg), b.pc, msg, n, k, t);
  }

  /** The upper-bound check: the array `a` and the index `i` move into the
      frame, and the jump to the message is taken exactly when the array's
      length is at most `i`. */
  lemma {:induction false} RunIndexUpper(code: Buf, n: int, t: int, m: Machine)
    requires 0 <= n && n + 5 <= |code.instrs| && code.instrs[n] == Enter(2, 2) && code.instrs[n + 1] == Load(0)
    requires code.instrs[n + 2] == ArrayLength && code.instrs[n + 3] == Load(1) && code.instrs[n + 4] == Jcc(Le, t)
    requires IndexOf(code.addrs, t) == Some(n + 10)
    requires m.status.Running? && m.ip == n && |m.stack| >= 2 && m.stack[|m.stack| - 2] in m.heap
    ensures var a := m.stack[|m.stack| - 2]; var i := m.stack[|m.stack| - 1];
            Steps(code, m, 5)
            == m.(ip := if |m.heap[a]| <= i then n + 10 else n + 5, stack := m.stack[..|m.stack| - 2], locals := [a, i])
  {
    var st := m.stack[..|m.stack| - 2];
    var a, i := m.stack[|m.stack| - 2], m.stack[|m.stack| - 1];
    var len := |m.heap[a]|;
    var m4 := m.(ip := n + 4, stack := st + [len, i], locals := [a, i]);
    var m5 := m4.(ip := if len <= i then n + 10 else n + 5, stack := st);
    IndexUpperOpen(code, n, m);
    assert (st + [len, i])[..|st|] == st;
    StepJcc(code, m4, Le, t, n + 10);
    Via1(code, m4, m5);
    var four := 4;
    StepsChain(code, m, four, 1, m5);
  }

  /** The first four instructions of the index guard: the array and the index
      move into the locals, and the array's length and the index are pushed. */
  lemma {:induction false} IndexUpperOpen(code: Buf, n: int, m: Machine)
    requires 0 <= n && n + 4 <= |code.instrs| && code.instrs[n] == Enter(2, 2) && code.instrs[n + 1] == Load(0)
    requires code.instrs[n + 2] == ArrayLength && code.instrs[n + 3] == Load(1)
    requires m.status.Running? && m.ip == n && |m.stack| >= 2 && m.stack[|m.stack| - 2] in m.heap
    ensures var st := m.stack[..|m.stack| - 2]; var a := m.stack[|m.stack| - 2]; var i := m.stack[|m.stack| - 1];
            Steps(code, m, 4) == m.(ip := n + 4, stack := st + [|m.heap[a]|, i], locals := [a, i])
  {
    var st := m.stack[..|m.stack| - 2];
    var a, i := m.stack[|m.stack| - 2], m.stack[|m.stack| - 1];
    var len := |m.heap[a]|;
    assert m.stack[|m.stack| - 2..] + Zeros(0) == [a, i];
    var m1 := m.(ip := n + 1, stack := st, locals := [a, i]);
    var m2 := m1.(ip := n + 2, stack := st + [a]);
    var m3 := m1.(ip := n + 3, stack := st + [len]);
    var m4 := m1.(ip := n + 4, stack := st + [len, i]);
    assert (st + [a])[..|st|] == st;
    StepEnter(code, m, 2, 2);
    StepLoad(code, m1, 0);
    StepArrayLength(code, m2);
    StepLoad(code, m3, 1);
    Via4(code, m, m1, m2, m3, m4);
  }

  /** The lower-bound check: the jump to the message is taken exactly when
      the index in local 1 is negative. */
  lemma {:induction false} RunIndexLower(code: Buf, n: int, t: int, m: Machine)
    requires 0 <= n && n + 8 <= |code.instrs| && code.instrs[n + 5] == Load(1)
    requires code.instrs[n + 6] == Const(0) && code.instrs[n + 7] == Jcc(Lt, t) && IndexOf(code.addrs, t) == Some(n + 10)
    requires m.status.Running? && m.ip == n + 5 && |m.locals| == 2
    ensures Steps(code, m, 3) == m.(ip := if m.locals[1] < 0 then n + 10 else n + 8)
  {
    var st, i := m.stack, m.locals[1];
    var m6 := m.(ip := n + 6, stack := st + [i]);
    var m7 := m.(ip := n + 7, stack := st + [i, 0]);
    var m8 := m.(ip := if i < 0 then n + 10 else n + 8);
    assert (st + [i, 0])[..|st|] == st;
    StepLoad(code, m, 1);
    StepConst(code, m6, 0);
    StepJcc(code, m7, Lt, t, n + 10);
    Via3(code, m, m6, m7, m8);
  }

  /** The message and the trap that follow a failed check reached after `a`
      steps, with `c` the total count. */
  lemma {:induction false} IndexMessageAfter(code: Buf, n: int, msg: string, m0: Machine, a: nat, m: Machine, c: nat)
    requires 0 <= n && n + 10 + 3 * |msg| < |code.instrs| && code.instrs[n + 10..n + 10 + 3 * |msg|] == PrintStringCode(msg)
    requires code.instrs[n + 10 + 3 * |msg|] == Trap(1)
    requires Steps(code, m0, a) == m && m.status.Running? && m.ip == n + 10 && |m.locals| == 2
    requires c == a + 3 * |msg| + 1
    ensures Steps(code, m0, c) == m.(ip := n + 10 + 3 * |msg|, out := m.out + Printout(msg, m.locals[1]), status := Trapped(1))
  {
    RunPrintTrapAfter(code, m0, a, m, msg, 1, n + 10 + 3 * |msg|);
  }

  /** The upper-bound check entered after `k` steps of a run from `m0`. */
  lemma {:induction false} RunIndexUpperAfter(code: Buf, n: int, t: int, m0: Machine, k: nat, m: Machine)
    requires 0 <= n && n + 5 <= |code.instrs| && code.instrs[n] == Enter(2, 2) && code.instrs[n + 1] == Load(0)
    requires code.instrs[n + 2] == ArrayLength && code.instrs[n + 3] == Load(1) && code.instrs[n + 4] == Jcc(Le, t)
    requires IndexOf(code.addrs, t) == Some(n + 10)
    requires Steps(code, m0, k) == m
    requires m.status.Running? && m.ip == n && |m.stack| >= 2 && m.stack[|m.stack| - 2] in m.heap
    ensures var a := m.stack[|m.stack| - 2]; var i := m.stack[|m.stack| - 1];
            Steps(code, m0, k + 5)
            == m.(ip := if |m.heap[a]| <= i then n + 10 else n + 5, stack := m.stack[..|m.stack| - 2], locals := [a, i])
  {
    RunIndexUpper(code, n, t, m);
    StepsAdd(code, m0, k, 5);
  }

  /** The lower-bound check entered after `k` steps of a run from `m0`. */
  lemma {:induction false} RunIndexLowerAfter(code: Buf, n: int, t: int, m0: Machine, k: nat, m: Machine)
    requires 0 <= n && n + 8 <= |code.instrs| && code.instrs[n + 5] == Load(1)
    requires code.instrs[n + 6] == Const(0) && code.instrs[n + 7] == Jcc(Lt, t) && IndexOf(code.addrs, t) == Some(n + 10)
    requires Steps(code, m0, k) == m
    requires m.status.Running? && m.ip == n + 5 && |m.locals| == 2
    ensures Steps(code, m0, k + 3) == m.(ip := if m.locals[1] < 0 then n + 10 else n + 8)
  {
    RunIndexLower(code, n, t, m);
    StepsAdd(code, m0, k, 3);
  }

  /** `createArrayIndexCheckFunction`'s routine, in place at `n` and entered
      after `k` steps of a run from `m0` with an array `a` and an index `i` at
      least the array's length: it prints its message, the first character
      with the index as its width, and traps with 1. */
  lemma {:induction false} IndexCheckAbove(code: Buf, n: int, msg: string, t: int, m0: Machine, k: nat, m: Machine, c: nat)
    requires IndexAt(code, n, 3 * |msg|, t) && code.instrs[n + 10..n + 10 + 3 * |msg|] == PrintStringCode(msg)
    requires Steps(code, m0, k) == m
    requires m.status.Running? && m.ip == n && |m.stack| >= 2 && m.stack[|m.stack| - 2] in m.heap
    requires |m.heap[m.stack[|m.stack| - 2]]| <= m.stack[|m.stack| - 1]
    requires c == k + 6 + 3 * |msg|
    ensures var a := m.stack[|m.stack| - 2]; var i := m.stack[|m.stack| - 1];
            Steps(code, m0, c)
            == m.(ip := n + 10 + 3 * |msg|, stack := m.stack[..|m.stack| - 2], locals := [a, i],
                  out := m.out + Printout(msg, i), status := Trapped(1))
  {
    var a, i := m.stack[|m.stack| - 2], m.stack[|m.stack| - 1];
    RunIndexUpperAfter(code, n, t, m0, k, m);
    var m5 := m.(ip := n + 10, stack := m.stack[..|m.stack| - 2], locals := [a, i]);
    IndexMessageAfter(code, n, msg, m0, k + 5, m5, c);
  }

  /** Entered the same way with a negative index, it prints its message after
      both checks and traps with 1. */
  lemma {:induction false} IndexCheckBelow(code: Buf, n: int, msg: string, t: int, m0: Machine, k: nat, m: Machine, c: nat)
    requires IndexAt(code, n, 3 * |msg|, t) && code.instrs[n + 10..n + 10 + 3 * |msg|] == PrintStringCode(msg)
    requires Steps(code, m0, k) == m
    requires m.status.Running? && m.ip == n && |m.stack| >= 2 && m.stack[|m.stack| - 2] in m.heap
    requires m.stack[|m.stack| - 1] < 0
    requires c == k + 9 + 3 * |msg|
    ensures var a := m.stack[|m.stack| - 2]; var i := m.stack[|m.stack| - 1];
            Steps(code, m0, c)
            == m.(ip := n + 10 + 3 * |msg|, stack := m.stack[..|m.stack| - 2], locals := [a, i],
                  out := m.out + Printout(msg, i), status := Trapped(1))
  {
    var a, i := m.stack[|m.stack| - 2], m.stack[|m.stack| - 1];
    RunIndexUpperAfter(code, n, t, m0, k, m);
    var m5 := m.(ip := n + 5, stack := m.stack[..|m.stack| - 2], locals := [a, i]);
    RunIndexLowerAfter(code, n, t, m0, k + 5, m5);
    IndexMessageAfter(code, n, msg, m0, k + 8, m5.(ip := n + 10), c);
  }

  /** Called with an index inside the array, it pops both arguments and
      returns. */
  lemma {:induction false} IndexCheckPasses(code: Buf, n: int, msg: string, t: int, m: Machine)
    requires IndexAt(code, n, 3 * |msg|, t)
    requires m.status.Running? && m.ip == n && |m.stack| >= 2 && m.stack[|m.stack| - 2] in m.heap
    requires 0 <= m.stack[|m.stack| - 1] < |m.heap[m.stack[|m.stack| - 2]]|
    ensures Steps(code, m, 10) == m.(ip := n + 9, stack := m.stack[..|m.stack| - 2], locals := [], status := Returned)
  {
    var a, i := m.stack[|m.stack| - 2], m.stack[|m.stack| - 1];
    RunIndexUpper(code, n, t, m);
    var m5 := m.(ip := n + 5, stack := m.stack[..|m.stack| - 2], locals := [a, i]);
    RunIndexLower(code, n, t, m5);
    var five, three, two := 5, 3, 2;
    StepsChain(code, m, five, three, m5.(ip := n + 8));
    RunExitReturn(code, m5.(ip := n + 8));
    StepsChain(code, m, five + three, two, m5.(ip := n + 9, locals := [], status := Returned));
  }

  // ---------------------------------------------------------------- printBool

  /** The instructions of a hosted printBool, with `tt` the address of the
      "true" text and `te` the address of its final code. */
  predicate BoolAt(code: Buf, n: int, tt: int, te: int)
  {
    && 0 <= n && n + 34 <= |code.instrs|
    && code.instrs[n] == Enter(2, 2) && code.instrs[n + 1] == Load(0)
    && code.instrs[n + 2] == Const(1) && code.instrs[n + 3] == Jcc(Eq, tt)
    && code.instrs[n + 4..n + 19] == PrintStringCode(FalseText) && code.instrs[n + 19] == Jmp(te)
    && code.instrs[n + 20..n + 32] == PrintStringCode(TrueText)
    && code.instrs[n + 32] == Exit && code.instrs[n + 33] == Return
    && IndexOf(code.addrs, tt) == Some(n + 20) && IndexOf(code.addrs, te) == Some(n + 32)
  }

  /** The two texts inside printBool's code. */
  lemma {:induction false} PrintBoolTexts(base: int)
    ensures var c := PrintBoolCode(base);
            && |c| == 34 && c[4..19] == PrintStringCode(FalseText) && c[20..32] == PrintStringCode(TrueText)
  {
    var head := [Enter(2, 2), Load(0), Const(1), Jcc(Eq, base + 46)];
    var pf, pt := PrintStringCode(FalseText), PrintStringCode(TrueText);
    Middle(head, pf, [Jmp(base + 74)] + pt + [Exit, Return], 4, 19);
    Middle(head + pf + [Jmp(base + 74)], pt, [Exit, Return], 20, 32);
  }

  /** printBool's single instructions, hosted. */
  lemma {:induction false} PrintBoolOps(code: Buf, b: Buf, n: int)
    requires Extends(code, PrintBool(b)) && n == |b.instrs|
    ensures n + 34 <= |code.instrs|
    ensures code.instrs[n] == Enter(2, 2) && code.instrs[n + 1] == Load(0)
    ensures code.instrs[n + 2] == Const(1) && code.instrs[n + 3] == Jcc(Eq, b.pc + 46)
    ensures code.instrs[n + 19] == Jmp(b.pc + 74) && code.instrs[n + 32] == Exit && code.instrs[n + 33] == Return
  {
    var r, c := PrintBool(b), PrintBoolCode(b.pc);
    PrintBoolLayout(b);
    HostedAt(code, r, b.instrs, c, 0, n);
    HostedAt(code, r, b.instrs, c, 1, n + 1);
    HostedAt(code, r, b.instrs, c, 2, n + 2);
    HostedAt(code, r, b.instrs, c, 3, n + 3);
    HostedAt(code, r, b.instrs, c, 19, n + 19);
    HostedAt(code, r, b.instrs, c, 32, n + 32);
    HostedAt(code, r, b.instrs, c, 33, n + 33);
  }

  /** `PrintBool(b)` built after `b` is in place, its "true" text at
      `b.pc + 46` and its final code at `b.pc + 74`, in every buffer that
      extends the builder's. */
  lemma {:induction false} PrintBoolInPlace(code: Buf, b: Buf)
    requires Extends(code, PrintBool(b)) && |b.addrs| == |b.instrs|
    ensures BoolAt(code, |b.instrs|, b.pc + 46, b.pc + 74)
  {
    var r, c, n := PrintBool(b), PrintBoolCode(b.pc), |b.instrs|;
    PrintBoolLayout(b);
    PrintBoolLabels(b);
    PrintBoolTexts(b.pc);
    PrintBoolOps(code, b, n);
    HostedSlice(code, r, b.instrs, c, 4, 19, n + 4, n + 19);
    HostedSlice(code, r, b.instrs, c, 20, 32, n + 20, n + 32);
    Lands(code, r, n + 20);
    Lands(code, r, n + 32);
  }

  /** The comparison that opens printBool: the value `v` and the width `w`
      move into the frame, and the jump to the "true" text is taken exactly
      when `v` is 1. */
  lemma {:induction false} RunBoolTest(code: Buf, n: int, tt: int, te: int, m: Machine)
    requires BoolAt(code, n, tt, te)
    requires m.status.Running? && m.ip == n && |m.stack| >= 2
    ensures var st := m.stack; var v := st[|st| - 2]; var w := st[|st| - 1];
            Steps(code, m, 4) == m.(ip := if v == 1 then n + 20 else n + 4, stack := st[..|st| - 2], locals := [v, w])
  {
    var rest := m.stack[..|m.stack| - 2];
    var v, w := m.stack[|m.stack| - 2], m.stack[|m.stack| - 1];
    assert m.stack[|m.stack| - 2..] + Zeros(0) == [v, w];
    var m1 := m.(ip := n + 1, stack := rest, locals := [v, w]);
    var m2 := m1.(ip := n + 2, stack := rest + [v]);
    var m3 := m1.(ip := n + 3, stack := rest + [v, 1]);
    assert (rest + [v, 1])[..|rest|] == rest;
    var m4 := m1.(ip := if v == 1 then n + 20 else n + 4);
    StepEnter(code, m, 2, 2);
    StepLoad(code, m1, 0);
    StepConst(code, m2, 1);
    StepJcc(code, m3, Eq, tt, n + 20);
    Via4(code, m, m1, m2, m3, m4);
  }

  /** From the "false" text: print it, jump to the final code, return. */
  lemma {:induction false} RunBoolFalse(code: Buf, n: int, tt: int, te: int, m: Machine)
    requires BoolAt(code, n, tt, te)
    requires m.status.Running? && m.ip == n + 4 && |m.locals| == 2
    ensures Steps(code, m, 18)
            == m.(ip := n + 33, locals := [], out := m.out + Printout(FalseText, m.locals[1]), status := Returned)
  {
    RunPrintString(code, m, FalseText);
    var m1 := m.(ip := n + 19, out := m.out + Printout(FalseText, m.locals[1]));
    var m2 := m1.(ip := n + 32);
    StepJmp(code, m1, te, n + 32);
    Via1(code, m1, m2);
    RunExitReturn(code, m2);
    StepsChain(code, m1, 1, 2, m2.(ip := n + 33, locals := [], status := Returned));
    StepsChain(code, m, 15, 3, m2.(ip := n + 33, locals := [], status := Returned));
  }

  /** From the "true" text: print it and return. */
  lemma {:induction false} RunBoolTrue(code: Buf, n: int, tt: int, te: int, m: Machine)
    requires BoolAt(code, n, tt, te)
    requires m.status.Running? && m.ip == n + 20 && |m.locals| == 2
    ensures Steps(code, m, 14)
            == m.(ip := n + 33, locals := [], out := m.out + Printout(TrueText, m.locals[1]), status := Returned)
  {
    RunPrintString(code, m, TrueText);
    var m1 := m.(ip := n + 32, out := m.out + Printout(TrueText, m.locals[1]));
    RunExitReturn(code, m1);
    StepsChain(code, m, 12, 2, m1.(ip := n + 33, locals := [], status := Returned));
  }

  /** printBool called with 1: it prints "true". */
  lemma {:induction false} PrintBoolTrueRun(code: Buf, n: int, tt: int, te: int, m: Machine)
    requires BoolAt(code, n, tt, te)
    requires m.status.Running? && m.ip == n && |m.stack| >= 2 && m.stack[|m.stack| - 2] == 1
    ensures var st := m.stack;
            Steps(code, m, 18) == m.(ip := n + 33, stack := st[..|st| - 2], locals := [],
                                     out := m.out + Printout(TrueText, st[|st| - 1]), status := Returned)
  {
    var st := m.stack;
    var w := st[|st| - 1];
    RunBoolTest(code, n, tt, te, m);
    var m4 := m.(ip := n + 20, stack := st[..|st| - 2], locals := [1, w]);
    RunBoolTrue(code, n, tt, te, m4);
    StepsChain(code, m, 4, 14, m4.(ip := n + 33, locals := [], out := m.out + Printout(TrueText, w), status := Returned));
  }

  /** printBool called with any value but 1: it prints "false". */
  lemma {:induction false} PrintBoolFalseRun(code: Buf, n: int, tt: int, te: int, m: Machine)
    requires BoolAt(code, n, tt, te)
    requires m.status.Running? && m.ip == n && |m.stack| >= 2 && m.stack[|m.stack| - 2] != 1
    ensures var st := m.stack;
            Steps(code, m, 22) == m.(ip := n + 33, stack := st[..|st| - 2], locals := [],
                                     out := m.out + Printout(FalseText, st[|st| - 1]), status := Returned)
  {
    var st := m.stack;
    var v, w := st[|st| - 2], st[|st| - 1];
    RunBoolTest(code, n, tt, te, m);
    var m4 := m.(ip := n + 4, stack := st[..|st| - 2], locals := [v, w]);
    RunBoolFalse(code, n, tt, te, m4);
    StepsChain(code, m, 4, 18, m4.(ip := n + 33, locals := [], out := m.out + Printout(FalseText, w), status := Returned));
  }

  /** `createPrintBoolMethod`'s routine, in place at `n` (as
      `PrintBoolInPlace` gives it), called with the value `v` and the width
      `w` on the stack: it prints "true" when `v` is 1 and "false" for every
      other value, the first character with width `w` and the others with
      width 1, and returns with both arguments popped. */
  lemma {:induction false} PrintBoolRun(code: Buf, n: int, tt: int, te: int, m: Machine)
    requires BoolAt(code, n, tt, te)
    requires m.status.Running? && m.ip == n && |m.stack| >= 2
    ensures var st := m.stack; var v := st[|st| - 2]; var w := st[|st| - 1];
            && (v == 1 ==> Steps(code, m, 18)
                           == m.(ip := n + 33, stack := st[..|st| - 2], locals := [],
                                 out := m.out + Printout(TrueText, w), status := Returned))
            && (v != 1 ==> Steps(code, m, 22)
                           == m.(ip := n + 33, stack := st[..|st| - 2], locals := [],
                                 out := m.out + Printout(FalseText, w), status := Returned))
  {
    if m.stack[|m.stack| - 2] == 1 {
      PrintBoolTrueRun(code, n, tt, te, m);
    } else {
      PrintBoolFalseRun(code, n, tt, te, m);
    }
  }
}

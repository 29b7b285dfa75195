/** Running the VM's code step by step: composing runs, the effect of one
    step of each instruction the generated routines use, and the slicing
    facts the run proofs share. */
module Execution {
  import opened Types
  import opened Bytecode

  /** Two runs one after the other. */
  lemma {:induction false} StepsChain(code: Buf, m: Machine, a: nat, b: nat, m2: Machine)
    requires Steps(code, Steps(code, m, a), b) == m2
    ensures Steps(code, m, a + b) == m2
  {
    StepsAdd(code, m, a, b);
  }

  /** Two runs one after the other, `c` steps in all. */
  lemma {:induction false} StepsSum(code: Buf, m: Machine, a: nat, b: nat, c: nat, m2: Machine)
    requires c == a + b && Steps(code, Steps(code, m, a), b) == m2
    ensures Steps(code, m, c) == m2
  {
    StepsAdd(code, m, a, b);
  }

  /** Chains of single steps. */
  lemma {:induction false} Via1(code: Buf, m0: Machine, m1: Machine)
    requires Step(code, m0) == m1
    ensures Steps(code, m0, 1) == m1
  {
  }

  lemma {:induction false} Via2(code: Buf, m0: Machine, m1: Machine, m2: Machine)
    requires Step(code, m0) == m1 && Step(code, m1) == m2
    ensures Steps(code, m0, 2) == m2
  {
    Via1(code, m1, m2);
  }

  lemma {:induction false} Via3(code: Buf, m0: Machine, m1: Machine, m2: Machine, m3: Machine)
    requires Step(code, m0) == m1 && Step(code, m1) == m2 && Step(code, m2) == m3
    ensures Steps(code, m0, 3) == m3
  {
    Via2(code, m1, m2, m3);
  }

  lemma {:induction false} Via4(code: Buf, m0: Machine, m1: Machine, m2: Machine, m3: Machine, m4: Machine)
    requires Step(code, m0) == m1 && Step(code, m1) == m2 && Step(code, m2) == m3 && Step(code, m3) == m4
    ensures Steps(code, m0, 4) == m4
  {
    Via3(code, m1, m2, m3, m4);
  }

  /** One step of each instruction the routines use. */
  lemma {:induction false} StepEnter(code: Buf, m: Machine, p: int, f: int)
    requires m.status.Running? && 0 <= m.ip < |code.instrs| && code.instrs[m.ip] == Enter(p, f)
    requires 0 <= p <= f && p <= |m.stack|
    ensures Step(code, m)
            == m.(ip := m.ip + 1, locals := m.stack[|m.stack| - p..] + Zeros(f - p), stack := m.stack[..|m.stack| - p])
  {
  }

  lemma {:induction false} StepLoad(code: Buf, m: Machine, k: int)
    requires m.status.Running? && 0 <= m.ip < |code.instrs| && code.instrs[m.ip] == Load(k)
    requires 0 <= k < |m.locals|
    ensures Step(code, m) == m.(ip := m.ip + 1, stack := m.stack + [m.locals[k]])
  {
  }

  lemma {:induction false} StepConst(code: Buf, m: Machine, v: int)
    requires m.status.Running? && 0 <= m.ip < |code.instrs| && code.instrs[m.ip] == Const(v)
    ensures Step(code, m) == m.(ip := m.ip + 1, stack := m.stack + [v])
  {
  }

  /** A conditional jump pops its two operands; `j` is the index the target
      address names. */
  lemma {:induction false} StepJcc(code: Buf, m: Machine, r: Rel, t: int, j: int)
    requires m.status.Running? && 0 <= m.ip < |code.instrs| && code.instrs[m.ip] == Jcc(r, t)
    requires |m.stack| >= 2 && IndexOf(code.addrs, t) == Some(j)
    ensures var st := m.stack; var n := |st|;
            Step(code, m)
            == m.(ip := if Holds(r, st[n - 2], st[n - 1]) then j else m.ip + 1, stack := st[..n - 2])
  {
  }

  lemma {:induction false} StepArrayLength(code: Buf, m: Machine)
    requires m.status.Running? && 0 <= m.ip < |code.instrs| && code.instrs[m.ip] == ArrayLength
    requires |m.stack| >= 1 && m.stack[|m.stack| - 1] in m.heap
    ensures var st := m.stack; var n := |st|;
            Step(code, m) == m.(ip := m.ip + 1, stack := st[..n - 1] + [|m.heap[st[n - 1]]|])
  {
  }

  lemma {:induction false} StepExit(code: Buf, m: Machine)
    requires m.status.Running? && 0 <= m.ip < |code.instrs| && code.instrs[m.ip] == Exit
    ensures Step(code, m) == m.(ip := m.ip + 1, locals := [])
  {
  }

  lemma {:induction false} StepReturn(code: Buf, m: Machine)
    requires m.status.Running? && 0 <= m.ip < |code.instrs| && code.instrs[m.ip] == Return
    ensures Step(code, m) == m.(status := Returned)
  {
  }

  lemma {:induction false} StepTrap(code: Buf, m: Machine, c: int)
    requires m.status.Running? && 0 <= m.ip < |code.instrs| && code.instrs[m.ip] == Trap(c)
    ensures Step(code, m) == m.(status := Trapped(c))
  {
  }

  lemma {:induction false} StepStore(code: Buf, m: Machine, k: int)
    requires m.status.Running? && 0 <= m.ip < |code.instrs| && code.instrs[m.ip] == Store(k)
    requires 0 <= k < |m.locals| && |m.stack| >= 1
    ensures var st := m.stack; var n := |st|;
            Step(code, m) == m.(ip := m.ip + 1, stack := st[..n - 1], locals := m.locals[k := st[n - 1]])
  {
  }

  /** `sub` and `add` replace their two operands by the result. */
  lemma {:induction false} StepSub(code: Buf, m: Machine)
    requires m.status.Running? && 0 <= m.ip < |code.instrs| && code.instrs[m.ip] == Sub && |m.stack| >= 2
    ensures var st := m.stack; var n := |st|;
            Step(code, m) == m.(ip := m.ip + 1, stack := st[..n - 2] + [st[n - 2] - st[n - 1]])
  {
  }

  lemma {:induction false} StepAdd(code: Buf, m: Machine)
    requires m.status.Running? && 0 <= m.ip < |code.instrs| && code.instrs[m.ip] == Add && |m.stack| >= 2
    ensures var st := m.stack; var n := |st|;
            Step(code, m) == m.(ip := m.ip + 1, stack := st[..n - 2] + [st[n - 2] + st[n - 1]])
  {
  }

  lemma {:induction false} StepALoad(code: Buf, m: Machine)
    requires m.status.Running? && 0 <= m.ip < |code.instrs| && code.instrs[m.ip] == ALoad && |m.stack| >= 2
    requires m.stack[|m.stack| - 2] in m.heap && 0 <= m.stack[|m.stack| - 1] < |m.heap[m.stack[|m.stack| - 2]]|
    ensures var st := m.stack; var n := |st|;
            Step(code, m) == m.(ip := m.ip + 1, stack := st[..n - 2] + [m.heap[st[n - 2]][st[n - 1]]])
  {
  }

  /** An unconditional jump; `j` is the index the target address names. */
  lemma {:induction false} StepJmp(code: Buf, m: Machine, t: int, j: int)
    requires m.status.Running? && 0 <= m.ip < |code.instrs| && code.instrs[m.ip] == Jmp(t)
    requires IndexOf(code.addrs, t) == Some(j)
    ensures Step(code, m) == m.(ip := j)
  {
  }

  lemma {:induction false} SliceSplit<T>(a: seq<T>, lo: int, mid: int, hi: int)
    requires 0 <= lo <= mid <= hi <= |a|
    ensures a[lo..mid] == a[lo..hi][..mid - lo] && a[mid..hi] == a[lo..hi][mid - lo..]
  {
  }

  lemma {:induction false} SliceOfSlice<T>(a: seq<T>, lo: int, hi: int, i: int, j: int)
    requires 0 <= lo <= hi <= |a| && 0 <= i <= j <= hi - lo
    ensures a[lo + i..lo + j] == a[lo..hi][i..j]
  {
    var x, y := a[lo + i..lo + j], a[lo..hi][i..j];
    assert |x| == |y|;
    forall k | 0 <= k < |x|
      ensures x[k] == y[k]
    {
      assert x[k] == a[lo + i + k];
      assert y[k] == a[lo..hi][i + k];
    }
  }

  lemma {:induction false} Middle<T>(x: seq<T>, y: seq<T>, z: seq<T>, i: int, j: int)
    requires i == |x| && j == |x| + |y|
    ensures (x + y + z)[i..j] == y
  {
  }


  /** The two steps that end a routine. */
  lemma {:induction false} RunExitReturn(code: Buf, m: Machine)
    requires m.status.Running? && 0 <= m.ip && m.ip + 2 <= |code.instrs|
    requires code.instrs[m.ip] == Exit && code.instrs[m.ip + 1] == Return
    ensures Steps(code, m, 2) == m.(ip := m.ip + 1, locals := [], status := Returned)
  {
    var m1 := m.(ip := m.ip + 1, locals := []);
    StepExit(code, m);
    StepReturn(code, m1);
    Via2(code, m, m1, m1.(status := Returned));
  }
}

/** What `createFindAnyMethod` and `createFindAllFunction` build does when the
    MicroJava VM runs it: findAny returns 1 exactly when the value occurs in
    the array, and findAll returns how many times it occurs. Both routines
    share the scan loop, which walks the array from its last index down. */
module SearchProofs {
  import opened Types
  import opened Bytecode
  import opened Execution
  import opened Runtime

  // ---------------------------------------------------------------- step counts

  /** How many instructions each piece of a run executes. Naming the counts
      keeps a statement about a long run from being replayed instruction by
      instruction whenever it is used. */
  const TestSteps: nat := 6        // the loop test, `RunScanTest`
  const CompareSteps: nat := 5     // the comparison, `RunScanCompare`
  const PassSteps: nat := 11       // test and comparison, `ScanHit`
  const MissSteps: nat := 13       // a pass that does not match, `ScanMiss`
  const TailSteps: nat := 4        // the failure exit, `AnyMissTail` and `AllTail`
  const EmptySteps: nat := 10      // the last loop test and the failure exit
  const FoundSteps: nat := 14      // a pass that matches and findAny's exit
  const CountSteps: nat := 6       // findAll's count update, `AllCount`
  const CountedSteps: nat := 17    // a pass that matches and the count update

  // ---------------------------------------------------------------- the scan

  /** The scan loop both searches open with, at the start of `code`, for a
      routine built at address `base`: the loop head is instruction 3, the
      failure exit 16 and the success exit 18. */
  predicate ScanAt(code: Buf, base: int)
  {
    && 19 <= |code.instrs|
    && code.instrs[1] == Load(0) && code.instrs[2] == ArrayLength
    && code.instrs[3] == Const(1) && code.instrs[4] == Sub && code.instrs[5] == Store(2)
    && code.instrs[6] == Load(2) && code.instrs[7] == Const(0) && code.instrs[8] == Jcc(Lt, base + 24)
    && code.instrs[9] == Load(0) && code.instrs[10] == Load(2) && code.instrs[11] == ALoad
    && code.instrs[12] == Load(1) && code.instrs[13] == Jcc(Eq, base + 28)
    && code.instrs[14] == Load(2) && code.instrs[15] == Jmp(base + 5)
    && IndexOf(code.addrs, base + 5) == Some(3)
    && IndexOf(code.addrs, base + 24) == Some(16)
    && IndexOf(code.addrs, base + 28) == Some(18)
  }

  /** `const 1; sub; store 2`: the index on the stack drops by one into
      local 2. */
  lemma {:induction false} RunDecrement(code: Buf, m: Machine, s: seq<int>, i: int)
    requires m.status.Running? && 0 <= m.ip && m.ip + 3 <= |code.instrs|
    requires code.instrs[m.ip] == Const(1) && code.instrs[m.ip + 1] == Sub && code.instrs[m.ip + 2] == Store(2)
    requires m.stack == s + [i] && |m.locals| >= 3
    ensures Steps(code, m, 3) == m.(ip := m.ip + 3, stack := s, locals := m.locals[2 := i - 1])
  {
    var m1 := m.(ip := m.ip + 1, stack := s + [i, 1]);
    var m2 := m.(ip := m.ip + 2, stack := s + [i - 1]);
    var m3 := m.(ip := m.ip + 3, stack := s, locals := m.locals[2 := i - 1]);
    assert (s + [i, 1])[..|s|] == s && (s + [i - 1])[..|s|] == s;
    StepConst(code, m, 1);
    StepSub(code, m1);
    StepStore(code, m2, 2);
    Via3(code, m, m1, m2, m3);
  }

  /** `load 2; const 0; jlt t`: jump to `t` when local 2 is negative. */
  lemma {:induction false} RunBelowZero(code: Buf, m: Machine, t: int, j: int)
    requires m.status.Running? && 0 <= m.ip && m.ip + 3 <= |code.instrs|
    requires code.instrs[m.ip] == Load(2) && code.instrs[m.ip + 1] == Const(0) && code.instrs[m.ip + 2] == Jcc(Lt, t)
    requires IndexOf(code.addrs, t) == Some(j) && |m.locals| >= 3
    ensures Steps(code, m, 3) == m.(ip := if m.locals[2] < 0 then j else m.ip + 3)
  {
    var s, x := m.stack, m.locals[2];
    var m1 := m.(ip := m.ip + 1, stack := s + [x]);
    var m2 := m.(ip := m.ip + 2, stack := s + [x, 0]);
    assert (s + [x, 0])[..|s|] == s;
    StepLoad(code, m, 2);
    StepConst(code, m1, 0);
    StepJcc(code, m2, Lt, t, j);
    Via3(code, m, m1, m2, m.(ip := if x < 0 then j else m.ip + 3));
  }

  /** The loop head with index `i` on the stack: the index drops by one into
      local 2, and the loop is left for the failure exit when it is below 0. */
  lemma {:induction false} RunScanTest(code: Buf, base: int, m: Machine, s: seq<int>, i: int)
    requires ScanAt(code, base)
    requires m.status.Running? && m.ip == 3 && m.stack == s + [i] && |m.locals| >= 3
    ensures Steps(code, m, TestSteps)
            == m.(ip := if i - 1 < 0 then 16 else 9, stack := s, locals := m.locals[2 := i - 1])
  {
    var m3 := m.(ip := 6, stack := s, locals := m.locals[2 := i - 1]);
    RunDecrement(code, m, s, i);
    RunBelowZero(code, m3, base + 24, 16);
    StepsSum(code, m, 3, 3, TestSteps, m3.(ip := if i - 1 < 0 then 16 else 9));
  }

  /** `load 0; load 2; aload`: push the element at the index in local 2. */
  lemma {:induction false} RunElement(code: Buf, m: Machine)
    requires m.status.Running? && 0 <= m.ip && m.ip + 3 <= |code.instrs|
    requires code.instrs[m.ip] == Load(0) && code.instrs[m.ip + 1] == Load(2) && code.instrs[m.ip + 2] == ALoad
    requires |m.locals| >= 3 && m.locals[0] in m.heap && 0 <= m.locals[2] < |m.heap[m.locals[0]]|
    ensures Steps(code, m, 3) == m.(ip := m.ip + 3, stack := m.stack + [m.heap[m.locals[0]][m.locals[2]]])
  {
    var s, a, j := m.stack, m.locals[0], m.locals[2];
    var m1 := m.(ip := m.ip + 1, stack := s + [a]);
    var m2 := m.(ip := m.ip + 2, stack := s + [a, j]);
    assert (s + [a, j])[..|s|] == s;
    StepLoad(code, m, 0);
    StepLoad(code, m1, 2);
    StepALoad(code, m2);
    Via3(code, m, m1, m2, m.(ip := m.ip + 3, stack := s + [m.heap[a][j]]));
  }

  /** `load 1; jeq t`: jump to `t` when the element on the stack equals the
      value in local 1. */
  lemma {:induction false} RunMatch(code: Buf, m: Machine, s: seq<int>, x: int, t: int, j: int)
    requires m.status.Running? && 0 <= m.ip && m.ip + 2 <= |code.instrs|
    requires code.instrs[m.ip] == Load(1) && code.instrs[m.ip + 1] == Jcc(Eq, t)
    requires IndexOf(code.addrs, t) == Some(j) && |m.locals| >= 2 && m.stack == s + [x]
    ensures Steps(code, m, 2) == m.(ip := if x == m.locals[1] then j else m.ip + 2, stack := s)
  {
    var m1 := m.(ip := m.ip + 1, stack := s + [x, m.locals[1]]);
    assert (s + [x, m.locals[1]])[..|s|] == s;
    StepLoad(code, m, 1);
    StepJcc(code, m1, Eq, t, j);
    Via2(code, m, m1, m.(ip := if x == m.locals[1] then j else m.ip + 2, stack := s));
  }

  /** The comparison: the element at the index in local 2 against the value
      in local 1, leaving for the success exit when they are equal. */
  lemma {:induction false} RunScanCompare(code: Buf, base: int, m: Machine)
    requires ScanAt(code, base)
    requires m.status.Running? && m.ip == 9 && |m.locals| >= 3 && m.locals[0] in m.heap
    requires 0 <= m.locals[2] < |m.heap[m.locals[0]]|
    ensures Steps(code, m, CompareSteps)
            == m.(ip := if m.heap[m.locals[0]][m.locals[2]] == m.locals[1] then 18 else 14)
  {
    var x := m.heap[m.locals[0]][m.locals[2]];
    var m3 := m.(ip := 12, stack := m.stack + [x]);
    RunElement(code, m);
    RunMatch(code, m3, m.stack, x, base + 28, 18);
    StepsSum(code, m, 3, 2, CompareSteps, m.(ip := if x == m.locals[1] then 18 else 14));
  }

  /** The index goes back on the stack and the loop starts over. */
  lemma {:induction false} RunScanNext(code: Buf, base: int, m: Machine)
    requires ScanAt(code, base)
    requires m.status.Running? && m.ip == 14 && |m.locals| >= 3
    ensures Steps(code, m, 2) == m.(ip := 3, stack := m.stack + [m.locals[2]])
  {
    var m1 := m.(ip := 15, stack := m.stack + [m.locals[2]]);
    StepLoad(code, m, 2);
    StepJmp(code, m1, base + 5, 3);
    Via2(code, m, m1, m1.(ip := 3));
  }

  /** One pass round the loop that does not match: back at the head with the
      index one lower. */
  lemma {:induction false} ScanMiss(code: Buf, base: int, m: Machine, s: seq<int>, i: int)
    requires ScanAt(code, base)
    requires m.status.Running? && m.ip == 3 && m.stack == s + [i] && |m.locals| >= 3
    requires m.locals[0] in m.heap && 0 < i <= |m.heap[m.locals[0]]|
    requires m.heap[m.locals[0]][i - 1] != m.locals[1]
    ensures Steps(code, m, MissSteps) == m.(stack := s + [i - 1], locals := m.locals[2 := i - 1])
  {
    var m6 := m.(ip := 9, stack := s, locals := m.locals[2 := i - 1]);
    RunScanTest(code, base, m, s, i);
    RunScanCompare(code, base, m6);
    StepsSum(code, m, TestSteps, CompareSteps, PassSteps, m6.(ip := 14));
    RunScanNext(code, base, m6.(ip := 14));
    StepsSum(code, m, PassSteps, 2, MissSteps, m.(stack := s + [i - 1], locals := m.locals[2 := i - 1]));
  }

  /** A pass that matches: at the success exit with the index in local 2. */
  lemma {:induction false} ScanHit(code: Buf, base: int, m: Machine, s: seq<int>, i: int)
    requires ScanAt(code, base)
    requires m.status.Running? && m.ip == 3 && m.stack == s + [i] && |m.locals| >= 3
    requires m.locals[0] in m.heap && 0 < i <= |m.heap[m.locals[0]]|
    requires m.heap[m.locals[0]][i - 1] == m.locals[1]
    ensures Steps(code, m, PassSteps) == m.(ip := 18, stack := s, locals := m.locals[2 := i - 1])
  {
    var m6 := m.(ip := 9, stack := s, locals := m.locals[2 := i - 1]);
    RunScanTest(code, base, m, s, i);
    RunScanCompare(code, base, m6);
    StepsSum(code, m, TestSteps, CompareSteps, PassSteps, m6.(ip := 18));
  }

  /** The entry: the array reference and the value move into a frame of `f`
      slots and the array's length is pushed as the first index. */
  lemma {:induction false} RunScanEntry(code: Buf, m: Machine, f: int, s: seq<int>, a: int, v: int)
    requires 3 <= |code.instrs| && 3 <= f
    requires code.instrs[0] == Enter(2, f) && code.instrs[1] == Load(0) && code.instrs[2] == ArrayLength
    requires m.status.Running? && m.ip == 0 && m.stack == s + [a, v] && a in m.heap
    ensures Steps(code, m, 3) == m.(ip := 3, stack := s + [|m.heap[a]|], locals := [a, v] + Zeros(f - 2))
  {
    var l := [a, v] + Zeros(f - 2);
    var m1 := m.(ip := 1, stack := s, locals := l);
    var m2 := m1.(ip := 2, stack := s + [a]);
    var m3 := m1.(ip := 3, stack := s + [|m.heap[a]|]);
    assert m.stack[..|s|] == s && m.stack[|s|..] == [a, v];
    assert (s + [a])[..|s|] == s;
    StepEnter(code, m, 2, f);
    StepLoad(code, m1, 0);
    StepArrayLength(code, m2);
    Via3(code, m, m1, m2, m3);
  }

  /** Splitting the prefix scanned so far at its last element. */
  lemma {:induction false} PrefixSnoc(arr: seq<int>, i: int)
    requires 0 < i <= |arr|
    ensures arr[..i] == arr[..i - 1] + [arr[i - 1]]
  {
  }

  // ---------------------------------------------------------------- findAny

  /** The routine `createFindAnyMethod` builds at address `base`, at the start
      of `code`. */
  predicate AnyAt(code: Buf, base: int)
  {
    && ScanAt(code, base) && 21 <= |code.instrs|
    && code.instrs[0] == Enter(2, 3)
    && code.instrs[16] == Const(0) && code.instrs[17] == Jmp(base + 29)
    && code.instrs[18] == Const(1) && code.instrs[19] == Exit && code.instrs[20] == Return
    && IndexOf(code.addrs, base + 29) == Some(19)
  }

  /** Steps findAny's loop takes from the head with index `i` until it
      returns. */
  function AnySteps(arr: seq<int>, v: int, i: int): (k: nat)
    requires 0 <= i <= |arr|
    ensures k >= EmptySteps
  {
    if i == 0 then EmptySteps else if arr[i - 1] == v then FoundSteps else MissSteps + AnySteps(arr, v, i - 1)
  }

  /** The failure exit: push 0, jump to the final code, return. */
  lemma {:induction false} AnyMissTail(code: Buf, base: int, m: Machine)
    requires AnyAt(code, base) && m.status.Running? && m.ip == 16
    ensures Steps(code, m, TailSteps) == m.(ip := 20, stack := m.stack + [0], locals := [], status := Returned)
  {
    var m1 := m.(ip := 17, stack := m.stack + [0]);
    var m2 := m1.(ip := 19);
    StepConst(code, m, 0);
    StepJmp(code, m1, base + 29, 19);
    Via2(code, m, m1, m2);
    RunExitReturn(code, m2);
    StepsSum(code, m, 2, 2, TailSteps, m2.(ip := 20, locals := [], status := Returned));
  }

  /** The success exit: push 1 and return. */
  lemma {:induction false} AnyHitTail(code: Buf, base: int, m: Machine)
    requires AnyAt(code, base) && m.status.Running? && m.ip == 18
    ensures Steps(code, m, 3) == m.(ip := 20, stack := m.stack + [1], locals := [], status := Returned)
  {
    var m1 := m.(ip := 19, stack := m.stack + [1]);
    StepConst(code, m, 1);
    Via1(code, m, m1);
    RunExitReturn(code, m1);
    StepsChain(code, m, 1, 2, m1.(ip := 20, locals := [], status := Returned));
  }

  /** The head with index 0: the scan is over and findAny returns 0. */
  lemma {:induction false} AnyEmpty(code: Buf, base: int, m: Machine, s: seq<int>, i: int)
    requires AnyAt(code, base)
    requires m.status.Running? && m.ip == 3 && m.stack == s + [i] && i <= 0 && |m.locals| >= 3
    ensures Steps(code, m, EmptySteps) == m.(ip := 20, stack := s + [0], locals := [], status := Returned)
  {
    var m6 := m.(ip := 16, stack := s, locals := m.locals[2 := i - 1]);
    RunScanTest(code, base, m, s, i);
    AnyMissTail(code, base, m6);
    StepsSum(code, m, TestSteps, TailSteps, EmptySteps, m.(ip := 20, stack := s + [0], locals := [], status := Returned));
  }

  /** A match at index `i - 1`: findAny returns 1. */
  lemma {:induction false} AnyFound(code: Buf, base: int, m: Machine, s: seq<int>, i: int)
    requires AnyAt(code, base)
    requires m.status.Running? && m.ip == 3 && m.stack == s + [i] && |m.locals| >= 3
    requires m.locals[0] in m.heap && 0 < i <= |m.heap[m.locals[0]]|
    requires m.heap[m.locals[0]][i - 1] == m.locals[1]
    ensures Steps(code, m, FoundSteps) == m.(ip := 20, stack := s + [1], locals := [], status := Returned)
  {
    var m11 := m.(ip := 18, stack := s, locals := m.locals[2 := i - 1]);
    ScanHit(code, base, m, s, i);
    AnyHitTail(code, base, m11);
    StepsSum(code, m, PassSteps, 3, FoundSteps, m.(ip := 20, stack := s + [1], locals := [], status := Returned));
  }

  /** A pass that does not match, followed by the rest of the scan: the
      result for the first `i - 1` elements is the result for the first `i`. */
  lemma {:induction false} AnyMissed(code: Buf, base: int, m: Machine, s: seq<int>, i: int, arr: seq<int>, v: int)
    requires AnyAt(code, base)
    requires m.status.Running? && m.ip == 3 && m.stack == s + [i] && |m.locals| >= 3
    requires m.locals[0] in m.heap && m.heap[m.locals[0]] == arr && m.locals[1] == v && 0 < i <= |arr|
    requires arr[i - 1] != v
    requires Steps(code, m.(stack := s + [i - 1], locals := m.locals[2 := i - 1]), AnySteps(arr, v, i - 1))
             == m.(ip := 20, stack := s + [if v in arr[..i - 1] then 1 else 0], locals := [], status := Returned)
    ensures Steps(code, m, AnySteps(arr, v, i))
            == m.(ip := 20, stack := s + [if v in arr[..i] then 1 else 0], locals := [], status := Returned)
  {
    ScanMiss(code, base, m, s, i);
    PrefixSnoc(arr, i);
    assert (v in arr[..i]) == (v in arr[..i - 1]);
    StepsSum(code, m, MissSteps, AnySteps(arr, v, i - 1), AnySteps(arr, v, i),
             m.(ip := 20, stack := s + [if v in arr[..i - 1] then 1 else 0], locals := [], status := Returned));
  }

  /** The findAny loop head: index `i` on top of the stack `s`, local 0
      referring to the array `arr` and local 1 holding the value `v`. */
  predicate AnyHead(m: Machine, s: seq<int>, i: int, arr: seq<int>, v: int)
  {
    m.status.Running? && m.ip == 3 && m.stack == s + [i] && |m.locals| >= 3
    && m.locals[0] in m.heap && m.heap[m.locals[0]] == arr && m.locals[1] == v && 0 <= i <= |arr|
  }

  /** From the loop head with index `i`, findAny returns 1 exactly when the
      value `v` in local 1 occurs among the first `i` elements of the array
      `arr` that local 0 refers to. */
  lemma {:induction false} AnyLoop(code: Buf, base: int, m: Machine, s: seq<int>, i: int, arr: seq<int>, v: int)
    requires AnyAt(code, base) && AnyHead(m, s, i, arr, v)
    ensures Steps(code, m, AnySteps(arr, v, i)) == Done(m, 20, s + [if v in arr[..i] then 1 else 0])
    decreases i, 1
  {
    if i == 0 {
      AnyEmpty(code, base, m, s, i);
      assert arr[..i] == [];
    } else if arr[i - 1] == v {
      AnyFound(code, base, m, s, i);
      assert arr[..i][i - 1] == v;
    } else {
      AnyLoopMiss(code, base, m, s, i, arr, v);
    }
  }

  /** The loop when element `i - 1` does not match: one pass, then the loop
      over the first `i - 1` elements. */
  lemma {:induction false} AnyLoopMiss(code: Buf, base: int, m: Machine, s: seq<int>, i: int, arr: seq<int>, v: int)
    requires AnyAt(code, base) && AnyHead(m, s, i, arr, v) && 0 < i && arr[i - 1] != v
    ensures Steps(code, m, AnySteps(arr, v, i)) == Done(m, 20, s + [if v in arr[..i] then 1 else 0])
    decreases i, 0
  {
    AnyLoop(code, base, m.(stack := s + [i - 1], locals := m.locals[2 := i - 1]), s, i - 1, arr, v);
    AnyMissed(code, base, m, s, i, arr, v);
  }

  /** findAny's resolved code, instruction by instruction: the entry, */
  lemma {:induction false} FindAnyEntryParts(base: int)
    ensures var c := FindAnyCode(base);
            |c| == 21 && c[0] == Enter(2, 3) && c[1] == Load(0) && c[2] == ArrayLength && c[3] == Const(1)
  {
  }

  /** the loop test, */
  lemma {:induction false} FindAnyTestParts(base: int)
    ensures var c := FindAnyCode(base);
            |c| == 21 && c[4] == Sub && c[5] == Store(2) && c[6] == Load(2) && c[7] == Const(0)
  {
  }

  /** the element fetch, */
  lemma {:induction false} FindAnyFetchParts(base: int)
    ensures var c := FindAnyCode(base);
            |c| == 21 && c[8] == Jcc(Lt, base + 24) && c[9] == Load(0) && c[10] == Load(2)
  {
  }

  /** and the comparison and both exits. */
  lemma {:induction false} FindAnyExitParts(base: int)
    ensures var c := FindAnyCode(base);
            && |c| == 21 && c[11] == ALoad
            && c[12] == Load(1) && c[13] == Jcc(Eq, base + 28) && c[14] == Load(2) && c[15] == Jmp(base + 5)
            && c[16] == Const(0) && c[17] == Jmp(base + 29) && c[18] == Const(1) && c[19] == Exit && c[20] == Return
  {
  }

  /** `code` holds exactly findAny's code as `createFindAnyMethod` resolves
      it for address `base`, and the labels its jumps use lead to the
      instructions they name. */
  predicate AnyCode(code: Buf, base: int)
  {
    && code.instrs == FindAnyCode(base)
    && IndexOf(code.addrs, base + 5) == Some(3) && IndexOf(code.addrs, base + 24) == Some(16)
    && IndexOf(code.addrs, base + 28) == Some(18) && IndexOf(code.addrs, base + 29) == Some(19)
  }

  /** Such a buffer has the shape the run lemmas below walk through. */
  lemma {:induction false} AnyCodeAt(seg: Buf, base: int)
    requires AnyCode(seg, base)
    ensures AnyAt(seg, base)
  {
    FindAnyEntryParts(base);
    FindAnyTestParts(base);
    FindAnyFetchParts(base);
    FindAnyExitParts(base);
  }

  /** findAny called with an array `a` and a value `v`: it returns 1 when `v`
      occurs in the array and 0 otherwise, leaving the heap, the output and the
      rest of the stack as they were. */
  lemma {:induction false} FindAnyRun(code: Buf, base: int, m: Machine)
    ensures AnyAt(code, base) && SearchCall(m) && m.ip == 0 ==>
            Steps(code, m, AnyCost(m)) == Answer(m, 20, if CallValue(m) in CallArray(m) then 1 else 0)
  {
    if AnyAt(code, base) && SearchCall(m) && m.ip == 0 {
      var st := m.stack;
      var s, a, v := st[..|st| - 2], st[|st| - 2], st[|st| - 1];
      var arr := m.heap[a];
      var m3 := m.(ip := 3, stack := s + [|arr|], locals := [a, v] + Zeros(1));
      assert st == s + [a, v];
      RunScanEntry(code, m, 3, s, a, v);
      AnyLoop(code, base, m3, s, |arr|, arr, v);
      assert arr[..|arr|] == arr;
      StepsChain(code, m, 3, AnySteps(arr, v, |arr|), m.(ip := 20, stack := s + [if v in arr then 1 else 0], locals := [], status := Returned));
    }
  }

  // ---------------------------------------------------------------- findAll

  /** The routine `createFindAllFunction` builds at address `base`, at the
      start of `code`; local 3 holds the count. */
  predicate AllAt(code: Buf, base: int)
  {
    && ScanAt(code, base) && CountAt(code, base) && 26 <= |code.instrs|
    && code.instrs[0] == Enter(2, 4)
    && code.instrs[16] == Load(3) && code.instrs[17] == Jmp(base + 36)
    && code.instrs[24] == Exit && code.instrs[25] == Return
    && IndexOf(code.addrs, base + 36) == Some(24)
  }

  /** findAll's success exit at 18: bump the count in local 3 and jump
      back to the loop head. */
  predicate CountAt(code: Buf, base: int)
  {
    && 24 <= |code.instrs|
    && code.instrs[18] == Load(3) && code.instrs[19] == Const(1) && code.instrs[20] == Add
    && code.instrs[21] == Store(3) && code.instrs[22] == Load(2) && code.instrs[23] == Jmp(base + 5)
    && IndexOf(code.addrs, base + 5) == Some(3)
  }

  /** Steps findAll's loop takes from the head with index `i` until it
      returns. */
  function AllSteps(arr: seq<int>, v: int, i: int): (k: nat)
    requires 0 <= i <= |arr|
    ensures k >= EmptySteps
  {
    if i == 0 then EmptySteps else (if arr[i - 1] == v then CountedSteps else MissSteps) + AllSteps(arr, v, i - 1)
  }

  /** The exit once the index drops below 0: push the count and return. */
  lemma {:induction false} AllTail(code: Buf, base: int, m: Machine)
    requires AllAt(code, base) && m.status.Running? && m.ip == 16 && |m.locals| >= 4
    ensures Steps(code, m, TailSteps) == m.(ip := 25, stack := m.stack + [m.locals[3]], locals := [], status := Returned)
  {
    var m1 := m.(ip := 17, stack := m.stack + [m.locals[3]]);
    var m2 := m1.(ip := 24);
    StepLoad(code, m, 3);
    StepJmp(code, m1, base + 36, 24);
    Via2(code, m, m1, m2);
    RunExitReturn(code, m2);
    StepsSum(code, m, 2, 2, TailSteps, m2.(ip := 25, locals := [], status := Returned));
  }

  /** A match: the count in local 3 goes up by one and the loop starts over
      with the index from local 2. */
  lemma {:induction false} AllCount(code: Buf, base: int, m: Machine, s: seq<int>, j: int, c: int)
    requires CountAt(code, base) && m.status.Running? && m.ip == 18 && |m.locals| >= 4
    requires m.stack == s && m.locals[2] == j && m.locals[3] == c
    ensures Steps(code, m, CountSteps) == m.(ip := 3, stack := s + [j], locals := m.locals[3 := c + 1])
  {
    var l := m.locals[3 := c + 1];
    var m1 := m.(ip := 19, stack := s + [c]);
    var m2 := m.(ip := 20, stack := s + [c, 1]);
    var m3 := m.(ip := 21, stack := s + [c + 1]);
    var m4 := m.(ip := 22, locals := l);
    var m5 := m4.(ip := 23, stack := s + [m.locals[2]]);
    assert (s + [c, 1])[..|s|] == s && (s + [c + 1])[..|s|] == s;
    StepLoad(code, m, 3);
    StepConst(code, m1, 1);
    StepAdd(code, m2);
    StepStore(code, m3, 3);
    StepLoad(code, m4, 2);
    StepJmp(code, m5, base + 5, 3);
    Via4(code, m, m1, m2, m3, m4);
    Via2(code, m4, m5, m5.(ip := 3));
    StepsSum(code, m, 4, 2, CountSteps, m5.(ip := 3));
  }

  /** How many of the first `i` elements of `arr` equal `v`. */
  function CountTo(arr: seq<int>, v: int, i: int): (k: nat)
    requires 0 <= i <= |arr|
    ensures k <= i
  {
    if i == 0 then 0 else CountTo(arr, v, i - 1) + (if arr[i - 1] == v then 1 else 0)
  }

  /** The count over the first `i` elements is the multiplicity of `v` in
      their multiset. */
  lemma {:induction false} CountToMultiset(arr: seq<int>, v: int, i: int)
    requires 0 <= i <= |arr|
    ensures CountTo(arr, v, i) == multiset(arr[..i])[v]
    decreases i
  {
    if i > 0 {
      CountToMultiset(arr, v, i - 1);
      assert arr[..i] == arr[..i - 1] + [arr[i - 1]];
      assert multiset(arr[..i]) == multiset(arr[..i - 1]) + multiset{arr[i - 1]};
    }
  }

  /** The head with an index of 0 or less: findAll returns the count in
      local 3. */
  lemma {:induction false} AllEmpty(code: Buf, base: int, m: Machine, s: seq<int>, i: int)
    requires AllAt(code, base)
    requires m.status.Running? && m.ip == 3 && m.stack == s + [i] && i <= 0 && |m.locals| >= 4
    ensures Steps(code, m, EmptySteps) == m.(ip := 25, stack := s + [m.locals[3]], locals := [], status := Returned)
  {
    var m6 := m.(ip := 16, stack := s, locals := m.locals[2 := i - 1]);
    RunScanTest(code, base, m, s, i);
    AllTail(code, base, m6);
    StepsSum(code, m, TestSteps, TailSteps, EmptySteps, m.(ip := 25, stack := s + [m.locals[3]], locals := [], status := Returned));
  }

  /** The machine once the routine has returned at `ip`, leaving `st` on
      the stack. */
  function Done(m: Machine, ip: int, st: seq<int>): (r: Machine)
    ensures r.status == Returned && r.ip == ip && r.stack == st && r.locals == []
    ensures r.heap == m.heap && r.out == m.out && r.stale == m.stale
  {
    m.(ip := ip, stack := st, locals := [], status := Returned)
  }

  /** A pass whose element matches: the machine is back at the loop head with
      the index one lower and the count one higher. */
  lemma {:induction false} AllHit(code: Buf, base: int, m: Machine, s: seq<int>, i: int)
    requires ScanAt(code, base) && CountAt(code, base)
    requires m.status.Running? && m.ip == 3 && m.stack == s + [i] && |m.locals| >= 4
    requires m.locals[0] in m.heap && 0 < i <= |m.heap[m.locals[0]]|
    requires m.heap[m.locals[0]][i - 1] == m.locals[1]
    ensures Steps(code, m, CountedSteps) == m.(stack := s + [i - 1], locals := m.locals[2 := i - 1][3 := m.locals[3] + 1])
  {
    var l := m.locals[2 := i - 1];
    var m11 := m.(ip := 18, stack := s, locals := l);
    ScanHit(code, base, m, s, i);
    AllCount(code, base, m11, s, i - 1, m.locals[3]);
    StepsSum(code, m, PassSteps, CountSteps, CountedSteps, m11.(ip := 3, stack := s + [i - 1], locals := l[3 := m.locals[3] + 1]));
  }

  /** A pass that matches, followed by the rest of the scan with the count
      one higher: the routine returns whatever that rest returns. */
  lemma {:induction false} AllMatched(code: Buf, base: int, m: Machine, s: seq<int>, i: int, arr: seq<int>, v: int, r: int)
    requires AllAt(code, base)
    requires m.status.Running? && m.ip == 3 && m.stack == s + [i] && |m.locals| >= 4
    requires m.locals[0] in m.heap && m.heap[m.locals[0]] == arr && m.locals[1] == v && 0 < i <= |arr|
    requires arr[i - 1] == v
    requires Steps(code, m.(stack := s + [i - 1], locals := m.locals[2 := i - 1][3 := m.locals[3] + 1]), AllSteps(arr, v, i - 1))
             == Done(m, 25, s + [r])
    ensures Steps(code, m, AllSteps(arr, v, i)) == Done(m, 25, s + [r])
  {
    AllHit(code, base, m, s, i);
    StepsSum(code, m, CountedSteps, AllSteps(arr, v, i - 1), AllSteps(arr, v, i), Done(m, 25, s + [r]));
  }

  /** A pass that does not match, followed by the rest of the scan: the
      routine returns whatever that rest returns. */
  lemma {:induction false} AllMissed(code: Buf, base: int, m: Machine, s: seq<int>, i: int, arr: seq<int>, v: int, r: int)
    requires ScanAt(code, base)
    requires m.status.Running? && m.ip == 3 && m.stack == s + [i] && |m.locals| >= 4
    requires m.locals[0] in m.heap && m.heap[m.locals[0]] == arr && m.locals[1] == v && 0 < i <= |arr|
    requires arr[i - 1] != v
    requires Steps(code, m.(stack := s + [i - 1], locals := m.locals[2 := i - 1]), AllSteps(arr, v, i - 1))
             == Done(m, 25, s + [r])
    ensures Steps(code, m, AllSteps(arr, v, i)) == Done(m, 25, s + [r])
  {
    ScanMiss(code, base, m, s, i);
    StepsSum(code, m, MissSteps, AllSteps(arr, v, i - 1), AllSteps(arr, v, i), Done(m, 25, s + [r]));
  }

  /** The findAll loop head: index `i` on top of the stack `s`, local 0
      referring to the array `arr` and local 1 holding the value `v`. */
  predicate AllHead(m: Machine, s: seq<int>, i: int, arr: seq<int>, v: int)
  {
    m.status.Running? && m.ip == 3 && m.stack == s + [i] && |m.locals| >= 4
    && m.locals[0] in m.heap && m.heap[m.locals[0]] == arr && m.locals[1] == v && 0 <= i <= |arr|
  }

  /** From the loop head with index `i` and a count `c` in local 3, findAll
      returns `c` plus the number of times the value `v` in local 1 occurs
      among the first `i` elements of the array `arr` local 0 refers to. */
  lemma {:induction false} AllLoop(code: Buf, base: int, m: Machine, s: seq<int>, i: int, arr: seq<int>, v: int)
    requires AllAt(code, base) && AllHead(m, s, i, arr, v)
    ensures Steps(code, m, AllSteps(arr, v, i)) == Done(m, 25, s + [m.locals[3] + CountTo(arr, v, i)])
    decreases i, 1
  {
    if i == 0 {
      AllEmpty(code, base, m, s, i);
    } else if arr[i - 1] == v {
      AllLoopHit(code, base, m, s, i, arr, v);
    } else {
      AllLoopMiss(code, base, m, s, i, arr, v);
    }
  }

  /** The loop when element `i - 1` matches: one pass, then the loop over
      the first `i - 1` elements with the count one higher. */
  lemma {:induction false} AllLoopHit(code: Buf, base: int, m: Machine, s: seq<int>, i: int, arr: seq<int>, v: int)
    requires AllAt(code, base) && AllHead(m, s, i, arr, v) && 0 < i && arr[i - 1] == v
    ensures Steps(code, m, AllSteps(arr, v, i)) == Done(m, 25, s + [m.locals[3] + CountTo(arr, v, i)])
    decreases i, 0
  {
    var next := m.(stack := s + [i - 1], locals := m.locals[2 := i - 1][3 := m.locals[3] + 1]);
    AllLoop(code, base, next, s, i - 1, arr, v);
    AllMatched(code, base, m, s, i, arr, v, m.locals[3] + 1 + CountTo(arr, v, i - 1));
  }

  /** The loop when element `i - 1` does not match: one pass, then the loop
      over the first `i - 1` elements with the same count. */
  lemma {:induction false} AllLoopMiss(code: Buf, base: int, m: Machine, s: seq<int>, i: int, arr: seq<int>, v: int)
    requires AllAt(code, base) && AllHead(m, s, i, arr, v) && 0 < i && arr[i - 1] != v
    ensures Steps(code, m, AllSteps(arr, v, i)) == Done(m, 25, s + [m.locals[3] + CountTo(arr, v, i)])
    decreases i, 0
  {
    var next := m.(stack := s + [i - 1], locals := m.locals[2 := i - 1]);
    AllLoop(code, base, next, s, i - 1, arr, v);
    AllMissed(code, base, m, s, i, arr, v, m.locals[3] + CountTo(arr, v, i - 1));
  }

  /** findAll's resolved code, instruction by instruction: the entry, */
  lemma {:induction false} FindAllEntryParts(base: int)
    ensures var c := FindAllCode(base);
            |c| == 26 && c[0] == Enter(2, 4) && c[1] == Load(0) && c[2] == ArrayLength && c[3] == Const(1)
  {
  }

  /** the loop test, */
  lemma {:induction false} FindAllTestParts(base: int)
    ensures var c := FindAllCode(base);
            |c| == 26 && c[4] == Sub && c[5] == Store(2) && c[6] == Load(2) && c[7] == Const(0)
  {
  }

  /** the element fetch, */
  lemma {:induction false} FindAllFetchParts(base: int)
    ensures var c := FindAllCode(base);
            |c| == 26 && c[8] == Jcc(Lt, base + 24) && c[9] == Load(0) && c[10] == Load(2)
  {
  }

  /** the comparison, */
  lemma {:induction false} FindAllCompareParts(base: int)
    ensures var c := FindAllCode(base);
            |c| == 26 && c[11] == ALoad && c[12] == Load(1) && c[13] == Jcc(Eq, base + 28)
            && c[14] == Load(2) && c[15] == Jmp(base + 5)
  {
  }

  /** the failure exit and the final code, */
  lemma {:induction false} FindAllExitParts(base: int)
    ensures var c := FindAllCode(base);
            |c| == 26 && c[16] == Load(3) && c[17] == Jmp(base + 36) && c[24] == Exit && c[25] == Return
  {
  }

  /** and the count update. */
  lemma {:induction false} FindAllCountParts(base: int)
    ensures var c := FindAllCode(base);
            && |c| == 26 && c[18] == Load(3) && c[19] == Const(1) && c[20] == Add
            && c[21] == Store(3) && c[22] == Load(2) && c[23] == Jmp(base + 5)
  {
  }

  /** `code` holds exactly findAll's code as `createFindAllFunction` resolves
      it for address `base`, with its labels. */
  predicate AllCode(code: Buf, base: int)
  {
    && code.instrs == FindAllCode(base)
    && IndexOf(code.addrs, base + 5) == Some(3) && IndexOf(code.addrs, base + 24) == Some(16)
    && IndexOf(code.addrs, base + 28) == Some(18) && IndexOf(code.addrs, base + 36) == Some(24)
  }

  /** Such a buffer has the shape the run lemmas below walk through. */
  lemma {:induction false} AllCodeAt(seg: Buf, base: int)
    requires AllCode(seg, base)
    ensures AllAt(seg, base)
  {
    FindAllEntryParts(base);
    FindAllTestParts(base);
    FindAllFetchParts(base);
    FindAllCompareParts(base);
    FindAllExitParts(base);
    FindAllCountParts(base);
  }

  /** findAll called with an array `a` and a value `v`: it returns the number
      of elements equal to `v`, leaving the heap, the output and the rest of
      the stack as they were. */
  lemma {:induction false} FindAllRun(code: Buf, base: int, m: Machine)
    ensures AllAt(code, base) && SearchCall(m) && m.ip == 0 ==>
            Steps(code, m, AllCost(m)) == Answer(m, 25, multiset(CallArray(m))[CallValue(m)])
  {
    if AllAt(code, base) && SearchCall(m) && m.ip == 0 {
      var st := m.stack;
      var s, a, v := st[..|st| - 2], st[|st| - 2], st[|st| - 1];
      var arr := m.heap[a];
      assert st == s + [a, v];
      FindAllCounts(code, base, m, s, a, v);
      assert arr[..|arr|] == arr;
      CountToMultiset(arr, v, |arr|);
    }
  }

  /** The entry and the whole loop: findAll returns the count over the
      entire array. */
  lemma {:induction false} FindAllCounts(code: Buf, base: int, m: Machine, s: seq<int>, a: int, v: int)
    requires AllAt(code, base)
    requires m.status.Running? && m.ip == 0 && m.stack == s + [a, v] && a in m.heap
    ensures Steps(code, m, 3 + AllSteps(m.heap[a], v, |m.heap[a]|)) == Done(m, 25, s + [CountTo(m.heap[a], v, |m.heap[a]|)])
  {
    var arr := m.heap[a];
    var l := [a, v] + Zeros(2);
    assert l[3] == 0;
    var m3 := m.(ip := 3, stack := s + [|arr|], locals := l);
    RunScanEntry(code, m, 4, s, a, v);
    AllLoop(code, base, m3, s, |arr|, arr, v);
    StepsChain(code, m, 3, AllSteps(arr, v, |arr|), Done(m, 25, s + [CountTo(arr, v, |arr|)]));
  }

  // ---------------------------------------------------------------- answers

  /** A call with an array and a value on top of the stack. */
  predicate SearchCall(m: Machine)
  {
    m.status.Running? && |m.stack| >= 2 && m.stack[|m.stack| - 2] in m.heap
  }

  /** The array and the value of such a call (empty and 0 for anything
      that is not one). */
  function CallArray(m: Machine): seq<int>
  {
    if SearchCall(m) then m.heap[m.stack[|m.stack| - 2]] else []
  }

  function CallValue(m: Machine): int
  {
    if SearchCall(m) then m.stack[|m.stack| - 1] else 0
  }

  /** The machine a search called in `m` returns, at instruction `ip`, with
      the result `x` in place of its two arguments. */
  function Answer(m: Machine, ip: int, x: int): Machine
  {
    m.(ip := ip, stack := m.stack[..if |m.stack| >= 2 then |m.stack| - 2 else 0] + [x], locals := [], status := Returned)
  }

  /** The number of steps findAny and findAll take on such a call, entry
      and return included. */
  function AnyCost(m: Machine): nat
  {
    3 + AnySteps(CallArray(m), CallValue(m), |CallArray(m)|)
  }

  function AllCost(m: Machine): nat
  {
    3 + AllSteps(CallArray(m), CallValue(m), |CallArray(m)|)
  }

  /** Every call of findAny entered at the first instruction of `code`
      returns its answer. */
  ghost predicate AnyAnswers(code: Buf)
  {
    forall m {:trigger Steps(code, m, AnyCost(m))} :: SearchCall(m) && m.ip == 0 ==>
      Steps(code, m, AnyCost(m)) == Answer(m, 20, if CallValue(m) in CallArray(m) then 1 else 0)
  }

  lemma FindAnyAnswers(code: Buf, base: int)
    ensures AnyAt(code, base) ==> AnyAnswers(code)
  {
    if AnyAt(code, base) {
      forall m | SearchCall(m) && m.ip == 0
        ensures Steps(code, m, AnyCost(m)) == Answer(m, 20, if CallValue(m) in CallArray(m) then 1 else 0)
      {
        FindAnyRun(code, base, m);
      }
    }
  }

  /** Every call of findAll entered at the first instruction of `code`
      returns its answer. */
  ghost predicate AllAnswers(code: Buf)
  {
    forall m {:trigger Steps(code, m, AllCost(m))} :: SearchCall(m) && m.ip == 0 ==>
      Steps(code, m, AllCost(m)) == Answer(m, 25, multiset(CallArray(m))[CallValue(m)])
  }

  lemma FindAllAnswers(code: Buf, base: int)
    ensures AllAt(code, base) ==> AllAnswers(code)
  {
    if AllAt(code, base) {
      forall m | SearchCall(m) && m.ip == 0
        ensures Steps(code, m, AllCost(m)) == Answer(m, 25, multiset(CallArray(m))[CallValue(m)])
      {
        FindAllRun(code, base, m);
      }
    }
  }
}

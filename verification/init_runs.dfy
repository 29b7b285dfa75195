/** The six routines where `initCodeGenerator` leaves them: each one sits in
    the buffer it returns at a known index, the address it records for the
    routine names that index, and the run lemmas of `RuntimeProofs` and
    `SearchProofs` apply there. */
module InitRuns {
  import opened Types
  import opened Bytecode
  import opened Runtime
  import opened Execution
  import opened RuntimeProofs
  import opened SearchProofs
  import opened Placement

  // ---------------------------------------------------------------- findAny and findAll, hosted

  /** findAny's code in a buffer that extends the builder's. */
  lemma {:induction false} FindAnyCodeIn(code: Buf, b: Buf)
    requires Extends(code, FindAny(b))
    ensures |b.instrs| + 21 <= |code.instrs| && code.instrs[|b.instrs|..|b.instrs| + 21] == FindAnyCode(b.pc)
  {
    var n, c := |b.instrs|, FindAnyCode(b.pc);
    FindAnyLayout(b);
    HostedSlice(code, FindAny(b), b.instrs, c, 0, 21, n, n + 21);
    assert c[0..21] == c;
  }

  /** The addresses findAny jumps to, in a buffer that extends the builder's. */
  lemma {:induction false} FindAnyLabelsIn(code: Buf, b: Buf, n: int)
    requires Extends(code, FindAny(b)) && n == |b.instrs| && |b.addrs| == n
    ensures code.addrs[n] == b.pc && code.addrs[n + 3] == b.pc + 5 && code.addrs[n + 16] == b.pc + 24
    ensures code.addrs[n + 18] == b.pc + 28 && code.addrs[n + 19] == b.pc + 29
  {
    FindAnyLabels(b);
    ExtendsAddrs(code, FindAny(b), n);
    ExtendsAddrs(code, FindAny(b), n + 3);
    ExtendsAddrs(code, FindAny(b), n + 16);
    ExtendsAddrs(code, FindAny(b), n + 18);
    ExtendsAddrs(code, FindAny(b), n + 19);
  }

  /** The 21 instructions `FindAny(b)` appended after `b`, carved out of a
      buffer that extends the builder's, are the routine `FindAnyRun` runs,
      built at address `b.pc`. */
  lemma {:induction false} FindAnyCarved(code: Buf, b: Buf, n: int)
    requires Extends(code, FindAny(b)) && n == |b.instrs| && |b.addrs| == n
    ensures n + 21 <= |code.instrs| && Placed(code, Carve(code, n, 21), n) && AnyAnswers(Carve(code, n, 21))
  {
    FindAnyCodeIn(code, b);
    FindAnyLabelsIn(code, b, n);
    CarvePlaced(code, n, 21);
    var seg := Carve(code, n, 21);
    assert IndexOf(seg.addrs, code.addrs[n + 3]) == Some(3);
    assert IndexOf(seg.addrs, code.addrs[n + 16]) == Some(16);
    assert IndexOf(seg.addrs, code.addrs[n + 18]) == Some(18);
    assert IndexOf(seg.addrs, code.addrs[n + 19]) == Some(19);
    AnyCodeAt(seg, b.pc);
    FindAnyAnswers(seg, b.pc);
  }

  /** A search's answer, reached by a run of a placed segment entered at
      its first instruction, is reached the same way where it is placed. */
  lemma {:induction false} AnswerPlaced(code: Buf, seg: Buf, n: int, m: Machine, k: nat, j: int, x: int)
    ensures Placed(code, seg, n) && m.ip == n && Steps(seg, m.(ip := 0), k) == Answer(m.(ip := 0), j, x)
            ==> Steps(code, m, k) == Answer(m, n + j, x)
  {
    if Placed(code, seg, n) && m.ip == n && Steps(seg, m.(ip := 0), k) == Answer(m.(ip := 0), j, x) {
      RunPlacedFrom(code, seg, n, m, k, Answer(m.(ip := 0), j, x));
    }
  }

  /** findAny placed at `n`, called with an array and a value: it returns 1
      when the value occurs in the array and 0 otherwise, leaving the heap,
      the output and the rest of the stack as they were. */
  lemma {:induction false} FindAnyHosted(code: Buf, seg: Buf, n: int, m: Machine)
    ensures Placed(code, seg, n) && AnyAnswers(seg) && SearchCall(m) && m.ip == n ==>
            Steps(code, m, AnyCost(m)) == Answer(m, n + 20, if CallValue(m) in CallArray(m) then 1 else 0)
  {
    var m0 := m.(ip := 0);
    AnswerPlaced(code, seg, n, m, AnyCost(m0), 20, if CallValue(m0) in CallArray(m0) then 1 else 0);
  }

  /** findAny built after `b`, in a buffer that extends the builder's: the
      address the builder records for it leads to instruction `n`, and a call
      entered there returns its answer. */
  lemma {:induction false} FindAnyPlaced(code: Buf, b: Buf, n: int, m: Machine)
    ensures Extends(code, FindAny(b)) && n == |b.instrs| && |b.addrs| == n ==>
            && IndexOf(code.addrs, b.pc) == Some(n)
            && (SearchCall(m) && m.ip == n ==> Steps(code, m, AnyCost(m)) == Answer(m, n + 20, if CallValue(m) in CallArray(m) then 1 else 0))
  {
    if Extends(code, FindAny(b)) && n == |b.instrs| && |b.addrs| == n {
      FindAnyCarved(code, b, n);
      FindAnyLabelsIn(code, b, n);
      IndexOfAddr(code, n);
      FindAnyHosted(code, Carve(code, n, 21), n, m);
    }
  }

  /** findAll's code in a buffer that extends the builder's. */
  lemma {:induction false} FindAllCodeIn(code: Buf, b: Buf)
    requires Extends(code, FindAll(b))
    ensures |b.instrs| + 26 <= |code.instrs| && code.instrs[|b.instrs|..|b.instrs| + 26] == FindAllCode(b.pc)
  {
    var n, c := |b.instrs|, FindAllCode(b.pc);
    FindAllLayout(b);
    HostedSlice(code, FindAll(b), b.instrs, c, 0, 26, n, n + 26);
    assert c[0..26] == c;
  }

  /** The addresses findAll jumps to, in a buffer that extends the builder's. */
  lemma {:induction false} FindAllLabelsIn(code: Buf, b: Buf, n: int)
    requires Extends(code, FindAll(b)) && n == |b.instrs| && |b.addrs| == n
    ensures code.addrs[n] == b.pc && code.addrs[n + 3] == b.pc + 5 && code.addrs[n + 16] == b.pc + 24
    ensures code.addrs[n + 18] == b.pc + 28 && code.addrs[n + 24] == b.pc + 36
  {
    FindAllLabels(b);
    ExtendsAddrs(code, FindAll(b), n);
    ExtendsAddrs(code, FindAll(b), n + 3);
    ExtendsAddrs(code, FindAll(b), n + 16);
    ExtendsAddrs(code, FindAll(b), n + 18);
    ExtendsAddrs(code, FindAll(b), n + 24);
  }

  /** The 26 instructions `FindAll(b)` appended after `b`, carved out of a
      buffer that extends the builder's, are the routine `FindAllRun` runs. */
  lemma {:induction false} FindAllCarved(code: Buf, b: Buf, n: int)
    requires Extends(code, FindAll(b)) && n == |b.instrs| && |b.addrs| == n
    ensures n + 26 <= |code.instrs| && Placed(code, Carve(code, n, 26), n) && AllAnswers(Carve(code, n, 26))
  {
    FindAllCodeIn(code, b);
    FindAllLabelsIn(code, b, n);
    CarvePlaced(code, n, 26);
    var seg := Carve(code, n, 26);
    assert IndexOf(seg.addrs, code.addrs[n + 3]) == Some(3);
    assert IndexOf(seg.addrs, code.addrs[n + 16]) == Some(16);
    assert IndexOf(seg.addrs, code.addrs[n + 18]) == Some(18);
    assert IndexOf(seg.addrs, code.addrs[n + 24]) == Some(24);
    AllCodeAt(seg, b.pc);
    FindAllAnswers(seg, b.pc);
  }

  /** findAll placed at `n`, called with an array and a value: it returns how
      many elements of the array equal the value, leaving the heap, the output
      and the rest of the stack as they were. */
  lemma {:induction false} FindAllHosted(code: Buf, seg: Buf, n: int, m: Machine)
    ensures Placed(code, seg, n) && AllAnswers(seg) && SearchCall(m) && m.ip == n ==>
            Steps(code, m, AllCost(m)) == Answer(m, n + 25, multiset(CallArray(m))[CallValue(m)])
  {
    var m0 := m.(ip := 0);
    AnswerPlaced(code, seg, n, m, AllCost(m0), 25, multiset(CallArray(m0))[CallValue(m0)]);
  }

  /** findAll built after `b`, in a buffer that extends the builder's: the
      address the builder records for it leads to instruction `n`, and a call
      entered there returns its answer. */
  lemma {:induction false} FindAllPlaced(code: Buf, b: Buf, n: int, m: Machine)
    ensures Extends(code, FindAll(b)) && n == |b.instrs| && |b.addrs| == n ==>
            && IndexOf(code.addrs, b.pc) == Some(n)
            && (SearchCall(m) && m.ip == n ==> Steps(code, m, AllCost(m)) == Answer(m, n + 25, multiset(CallArray(m))[CallValue(m)]))
  {
    if Extends(code, FindAll(b)) && n == |b.instrs| && |b.addrs| == n {
      FindAllCarved(code, b, n);
      FindAllLabelsIn(code, b, n);
      IndexOfAddr(code, n);
      FindAllHosted(code, Carve(code, n, 26), n, m);
    }
  }

  // ---------------------------------------------------------------- initCodeGenerator

  /** The buffer the first `k` routines leave: where routine `k` is built. */
  function Before(b: Buf, k: nat, gm: Messages): Buf
    requires k <= 6
  {
    CreateAll(b, CreationOrder[..k], gm)
  }

  /** Routine `k` of a sequence created one after the other is built after
      the routines before it, and what is created in all extends it. */
  lemma {:induction false} CreateAllHosts(b: Buf, rts: seq<Routine>, m: Messages, k: int)
    requires Valid(b) && 0 <= k < |rts|
    ensures var x := CreateAll(b, rts[..k], m);
            && Valid(x) && Extends(CreateAll(b, rts, m), Create(x, rts[k], m))
            && IndexOf(CreateAll(b, rts, m).addrs, x.pc) == Some(|x.instrs|)
  {
    var x, all := CreateAll(b, rts[..k], m), CreateAll(b, rts, m);
    CreateAllValid(b, rts[..k], m);
    CreateAllValid(b, rts[..k + 1], m);
    CreateAllValid(b, rts, m);
    CreateAllKeeps(b, rts, m, k + 1);
    CreateAllKeeps(b, rts, m, k);
    assert rts[..k + 1][..k] == rts[..k];
    OffsetStep(rts, m, k);
    EntryAt(x, all);
    IndexOfAddr(all, |x.instrs|);
  }

  // The `create*` method `initCodeGenerator` calls for each routine.
  lemma BuildsPrintBool(gm: Messages)
    ensures Builder(PrintBoolRoutine, gm) == PrintBool
  {
  }

  lemma BuildsFindAny(gm: Messages)
    ensures Builder(FindAnyRoutine, gm) == FindAny
  {
  }

  lemma BuildsFindAll(gm: Messages)
    ensures Builder(FindAllRoutine, gm) == FindAll
  {
  }

  lemma BuildsLengthCheck(gm: Messages)
    ensures Builder(LengthCheck, gm) == LengthGuardWith(gm)
  {
  }

  lemma BuildsAccessCheck(gm: Messages)
    ensures Builder(AccessCheck, gm) == AccessGuardWith(gm)
  {
  }

  lemma BuildsIndexCheck(gm: Messages)
    ensures Builder(IndexCheck, gm) == IndexGuardBuilder(gm)
  {
  }

  lemma LengthGuardApplies(gm: Messages, x: Buf)
    ensures LengthGuardWith(gm)(x) == Guard(x, Lt, gm.length, 0)
  {
  }

  lemma AccessGuardApplies(gm: Messages, x: Buf)
    ensures AccessGuardWith(gm)(x) == Guard(x, Eq, gm.access, 2)
  {
  }

  lemma IndexGuardApplies(gm: Messages, x: Buf)
    ensures IndexGuardBuilder(gm)(x) == IndexGuardWith(x, gm.index)
  {
  }

  /** Routine `k` of `initCodeGenerator` is built after `Before(b, k, gm)`, the
      buffer it returns extends that routine's builder, and the address it
      records for the routine is the pc the routine was built at. */
  lemma {:induction false} InitHosts(b: Buf, gm: Messages, k: nat, rt: Routine)
    ensures Valid(b) && k < 6 && CreationOrder[k] == rt ==>
            && Valid(Before(b, k, gm)) && |Before(b, k, gm).addrs| == |Before(b, k, gm).instrs|
            && Extends(InitCodeGeneratorWith(b, gm).0, Create(Before(b, k, gm), rt, gm))
            && Entries(b, CreationOrder, gm)[k] == Before(b, k, gm).pc
            && IndexOf(InitCodeGeneratorWith(b, gm).0.addrs, Before(b, k, gm).pc) == Some(|Before(b, k, gm).instrs|)
  {
    if Valid(b) && k < 6 && CreationOrder[k] == rt {
      CreateAllHosts(b, CreationOrder, gm, k);
    }
  }

  lemma {:induction false} OffsetStep(rts: seq<Routine>, m: Messages, k: int)
    requires 0 <= k < |rts|
    ensures Offset(rts[..k + 1], m) == Offset(rts[..k], m) + RoutineCount(rts[k], m)
  {
    assert rts[..k + 1][..k] == rts[..k];
  }

  /** How many instructions the routines created before each one occupy. */
  lemma {:induction false} CreationOffsets(gm: Messages)
    ensures Offset(CreationOrder[..1], gm) == 34 && Offset(CreationOrder[..2], gm) == 55
    ensures Offset(CreationOrder[..3], gm) == 81 && Offset(CreationOrder[..4], gm) == 88 + 3 * |gm.length|
    ensures Offset(CreationOrder[..5], gm) == 95 + 3 * |gm.length| + 3 * |gm.access|
  {
    var co := CreationOrder;
    assert co[..0] == [];
    OffsetStep(co, gm, 0);
    OffsetStep(co, gm, 1);
    OffsetStep(co, gm, 2);
    OffsetStep(co, gm, 3);
    OffsetStep(co, gm, 4);
  }

  /** findAny where `initCodeGenerator` leaves it: 34 instructions after the
      buffer it was given, at the address it records, a call returns 1 when
      the value occurs in the array and 0 otherwise. */
  lemma {:induction false} InitFindAny(b: Buf, gm: Messages, m: Machine)
    requires Valid(b)
    ensures var (code, a) := InitCodeGeneratorWith(b, gm); var n := |b.instrs| + 34;
            && IndexOf(code.addrs, a.findAny) == Some(n)
            && (SearchCall(m) && m.ip == n ==>
                Steps(code, m, AnyCost(m)) == Answer(m, n + 20, if CallValue(m) in CallArray(m) then 1 else 0))
  {
    var x := Before(b, 1, gm);
    InitHosts(b, gm, 1, FindAnyRoutine);
    CreationOffsets(gm);
    BuildsFindAny(gm);
    FindAnyPlaced(InitCodeGeneratorWith(b, gm).0, x, |x.instrs|, m);
  }

  /** findAll where `initCodeGenerator` leaves it: 55 instructions after the
      buffer it was given, at the address it records, a call returns how many
      elements of the array equal the value. */
  lemma {:induction false} InitFindAll(b: Buf, gm: Messages, m: Machine)
    requires Valid(b)
    ensures var (code, a) := InitCodeGeneratorWith(b, gm); var n := |b.instrs| + 55;
            && IndexOf(code.addrs, a.findAll) == Some(n)
            && (SearchCall(m) && m.ip == n ==>
                Steps(code, m, AllCost(m)) == Answer(m, n + 25, multiset(CallArray(m))[CallValue(m)]))
  {
    var x := Before(b, 2, gm);
    InitHosts(b, gm, 2, FindAllRoutine);
    CreationOffsets(gm);
    BuildsFindAll(gm);
    FindAllPlaced(InitCodeGeneratorWith(b, gm).0, x, |x.instrs|, m);
  }

  /** printBool where `initCodeGenerator` leaves it: first, at the address it
      records, with the instructions `PrintBoolRun` runs. */
  lemma {:induction false} InitPrintBool(b: Buf, gm: Messages)
    requires Valid(b)
    ensures var (code, a) := InitCodeGeneratorWith(b, gm); var n := |b.instrs|;
            && IndexOf(code.addrs, a.printBool) == Some(n)
            && BoolAt(code, n, a.printBool + 46, a.printBool + 74)
  {
    InitHosts(b, gm, 0, PrintBoolRoutine);
    assert CreationOrder[..0] == [];
    BuildsPrintBool(gm);
    PrintBoolInPlace(InitCodeGeneratorWith(b, gm).0, b);
  }

  /** The message a guard at `n` prints before its trap. */
  predicate GuardPrints(code: Buf, n: int, msg: string)
  {
    0 <= n && n + 4 + 3 * |msg| <= |code.instrs| && code.instrs[n + 4..n + 4 + 3 * |msg|] == PrintStringCode(msg)
  }

  /** The message the index guard at `n` prints before its trap. */
  predicate IndexPrints(code: Buf, n: int, msg: string)
  {
    0 <= n && n + 10 + 3 * |msg| <= |code.instrs| && code.instrs[n + 10..n + 10 + 3 * |msg|] == PrintStringCode(msg)
  }

  /** A guard built after `b`, in a buffer that extends the builder's: its
      instructions and its message are in place for some skip target. */
  lemma {:induction false} GuardPlaced(code: Buf, b: Buf, op: Rel, msg: string, c: int, n: int)
    requires 0 <= c < 256 && Extends(code, Guard(b, op, msg, c)) && |b.addrs| == |b.instrs| == n
    ensures exists t :: GuardAt(code, n, op, 3 * |msg|, c, t)
    ensures GuardPrints(code, n, msg)
  {
    var t := b.pc + 10 + Len(PrintStringCode(msg));
    GuardInPlace(code, b, op, msg, c, n, 3 * |msg|, t);
  }

  /** The array-length guard where `initCodeGenerator` leaves it: 81
      instructions after the buffer it was given, at the address it records,
      with the instructions `LengthCheckRun` runs. */
  lemma {:induction false} InitLengthCheck(b: Buf, gm: Messages)
    requires Valid(b)
    ensures var (code, a) := InitCodeGeneratorWith(b, gm); var x := Before(b, 3, gm);
            && |x.instrs| == |b.instrs| + 81 && a.lengthCheck == x.pc
            && IndexOf(code.addrs, a.lengthCheck) == Some(|x.instrs|)
            && (exists t :: GuardAt(code, |x.instrs|, Lt, 3 * |gm.length|, 0, t))
            && GuardPrints(code, |x.instrs|, gm.length)
  {
    var x := Before(b, 3, gm);
    InitHosts(b, gm, 3, LengthCheck);
    CreationOffsets(gm);
    BuildsLengthCheck(gm);
    LengthGuardApplies(gm, x);
    GuardPlaced(InitCodeGeneratorWith(b, gm).0, x, Lt, gm.length, 0, |x.instrs|);
  }

  /** The null-array guard where `initCodeGenerator` leaves it, after the
      length guard and its message, with the instructions `AccessCheckRun`
      runs. */
  lemma {:induction false} InitAccessCheck(b: Buf, gm: Messages)
    requires Valid(b)
    ensures var (code, a) := InitCodeGeneratorWith(b, gm); var x := Before(b, 4, gm);
            && |x.instrs| == |b.instrs| + 88 + 3 * |gm.length| && a.accessCheck == x.pc
            && IndexOf(code.addrs, a.accessCheck) == Some(|x.instrs|)
            && (exists t :: GuardAt(code, |x.instrs|, Eq, 3 * |gm.access|, 2, t))
            && GuardPrints(code, |x.instrs|, gm.access)
  {
    var x := Before(b, 4, gm);
    InitHosts(b, gm, 4, AccessCheck);
    CreationOffsets(gm);
    BuildsAccessCheck(gm);
    AccessGuardApplies(gm, x);
    GuardPlaced(InitCodeGeneratorWith(b, gm).0, x, Eq, gm.access, 2, |x.instrs|);
  }

  /** The index guard built after `b`, in a buffer that extends the
      builder's. */
  lemma {:induction false} IndexPlaced(code: Buf, b: Buf, msg: string, n: int, t: int)
    requires Extends(code, IndexGuardWith(b, msg)) && |b.addrs| == |b.instrs| == n && t == b.pc + 16
    ensures IndexAt(code, n, 3 * |msg|, t)
    ensures IndexPrints(code, n, msg)
  {
    IndexInPlace(code, b, msg, n, 3 * |msg|, t);
  }

  /** The index guard where `initCodeGenerator` leaves it, last, at the
      address it records, with the instructions `IndexCheckAbove`,
      `IndexCheckBelow` and `IndexCheckPasses` run. */
  lemma {:induction false} InitIndexCheck(b: Buf, gm: Messages)
    requires Valid(b)
    ensures var (code, a) := InitCodeGeneratorWith(b, gm); var x := Before(b, 5, gm);
            && |x.instrs| == |b.instrs| + 95 + 3 * |gm.length| + 3 * |gm.access| && a.indexCheck == x.pc
            && IndexOf(code.addrs, a.indexCheck) == Some(|x.instrs|)
            && IndexAt(code, |x.instrs|, 3 * |gm.index|, x.pc + 16)
            && IndexPrints(code, |x.instrs|, gm.index)
  {
    var x := Before(b, 5, gm);
    InitHosts(b, gm, 5, IndexCheck);
    CreationOffsets(gm);
    BuildsIndexCheck(gm);
    IndexGuardApplies(gm, x);
    IndexPlaced(InitCodeGeneratorWith(b, gm).0, x, gm.index, |x.instrs|, x.pc + 16);
  }
}

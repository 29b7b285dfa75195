/** Running a routine where it was emitted. A routine's jumps hold absolute
    addresses, so its code behaves the same wherever in the buffer it sits as
    long as every label it jumps to resolves to the same instruction of the
    routine: a run of the routine on its own carries over, shifted by the
    routine's index, to the buffer that holds it. */
module Placement {
  import opened Types
  import opened Bytecode

  /** The segment `seg` sits at index `n` of `code`, and each address `seg`
      can jump to leads to the same instruction of the segment in `code`. */
  predicate Placed(code: Buf, seg: Buf, n: int)
  {
    && 0 <= n && n + |seg.instrs| <= |code.instrs|
    && (forall j :: 0 <= j < |seg.instrs| ==> code.instrs[n + j] == seg.instrs[j])
    && (forall j :: 0 <= j < |seg.addrs| ==> IndexOf(code.addrs, seg.addrs[j]) == Some(n + j))
  }

  /** A machine moved `n` instructions further into the code. */
  function Shift(m: Machine, n: int): (r: Machine)
    ensures r.ip == m.ip + n && r.(ip := m.ip) == m
  {
    m.(ip := m.ip + n)
  }

  /** A machine that has stopped stays as it is, however many steps run. */
  lemma {:induction false} StoppedStays(code: Buf, m: Machine, k: nat)
    requires !m.status.Running?
    ensures Steps(code, m, k) == m
    decreases k
  {
    if k > 0 {
      StoppedStays(code, m, k - 1);
    }
  }

  /** A jump that the segment resolves lands on the same instruction of the
      segment in `code`. */
  lemma JumpPlaced(code: Buf, seg: Buf, n: int, m: Machine, t: int)
    requires Placed(code, seg, n)
    ensures JumpTo(seg, m, t).status.Fault? || JumpTo(code, Shift(m, n), t) == Shift(JumpTo(seg, m, t), n)
  {
    match IndexOf(seg.addrs, t)
    case None =>
    case Some(k) =>
      assert seg.addrs[k] == t;
  }

  /** An instruction other than a jump moves the instruction index the
      same way wherever it runs. */
  lemma ExecLocalShift(i: Instr, m: Machine, n: int)
    ensures ExecLocal(i, Shift(m, n)) == Shift(ExecLocal(i, m), n)
  {
    if i.Enter? || i.Exit? || i.Return? || i.Load? || i.Store? || i.Const? || i.Trap? {
      ShiftFrame(i, m, n);
    } else if i.Add? || i.Sub? || i.Mul? {
      ShiftArith(i, m, n);
    } else if i.Div? || i.Rem? || i.Neg? {
      ShiftDivide(i, m, n);
    } else if i.Print? || i.BPrint? || i.ArrayLength? || i.ALoad? || i.AStore? {
      ShiftMemory(i, m, n);
    } else {
      ShiftRest(i, m, n);
    }
  }

  lemma ShiftFrame(i: Instr, m: Machine, n: int)
    requires i.Enter? || i.Exit? || i.Return? || i.Load? || i.Store? || i.Const? || i.Trap?
    ensures ExecLocal(i, Shift(m, n)) == Shift(ExecLocal(i, m), n)
  {
  }

  lemma ShiftArith(i: Instr, m: Machine, n: int)
    requires i.Add? || i.Sub? || i.Mul?
    ensures ExecLocal(i, Shift(m, n)) == Shift(ExecLocal(i, m), n)
  {
  }

  lemma ShiftDivide(i: Instr, m: Machine, n: int)
    requires i.Div? || i.Rem? || i.Neg?
    ensures ExecLocal(i, Shift(m, n)) == Shift(ExecLocal(i, m), n)
  {
  }

  lemma ShiftMemory(i: Instr, m: Machine, n: int)
    requires i.Print? || i.BPrint? || i.ArrayLength? || i.ALoad? || i.AStore?
    ensures ExecLocal(i, Shift(m, n)) == Shift(ExecLocal(i, m), n)
  {
  }

  lemma ShiftRest(i: Instr, m: Machine, n: int)
    requires !(i.Enter? || i.Exit? || i.Return? || i.Load? || i.Store? || i.Const? || i.Trap?)
    requires !(i.Add? || i.Sub? || i.Mul? || i.Div? || i.Rem? || i.Neg?)
    requires !(i.Print? || i.BPrint? || i.ArrayLength? || i.ALoad? || i.AStore?)
    ensures ExecLocal(i, Shift(m, n)) == Shift(ExecLocal(i, m), n)
  {
  }

  /** The segment's instruction `i` at the same place in `code`. */
  lemma ExecPlaced(code: Buf, seg: Buf, n: int, i: Instr, m: Machine)
    requires Placed(code, seg, n)
    ensures Exec(seg, i, m).status.Fault? || Exec(code, i, Shift(m, n)) == Shift(Exec(seg, i, m), n)
  {
    if i.Jmp? {
      JumpPlaced(code, seg, n, m, i.target);
    } else if i.Jcc? {
      JccPlaced(code, seg, n, i, m);
    } else {
      LocalPlaced(code, seg, n, i, m);
    }
  }

  lemma JccPlaced(code: Buf, seg: Buf, n: int, i: Instr, m: Machine)
    requires Placed(code, seg, n) && i.Jcc?
    ensures Exec(seg, i, m).status.Fault? || Exec(code, i, Shift(m, n)) == Shift(Exec(seg, i, m), n)
  {
    var st := m.stack;
    if |st| >= 2 && Holds(i.cond, st[|st| - 2], st[|st| - 1]) {
      JumpPlaced(code, seg, n, m.(stack := st[..|st| - 2]), i.target);
    }
  }

  lemma LocalPlaced(code: Buf, seg: Buf, n: int, i: Instr, m: Machine)
    requires !i.Jmp? && !i.Jcc?
    ensures Exec(code, i, Shift(m, n)) == Shift(Exec(seg, i, m), n)
  {
    ExecLocalShift(i, m, n);
  }

  /** One step of the segment, unless it faults, is one step of `code`. */
  lemma StepPlaced(code: Buf, seg: Buf, n: int, m: Machine)
    requires Placed(code, seg, n)
    ensures Step(seg, m).status.Fault? || Step(code, Shift(m, n)) == Shift(Step(seg, m), n)
  {
    if m.status.Running? && 0 <= m.ip < |seg.instrs| {
      assert code.instrs[n + m.ip] == seg.instrs[m.ip];
      ExecPlaced(code, seg, n, seg.instrs[m.ip], m);
    }
  }

  /** A run of the segment that does not fault is a run of `code`, shifted
      to where the segment sits. */
  lemma {:induction false} StepsPlaced(code: Buf, seg: Buf, n: int, m: Machine, k: nat)
    requires Placed(code, seg, n)
    ensures Steps(seg, m, k).status.Fault? || Steps(code, Shift(m, n), k) == Shift(Steps(seg, m, k), n)
    decreases k
  {
    if k > 0 {
      var m1 := Step(seg, m);
      StepPlaced(code, seg, n, m);
      if m1.status.Fault? {
        StoppedStays(seg, m1, k - 1);
      } else {
        StepsPlaced(code, seg, n, m1, k - 1);
      }
    }
  }

  /** Instructions `n` to `n + |seg.instrs|` of a well-formed buffer, with
      their addresses, form a segment placed at `n`; its labels are
      distinct. */
  lemma SegmentPlaced(code: Buf, seg: Buf, n: int)
    requires Valid(code) && 0 <= n && n + |seg.instrs| <= |code.instrs| && |seg.addrs| == |seg.instrs|
    requires forall j :: 0 <= j < |seg.instrs| ==> code.instrs[n + j] == seg.instrs[j]
    requires forall j :: 0 <= j < |seg.addrs| ==> code.addrs[n + j] == seg.addrs[j]
    ensures Placed(code, seg, n)
    ensures forall j :: 0 <= j < |seg.addrs| ==> IndexOf(seg.addrs, seg.addrs[j]) == Some(j)
  {
    forall j | 0 <= j < |seg.addrs|
      ensures IndexOf(code.addrs, seg.addrs[j]) == Some(n + j)
    {
      IndexOfAddr(code, n + j);
    }
    forall j | 0 <= j < |seg.addrs|
      ensures IndexOf(seg.addrs, seg.addrs[j]) == Some(j)
    {
      forall k | 0 <= k < j
        ensures seg.addrs[k] != seg.addrs[j]
      {
        AddrsIncrease(code, n + k, n + j);
      }
      IndexOfFirst(seg.addrs, j);
    }
  }

  /** Instructions `n` to `n + len` of `code`, with their addresses, as a
      buffer of their own. */
  function Carve(code: Buf, n: int, len: nat): (seg: Buf)
    requires 0 <= n && n + len <= |code.instrs| && |code.addrs| == |code.instrs|
    ensures |seg.instrs| == |seg.addrs| == len
  {
    Buf(code.instrs[n..n + len], code.addrs[n..n + len], code.pc)
  }

  /** A carved segment is placed where it was carved from, and each of its
      addresses names its own instruction of the segment. */
  lemma CarvePlaced(code: Buf, n: int, len: nat)
    requires Valid(code) && 0 <= n && n + len <= |code.instrs|
    ensures Placed(code, Carve(code, n, len), n)
    ensures var seg := Carve(code, n, len);
            forall j :: 0 <= j < len ==> IndexOf(seg.addrs, code.addrs[n + j]) == Some(j)
  {
    var seg := Carve(code, n, len);
    SegmentPlaced(code, seg, n);
    forall j | 0 <= j < len
      ensures IndexOf(seg.addrs, code.addrs[n + j]) == Some(j)
    {
      assert seg.addrs[j] == code.addrs[n + j];
    }
  }

  /** A run of a placed segment that ends without a fault is the same run of
      `code`, shifted to where the segment sits. */
  lemma {:induction false} RunPlaced(code: Buf, seg: Buf, n: int, m: Machine, k: nat, r: Machine)
    requires Placed(code, seg, n) && Steps(seg, m, k) == r && !r.status.Fault?
    ensures Steps(code, Shift(m, n), k) == Shift(r, n)
  {
    StepsPlaced(code, seg, n, m, k);
  }

  /** The same, for a machine that enters the segment at its first
      instruction. */
  lemma {:induction false} RunPlacedFrom(code: Buf, seg: Buf, n: int, m: Machine, k: nat, r: Machine)
    requires Placed(code, seg, n) && m.ip == n && Steps(seg, m.(ip := 0), k) == r && !r.status.Fault?
    ensures Steps(code, m, k) == r.(ip := r.ip + n)
  {
    RunPlaced(code, seg, n, m.(ip := 0), k, r);
  }
}

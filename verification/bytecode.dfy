/** The MicroJava VM's instruction set as seen by the code generator, the
    append-only code buffer with its program counter and fixups, and a small
    interpreter for one activation of a routine. */
module Bytecode {
  import opened Types

  /** Relational condition codes, in the VM's numbering eq, ne, lt, le, gt, ge. */
  datatype Rel = Eq | Ne | Lt | Le | Gt | Ge

  /** The condition `Code.putFalseJump` jumps on: the inverse of the one it is
      given. */
  function Inverse(r: Rel): (s: Rel)
    ensures forall a: int, b: int :: Holds(s, a, b) <==> !Holds(r, a, b)
  {
    match r
    case Eq => Ne
    case Ne => Eq
    case Lt => Ge
    case Ge => Lt
    case Le => Gt
    case Gt => Le
  }

  lemma InverseInvolutive(r: Rel)
    ensures Inverse(Inverse(r)) == r
  {
  }

  predicate Holds(r: Rel, a: int, b: int)
  {
    match r
    case Eq => a == b
    case Ne => a != b
    case Lt => a < b
    case Le => a <= b
    case Gt => a > b
    case Ge => a >= b
  }

  /** An instruction. Jump targets are absolute code addresses; `Call` carries
      the signed 16-bit offset from its own address. `LoadSym`/`StoreSym` stand
      for `Code.load`/`Code.store` of a designator, whose opcode choice belongs
      to the code library. */
  datatype Instr =
    | Enter(params: int, frame: int) | Exit | Return | Call(offset: int)
    | Load(slot: int) | Store(slot: int) | Const(value: int)
    | Add | Sub | Mul | Div | Rem | Neg
    | Print | BPrint | Read | BRead
    | NewArray(tag: int) | ArrayLength | ALoad | AStore
    | Dup | Dup2 | Pop
    | Jmp(target: int) | Jcc(cond: Rel, target: int)
    | Trap(code: int)
    | LoadSym(sym: Sym) | StoreSym(sym: Sym)

  /** The encoded length in bytes of an instruction. */
  function Size(i: Instr): (n: nat)
    ensures 1 <= n <= 5
  {
    match i
    case Enter(_, _) => 3
    case Call(_) => 3
    case Jmp(_) => 3
    case Jcc(_, _) => 3
    case Load(n) => if 0 <= n <= 3 then 1 else 2
    case Store(n) => if 0 <= n <= 3 then 1 else 2
    case Const(v) => if -1 <= v <= 5 then 1 else 5
    case NewArray(_) => 2
    case Trap(_) => 2
    case LoadSym(s) => AccessSize(s)
    case StoreSym(s) => AccessSize(s)
    case _ => 1
  }

  /** Length of the encoding `Code.load`/`Code.store` use for a symbol: a
      constant push, a global (3 bytes), a local (1 or 2 bytes) or an array
      element (1 byte). */
  function AccessSize(s: Sym): (n: nat)
    ensures 1 <= n <= 5
  {
    if s.kind == Con then (if -1 <= s.adr <= 5 then 1 else 5)
    else if s.kind == Var && s.level == 0 then 3
    else if s.kind == Var then (if 0 <= s.adr <= 3 then 1 else 2)
    else 1
  }

  /** The byte length of a straight-line code sequence. */
  function Len(s: seq<Instr>): (n: nat)
    ensures n >= |s|
    decreases |s|
  {
    if |s| == 0 then 0 else Len(s[..|s| - 1]) + Size(s[|s| - 1])
  }

  lemma {:induction false} LenAppend(s: seq<Instr>, t: seq<Instr>)
    ensures Len(s + t) == Len(s) + Len(t)
    decreases |t|
  {
    if |t| > 0 {
      assert (s + t)[..|s + t| - 1] == s + t[..|t| - 1];
      LenAppend(s, t[..|t| - 1]);
    } else {
      assert s + t == s;
    }
  }

  // ---------------------------------------------------------------- buffer

  /** The code buffer: the instructions emitted so far, the address of each,
      and the program counter (`Code.pc`), the address of the next one. */
  datatype Buf = Buf(instrs: seq<Instr>, addrs: seq<int>, pc: int)

  /** Every instruction sits right after its predecessor, starting at 0, and
      the pc is the address after the last one. Stated one instruction at a
      time, as `Code.put` establishes it. */
  predicate Valid(b: Buf)
    decreases |b.instrs|
  {
    && |b.instrs| == |b.addrs|
    && if |b.instrs| == 0 then b.pc == 0
       else
         var n := |b.instrs| - 1;
         && b.pc == b.addrs[n] + Size(b.instrs[n])
         && Valid(Buf(b.instrs[..n], b.addrs[..n], b.addrs[n]))
  }

  /** The same property for all positions at once. */
  predicate Consecutive(b: Buf)
  {
    && |b.instrs| == |b.addrs|
    && (|b.addrs| == 0 ==> b.pc == 0)
    && (|b.addrs| > 0 ==> b.addrs[0] == 0 && b.pc == b.addrs[|b.addrs| - 1] + Size(b.instrs[|b.addrs| - 1]))
    && (forall k :: 0 <= k < |b.addrs| - 1 ==> b.addrs[k + 1] == b.addrs[k] + Size(b.instrs[k]))
  }

  lemma {:induction false} ValidConsecutive(b: Buf)
    ensures Valid(b) <==> Consecutive(b)
    decreases |b.instrs|
  {
    if |b.instrs| == |b.addrs| && |b.instrs| > 0 {
      var n := |b.instrs| - 1;
      var p := Buf(b.instrs[..n], b.addrs[..n], b.addrs[n]);
      ValidConsecutive(p);
      if n > 0 {
        assert p.addrs[0] == b.addrs[0];
      }
    }
  }

  /** What emission relies on: one address per instruction, all of them below
      the pc. */
  predicate Below(b: Buf)
  {
    |b.instrs| == |b.addrs| && forall k :: 0 <= k < |b.addrs| ==> b.addrs[k] < b.pc
  }

  /** The empty buffer of a fresh compilation. */
  function Empty(): (b: Buf)
    ensures Valid(b) && b.pc == 0 && |b.instrs| == 0
  {
    Buf([], [], 0)
  }

  /** Instruction addresses strictly increase and stay below the pc. */
  lemma {:induction false} AddrsIncrease(b: Buf, i: int, j: int)
    requires Valid(b) && 0 <= i < j <= |b.addrs|
    ensures 0 <= b.addrs[i] && b.addrs[i] + Size(b.instrs[i]) <= (if j == |b.addrs| then b.pc else b.addrs[j])
    decreases j - i
  {
    ValidConsecutive(b);
    if i + 1 < j {
      AddrsIncrease(b, i + 1, j);
    }
    AddrsNonNegative(b, i);
  }

  lemma {:induction false} AddrsNonNegative(b: Buf, i: int)
    requires Valid(b) && 0 <= i < |b.addrs|
    ensures 0 <= b.addrs[i]
  {
    ValidConsecutive(b);
    if i > 0 {
      AddrsNonNegative(b, i - 1);
    }
  }

  lemma ValidBelow(b: Buf)
    requires Valid(b)
    ensures Below(b)
  {
    forall k | 0 <= k < |b.addrs|
      ensures b.addrs[k] < b.pc
    {
      AddrsIncrease(b, k, |b.addrs|);
    }
  }

  lemma AppendAssoc<T>(a: seq<T>, b: seq<T>, c: seq<T>)
    ensures (a + b) + c == a + (b + c)
  {
  }

  lemma UpdateAppend<T>(a: seq<T>, b: seq<T>, k: int, x: T)
    requires 0 <= k < |b|
    ensures (a + b)[|a| + k := x] == a + b[k := x]
  {
  }

  lemma UpdatePrefix<T>(a: seq<T>, b: seq<T>, k: int, x: T)
    requires 0 <= k < |a|
    ensures (a + b)[k := x] == a[k := x] + b
  {
  }

  /** Appending to a buffer that holds `p + l` extends `l`. */
  lemma EmitOnto(p: seq<Instr>, l: seq<Instr>, b: Buf, i: Instr)
    requires b.instrs == p + l
    ensures Emit(b, i).instrs == p + (l + [i])
  {
    AppendAssoc(p, l, [i]);
  }

  /** Patching inside `l` of a buffer that holds `p + l` patches `l`. */
  lemma PatchOnto(p: seq<Instr>, l: seq<Instr>, b: Buf, j: int)
    requires b.instrs == p + l && 0 <= j < |l|
    ensures Patch(b, |p| + j).instrs == p + l[j := Retarget(l[j], b.pc)]
  {
    UpdateAppend(p, l, j, Retarget(l[j], b.pc));
  }

  /** `Code.put`: append one instruction at the pc. */
  function Emit(b: Buf, i: Instr): (r: Buf)
    ensures r.instrs == b.instrs + [i] && r.addrs == b.addrs + [b.pc]
    ensures r.pc == b.pc + Size(i)
  {
    Buf(b.instrs + [i], b.addrs + [b.pc], b.pc + Size(i))
  }

  /** Appending at the pc keeps a buffer valid. */
  lemma EmitValid(b: Buf, i: Instr)
    requires Valid(b)
    ensures Valid(Emit(b, i))
  {
    var r := Emit(b, i);
    assert r.instrs[..|b.instrs|] == b.instrs && r.addrs[..|b.addrs|] == b.addrs;
  }

  /** Append a straight-line sequence, one instruction after the other. */
  function EmitAll(b: Buf, s: seq<Instr>): (r: Buf)
    ensures r.instrs == b.instrs + s && |r.addrs| == |b.addrs| + |s|
    ensures r.addrs[..|b.addrs|] == b.addrs
    ensures |s| > 0 ==> r.addrs[|b.addrs|] == b.pc
    ensures forall k :: |b.addrs| <= k < |r.addrs| ==> b.pc <= r.addrs[k] < r.pc
    ensures r.pc == b.pc + Len(s)
    decreases |s|
  {
    if |s| == 0 then b
    else
      var p := EmitAll(b, s[..|s| - 1]);
      assert s == s[..|s| - 1] + [s[|s| - 1]];
      LenAppend(s[..|s| - 1], [s[|s| - 1]]);
      assert Len([s[|s| - 1]]) == Size(s[|s| - 1]) by {
        assert [s[|s| - 1]][..0] == [];
      }
      Emit(p, s[|s| - 1])
  }

  lemma {:induction false} EmitAllValid(b: Buf, s: seq<Instr>)
    requires Valid(b)
    ensures Valid(EmitAll(b, s))
    decreases |s|
  {
    if |s| > 0 {
      EmitAllValid(b, s[..|s| - 1]);
      EmitValid(EmitAll(b, s[..|s| - 1]), s[|s| - 1]);
    }
  }

  /** The index of the instruction at address `a`, if any: the first one. */
  function IndexOf(addrs: seq<int>, a: int): (r: Option<nat>)
    ensures r.Some? ==> r.value < |addrs| && addrs[r.value] == a
    ensures r.None? ==> forall k :: 0 <= k < |addrs| ==> addrs[k] != a
    decreases |addrs|
  {
    if |addrs| == 0 then None
    else if addrs[|addrs| - 1] == a then
      match IndexOf(addrs[..|addrs| - 1], a)
      case Some(k) => Some(k)
      case None => Some(|addrs| - 1)
    else IndexOf(addrs[..|addrs| - 1], a)
  }

  /** An address that no earlier instruction has is found at its own index. */
  lemma {:induction false} IndexOfFirst(addrs: seq<int>, j: int)
    requires 0 <= j < |addrs| && forall k :: 0 <= k < j ==> addrs[k] != addrs[j]
    ensures IndexOf(addrs, addrs[j]) == Some(j)
    decreases |addrs|
  {
    if j < |addrs| - 1 {
      IndexOfFirst(addrs[..|addrs| - 1], j);
    } else {
      var r := IndexOf(addrs[..|addrs| - 1], addrs[j]);
      assert r.None?;
    }
  }

  /** In a valid buffer every instruction address names exactly that instruction. */
  lemma IndexOfAddr(b: Buf, j: int)
    requires Valid(b) && 0 <= j < |b.addrs|
    ensures IndexOf(b.addrs, b.addrs[j]) == Some(j)
  {
    forall k | 0 <= k < j
      ensures b.addrs[k] != b.addrs[j]
    {
      AddrsIncrease(b, k, j);
    }
    IndexOfFirst(b.addrs, j);
  }

  /** A jump instruction with its target replaced by `t`; other instructions
      are returned as they are. */
  function Retarget(i: Instr, t: int): (r: Instr)
    ensures Size(r) == Size(i)
  {
    match i
    case Jmp(_) => Jmp(t)
    case Jcc(c, _) => Jcc(c, t)
    case _ => i
  }

  /** `Code.fixup(slot)`: make the jump whose 2-byte target field starts at
      `slot` jump to the current pc. A slot that is not the operand of a jump
      leaves the buffer unchanged. */
  function Fixup(b: Buf, slot: int): (r: Buf)
    ensures r.addrs == b.addrs && r.pc == b.pc && |r.instrs| == |b.instrs|
  {
    match IndexOf(b.addrs, slot - 1)
    case None => b
    case Some(j) =>
      if j < |b.instrs| && (b.instrs[j].Jmp? || b.instrs[j].Jcc?) then
        b.(instrs := b.instrs[j := Retarget(b.instrs[j], b.pc)])
      else b
  }

  lemma FixupValid(b: Buf, slot: int)
    requires Valid(b)
    ensures Valid(Fixup(b, slot))
  {
    ValidConsecutive(b);
    ValidConsecutive(Fixup(b, slot));
  }

  /** `Code.fixup` addressed by the jump's index rather than by its slot
      address: retarget the jump at index `j` to the current pc. */
  function Patch(b: Buf, j: int): (r: Buf)
    requires 0 <= j < |b.instrs|
    ensures r.addrs == b.addrs && r.pc == b.pc
    ensures r.instrs == b.instrs[j := Retarget(b.instrs[j], b.pc)]
  {
    b.(instrs := b.instrs[j := Retarget(b.instrs[j], b.pc)])
  }

  lemma PatchValid(b: Buf, j: int)
    requires Valid(b) && 0 <= j < |b.instrs|
    ensures Valid(Patch(b, j))
  {
    ValidConsecutive(b);
    ValidConsecutive(Patch(b, j));
  }

  /** The patch slot of a jump is the address right after its opcode (the
      `pc - 2` read just after emitting it), and fixing it up retargets exactly
      that jump to the pc at the moment of the fixup. */
  lemma FixupAt(b: Buf, j: int)
    requires Valid(b) && 0 <= j < |b.instrs|
    requires b.instrs[j].Jmp? || b.instrs[j].Jcc?
    ensures Fixup(b, b.addrs[j] + 1) == Patch(b, j)
  {
    IndexOfAddr(b, j);
  }

  /** Two valid buffers that agree on the instructions of the shorter agree on
      its addresses, and the longer continues at the shorter's pc. */
  lemma ValidGrow(b: Buf, r: Buf, s: seq<Instr>)
    requires Valid(b) && Valid(r) && r.instrs == b.instrs + s && |s| > 0
    ensures r.addrs[..|b.addrs|] == b.addrs && r.addrs[|b.addrs|] == b.pc
  {
    ValidConsecutive(b);
    ValidConsecutive(r);
    forall k | 0 <= k < |b.addrs|
      ensures r.addrs[k] == b.addrs[k]
    {
      SameAddrs(b, r, k);
    }
    if |b.addrs| > 0 {
      SameAddrs(b, r, |b.addrs| - 1);
      assert r.instrs[|b.addrs| - 1] == b.instrs[|b.addrs| - 1];
    }
  }

  lemma {:induction false} SameAddrs(b: Buf, r: Buf, k: int)
    requires Consecutive(b) && Consecutive(r) && 0 <= k < |b.addrs| < |r.addrs|
    requires r.instrs[..|b.instrs|] == b.instrs
    ensures r.addrs[k] == b.addrs[k]
  {
    if k > 0 {
      SameAddrs(b, r, k - 1);
      assert r.instrs[k - 1] == r.instrs[..|b.instrs|][k - 1];
    }
  }

  /** `a` lists the addresses of `s` laid out one after the other from `base`. */
  predicate Follows(base: int, s: seq<Instr>, a: seq<int>)
  {
    && |s| == |a| && |s| > 0 && a[0] == base
    && forall k :: 0 <= k < |s| - 1 ==> a[k + 1] == a[k] + Size(s[k])
  }

  /** Appending a laid-out sequence at the pc keeps a buffer valid. */
  lemma ValidExtend(b: Buf, s: seq<Instr>, a: seq<int>)
    requires Valid(b) && Follows(b.pc, s, a)
    ensures Valid(Buf(b.instrs + s, b.addrs + a, a[|a| - 1] + Size(s[|s| - 1])))
  {
    var r := Buf(b.instrs + s, b.addrs + a, a[|a| - 1] + Size(s[|s| - 1]));
    ValidConsecutive(b);
    ValidConsecutive(r);
    var n := |b.addrs|;
    forall k | 0 <= k < |r.addrs| - 1
      ensures r.addrs[k + 1] == r.addrs[k] + Size(r.instrs[k])
    {
      if k + 1 < n {
      } else if k + 1 == n {
        assert r.addrs[k + 1] == b.pc;
      } else {
        assert r.addrs[k + 1] == a[k + 1 - n] && r.addrs[k] == a[k - n];
      }
    }
  }

  // ---------------------------------------------------------------- machine

  /** What a print instruction wrote: a value, a field width, and whether it
      was printed as a character. */
  datatype Printed = Printed(value: int, width: int, asChar: bool)

  datatype Status = Running | Returned | Trapped(code: int) | Fault

  /** One activation of a routine: the index of the next instruction, the
      expression stack (top last), the frame's locals, the heap of arrays, the
      output so far and the status. The VM does not bounds-check local slots:
      a load past the frame reads whatever the procedure stack holds there,
      which is `stale`. */
  datatype Machine = Machine(ip: int, stack: seq<int>, locals: seq<int>, heap: map<int, seq<int>>,
                             out: seq<Printed>, status: Status, stale: int)

  function Zeros(n: nat): (z: seq<int>)
    ensures |z| == n && forall k :: 0 <= k < n ==> z[k] == 0
  {
    seq(n, _ => 0)
  }

  /** Java's `/`: the quotient truncated toward zero. */
  function JavaDiv(a: int, b: int): int
    requires b != 0
  {
    if (a >= 0) == (b > 0) then (if a >= 0 then a / b else (-a) / (-b))
    else -((if a >= 0 then a else -a) / (if b > 0 then b else -b))
  }

  /** Java's `%`: the remainder that goes with `JavaDiv`. */
  function JavaRem(a: int, b: int): int
    requires b != 0
  {
    a - b * JavaDiv(a, b)
  }

  /** Continue at the instruction at address `t`. */
  function JumpTo(code: Buf, m: Machine, t: int): Machine
  {
    match IndexOf(code.addrs, t)
    case None => m.(status := Fault)
    case Some(k) => m.(ip := k)
  }

  /** Stop with status `s`. */
  function Halt(m: Machine, s: Status): Machine
  {
    m.(status := s)
  }

  /** `enter p f`: move the top `p` stack values into a fresh frame of `f`
      slots, the rest zero. */
  function ExecEnter(m: Machine, p: int, f: int): Machine
  {
    var n := |m.stack|;
    if 0 <= p <= f && p <= n then m.(ip := m.ip + 1, locals := m.stack[n - p..] + Zeros(f - p), stack := m.stack[..n - p])
    else Halt(m, Fault)
  }

  /** `load k`: push local `k`, or the stale slot past the frame. */
  function ExecLoad(m: Machine, k: int): Machine
  {
    if 0 <= k < |m.locals| then m.(ip := m.ip + 1, stack := m.stack + [m.locals[k]])
    else if 0 <= k then m.(ip := m.ip + 1, stack := m.stack + [m.stale])
    else Halt(m, Fault)
  }

  /** `store k`: pop into local `k`. */
  function ExecStore(m: Machine, k: int): Machine
  {
    var n := |m.stack|;
    if 0 <= k < |m.locals| && n >= 1 then m.(ip := m.ip + 1, stack := m.stack[..n - 1], locals := m.locals[k := m.stack[n - 1]])
    else Halt(m, Fault)
  }

  /** Push `vs` after popping `k` values. */
  function Replace(m: Machine, k: nat, vs: seq<int>): Machine
    requires k <= |m.stack|
  {
    m.(ip := m.ip + 1, stack := m.stack[..|m.stack| - k] + vs)
  }

  /** The arithmetic instructions. */
  function ExecArith(m: Machine, i: Instr): Machine
    requires i.Add? || i.Sub? || i.Mul? || i.Div? || i.Rem? || i.Neg?
  {
    var st := m.stack;
    var n := |st|;
    if i.Neg? then (if n >= 1 then Replace(m, 1, [-st[n - 1]]) else Halt(m, Fault))
    else if n < 2 then Halt(m, Fault)
    else if i.Add? then Replace(m, 2, [st[n - 2] + st[n - 1]])
    else if i.Sub? then Replace(m, 2, [st[n - 2] - st[n - 1]])
    else if i.Mul? then Replace(m, 2, [st[n - 2] * st[n - 1]])
    else if st[n - 1] == 0 then Halt(m, Fault)
    else if i.Div? then Replace(m, 2, [JavaDiv(st[n - 2], st[n - 1])])
    else Replace(m, 2, [JavaRem(st[n - 2], st[n - 1])])
  }

  /** `print`/`bprint`: pop a value and a width and append them to the output. */
  function ExecPrint(m: Machine, asChar: bool): Machine
  {
    var st := m.stack;
    var n := |st|;
    if n >= 2 then m.(ip := m.ip + 1, stack := st[..n - 2], out := m.out + [Printed(st[n - 2], st[n - 1], asChar)])
    else Halt(m, Fault)
  }

  /** `arraylength`: replace an array reference by the array's length. */
  function ExecArrayLength(m: Machine): Machine
  {
    var st := m.stack;
    var n := |st|;
    if n >= 1 && st[n - 1] in m.heap then Replace(m, 1, [|m.heap[st[n - 1]]|])
    else Halt(m, Fault)
  }

  /** `aload`: replace an array reference and an index by the element. */
  function ExecALoad(m: Machine): Machine
  {
    var st := m.stack;
    var n := |st|;
    if n >= 2 && st[n - 2] in m.heap && 0 <= st[n - 1] < |m.heap[st[n - 2]]| then
      Replace(m, 2, [m.heap[st[n - 2]][st[n - 1]]])
    else Halt(m, Fault)
  }

  /** `astore`: pop an array reference, an index and a value and store it. */
  function ExecAStore(m: Machine): Machine
  {
    var st := m.stack;
    var n := |st|;
    if n >= 3 && st[n - 3] in m.heap && 0 <= st[n - 2] < |m.heap[st[n - 3]]| then
      m.(ip := m.ip + 1, stack := st[..n - 3], heap := m.heap[st[n - 3] := m.heap[st[n - 3]][st[n - 2] := st[n - 1]]])
    else Halt(m, Fault)
  }

  /** `dup`, `dup2` and `pop`. */
  function ExecStack(m: Machine, i: Instr): Machine
    requires i.Dup? || i.Dup2? || i.Pop?
  {
    var st := m.stack;
    var n := |st|;
    if i.Dup? then (if n >= 1 then Replace(m, 0, [st[n - 1]]) else Halt(m, Fault))
    else if i.Dup2? then (if n >= 2 then Replace(m, 0, [st[n - 2], st[n - 1]]) else Halt(m, Fault))
    else if n >= 1 then Replace(m, 1, []) else Halt(m, Fault)
  }

  /** `jcc c t`: pop two values and jump to `t` when `c` holds for them. */
  function ExecJcc(code: Buf, m: Machine, c: Rel, t: int): Machine
  {
    var st := m.stack;
    var n := |st|;
    if n < 2 then Halt(m, Fault)
    else if Holds(c, st[n - 2], st[n - 1]) then JumpTo(code, m.(stack := st[..n - 2]), t)
    else Replace(m, 2, [])
  }

  /** Execute `i` in `m`. Calls, reads, allocation and designator loads and
      stores are outside a single activation and fault here. Each instruction
      has its own function, so that reasoning about one instruction does not
      expand the others. */
  function Exec(code: Buf, i: Instr, m: Machine): Machine
  {
    match i
    case Jmp(t) => JumpTo(code, m, t)
    case Jcc(c, t) => ExecJcc(code, m, c, t)
    case _ => ExecLocal(i, m)
  }

  /** Every instruction other than a jump: none of them looks at the code. */
  function ExecLocal(i: Instr, m: Machine): Machine
  {
    match i
    case Enter(p, f) => ExecEnter(m, p, f)
    case Exit => m.(ip := m.ip + 1, locals := [])
    case Return => Halt(m, Returned)
    case Load(k) => ExecLoad(m, k)
    case Store(k) => ExecStore(m, k)
    case Const(v) => m.(ip := m.ip + 1, stack := m.stack + [v])
    case Add => ExecArith(m, i)
    case Sub => ExecArith(m, i)
    case Mul => ExecArith(m, i)
    case Div => ExecArith(m, i)
    case Rem => ExecArith(m, i)
    case Neg => ExecArith(m, i)
    case Print => ExecPrint(m, false)
    case BPrint => ExecPrint(m, true)
    case ArrayLength => ExecArrayLength(m)
    case ALoad => ExecALoad(m)
    case AStore => ExecAStore(m)
    case Dup => ExecStack(m, i)
    case Dup2 => ExecStack(m, i)
    case Pop => ExecStack(m, i)
    case Trap(c) => Halt(m, Trapped(c))
    case _ => Halt(m, Fault)
  }

  /** One step: a stopped machine stays as it is. */
  function Step(code: Buf, m: Machine): Machine
  {
    if !m.status.Running? then m
    else if 0 <= m.ip < |code.instrs| then Exec(code, code.instrs[m.ip], m)
    else m.(status := Fault)
  }

  /** `n` steps. (Naming `code` in the decreases clause keeps the verifier
      from unrolling a run of a literal length on its own: proofs compose
      runs explicitly.) */
  function Steps(code: Buf, m: Machine, n: nat): Machine
    decreases n, code
  {
    if n == 0 then m else Steps(code, Step(code, m), n - 1)
  }

  lemma {:induction false} StepsAdd(code: Buf, m: Machine, a: nat, b: nat)
    ensures Steps(code, m, a + b) == Steps(code, Steps(code, m, a), b)
    decreases a
  {
    if a > 0 {
      StepsAdd(code, Step(code, m), a - 1, b);
    }
  }

  lemma {:induction false} StepsStopped(code: Buf, m: Machine, n: nat)
    requires !m.status.Running?
    ensures Steps(code, m, n) == m
    decreases n
  {
    if n > 0 {
      StepsStopped(code, m, n - 1);
    }
  }

  /** A stopped machine reached in `n` steps is the result of every longer run. */
  lemma StepsBeyond(code: Buf, m: Machine, n: nat, fuel: nat)
    requires n <= fuel && !Steps(code, m, n).status.Running?
    ensures Steps(code, m, fuel) == Steps(code, m, n)
  {
    StepsAdd(code, m, n, fuel - n);
    StepsStopped(code, Steps(code, m, n), fuel - n);
  }

  /** A chain of single steps is a run of that many steps. */
  lemma {:induction false} StepsVia(code: Buf, ms: seq<Machine>)
    requires |ms| >= 1
    requires forall k :: 0 <= k < |ms| - 1 ==> ms[k + 1] == Step(code, ms[k])
    ensures Steps(code, ms[0], |ms| - 1) == ms[|ms| - 1]
    decreases |ms|
  {
    if |ms| > 1 {
      StepsVia(code, ms[1..]);
    }
  }
}

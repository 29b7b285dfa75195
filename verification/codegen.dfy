/** `CodeGenerator`: the code each visited construct appends to the buffer,
    with the generator's own state (`mainPC`, method addresses) and the
    runtime routines' addresses recorded by `initCodeGenerator`. */
module CodeGen {
  import opened Types
  import opened Bytecode
  import opened Runtime
  import Counter

  /** The width `print` uses when the statement gives none. */
  const DefaultPrintWidth: int := 5

  /** The generator's state: the code buffer, the six routine addresses (the
      static fields of `CommonUtils`), `mainPC`, and the address each method
      symbol received through `setAdr`, and the type of the anonymous
      constant "$" once the outermost scope holds one. */
  datatype Gen = Gen(buf: Buf, rt: RuntimeAddrs, mainPC: int, methodAdr: map<string, int>, dollar: Option<Type>)

  /** A fresh generator: empty buffer, every address still 0. */
  function Start(): (g: Gen)
    ensures Valid(g.buf) && g.buf.pc == 0 && g.mainPC == 0 && g.methodAdr == map[] && g.dollar == None
  {
    Gen(Empty(), RuntimeAddrs(0, 0, 0, 0, 0, 0), 0, map[], None)
  }

  /** The instruction at index `k` of `b` is a call, and it lands on `a`
      exactly when the 16-bit offset can express the distance. */
  predicate CallsTo(b: Buf, k: int, a: int)
  {
    && 0 <= k < |b.instrs| && k < |b.addrs| && b.instrs[k].Call?
    && (b.addrs[k] + b.instrs[k].offset == a <==> -32768 <= a - b.addrs[k] < 32768)
  }

  /** `generateMethodCall` seen from the instruction it appends. */
  lemma MethodCallTo(b: Buf, a: int)
    requires |b.instrs| == |b.addrs|
    ensures CallsTo(MethodCall(b, a), |b.instrs|, a)
  {
  }

  // ---------------------------------------------------------------- program and methods

  /** The type of the "$" entry after `addConstToSymTable("$", t, v)`:
      `Tab.insert` hands back an entry the scope already holds, whose address
      alone is then rewritten to `v`, so the first insertion's type stays. */
  function DollarType(d: Option<Type>, t: Type): Type
  {
    if d.Some? then d.value else t
  }

  /** `visit(ProgName)`: the runtime routines are created before any method,
      at the current pc, and their addresses recorded in creation order.
      printBool, created first, prints "false" through char constants "$". */
  function ProgName(g: Gen): (r: Gen)
    ensures r.mainPC == g.mainPC && r.methodAdr == g.methodAdr
    ensures r.rt.printBool == g.buf.pc
    ensures g.dollar.None? ==> r.dollar == Some(Char)
    ensures g.dollar.Some? ==> r.dollar == g.dollar
  {
    InitCodeGeneratorOrder(g.buf);
    var (b, a) := InitCodeGenerator(g.buf);
    g.(buf := b, rt := a, dollar := Some(DollarType(g.dollar, Char)))
  }

  /** Java's `equalsIgnoreCase` on ASCII text. */
  function LowerAscii(c: char): (d: char)
    ensures 'A' <= c <= 'Z' ==> d as int == c as int + 32
    ensures !('A' <= c <= 'Z') ==> d == c
  {
    if 'A' <= c <= 'Z' then (c as int + 32) as char else c
  }

  predicate EqualsIgnoreCase(s: string, t: string)
  {
    |s| == |t| && forall i :: 0 <= i < |s| ==> LowerAscii(s[i]) == LowerAscii(t[i])
  }

  /** `visit(MethodTypeName)`: the method's address, and `mainPC` when its name
      is "main" in any letter case, become the pc; then `enter 0, n` where `n`
      is what the local-variable counter reports for the method's subtree. */
  function MethodTypeName(g: Gen, name: string, body: Counter.Node): (r: Gen)
    requires |g.buf.instrs| == |g.buf.addrs|
    ensures r.methodAdr == g.methodAdr[name := g.buf.pc]
    ensures r.mainPC == (if EqualsIgnoreCase(name, "main") then g.buf.pc else g.mainPC)
    ensures r.rt == g.rt && r.dollar == g.dollar
    ensures r.buf.addrs == g.buf.addrs + [g.buf.pc] && r.buf.pc == g.buf.pc + 3
    ensures 0 <= Counter.CountVarDecls(body) < 256
            ==> r.buf.instrs == g.buf.instrs + [Enter(0, Counter.CountVarDecls(body))]
  {
    var pc := g.buf.pc;
    Gen(MethodInitialCode(g.buf, 0, Counter.CountVarDecls(body)), g.rt,
        if EqualsIgnoreCase(name, "main") then pc else g.mainPC, g.methodAdr[name := pc], g.dollar)
  }

  /** `visit(MethodDecl)`: `exit, return`. */
  function MethodDecl(g: Gen): (r: Gen)
    ensures r.buf.instrs == g.buf.instrs + [Exit, Return]
    ensures r.buf.addrs == g.buf.addrs + [g.buf.pc, g.buf.pc + 1] && r.buf.pc == g.buf.pc + 2
    ensures r.rt == g.rt && r.mainPC == g.mainPC && r.methodAdr == g.methodAdr
            && r.dollar == g.dollar
  {
    g.(buf := MethodFinalCode(g.buf))
  }

  // ---------------------------------------------------------------- statements

  /** `visit(StatementPrint)`: push the width, then print by the value's type:
      `print` for int, `bprint` for char, a call to printBool for anything
      else. */
  function PrintStmt(g: Gen, width: Option<int>, t: Type): (r: Gen)
    requires |g.buf.instrs| == |g.buf.addrs|
    ensures var n := |g.buf.instrs|;
            && |r.buf.instrs| == n + 2 && r.buf.instrs[..n] == g.buf.instrs
            && r.buf.instrs[n] == Const(if width.Some? then width.value else DefaultPrintWidth)
            && (t == Int <==> r.buf.instrs[n + 1] == Print)
            && (t == Char <==> r.buf.instrs[n + 1] == BPrint)
            && (t != Int && t != Char <==> CallsTo(r.buf, n + 1, g.rt.printBool))
    ensures r.rt == g.rt && r.mainPC == g.mainPC && r.methodAdr == g.methodAdr
            && r.dollar == g.dollar
  {
    var b := Emit(g.buf, Const(if width.Some? then width.value else DefaultPrintWidth));
    var b' := if t == Int then Emit(b, Print) else if t == Char then Emit(b, BPrint) else MethodCall(b, g.rt.printBool);
    assert b'.instrs[..|g.buf.instrs|] == g.buf.instrs;
    g.(buf := b')
  }

  /** `visit(StatementRead)`: `bread` for a char target, `read` otherwise, then
      the store to the target. */
  function ReadStmt(g: Gen, target: Sym): (r: Gen)
    ensures var n := |g.buf.instrs|;
            && |r.buf.instrs| == n + 2 && r.buf.instrs[..n] == g.buf.instrs
            && (target.typ == Char <==> r.buf.instrs[n] == BRead)
            && (target.typ != Char <==> r.buf.instrs[n] == Read)
            && r.buf.instrs[n + 1] == StoreSym(target)
    ensures r.rt == g.rt && r.mainPC == g.mainPC && r.methodAdr == g.methodAdr
            && r.dollar == g.dollar
  {
    var b := Emit(Emit(g.buf, if target.typ == Char then BRead else Read), StoreSym(target));
    assert b.instrs[..|g.buf.instrs|] == g.buf.instrs;
    g.(buf := b)
  }

  /** The code of an increment (`op` is `add`) or a decrement (`sub`): read the
      target (for an element, after duplicating the array and index under it),
      add or subtract 1, store it back. A target of any other kind contributes
      no read, as the `switch` has no default. */
  function IncDecCode(target: Sym, op: Instr): (s: seq<Instr>)
  {
    (if target.kind == Var then [LoadSym(target)]
     else if target.kind == Elem then [Dup2, LoadSym(target)]
     else [])
    + [Const(1), op, StoreSym(target)]
  }

  /** `visit(DesignatorInc)`. */
  function IncStmt(g: Gen, target: Sym): (r: Gen)
    ensures r.buf.instrs == g.buf.instrs + IncDecCode(target, Add)
    ensures r.rt == g.rt && r.mainPC == g.mainPC && r.methodAdr == g.methodAdr
            && r.dollar == g.dollar
  {
    g.(buf := EmitAll(g.buf, IncDecCode(target, Add)))
  }

  /** `visit(DesignatorDec)`. */
  function DecStmt(g: Gen, target: Sym): (r: Gen)
    ensures r.buf.instrs == g.buf.instrs + IncDecCode(target, Sub)
    ensures r.rt == g.rt && r.mainPC == g.mainPC && r.methodAdr == g.methodAdr
            && r.dollar == g.dollar
  {
    g.(buf := EmitAll(g.buf, IncDecCode(target, Sub)))
  }

  /** Increment and decrement differ in one instruction only, `add` against
      `sub`, just before the final store. */
  lemma IncDecDiffer(target: Sym)
    ensures var i, d := IncDecCode(target, Add), IncDecCode(target, Sub);
            && |i| == |d| && |i| >= 3
            && i[|i| - 2] == Add && d[|d| - 2] == Sub
            && forall k :: 0 <= k < |i| && k != |i| - 2 ==> i[k] == d[k]
  {
  }

  /** For a variable the code reads, bumps and writes back the variable; for an
      element it first duplicates the array and index the store will need. */
  lemma IncDecShape(target: Sym, op: Instr)
    ensures target.kind == Var ==> IncDecCode(target, op) == [LoadSym(target), Const(1), op, StoreSym(target)]
    ensures target.kind == Elem ==> IncDecCode(target, op) == [Dup2, LoadSym(target), Const(1), op, StoreSym(target)]
  {
  }

  /** `visit(Assignment)`: the store to the destination. */
  function Assignment(g: Gen, dest: Sym): (r: Gen)
    ensures r.buf.instrs == g.buf.instrs + [StoreSym(dest)]
    ensures r.rt == g.rt && r.mainPC == g.mainPC && r.methodAdr == g.methodAdr
            && r.dollar == g.dollar
  {
    g.(buf := Emit(g.buf, StoreSym(dest)))
  }

  /** `visit(AssignmentValueFindAny)` and `visit(AssignmentValueFindAll)`: a
      call to the matching routine. */
  function FindCall(g: Gen, all: bool): (r: Gen)
    requires |g.buf.instrs| == |g.buf.addrs|
    ensures |r.buf.instrs| == |g.buf.instrs| + 1 && r.buf.instrs[..|g.buf.instrs|] == g.buf.instrs
    ensures CallsTo(r.buf, |g.buf.instrs|, if all then g.rt.findAll else g.rt.findAny)
    ensures r.rt == g.rt && r.mainPC == g.mainPC && r.methodAdr == g.methodAdr
            && r.dollar == g.dollar
  {
    MethodCallTo(g.buf, if all then g.rt.findAll else g.rt.findAny);
    g.(buf := MethodCall(g.buf, if all then g.rt.findAll else g.rt.findAny))
  }

  // ---------------------------------------------------------------- designators

  /** The kind of node a designator hangs under. */
  datatype Parent = FindAnyValue | FindAllValue | FactorVar | AssignmentDest | ReadTarget | IncDecTarget

  /** `visit(Designator)`: a value load only where the value itself is used. */
  function Designator(g: Gen, d: Sym, parent: Parent): (r: Gen)
    ensures parent in {FindAnyValue, FindAllValue, FactorVar} <==> r.buf.instrs == g.buf.instrs + [LoadSym(d)]
    ensures parent !in {FindAnyValue, FindAllValue, FactorVar} <==> r == g
  {
    if parent in {FindAnyValue, FindAllValue, FactorVar} then g.(buf := Emit(g.buf, LoadSym(d))) else g
  }

  /** `visit(ArrayIndexPlaceholder)`: the array's address before the index. */
  function ArrayIndexPlaceholder(g: Gen, arr: Sym): (r: Gen)
    ensures r.buf.instrs == g.buf.instrs + [LoadSym(arr)]
    ensures r.rt == g.rt && r.mainPC == g.mainPC && r.methodAdr == g.methodAdr
            && r.dollar == g.dollar
  {
    g.(buf := Emit(g.buf, LoadSym(arr)))
  }

  /** `visit(ArrayIndex)`: with the array and the index on the stack, check
      the array (`dup2, pop`, call the access guard) and then the index
      (`dup2`, call the index guard). The five instructions take 1, 1, 3, 1
      and 3 bytes, so the calls sit at `pc + 2` and `pc + 6`. */
  function ArrayIndex(g: Gen): (r: Gen)
    ensures var pc := g.buf.pc;
            && r.buf.instrs == g.buf.instrs
                 + [Dup2, Pop, Call(Word(g.rt.accessCheck - (pc + 2))), Dup2, Call(Word(g.rt.indexCheck - (pc + 6)))]
            && r.buf.addrs == g.buf.addrs + [pc, pc + 1, pc + 2, pc + 5, pc + 6]
            && r.buf.pc == pc + 9
    ensures r.rt == g.rt && r.mainPC == g.mainPC && r.methodAdr == g.methodAdr
            && r.dollar == g.dollar
  {
    var b1 := Emit(Emit(g.buf, Dup2), Pop);
    var b2 := MethodCall(b1, g.rt.accessCheck);
    var b3 := Emit(b2, Dup2);
    g.(buf := MethodCall(b3, g.rt.indexCheck))
  }

  /** Both calls of an element access reach their guards whenever the guards
      lie within 16-bit reach of the call. */
  lemma ArrayIndexCallsGuards(g: Gen)
    requires |g.buf.instrs| == |g.buf.addrs|
    ensures var r, n := ArrayIndex(g), |g.buf.instrs|;
            CallsTo(r.buf, n + 2, g.rt.accessCheck) && CallsTo(r.buf, n + 4, g.rt.indexCheck)
  {
  }

  // ---------------------------------------------------------------- expressions

  datatype AddOperator = PlusOp | MinusOp
  datatype MulOperator = MulOp | DivideOp | ModOp

  /** `visit(ExprAddOp)`. */
  function AddOpCode(op: AddOperator): (i: Instr)
    ensures i == Add <==> op == PlusOp
    ensures i == Sub <==> op == MinusOp
  {
    match op
    case PlusOp => Add
    case MinusOp => Sub
  }

  /** `visit(TermMulOp)`. */
  function MulOpCode(op: MulOperator): (i: Instr)
    ensures i == Mul <==> op == MulOp
    ensures i == Div <==> op == DivideOp
    ensures i == Rem <==> op == ModOp
  {
    match op
    case MulOp => Mul
    case DivideOp => Div
    case ModOp => Rem
  }

  function AddOpStmt(g: Gen, op: AddOperator): (r: Gen)
    ensures r.buf.instrs == g.buf.instrs + [AddOpCode(op)]
    ensures r.rt == g.rt && r.mainPC == g.mainPC && r.methodAdr == g.methodAdr
            && r.dollar == g.dollar
  {
    g.(buf := Emit(g.buf, AddOpCode(op)))
  }

  function MulOpStmt(g: Gen, op: MulOperator): (r: Gen)
    ensures r.buf.instrs == g.buf.instrs + [MulOpCode(op)]
    ensures r.rt == g.rt && r.mainPC == g.mainPC && r.methodAdr == g.methodAdr
            && r.dollar == g.dollar
  {
    g.(buf := Emit(g.buf, MulOpCode(op)))
  }

  /** `visit(ExprTermNegative)`. */
  function Negate(g: Gen): (r: Gen)
    ensures r.buf.instrs == g.buf.instrs + [Neg]
    ensures r.rt == g.rt && r.mainPC == g.mainPC && r.methodAdr == g.methodAdr
            && r.dollar == g.dollar
  {
    g.(buf := Emit(g.buf, Neg))
  }

  /** `visit(FactorNewArray)`: keep a copy of the length for the length guard,
      then `newarray` with 0 for char elements and 1 for any other. The call
      sits at `pc + 1`. */
  function NewArrayExpr(g: Gen, elem: Type): (r: Gen)
    ensures var pc := g.buf.pc;
            && r.buf.instrs == g.buf.instrs
                 + [Dup, Call(Word(g.rt.lengthCheck - (pc + 1))), NewArray(ElemTag(elem))]
            && r.buf.addrs == g.buf.addrs + [pc, pc + 1, pc + 4] && r.buf.pc == pc + 6
    ensures r.rt == g.rt && r.mainPC == g.mainPC && r.methodAdr == g.methodAdr
            && r.dollar == g.dollar
  {
    var b1 := Emit(g.buf, Dup);
    var b2 := MethodCall(b1, g.rt.lengthCheck);
    g.(buf := Emit(b2, NewArray(ElemTag(elem))))
  }

  /** The `newarray` operand: 0 allocates bytes, for char elements only; 1
      allocates words, for every other element type. */
  function ElemTag(elem: Type): (t: int)
    ensures t == 0 <==> elem.Char?
    ensures t == 1 <==> !elem.Char?
  {
    if elem.Char? then 0 else 1
  }

  /** The call of an array creation reaches the length guard whenever the
      guard lies within 16-bit reach. */
  lemma NewArrayCallsGuard(g: Gen, elem: Type)
    requires |g.buf.instrs| == |g.buf.addrs|
    ensures CallsTo(NewArrayExpr(g, elem).buf, |g.buf.instrs| + 1, g.rt.lengthCheck)
  {
    var r := NewArrayExpr(g, elem);
    assert r.buf.instrs[|g.buf.instrs| + 1] == (g.buf.instrs + [Dup, Call(Word(g.rt.lengthCheck - (g.buf.pc + 1)))])[|g.buf.instrs| + 1];
  }

  /** `visit(FactorConst)`: a load of the anonymous global constant "$",
      its address set to the literal's encoding. The entry is the one "$"
      already names, if any, so only the first insertion fixes its type. */
  function FactorConst(g: Gen, lit: Literal): (r: Gen)
    ensures |r.buf.instrs| == |g.buf.instrs| + 1 && r.buf.instrs[..|g.buf.instrs|] == g.buf.instrs
    ensures var i := r.buf.instrs[|g.buf.instrs|];
            && i.LoadSym? && i.sym.kind == Con && i.sym.name == "$" && i.sym.level == 0
            && i.sym.adr == ConstValue(lit)
            && (g.dollar.None? ==> i.sym.typ == LiteralType(lit))
            && (g.dollar.Some? ==> i.sym.typ == g.dollar.value)
            && r.dollar == Some(i.sym.typ)
    ensures r.rt == g.rt && r.mainPC == g.mainPC && r.methodAdr == g.methodAdr
  {
    var t := DollarType(g.dollar, LiteralType(lit));
    var b := Emit(g.buf, LoadSym(ConstSym("$", t, ConstValue(lit))));
    assert b.instrs[..|g.buf.instrs|] == g.buf.instrs;
    g.(buf := b, dollar := Some(t))
  }

  /** Whatever type the shared entry carries, the load it yields encodes like a
      push of the literal's own value. */
  lemma FactorConstEncodes(g: Gen, lit: Literal)
    ensures var r := FactorConst(g, lit);
            Size(r.buf.instrs[|g.buf.instrs|]) == Size(Const(ConstValue(lit)))
  {
  }

  // ---------------------------------------------------------------- stack effect of the calls

  /** The caller's view of its expression stack across straight-line code that
      only shuffles it and calls routines returning nothing: a call removes
      the arguments its callee's `enter` takes, `params[0]` for the first
      call, `params[1]` for the next, and so on. */
  function Shuffle(code: seq<Instr>, st: seq<int>, params: seq<nat>): (r: Option<seq<int>>)
    decreases |code|
  {
    if |code| == 0 then Some(st)
    else
      var e := Effect(code[0], st, params);
      if e.None? then None else Shuffle(code[1..], e.value.0, e.value.1)
  }

  /** One instruction of such code: the stack after it and the argument
      counts of the calls still to come. */
  function Effect(i: Instr, st: seq<int>, params: seq<nat>): (r: Option<(seq<int>, seq<nat>)>)
  {
    if i.Dup? && |st| >= 1 then Some((st + [st[|st| - 1]], params))
    else if i.Dup2? && |st| >= 2 then Some((st + [st[|st| - 2], st[|st| - 1]], params))
    else if i.Pop? && |st| >= 1 then Some((st[..|st| - 1], params))
    else if i.Call? && |params| > 0 && |st| >= params[0] then Some((st[..|st| - params[0]], params[1..]))
    else None
  }

  /** The number of arguments a routine's `enter` takes. */
  function Params(rt: Routine): (p: nat)
  {
    var c := RoutineCode(rt, 0, Messages("", "", ""));
    if |c| > 0 && c[0].Enter? && c[0].params >= 0 then c[0].params else 0
  }

  lemma GuardParams()
    ensures Params(AccessCheck) == 1 && Params(IndexCheck) == 2 && Params(LengthCheck) == 1
    ensures Params(PrintBoolRoutine) == 2
  {
  }

  /** `dup2, pop, call, dup2, call` with a one-argument and then a
      two-argument callee leaves the stack as it was. */
  lemma ShuffleIndexChecks(c: seq<Instr>, st: seq<int>)
    requires |c| == 5 && c[0].Dup2? && c[1].Pop? && c[2].Call? && c[3].Dup2? && c[4].Call?
    requires |st| >= 2
    ensures Shuffle(c, st, [1, 2]) == Some(st)
  {
    var n := |st|;
    var s1 := st + [st[n - 2], st[n - 1]];
    assert Effect(c[0], st, [1, 2]) == Some((s1, [1, 2]));
    assert s1[..n + 1] == st + [st[n - 2]];
    assert Effect(c[1], s1, [1, 2]) == Some((st + [st[n - 2]], [1, 2]));
    assert (st + [st[n - 2]])[..n] == st && [1, 2][1..] == [2];
    assert Effect(c[2], st + [st[n - 2]], [1, 2]) == Some((st, [2]));
    assert Effect(c[3], st, [2]) == Some((s1, [2]));
    assert s1[..n] == st && [2][1..] == [];
    assert Effect(c[4], s1, [2]) == Some((st, []));
    assert Shuffle(c[4..], s1, [2]) == Some(st) by {
      assert c[4..][1..] == [];
    }
    assert Shuffle(c[3..], st, [2]) == Some(st) by {
      assert c[3..][1..] == c[4..];
    }
    assert Shuffle(c[2..], st + [st[n - 2]], [1, 2]) == Some(st) by {
      assert c[2..][1..] == c[3..];
    }
    assert Shuffle(c[1..], s1, [1, 2]) == Some(st) by {
      assert c[1..][1..] == c[2..];
    }
  }

  /** The array and the index survive both guard calls of an element access:
      the next instruction finds them on top of the stack as before. */
  lemma ArrayIndexKeepsOperands(g: Gen, st: seq<int>)
    requires |g.buf.instrs| == |g.buf.addrs| && |st| >= 2
    ensures var r := ArrayIndex(g);
            Shuffle(r.buf.instrs[|g.buf.instrs|..], st, [Params(AccessCheck), Params(IndexCheck)]) == Some(st)
  {
    var r := ArrayIndex(g);
    GuardParams();
    ShuffleIndexChecks(r.buf.instrs[|g.buf.instrs|..], st);
  }

  /** `dup` and a call to a one-argument callee leave the stack as it was. */
  lemma ShuffleLengthCheck(c: seq<Instr>, st: seq<int>)
    requires |c| == 2 && c[0].Dup? && c[1].Call? && |st| >= 1
    ensures Shuffle(c, st, [1]) == Some(st)
  {
    var s1 := st + [st[|st| - 1]];
    assert Effect(c[0], st, [1]) == Some((s1, [1]));
    assert s1[..|st|] == st && [1][1..] == [];
    assert Effect(c[1], s1, [1]) == Some((st, []));
    assert Shuffle(c[1..], s1, [1]) == Some(st) by {
      assert c[1..][1..] == [];
    }
  }

  /** The length checked by the guard is still on the stack for `newarray`. */
  lemma NewArrayKeepsLength(g: Gen, elem: Type, st: seq<int>)
    requires |g.buf.instrs| == |g.buf.addrs| && |st| >= 1
    ensures var r := NewArrayExpr(g, elem);
            Shuffle(r.buf.instrs[|g.buf.instrs|..|g.buf.instrs| + 2], st, [Params(LengthCheck)]) == Some(st)
  {
    var r := NewArrayExpr(g, elem);
    GuardParams();
    ShuffleLengthCheck(r.buf.instrs[|g.buf.instrs|..|g.buf.instrs| + 2], st);
  }

  /** Printing a bool hands the value and the width to printBool, which takes
      both. */
  lemma PrintBoolConsumes(g: Gen, width: Option<int>, t: Type, st: seq<int>, v: int)
    requires |g.buf.instrs| == |g.buf.addrs| && t != Int && t != Char
    ensures var r := PrintStmt(g, width, t);
            var w := if width.Some? then width.value else DefaultPrintWidth;
            Shuffle(r.buf.instrs[|g.buf.instrs| + 1..], st + [v, w], [Params(PrintBoolRoutine)]) == Some(st)
  {
    var r := PrintStmt(g, width, t);
    GuardParams();
    var w := if width.Some? then width.value else DefaultPrintWidth;
    var c := r.buf.instrs[|g.buf.instrs| + 1..];
    assert c == [c[0]];
    assert (st + [v, w])[..|st|] == st;
  }
  // ---------------------------------------------------------------- the entry point

  /** Which method the VM starts from: `mainPC` is the address of the method
      named "main", once there is one. */
  predicate MainTracked(g: Gen)
  {
    "main" in g.methodAdr ==> g.mainPC == g.methodAdr["main"]
  }

  /** A method with no declarations in its body. */
  function EmptyBody(): (n: Counter.Node)
    ensures Counter.CountVarDecls(n) == 0
  {
    Counter.TraverseCounts(Counter.New(), Counter.Node(Counter.OtherNode, []));
    assert Counter.Preorder(Counter.Node(Counter.OtherNode, [])) == [Counter.Node(Counter.OtherNode, [])];
    Counter.Node(Counter.OtherNode, [])
  }

  /** Because the name test ignores letter case, a method `Main` declared after
      `main` takes over the entry point, though the analyzer accepted the
      program for its `main` and the two are different methods. */
  lemma MainOverridden()
    ensures var g1 := MethodTypeName(Start(), "main", EmptyBody());
            var g3 := MethodTypeName(MethodDecl(g1), "Main", EmptyBody());
            && MainTracked(g1) && g3.methodAdr["main"] == 0
            && g3.mainPC == 5 && !MainTracked(g3)
  {
    assert EqualsIgnoreCase("main", "main");
    var g1 := MethodTypeName(Start(), "main", EmptyBody());
    var g2 := MethodDecl(g1);
    assert g2.buf.pc == 5;
    assert LowerAscii('M') == 'm';
    assert EqualsIgnoreCase("Main", "main") by {
      assert "Main"[0] == 'M' && "Main"[1..] == "main"[1..];
    }
  }

  /** `visit(MethodTypeName)` as intended: the entry point is the method named
      exactly "main", the one the analyzer required, and the frame has one
      slot per declared local. */
  function MethodEntry(g: Gen, name: string, body: Counter.Node): (r: Gen)
    requires |g.buf.instrs| == |g.buf.addrs|
    ensures r.methodAdr == g.methodAdr[name := g.buf.pc]
    ensures r.mainPC == (if name == "main" then g.buf.pc else g.mainPC)
    ensures r.rt == g.rt && r.dollar == g.dollar
    ensures r.buf.addrs == g.buf.addrs + [g.buf.pc] && r.buf.pc == g.buf.pc + 3
    ensures Counter.LocalNames(body) < 256
            ==> r.buf.instrs == g.buf.instrs + [Enter(0, Counter.LocalNames(body))]
  {
    var pc := g.buf.pc;
    Gen(MethodInitialCode(g.buf, 0, Counter.FrameSize(body)), g.rt,
        if name == "main" then pc else g.mainPC, g.methodAdr[name := pc], g.dollar)
  }

  /** Entering any method keeps the entry point on "main". */
  lemma MethodEntryTracksMain(g: Gen, name: string, body: Counter.Node)
    requires |g.buf.instrs| == |g.buf.addrs| && MainTracked(g)
    ensures MainTracked(MethodEntry(g, name, body))
  {
  }

  // ---------------------------------------------------------------- a whole traversal

  /** The nodes the generator visits, bottom-up, with what each visit reads
      from the tree (the analyzer's annotations, the parent's class). */
  datatype GenEvent =
    | ProgNameEv
    | MethodTypeNameEv(name: string, body: Counter.Node)
    | MethodDeclEv
    | PrintEv(width: Option<int>, printed: Type)
    | ReadEv(readTarget: Sym)
    | IncEv(incTarget: Sym)
    | DecEv(decTarget: Sym)
    | AssignEv(dest: Sym)
    | FindAnyEv
    | FindAllEv
    | DesignatorEv(des: Sym, parent: Parent)
    | ArrayIndexEv
    | PlaceholderEv(arr: Sym)
    | AddOpEv(addOp: AddOperator)
    | MulOpEv(mulOp: MulOperator)
    | NegEv
    | NewArrayEv(elem: Type)
    | ConstEv(lit: Literal)

  /** One visit, with the corrected method entry. Every visit appends at the
      pc: the buffer stays laid out contiguously and no code already emitted
      is rewritten. */
  function GenStep(g: Gen, ev: GenEvent): (r: Gen)
    requires Valid(g.buf)
    ensures Appended(g.buf, r.buf)
    ensures !ev.ProgNameEv? ==> r.rt == g.rt
    ensures !ev.MethodTypeNameEv? ==> r.mainPC == g.mainPC && r.methodAdr == g.methodAdr
    ensures !ev.ProgNameEv? && !ev.ConstEv? ==> r.dollar == g.dollar
  {
    match ev
    case ProgNameEv => ProgNameAppends(g); ProgName(g)
    case MethodTypeNameEv(n, body) => MethodEntryAppends(g, n, body); MethodEntry(g, n, body)
    case MethodDeclEv => MethodDeclAppends(g); MethodDecl(g)
    case PrintEv(w, t) => PrintStmtAppends(g, w, t); PrintStmt(g, w, t)
    case ReadEv(s) => ReadStmtAppends(g, s); ReadStmt(g, s)
    case IncEv(s) => EmitAllAppends(g.buf, IncDecCode(s, Add)); IncStmt(g, s)
    case DecEv(s) => EmitAllAppends(g.buf, IncDecCode(s, Sub)); DecStmt(g, s)
    case AssignEv(s) => EmitAppends(g.buf, StoreSym(s)); Assignment(g, s)
    case FindAnyEv => CallAppends(g.buf, g.rt.findAny); FindCall(g, false)
    case FindAllEv => CallAppends(g.buf, g.rt.findAll); FindCall(g, true)
    case DesignatorEv(s, p) => EmitAppends(g.buf, LoadSym(s)); AppendedRefl(g.buf); Designator(g, s, p)
    case ArrayIndexEv => ArrayIndexAppends(g); ArrayIndex(g)
    case PlaceholderEv(s) => EmitAppends(g.buf, LoadSym(s)); ArrayIndexPlaceholder(g, s)
    case AddOpEv(op) => EmitAppends(g.buf, AddOpCode(op)); AddOpStmt(g, op)
    case MulOpEv(op) => EmitAppends(g.buf, MulOpCode(op)); MulOpStmt(g, op)
    case NegEv => EmitAppends(g.buf, Neg); Negate(g)
    case NewArrayEv(e) => NewArrayAppends(g, e); NewArrayExpr(g, e)
    case ConstEv(l) =>
      EmitAppends(g.buf, LoadSym(ConstSym("$", DollarType(g.dollar, LiteralType(l)), ConstValue(l)))); FactorConst(g, l)
  }

  /** The visits of a whole traversal, in order. */
  function Generate(g: Gen, evs: seq<GenEvent>): (r: Gen)
    requires Valid(g.buf)
    ensures Appended(g.buf, r.buf)
    decreases |evs|
  {
    if |evs| == 0 then AppendedRefl(g.buf); g
    else
      var h := GenStep(g, evs[0]);
      var r := Generate(h, evs[1..]);
      AppendedTrans(g.buf, h.buf, r.buf);
      r
  }

  /** The names of the methods a traversal enters. */
  function Entered(evs: seq<GenEvent>): (s: set<string>)
    decreases |evs|
  {
    if |evs| == 0 then {}
    else (if evs[0].MethodTypeNameEv? then {evs[0].name} else {}) + Entered(evs[1..])
  }

  /** The program node's visit creates the "$" entry, as a char constant,
      unless one exists; no visit changes the type of an existing one. */
  lemma GenStepDollar(g: Gen, ev: GenEvent)
    requires Valid(g.buf)
    ensures g.dollar.Some? ==> GenStep(g, ev).dollar == g.dollar
    ensures ev.ProgNameEv? && g.dollar.None? ==> GenStep(g, ev).dollar == Some(Char)
  {
    if ev.ProgNameEv? {
      assert GenStep(g, ev) == ProgName(g);
    } else if ev.ConstEv? {
      GenStepConst(g, ev.lit);
    }
  }

  /** Once "$" names an entry, no visit changes that entry's type. */
  lemma {:induction false} GenerateKeepsDollar(g: Gen, evs: seq<GenEvent>)
    requires Valid(g.buf) && g.dollar.Some?
    ensures Generate(g, evs).dollar == g.dollar
    decreases |evs|
  {
    if |evs| > 0 {
      GenStepDollar(g, evs[0]);
      GenerateKeepsDollar(GenStep(g, evs[0]), evs[1..]);
    }
  }

  /** A literal's visit is `visit(FactorConst)`. */
  lemma GenStepConst(g: Gen, lit: Literal)
    requires Valid(g.buf)
    ensures GenStep(g, ConstEv(lit)) == FactorConst(g, lit)
  {
  }

  /** After the program node, every literal is loaded through the char-typed
      "$" entry the runtime routines created, whatever the literal's type. */
  lemma LiteralsShareCharEntry(g: Gen, evs: seq<GenEvent>, lit: Literal)
    requires Valid(g.buf) && g.dollar.None?
    ensures var h := Generate(g, [ProgNameEv] + evs);
            && GenStep(h, ConstEv(lit)) == FactorConst(h, lit)
            && var i := FactorConst(h, lit).buf.instrs[|h.buf.instrs|];
               i.LoadSym? && i.sym.typ == Char && i.sym.adr == ConstValue(lit)
  {
    var h1 := GenStep(g, ProgNameEv);
    GenStepDollar(g, ProgNameEv);
    var h := Generate(g, [ProgNameEv] + evs);
    assert ([ProgNameEv] + evs)[1..] == evs;
    assert h == Generate(h1, evs);
    GenerateKeepsDollar(h1, evs);
    GenStepConst(h, lit);
  }

  /** Every method entered gets an address and nothing else does. */
  lemma {:induction false} GenerateAddresses(g: Gen, evs: seq<GenEvent>)
    requires Valid(g.buf)
    ensures Generate(g, evs).methodAdr.Keys == g.methodAdr.Keys + Entered(evs)
    decreases |evs|
  {
    if |evs| > 0 {
      var h := GenStep(g, evs[0]);
      GenerateAddresses(h, evs[1..]);
      if evs[0].MethodTypeNameEv? {
        assert h == MethodEntry(g, evs[0].name, evs[0].body);
      }
    }
  }

  /** One visit keeps the entry point on "main". */
  lemma GenStepTracksMain(g: Gen, ev: GenEvent)
    requires Valid(g.buf) && MainTracked(g)
    ensures MainTracked(GenStep(g, ev))
  {
    if ev.MethodTypeNameEv? {
      assert GenStep(g, ev) == MethodEntry(g, ev.name, ev.body);
    }
  }

  /** After any traversal from a fresh generator, the VM's entry point is the
      address of the method named "main", if the program has one. */
  lemma {:induction false} GenerateTracksMain(g: Gen, evs: seq<GenEvent>)
    requires Valid(g.buf) && MainTracked(g)
    ensures MainTracked(Generate(g, evs))
    decreases |evs|
  {
    if |evs| > 0 {
      GenStepTracksMain(g, evs[0]);
      GenerateTracksMain(GenStep(g, evs[0]), evs[1..]);
    }
  }

  lemma EntryIsMain(evs: seq<GenEvent>)
    requires "main" in Entered(evs)
    ensures var r := Generate(Start(), evs);
            "main" in r.methodAdr && r.mainPC == r.methodAdr["main"]
  {
    GenerateAddresses(Start(), evs);
    GenerateTracksMain(Start(), evs);
  }

  /** `r` continues `b`: everything emitted before is still there, at the
      same addresses, and the pc has not moved back. */
  predicate Continues(b: Buf, r: Buf)
  {
    && |b.instrs| <= |r.instrs| && r.instrs[..|b.instrs|] == b.instrs
    && |b.addrs| <= |r.addrs| && r.addrs[..|b.addrs|] == b.addrs
    && b.pc <= r.pc
  }

  /** `r` is a valid buffer that continues `b`. */
  predicate Appended(b: Buf, r: Buf)
  {
    Valid(r) && Continues(b, r)
  }

  lemma AppendedRefl(b: Buf)
    requires Valid(b)
    ensures Appended(b, b)
  {
    assert b.instrs[..|b.instrs|] == b.instrs && b.addrs[..|b.addrs|] == b.addrs;
  }

  lemma AppendedTrans(a: Buf, b: Buf, c: Buf)
    requires Appended(a, b) && Appended(b, c)
    ensures Appended(a, c)
  {
    PrefixOfPrefix(a.instrs, b.instrs, c.instrs);
    PrefixOfPrefix(a.addrs, b.addrs, c.addrs);
  }

  lemma EmitAppends(b: Buf, i: Instr)
    requires Valid(b)
    ensures Appended(b, Emit(b, i))
  {
    EmitValid(b, i);
    GrowExtends(b, Emit(b, i));
  }

  lemma CallAppends(b: Buf, a: int)
    requires Valid(b)
    ensures Appended(b, MethodCall(b, a))
  {
    MethodCallValid(b, a);
    GrowExtends(b, MethodCall(b, a));
  }

  lemma EmitAllAppends(b: Buf, s: seq<Instr>)
    requires Valid(b)
    ensures Appended(b, EmitAll(b, s))
  {
    EmitAllValid(b, s);
    GrowExtends(b, EmitAll(b, s));
  }

  lemma ProgNameAppends(g: Gen)
    requires Valid(g.buf)
    ensures Appended(g.buf, ProgName(g).buf)
  {
    InitCodeGeneratorValid(g.buf);
    CreateAllKeeps(g.buf, CreationOrder, GuardMessages, 0);
    assert CreationOrder[..0] == [];
    GrowExtends(g.buf, ProgName(g).buf);
  }

  lemma MethodEntryAppends(g: Gen, name: string, body: Counter.Node)
    requires Valid(g.buf)
    ensures Appended(g.buf, MethodEntry(g, name, body).buf)
  {
    EmitAppends(g.buf, Enter(Byte(0), Byte(0 + Counter.FrameSize(body))));
  }

  lemma MethodDeclAppends(g: Gen)
    requires Valid(g.buf)
    ensures Appended(g.buf, MethodDecl(g).buf)
  {
    EmitAppends(g.buf, Exit);
    EmitAppends(Emit(g.buf, Exit), Return);
    AppendedTrans(g.buf, Emit(g.buf, Exit), MethodDecl(g).buf);
  }

  lemma PrintStmtAppends(g: Gen, width: Option<int>, t: Type)
    requires Valid(g.buf)
    ensures Appended(g.buf, PrintStmt(g, width, t).buf)
  {
    var b1 := Emit(g.buf, Const(if width.Some? then width.value else DefaultPrintWidth));
    EmitValid(g.buf, Const(if width.Some? then width.value else DefaultPrintWidth));
    if t == Int {
      EmitValid(b1, Print);
    } else if t == Char {
      EmitValid(b1, BPrint);
    } else {
      MethodCallValid(b1, g.rt.printBool);
    }
    GrowExtends(g.buf, PrintStmt(g, width, t).buf);
  }

  lemma ReadStmtAppends(g: Gen, target: Sym)
    requires Valid(g.buf)
    ensures Appended(g.buf, ReadStmt(g, target).buf)
  {
    var i := if target.typ == Char then BRead else Read;
    EmitValid(g.buf, i);
    EmitValid(Emit(g.buf, i), StoreSym(target));
    GrowExtends(g.buf, ReadStmt(g, target).buf);
  }

  lemma ArrayIndexAppends(g: Gen)
    requires Valid(g.buf)
    ensures Appended(g.buf, ArrayIndex(g).buf)
  {
    var b1 := Emit(Emit(g.buf, Dup2), Pop);
    var b2 := MethodCall(b1, g.rt.accessCheck);
    var b3 := Emit(b2, Dup2);
    EmitValid(g.buf, Dup2);
    EmitValid(Emit(g.buf, Dup2), Pop);
    MethodCallValid(b1, g.rt.accessCheck);
    EmitValid(b2, Dup2);
    MethodCallValid(b3, g.rt.indexCheck);
    GrowExtends(g.buf, ArrayIndex(g).buf);
  }

  lemma NewArrayAppends(g: Gen, elem: Type)
    requires Valid(g.buf)
    ensures Appended(g.buf, NewArrayExpr(g, elem).buf)
  {
    var b1 := Emit(g.buf, Dup);
    var b2 := MethodCall(b1, g.rt.lengthCheck);
    EmitValid(g.buf, Dup);
    MethodCallValid(b1, g.rt.lengthCheck);
    EmitValid(b2, NewArray(ElemTag(elem)));
    GrowExtends(g.buf, NewArrayExpr(g, elem).buf);
  }

  /** Two valid buffers, one a prefix of the other in instructions, agree on
      addresses too. */
  lemma GrowExtends(b: Buf, r: Buf)
    requires Valid(b) && Valid(r)
    requires |b.instrs| <= |r.instrs| && r.instrs[..|b.instrs|] == b.instrs
    ensures Continues(b, r)
  {
    if |b.instrs| == |r.instrs| {
      assert r.instrs == b.instrs;
      ValidConsecutive(b);
      ValidConsecutive(r);
      forall k | 0 <= k < |b.addrs|
        ensures r.addrs[k] == b.addrs[k]
      {
        SameLayout(b, r, k);
      }
      if |b.addrs| > 0 {
        SameLayout(b, r, |b.addrs| - 1);
      }
    } else {
      ValidGrow(b, r, r.instrs[|b.instrs|..]);
      AddrsIncrease(r, |b.instrs|, |r.instrs|);
    }
  }

  /** The layout of a valid buffer is determined by its instructions. */
  lemma {:induction false} SameLayout(b: Buf, r: Buf, k: int)
    requires Consecutive(b) && Consecutive(r) && r.instrs == b.instrs && 0 <= k < |b.addrs|
    ensures r.addrs[k] == b.addrs[k]
  {
    if k > 0 {
      SameLayout(b, r, k - 1);
    }
  }
}

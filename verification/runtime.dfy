/** `CommonUtils`: the emission helpers and the six runtime routines the code
    generator synthesizes before any user code, with their entry addresses. */
module Runtime {
  import opened Types
  import opened Bytecode

  /** An operand written with `Code.put` occupies one byte. */
  function Byte(x: int): (r: int)
    ensures 0 <= r < 256
    ensures 0 <= x < 256 ==> r == x
  {
    x % 256
  }

  /** An operand written with `Code.put2` occupies two bytes and is read back
      as a signed 16-bit value. */
  function Word(x: int): (r: int)
    ensures -32768 <= r < 32768
    ensures -32768 <= x < 32768 ==> r == x
  {
    (x + 32768) % 65536 - 32768
  }

  /** `generateMethodInitialCode(p, l)`: `enter p, p+l`. */
  function MethodInitialCode(b: Buf, p: int, l: int): (r: Buf)
    ensures r.addrs == b.addrs + [b.pc] && r.pc == b.pc + 3
    ensures 0 <= p < 256 && 0 <= p + l < 256 ==> r.instrs == b.instrs + [Enter(p, p + l)]
  {
    Emit(b, Enter(Byte(p), Byte(p + l)))
  }

  /** `generateMethodFinalCode`: `exit, return`. */
  function MethodFinalCode(b: Buf): (r: Buf)
    ensures r.instrs == b.instrs + [Exit, Return]
    ensures r.addrs == b.addrs + [b.pc, b.pc + 1] && r.pc == b.pc + 2
  {
    Emit(Emit(b, Exit), Return)
  }

  /** `generateMethodCall(a)`: `call` with the 16-bit offset from the call's
      own address to `a`. The call reaches `a` exactly when the distance fits
      in 16 bits. */
  function MethodCall(b: Buf, a: int): (r: Buf)
    ensures r.addrs == b.addrs + [b.pc] && r.pc == b.pc + 3
    ensures |r.instrs| == |b.instrs| + 1 && r.instrs[..|b.instrs|] == b.instrs
    ensures r.instrs[|b.instrs|].Call?
    ensures b.pc + r.instrs[|b.instrs|].offset == a <==> -32768 <= a - b.pc < 32768
  {
    var r := Emit(b, Call(Word(a - b.pc)));
    assert r.instrs[..|b.instrs|] == b.instrs;
    r
  }

  lemma MethodFinalCodeKeeps(b: Buf, k: int)
    requires 0 <= k < |b.addrs|
    ensures MethodFinalCode(b).addrs[k] == b.addrs[k]
  {
  }

  lemma MethodFinalCodeAt(b: Buf)
    ensures MethodFinalCode(b).addrs[|b.addrs|] == b.pc
  {
  }

  lemma MethodInitialCodeValid(b: Buf, p: int, l: int)
    requires Valid(b)
    ensures Valid(MethodInitialCode(b, p, l))
  {
    EmitValid(b, Enter(Byte(p), Byte(p + l)));
  }

  lemma MethodFinalCodeValid(b: Buf)
    requires Valid(b)
    ensures Valid(MethodFinalCode(b))
  {
    EmitValid(b, Exit);
    EmitValid(Emit(b, Exit), Return);
  }

  lemma MethodCallValid(b: Buf, a: int)
    requires Valid(b)
    ensures Valid(MethodCall(b, a))
  {
    EmitValid(b, Call(Word(a - b.pc)));
  }

  // ---------------------------------------------------------------- strings

  /** The code `printStringLiteral` emits for character `i` of `s`: push the
      character, push the width (local 1 for the first character, 1 for the
      others), print it as a character. */
  function CharCode(s: string, i: nat): seq<Instr>
    requires i < |s|
  {
    [Const(s[i] as int), if i != 0 then Const(1) else Load(1), BPrint]
  }

  /** `printStringLiteral(s)`: the code for every character, in order. */
  function PrintStringCode(s: string): (r: seq<Instr>)
    ensures |r| == 3 * |s|
    decreases |s|
  {
    if |s| == 0 then [] else PrintStringCode(s[..|s| - 1]) + CharCode(s, |s| - 1)
  }

  /** Characters above 5 are pushed with the 5-byte `const`, so every character
      takes 7 bytes. */
  predicate WideChars(s: string)
  {
    forall k :: 0 <= k < |s| ==> s[k] as int > 5
  }

  lemma Len3(x: Instr, y: Instr, z: Instr)
    ensures Len([x, y, z]) == Size(x) + Size(y) + Size(z)
  {
    assert [x, y, z][..2] == [x, y] && [x, y][..1] == [x] && [x][..0] == [];
    assert Len([x]) == Size(x);
    assert Len([x, y]) == Size(x) + Size(y);
  }

  lemma {:induction false} PrintStringLen(s: string)
    ensures WideChars(s) ==> Len(PrintStringCode(s)) == 7 * |s|
    decreases |s|
  {
    if |s| > 0 {
      var n := |s| - 1;
      PrintStringLen(s[..n]);
      LenAppend(PrintStringCode(s[..n]), CharCode(s, n));
      var c := CharCode(s, n);
      Len3(c[0], c[1], c[2]);
      assert c == [c[0], c[1], c[2]];
    }
  }

  lemma {:induction false} PrintStringCodeIndex(s: string, i: nat)
    requires i < |s|
    ensures PrintStringCode(s)[3 * i..3 * i + 3] == CharCode(s, i)
    decreases |s|
  {
    var n := |s| - 1;
    if i < n {
      PrintStringCodeIndex(s[..n], i);
      assert CharCode(s[..n], i) == CharCode(s, i);
      assert PrintStringCode(s)[3 * i..3 * i + 3] == PrintStringCode(s[..n])[3 * i..3 * i + 3];
    }
  }

  /** Emit `printStringLiteral(s)`. */
  function PrintString(b: Buf, s: string): (r: Buf)
    ensures r.instrs == b.instrs + PrintStringCode(s)
    ensures |r.addrs| == |b.addrs| + 3 * |s| && r.addrs[..|b.addrs|] == b.addrs
    ensures forall k :: |b.addrs| <= k < |r.addrs| ==> b.pc <= r.addrs[k] < r.pc
    ensures r.pc == b.pc + Len(PrintStringCode(s))
    ensures WideChars(s) ==> r.pc == b.pc + 7 * |s|
    ensures |s| > 0 ==> r.addrs[|b.addrs|] == b.pc
  {
    PrintStringLen(s);
    assert |s| > 0 ==> PrintStringCode(s)[..0] == [];
    EmitAll(b, PrintStringCode(s))
  }

  lemma PrintStringValid(b: Buf, s: string)
    requires Valid(b)
    ensures Valid(PrintString(b, s))
  {
    EmitAllValid(b, PrintStringCode(s));
  }

  const FalseText: string := "false"
  const TrueText: string := "true"
  const LengthMessage: string := "\nArray length cannot be a negative number!"
  const AccessMessage: string := "\nAccessing array elements before array initialization!"
  const IndexMessage: string := "\nArray index is out of bounds!"

  /** `WideChars`, checked one character at a time. */
  predicate AllWide(s: string)
  {
    |s| == 0 || (s[0] as int > 5 && AllWide(s[1..]))
  }

  lemma {:induction false} AllWideChars(s: string)
    requires AllWide(s)
    ensures WideChars(s)
  {
    if |s| > 0 {
      AllWideChars(s[1..]);
      assert forall k :: 1 <= k < |s| ==> s[k] == s[1..][k - 1];
    }
  }

  lemma BoolTextsWide()
    ensures WideChars(FalseText) && WideChars(TrueText)
  {
    AllWideChars(FalseText);
    AllWideChars(TrueText);
  }

  // ---------------------------------------------------------------- routines

  /** `createPrintBoolMethod` with its jumps resolved; `base` is the entry
      address. */
  function PrintBoolCode(base: int): seq<Instr>
  {
    [Enter(2, 2), Load(0), Const(1), Jcc(Eq, base + 46)]
    + PrintStringCode(FalseText) + [Jmp(base + 74)]
    + PrintStringCode(TrueText)
    + [Exit, Return]
  }

  /** The comparison of the value argument with 1 that opens printBool. */
  function BoolTest(b: Buf): (r: Buf)
    ensures r.pc == b.pc + 8
    ensures r.instrs == b.instrs + [Enter(2, 2), Load(0), Const(1), Jcc(Eq, 0)]
    ensures r.addrs == b.addrs + [b.pc, b.pc + 3, b.pc + 4, b.pc + 5]
  {
    var b1 := MethodInitialCode(b, 2, 0);
    Emit(Emit(Emit(b1, Load(0)), Const(1)), Jcc(Inverse(Ne), 0))
  }

  lemma BoolTestValid(b: Buf)
    requires Valid(b)
    ensures Valid(BoolTest(b))
  {
    var b1 := MethodInitialCode(b, 2, 0);
    MethodInitialCodeValid(b, 2, 0);
    EmitValid(b1, Load(0));
    EmitValid(Emit(b1, Load(0)), Const(1));
    EmitValid(Emit(Emit(b1, Load(0)), Const(1)), Jcc(Inverse(Ne), 0));
  }

  /** `createPrintBoolMethod`: print "true" when the value argument is 1 and
      "false" otherwise, each with the width argument for its first character. */
  function PrintBool(b: Buf): (r: Buf)
    ensures r.pc == b.pc + 76 && |r.instrs| == |b.instrs| + 34
  {
    MethodFinalCode(PrintBoolBody(b))
  }

  /** printBool up to its final code, both jumps patched. */
  function PrintBoolBody(b: Buf): (r: Buf)
    ensures r.pc == b.pc + 74 && |r.instrs| == |b.instrs| + 32
  {
    BoolTextsWide();
    var b1 := BoolTest(b);
    var addressIfTrue := |b1.instrs| - 1;
    var b2 := PrintString(b1, FalseText);
    var b3 := Emit(b2, Jmp(0));
    var methodExit := |b3.instrs| - 1;
    var b4 := Patch(b3, addressIfTrue);
    var b5 := PrintString(b4, TrueText);
    Patch(b5, methodExit)
  }

  /** The body of printBool before its final code, as the two patches leave it. */
  function PrintBoolPatched(base: int): seq<Instr>
  {
    var t := [Enter(2, 2), Load(0), Const(1), Jcc(Eq, 0)];
    var l3 := t + PrintStringCode(FalseText) + [Jmp(0)];
    var l4 := l3[3 := Retarget(l3[3], base + 46)];
    var l5 := l4 + PrintStringCode(TrueText);
    l5[19 := Retarget(l5[19], base + 74)]
  }

  lemma PrintBoolAssembly(base: int)
    ensures PrintBoolPatched(base) + [Exit, Return] == PrintBoolCode(base)
  {
    var t := [Enter(2, 2), Load(0), Const(1), Jcc(Eq, 0)];
    var pf := PrintStringCode(FalseText);
    var pt := PrintStringCode(TrueText);
    UpdatePrefix(t, pf, 3, Jcc(Eq, base + 46));
    UpdatePrefix(t + pf, [Jmp(0)], 3, Jcc(Eq, base + 46));
    var l4 := t[3 := Jcc(Eq, base + 46)] + pf + [Jmp(0)];
    UpdateAppend(t[3 := Jcc(Eq, base + 46)] + pf, [Jmp(0)], 0, Jmp(base + 74));
    UpdatePrefix(l4, pt, 19, Jmp(base + 74));
  }

  /** The routine printBool emits, with both jumps landing on their labels: the
      true branch right after the jump over it, the exit after the true branch. */
  lemma PrintBoolLayout(b: Buf)
    ensures PrintBool(b).instrs == b.instrs + PrintBoolCode(b.pc)
  {
    PrintBoolBodyLayout(b);
    AppendAssoc(b.instrs, PrintBoolPatched(b.pc), [Exit, Return]);
    PrintBoolAssembly(b.pc);
  }

  lemma PrintBoolBodyLayout(b: Buf)
    ensures PrintBoolBody(b).instrs == b.instrs + PrintBoolPatched(b.pc)
  {
    var b4 := Patch(Emit(PrintString(BoolTest(b), FalseText), Jmp(0)), |b.instrs| + 3);
    PrintBoolFalseLayout(b);
    PrintBoolTrueLayout(b, b4);
  }

  /** printBool's true branch after the patched false branch, with the jump
      over it patched. */
  lemma PrintBoolTrueLayout(b: Buf, b4: Buf)
    requires b4.pc == b.pc + 46
    requires b4.instrs == b.instrs + ([Enter(2, 2), Load(0), Const(1), Jcc(Eq, 0)] + PrintStringCode(FalseText) + [Jmp(0)])[3 := Jcc(Eq, b.pc + 46)]
    ensures Patch(PrintString(b4, TrueText), |b.instrs| + 19).instrs == b.instrs + PrintBoolPatched(b.pc)
  {
    BoolTextsWide();
    var p := b.instrs;
    var l4 := ([Enter(2, 2), Load(0), Const(1), Jcc(Eq, 0)] + PrintStringCode(FalseText) + [Jmp(0)])[3 := Jcc(Eq, b.pc + 46)];
    var pt := PrintStringCode(TrueText);
    AppendAssoc(p, l4, pt);
    PatchOnto(p, l4 + pt, PrintString(b4, TrueText), 19);
  }

  /** printBool's false branch with the jump to the true branch patched. */
  lemma PrintBoolFalseLayout(b: Buf)
    ensures var b4 := Patch(Emit(PrintString(BoolTest(b), FalseText), Jmp(0)), |b.instrs| + 3);
            && b4.pc == b.pc + 46
            && b4.instrs == b.instrs + ([Enter(2, 2), Load(0), Const(1), Jcc(Eq, 0)] + PrintStringCode(FalseText) + [Jmp(0)])[3 := Jcc(Eq, b.pc + 46)]
  {
    BoolTextsWide();
    var p := b.instrs;
    var t := [Enter(2, 2), Load(0), Const(1), Jcc(Eq, 0)];
    var pf := PrintStringCode(FalseText);
    var b2 := PrintString(BoolTest(b), FalseText);
    AppendAssoc(p, t, pf);
    var b3 := Emit(b2, Jmp(0));
    EmitOnto(p, t + pf, b2, Jmp(0));
    PatchOnto(p, t + pf + [Jmp(0)], b3, 3);
  }

  /** The addresses printBool's jumps target: the true branch and the exit. */
  lemma PrintBoolBodyLabels(b: Buf)
    requires |b.addrs| == |b.instrs|
    ensures var r := PrintBoolBody(b); var n := |b.instrs|;
            && |r.addrs| == n + 32 && r.addrs[n] == b.pc && r.addrs[n + 20] == b.pc + 46
  {
    BoolTextsWide();
    var b1 := BoolTest(b);
    var b2 := PrintString(b1, FalseText);
    var b4 := Patch(Emit(b2, Jmp(0)), |b.instrs| + 3);
    assert b4.addrs[..|b.instrs| + 1] == b2.addrs[..|b.instrs| + 1];
    var b5 := PrintString(b4, TrueText);
    assert b5.addrs[|b.instrs|] == b5.addrs[..|b4.addrs|][|b.instrs|];
  }

  lemma PrintBoolLabels(b: Buf)
    requires |b.addrs| == |b.instrs|
    ensures |PrintBool(b).addrs| == |b.instrs| + 34
    ensures PrintBool(b).addrs[|b.instrs| + 0] == b.pc
    ensures PrintBool(b).addrs[|b.instrs| + 20] == b.pc + 46
    ensures PrintBool(b).addrs[|b.instrs| + 32] == b.pc + 74
  {
    PrintBoolBodyLabels(b);
    var body := PrintBoolBody(b);
    MethodFinalCodeKeeps(body, |b.instrs| + 0);
    MethodFinalCodeKeeps(body, |b.instrs| + 20);
    MethodFinalCodeAt(body);
  }

  lemma PrintBoolValid(b: Buf)
    requires Valid(b)
    ensures Valid(PrintBool(b))
  {
    var b1 := BoolTest(b);
    BoolTestValid(b);
    var b2 := PrintString(b1, FalseText);
    PrintStringValid(b1, FalseText);
    var b3 := Emit(b2, Jmp(0));
    EmitValid(b2, Jmp(0));
    var b4 := Patch(b3, |b1.instrs| - 1);
    PatchValid(b3, |b1.instrs| - 1);
    PrintStringValid(b4, TrueText);
    var b5 := PrintString(b4, TrueText);
    PatchValid(b5, |b3.instrs| - 1);
    MethodFinalCodeValid(PrintBoolBody(b));
  }

  /** The scan loop shared by findAny and findAll, with its two exits still
      unpatched; `base` is the entry address. The array is local 0, the value
      local 1, the index local 2. */
  function ScanLoopCode(base: int, locals: int): seq<Instr>
  {
    [Enter(2, 2 + locals), Load(0), ArrayLength]
    + [Const(1), Sub, Store(2), Load(2), Const(0), Jcc(Lt, 0)]
    + [Load(0), Load(2), ALoad, Load(1), Jcc(Eq, 0)]
    + [Load(2), Jmp(base + 5)]
  }

  function ScanLoopAddrs(base: int): seq<int>
  {
    [base, base + 3, base + 4]
    + [base + 5, base + 6, base + 7, base + 8, base + 9, base + 10]
    + [base + 13, base + 14, base + 15, base + 16, base + 17]
    + [base + 20, base + 21]
  }

  /** Entry, then the array length on the stack as the first index + 1. */
  function ScanHead(b: Buf, locals: int): (r: Buf)
    requires 0 <= locals < 254
    ensures r.pc == b.pc + 5
    ensures r.instrs == b.instrs + [Enter(2, 2 + locals), Load(0), ArrayLength]
    ensures r.addrs == b.addrs + [b.pc, b.pc + 3, b.pc + 4]
  {
    Emit(Emit(MethodInitialCode(b, 2, locals), Load(0)), ArrayLength)
  }

  /** Decrement the index, store it in local 2, and leave the loop when it is
      below 0. */
  function ScanTest(b: Buf): (r: Buf)
    ensures r.pc == b.pc + 8
    ensures r.instrs == b.instrs + [Const(1), Sub, Store(2), Load(2), Const(0), Jcc(Lt, 0)]
    ensures r.addrs == b.addrs + [b.pc, b.pc + 1, b.pc + 2, b.pc + 3, b.pc + 4, b.pc + 5]
  {
    var b1 := Emit(Emit(Emit(b, Const(1)), Sub), Store(2));
    Emit(Emit(Emit(b1, Load(2)), Const(0)), Jcc(Inverse(Ge), 0))
  }

  /** Compare the element at the index with the value, leaving the loop when
      they are equal. */
  function ScanCompare(b: Buf): (r: Buf)
    ensures r.pc == b.pc + 7
    ensures r.instrs == b.instrs + [Load(0), Load(2), ALoad, Load(1), Jcc(Eq, 0)]
    ensures r.addrs == b.addrs + [b.pc, b.pc + 1, b.pc + 2, b.pc + 3, b.pc + 4]
  {
    Emit(Emit(Emit(Emit(Emit(b, Load(0)), Load(2)), ALoad), Load(1)), Jcc(Inverse(Ne), 0))
  }

  /** Push the index back and jump to the loop start. */
  function ScanNext(b: Buf, loopStart: int): (r: Buf)
    ensures r.pc == b.pc + 4
    ensures r.instrs == b.instrs + [Load(2), Jmp(loopStart)]
    ensures r.addrs == b.addrs + [b.pc, b.pc + 1]
  {
    Emit(Emit(b, Load(2)), Jmp(loopStart))
  }

  lemma ScanHeadValid(b: Buf, locals: int)
    requires Valid(b) && 0 <= locals < 254
    ensures Valid(ScanHead(b, locals))
  {
    var b1 := MethodInitialCode(b, 2, locals);
    MethodInitialCodeValid(b, 2, locals);
    EmitValid(b1, Load(0));
    EmitValid(Emit(b1, Load(0)), ArrayLength);
  }

  lemma ScanTestValid(b: Buf)
    requires Valid(b)
    ensures Valid(ScanTest(b))
  {
    var b1 := Emit(b, Const(1));
    var b2 := Emit(b1, Sub);
    var b3 := Emit(b2, Store(2));
    var b4 := Emit(b3, Load(2));
    var b5 := Emit(b4, Const(0));
    EmitValid(b, Const(1));
    EmitValid(b1, Sub);
    EmitValid(b2, Store(2));
    EmitValid(b3, Load(2));
    EmitValid(b4, Const(0));
    EmitValid(b5, Jcc(Inverse(Ge), 0));
  }

  lemma ScanCompareValid(b: Buf)
    requires Valid(b)
    ensures Valid(ScanCompare(b))
  {
    var b1 := Emit(b, Load(0));
    var b2 := Emit(b1, Load(2));
    var b3 := Emit(b2, ALoad);
    var b4 := Emit(b3, Load(1));
    EmitValid(b, Load(0));
    EmitValid(b1, Load(2));
    EmitValid(b2, ALoad);
    EmitValid(b3, Load(1));
    EmitValid(b4, Jcc(Inverse(Ne), 0));
  }

  lemma ScanNextValid(b: Buf, loopStart: int)
    requires Valid(b)
    ensures Valid(ScanNext(b, loopStart))
  {
    EmitValid(b, Load(2));
    EmitValid(Emit(b, Load(2)), Jmp(loopStart));
  }

  lemma ScanLoopValid(b: Buf, locals: int)
    requires Valid(b) && 0 <= locals < 254
    ensures Valid(ScanLoop(b, locals).0)
  {
    var b1 := ScanHead(b, locals);
    ScanHeadValid(b, locals);
    ScanTestValid(b1);
    ScanCompareValid(ScanTest(b1));
    ScanNextValid(ScanCompare(ScanTest(b1)), b1.pc);
  }

  /** The loop with its start address and the indices of its failure and
      success exit jumps. */
  function ScanLoop(b: Buf, locals: int): (r: (Buf, int, int, int))
    requires 0 <= locals < 254
    ensures r.0.pc == b.pc + 24
    ensures r.0.instrs == b.instrs + ScanLoopCode(b.pc, locals)
    ensures r.0.addrs == b.addrs + ScanLoopAddrs(b.pc)
    ensures r.1 == b.pc + 5 && r.2 == |b.instrs| + 8 && r.3 == |b.instrs| + 13
  {
    var b1 := ScanHead(b, locals);
    var loopStart := b1.pc;
    var b2 := ScanTest(b1);
    var loopExitFail := |b2.instrs| - 1;
    var b3 := ScanCompare(b2);
    var loopExitSuccess := |b3.instrs| - 1;
    var b4 := ScanNext(b3, loopStart);
    ScanLoopShape(b, locals);
    (b4, loopStart, loopExitFail, loopExitSuccess)
  }

  lemma ScanLoopShape(b: Buf, locals: int)
    requires 0 <= locals < 254
    ensures var r := ScanNext(ScanCompare(ScanTest(ScanHead(b, locals))), b.pc + 5);
            r.instrs == b.instrs + ScanLoopCode(b.pc, locals) && r.addrs == b.addrs + ScanLoopAddrs(b.pc)
  {
    var base := b.pc;
    var h := [Enter(2, 2 + locals), Load(0), ArrayLength];
    var t := [Const(1), Sub, Store(2), Load(2), Const(0), Jcc(Lt, 0)];
    var c := [Load(0), Load(2), ALoad, Load(1), Jcc(Eq, 0)];
    AppendAssoc(b.instrs, h, t);
    AppendAssoc(b.instrs, h + t, c);
    AppendAssoc(b.instrs, h + t + c, [Load(2), Jmp(base + 5)]);
    var ha := [base, base + 3, base + 4];
    var ta := [base + 5, base + 6, base + 7, base + 8, base + 9, base + 10];
    var ca := [base + 13, base + 14, base + 15, base + 16, base + 17];
    AppendAssoc(b.addrs, ha, ta);
    AppendAssoc(b.addrs, ha + ta, ca);
    AppendAssoc(b.addrs, ha + ta + ca, [base + 20, base + 21]);
  }

  /** The failure exit of both searches: the loop's failure jump `fail` is
      patched to land here, the result `v` is pushed, and a jump to the method
      exit follows, whose index is returned for its own patch. */
  function MissExit(b: Buf, fail: int, v: Instr): (r: (Buf, int))
    requires 0 <= fail < |b.instrs|
    ensures r.0.pc == b.pc + Size(v) + 3
    ensures r.0.addrs == b.addrs + [b.pc] + [b.pc + Size(v)]
    ensures |r.0.instrs| == |b.instrs| + 2 && r.1 == |b.instrs| + 1
  {
    var b1 := Emit(Emit(Patch(b, fail), v), Jmp(0));
    (b1, |b1.instrs| - 1)
  }

  lemma MissExitOnto(p: seq<Instr>, l: seq<Instr>, b: Buf, j: int, v: Instr)
    requires b.instrs == p + l && 0 <= j < |l|
    ensures MissExit(b, |p| + j, v).0.instrs == p + (l[j := Retarget(l[j], b.pc)] + [v] + [Jmp(0)])
  {
    var l1 := l[j := Retarget(l[j], b.pc)];
    PatchOnto(p, l, b, j);
    EmitOnto(p, l1, Patch(b, |p| + j), v);
    EmitOnto(p, l1 + [v], Emit(Patch(b, |p| + j), v), Jmp(0));
  }

  lemma MissExitValid(b: Buf, fail: int, v: Instr)
    requires Valid(b) && 0 <= fail < |b.instrs|
    ensures Valid(MissExit(b, fail, v).0)
  {
    PatchValid(b, fail);
    EmitValid(Patch(b, fail), v);
    EmitValid(Emit(Patch(b, fail), v), Jmp(0));
  }

  /** `createFindAnyMethod` with its jumps resolved. */
  function FindAnyCode(base: int): seq<Instr>
  {
    [Enter(2, 3), Load(0), ArrayLength,
     Const(1), Sub, Store(2), Load(2), Const(0), Jcc(Lt, base + 24),
     Load(0), Load(2), ALoad, Load(1), Jcc(Eq, base + 28),
     Load(2), Jmp(base + 5),
     Const(0), Jmp(base + 29),
     Const(1),
     Exit, Return]
  }

  /** `createFindAnyMethod`: scan the array argument from the last index down
      to 0 and return 1 at the first element equal to the value argument, 0
      when the index drops below 0. */
  function FindAny(b: Buf): (r: Buf)
    ensures r.pc == b.pc + 31 && |r.instrs| == |b.instrs| + 21
  {
    MethodFinalCode(FindAnyBody(b))
  }

  /** Everything of findAny before its final code. */
  function FindAnyBody(b: Buf): (r: Buf)
    ensures r.pc == b.pc + 29 && |r.instrs| == |b.instrs| + 19
  {
    var (b1, loopStart, loopExitFail, loopExitSuccess) := ScanLoop(b, 1);
    var (b2, methodExit) := MissExit(b1, loopExitFail, Const(0));
    var b3 := Emit(Patch(b2, loopExitSuccess), Const(1));
    Patch(b3, methodExit)
  }

  /** The body of findAny before its final code, as the three patches leave it. */
  function FindAnyPatched(base: int): seq<Instr>
  {
    var l0 := ScanLoopCode(base, 1);
    var l2 := l0[8 := Retarget(l0[8], base + 24)] + [Const(0)] + [Jmp(0)];
    var l3 := l2[13 := Retarget(l2[13], base + 28)] + [Const(1)];
    l3[17 := Retarget(l3[17], base + 29)]
  }

  lemma FindAnyAssembly(base: int)
    ensures FindAnyPatched(base) + [Exit, Return] == FindAnyCode(base)
  {
  }

  lemma FindAnyBodyLayout(b: Buf)
    ensures FindAnyBody(b).instrs == b.instrs + FindAnyPatched(b.pc)
  {
    var r := ScanLoop(b, 1);
    var x := MissExit(r.0, r.2, Const(0));
    MissExitOnto(b.instrs, ScanLoopCode(b.pc, 1), r.0, 8, Const(0));
    FindAnyHitLayout(b, x.0);
  }

  /** findAny's success branch after its scan loop and failure exit, both
      remaining jumps patched. */
  lemma FindAnyHitLayout(b: Buf, b2: Buf)
    requires b2.pc == b.pc + 28
    requires var l0 := ScanLoopCode(b.pc, 1);
             b2.instrs == b.instrs + (l0[8 := Retarget(l0[8], b.pc + 24)] + [Const(0)] + [Jmp(0)])
    ensures Patch(Emit(Patch(b2, |b.instrs| + 13), Const(1)), |b.instrs| + 17).instrs
            == b.instrs + FindAnyPatched(b.pc)
  {
    var p := b.instrs;
    var base := b.pc;
    var l0 := ScanLoopCode(base, 1);
    var l2 := l0[8 := Retarget(l0[8], base + 24)] + [Const(0)] + [Jmp(0)];
    PatchOnto(p, l2, b2, 13);
    var l3 := l2[13 := Retarget(l2[13], base + 28)];
    EmitOnto(p, l3, Patch(b2, |p| + 13), Const(1));
    PatchOnto(p, l3 + [Const(1)], Emit(Patch(b2, |p| + 13), Const(1)), 17);
  }

  /** The routine findAny emits, with every jump landing on its label. */
  lemma FindAnyLayout(b: Buf)
    ensures FindAny(b).instrs == b.instrs + FindAnyCode(b.pc)
  {
    FindAnyBodyLayout(b);
    AppendAssoc(b.instrs, FindAnyPatched(b.pc), [Exit, Return]);
    FindAnyAssembly(b.pc);
  }

  /** The labels of findAny: its entry, the loop start, and the targets of
      the failure, success and method-exit jumps. */
  lemma FindAnyLabels(b: Buf)
    requires |b.addrs| == |b.instrs|
    ensures |FindAny(b).addrs| == |b.instrs| + 21
    ensures FindAny(b).addrs[|b.instrs| + 0] == b.pc
    ensures FindAny(b).addrs[|b.instrs| + 3] == b.pc + 5
    ensures FindAny(b).addrs[|b.instrs| + 16] == b.pc + 24
    ensures FindAny(b).addrs[|b.instrs| + 18] == b.pc + 28
    ensures FindAny(b).addrs[|b.instrs| + 19] == b.pc + 29
  {
    FindAnyBodyLabels(b);
    var body := FindAnyBody(b);
    MethodFinalCodeKeeps(body, |b.instrs| + 0);
    MethodFinalCodeKeeps(body, |b.instrs| + 3);
    MethodFinalCodeKeeps(body, |b.instrs| + 16);
    MethodFinalCodeKeeps(body, |b.instrs| + 18);
    MethodFinalCodeAt(body);
  }

  lemma FindAnyBodyLabels(b: Buf)
    requires |b.addrs| == |b.instrs|
    ensures var r := FindAnyBody(b); var n := |b.instrs|;
            && |r.addrs| == n + 19 && r.addrs[n] == b.pc && r.addrs[n + 3] == b.pc + 5
            && r.addrs[n + 16] == b.pc + 24 && r.addrs[n + 18] == b.pc + 28
  {
  }

  lemma FindAnyValid(b: Buf)
    requires Valid(b)
    ensures Valid(FindAny(b))
  {
    var (b1, loopStart, loopExitFail, loopExitSuccess) := ScanLoop(b, 1);
    ScanLoopValid(b, 1);
    MissExitValid(b1, loopExitFail, Const(0));
    var (b2, methodExit) := MissExit(b1, loopExitFail, Const(0));
    PatchValid(b2, loopExitSuccess);
    EmitValid(Patch(b2, loopExitSuccess), Const(1));
    var b3 := Emit(Patch(b2, loopExitSuccess), Const(1));
    PatchValid(b3, methodExit);
    MethodFinalCodeValid(Patch(b3, methodExit));
  }

  /** `createFindAllFunction` with its jumps resolved. */
  function FindAllCode(base: int): seq<Instr>
  {
    [Enter(2, 4), Load(0), ArrayLength,
     Const(1), Sub, Store(2), Load(2), Const(0), Jcc(Lt, base + 24),
     Load(0), Load(2), ALoad, Load(1), Jcc(Eq, base + 28),
     Load(2), Jmp(base + 5),
     Load(3), Jmp(base + 36),
     Load(3), Const(1), Add, Store(3), Load(2), Jmp(base + 5),
     Exit, Return]
  }

  /** The success branch of findAll: one more in the count (local 3), then the
      index back on the stack and on to the next iteration. */
  function CountHit(b: Buf, loopStart: int): (r: Buf)
    ensures r.pc == b.pc + 8
    ensures r.instrs == b.instrs + [Load(3), Const(1), Add, Store(3), Load(2), Jmp(loopStart)]
    ensures r.addrs == b.addrs + [b.pc, b.pc + 1, b.pc + 2, b.pc + 3, b.pc + 4, b.pc + 5]
  {
    var b1 := Emit(Emit(Emit(Emit(b, Load(3)), Const(1)), Add), Store(3));
    Emit(Emit(b1, Load(2)), Jmp(loopStart))
  }

  /** `createFindAllFunction`: count the elements of the array argument equal
      to the value argument, scanning from the last index down to 0. */
  function FindAll(b: Buf): (r: Buf)
    ensures r.pc == b.pc + 38 && |r.instrs| == |b.instrs| + 26
  {
    MethodFinalCode(FindAllBody(b))
  }

  /** Everything of findAll before its final code. */
  function FindAllBody(b: Buf): (r: Buf)
    ensures r.pc == b.pc + 36 && |r.instrs| == |b.instrs| + 24
  {
    var (b1, loopStart, loopExitFail, loopExitSuccess) := ScanLoop(b, 2);
    var (b2, methodExit) := MissExit(b1, loopExitFail, Load(3));
    var b3 := CountHit(Patch(b2, loopExitSuccess), loopStart);
    Patch(b3, methodExit)
  }

  /** The body of findAll before its final code, as the three patches leave it. */
  function FindAllPatched(base: int): seq<Instr>
  {
    var l0 := ScanLoopCode(base, 2);
    var l2 := l0[8 := Retarget(l0[8], base + 24)] + [Load(3)] + [Jmp(0)];
    var l3 := l2[13 := Retarget(l2[13], base + 28)] + [Load(3), Const(1), Add, Store(3), Load(2), Jmp(base + 5)];
    l3[17 := Retarget(l3[17], base + 36)]
  }

  lemma FindAllAssembly(base: int)
    ensures FindAllPatched(base) + [Exit, Return] == FindAllCode(base)
  {
  }

  lemma FindAllBodyLayout(b: Buf)
    ensures FindAllBody(b).instrs == b.instrs + FindAllPatched(b.pc)
  {
    var r := ScanLoop(b, 2);
    var x := MissExit(r.0, r.2, Load(3));
    FindAllMissLayout(b);
    FindAllHitLayout(b, x.0, r.1);
  }

  /** findAll's success branch after its scan loop and failure exit, both
      remaining jumps patched. */
  lemma FindAllHitLayout(b: Buf, b2: Buf, loopStart: int)
    requires b2.pc == b.pc + 28 && loopStart == b.pc + 5
    requires var l0 := ScanLoopCode(b.pc, 2);
             b2.instrs == b.instrs + (l0[8 := Retarget(l0[8], b.pc + 24)] + [Load(3)] + [Jmp(0)])
    ensures Patch(CountHit(Patch(b2, |b.instrs| + 13), loopStart), |b.instrs| + 17).instrs
            == b.instrs + FindAllPatched(b.pc)
  {
    var p := b.instrs;
    var base := b.pc;
    var l0 := ScanLoopCode(base, 2);
    var l2 := l0[8 := Retarget(l0[8], base + 24)] + [Load(3)] + [Jmp(0)];
    PatchOnto(p, l2, b2, 13);
    var l3 := l2[13 := Retarget(l2[13], base + 28)];
    var hit := [Load(3), Const(1), Add, Store(3), Load(2), Jmp(base + 5)];
    AppendAssoc(p, l3, hit);
    PatchOnto(p, l3 + hit, CountHit(Patch(b2, |p| + 13), loopStart), 17);
  }

  /** findAll's scan loop and failure exit, the failure jump patched. */
  lemma FindAllMissLayout(b: Buf)
    ensures var l0 := ScanLoopCode(b.pc, 2);
            MissExit(ScanLoop(b, 2).0, ScanLoop(b, 2).2, Load(3)).0.instrs
            == b.instrs + (l0[8 := Retarget(l0[8], b.pc + 24)] + [Load(3)] + [Jmp(0)])
  {
    var r := ScanLoop(b, 2);
    MissExitOnto(b.instrs, ScanLoopCode(b.pc, 2), r.0, 8, Load(3));
  }

  /** The routine findAll emits, with every jump landing on its label. */
  lemma FindAllLayout(b: Buf)
    ensures FindAll(b).instrs == b.instrs + FindAllCode(b.pc)
  {
    FindAllBodyLayout(b);
    AppendAssoc(b.instrs, FindAllPatched(b.pc), [Exit, Return]);
    FindAllAssembly(b.pc);
  }

  /** The labels of findAll: its entry, the loop start, and the targets of
      the failure, success and method-exit jumps. */
  lemma FindAllLabels(b: Buf)
    requires |b.addrs| == |b.instrs|
    ensures |FindAll(b).addrs| == |b.instrs| + 26
    ensures FindAll(b).addrs[|b.instrs| + 0] == b.pc
    ensures FindAll(b).addrs[|b.instrs| + 3] == b.pc + 5
    ensures FindAll(b).addrs[|b.instrs| + 16] == b.pc + 24
    ensures FindAll(b).addrs[|b.instrs| + 18] == b.pc + 28
    ensures FindAll(b).addrs[|b.instrs| + 24] == b.pc + 36
  {
    FindAllBodyLabels(b);
    var body := FindAllBody(b);
    MethodFinalCodeKeeps(body, |b.instrs| + 0);
    MethodFinalCodeKeeps(body, |b.instrs| + 3);
    MethodFinalCodeKeeps(body, |b.instrs| + 16);
    MethodFinalCodeKeeps(body, |b.instrs| + 18);
    MethodFinalCodeAt(body);
  }

  lemma FindAllBodyLabels(b: Buf)
    requires |b.addrs| == |b.instrs|
    ensures var r := FindAllBody(b); var n := |b.instrs|;
            && |r.addrs| == n + 24 && r.addrs[n] == b.pc && r.addrs[n + 3] == b.pc + 5
            && r.addrs[n + 16] == b.pc + 24 && r.addrs[n + 18] == b.pc + 28
  {
  }

  lemma FindAllValid(b: Buf)
    requires Valid(b)
    ensures Valid(FindAll(b))
  {
    var (b1, loopStart, loopExitFail, loopExitSuccess) := ScanLoop(b, 2);
    ScanLoopValid(b, 2);
    MissExitValid(b1, loopExitFail, Load(3));
    var (b2, methodExit) := MissExit(b1, loopExitFail, Load(3));
    PatchValid(b2, loopExitSuccess);
    CountHitValid(Patch(b2, loopExitSuccess), loopStart);
    var b3 := CountHit(Patch(b2, loopExitSuccess), loopStart);
    PatchValid(b3, methodExit);
    MethodFinalCodeValid(Patch(b3, methodExit));
  }

  lemma CountHitValid(b: Buf, loopStart: int)
    requires Valid(b)
    ensures Valid(CountHit(b, loopStart))
  {
    var b1 := Emit(b, Load(3));
    var b2 := Emit(b1, Const(1));
    var b3 := Emit(b2, Add);
    var b4 := Emit(b3, Store(3));
    var b5 := Emit(b4, Load(2));
    EmitValid(b, Load(3));
    EmitValid(b1, Const(1));
    EmitValid(b2, Add);
    EmitValid(b3, Store(3));
    EmitValid(b4, Load(2));
    EmitValid(b5, Jmp(loopStart));
  }

  /** The code of a one-argument guard: unless the argument compared with 0
      by `op` holds, print `msg` and trap with `code`. */
  function GuardCode(base: int, op: Rel, msg: string, code: int): seq<Instr>
  {
    GuardCodeTo(base + 10 + Len(PrintStringCode(msg)), op, msg, code)
  }

  /** A guard's code with its skip jumping to `t`. */
  function GuardCodeTo(t: int, op: Rel, msg: string, code: int): seq<Instr>
  {
    [Enter(1, 1), Load(0), Const(0), Jcc(Inverse(op), t)] + PrintStringCode(msg) + [Trap(code), Exit, Return]
  }

  /** The shape shared by `createArrayLengthCheckFunction` and
      `createArrayMembersAccessCheckFunction`: the argument is compared with
      0 by `op`, and the message and the trap are skipped when the comparison
      fails. */
  function Guard(b: Buf, op: Rel, msg: string, code: int): (r: Buf)
    ensures r.pc == b.pc + 12 + Len(PrintStringCode(msg))
    ensures |r.instrs| == |b.instrs| + 7 + 3 * |msg|
  {
    MethodFinalCode(GuardBody(b, op, msg, code))
  }

  /** The guard up to its final code, with the comparison's jump patched to
      land after the trap. */
  function GuardBody(b: Buf, op: Rel, msg: string, code: int): (r: Buf)
    ensures r.pc == b.pc + 10 + Len(PrintStringCode(msg))
    ensures |r.instrs| == |b.instrs| + 5 + 3 * |msg|
  {
    var b2 := GuardTest(b, op);
    var slot := |b2.instrs| - 1;
    var b3 := PrintString(b2, msg);
    Patch(TrapWith(b3, code), slot)
  }

  /** The `trap` that closes a guard once its message is printed. */
  function TrapWith(b: Buf, code: int): (r: Buf)
    ensures r.pc == b.pc + 2 && |r.instrs| == |b.instrs| + 1
  {
    Emit(b, Trap(Byte(code)))
  }

  /** The comparison of the argument with 0 that opens a one-argument guard. */
  function GuardTest(b: Buf, op: Rel): (r: Buf)
    ensures r.pc == b.pc + 8
    ensures r.instrs == b.instrs + [Enter(1, 1), Load(0), Const(0), Jcc(Inverse(op), 0)]
    ensures r.addrs == b.addrs + [b.pc, b.pc + 3, b.pc + 4, b.pc + 5]
  {
    var b1 := MethodInitialCode(b, 1, 0);
    Emit(Emit(Emit(b1, Load(0)), Const(0)), Jcc(Inverse(op), 0))
  }

  lemma GuardLayout(b: Buf, op: Rel, msg: string, code: int)
    requires 0 <= code < 256
    ensures Guard(b, op, msg, code).instrs == b.instrs + GuardCode(b.pc, op, msg, code)
  {
    GuardBodyLayout(b, op, msg, code);
    AppendAssoc(b.instrs, GuardBodyCode(b.pc, op, msg, code), [Exit, Return]);
    GuardAssembly(b.pc, op, msg, code);
  }

  lemma GuardAssembly(base: int, op: Rel, msg: string, code: int)
    ensures GuardBodyCode(base, op, msg, code) + [Exit, Return] == GuardCode(base, op, msg, code)
  {
    var body := [Enter(1, 1), Load(0), Const(0), Jcc(Inverse(op), base + 10 + Len(PrintStringCode(msg)))]
                + PrintStringCode(msg);
    AppendAssoc(body, [Trap(code)], [Exit, Return]);
  }

  function GuardBodyCode(base: int, op: Rel, msg: string, code: int): seq<Instr>
  {
    [Enter(1, 1), Load(0), Const(0), Jcc(Inverse(op), base + 10 + Len(PrintStringCode(msg)))]
    + PrintStringCode(msg) + [Trap(code)]
  }

  lemma GuardBodyLayout(b: Buf, op: Rel, msg: string, code: int)
    requires 0 <= code < 256
    ensures GuardBody(b, op, msg, code).instrs == b.instrs + GuardBodyCode(b.pc, op, msg, code)
  {
    GuardTrapLayout(b, op, msg, code);
    GuardPatchLayout(b, TrapWith(PrintString(GuardTest(b, op), msg), code), op, msg, code);
  }

  /** Patching the comparison's jump to land after the trap. */
  lemma GuardPatchLayout(b: Buf, b4: Buf, op: Rel, msg: string, code: int)
    requires b4.pc == b.pc + 10 + Len(PrintStringCode(msg))
    requires b4.instrs == b.instrs + ([Enter(1, 1), Load(0), Const(0), Jcc(Inverse(op), 0)] + PrintStringCode(msg) + [Trap(code)])
    ensures Patch(b4, |b.instrs| + 3).instrs == b.instrs + GuardBodyCode(b.pc, op, msg, code)
  {
    var h := [Enter(1, 1), Load(0), Const(0), Jcc(Inverse(op), 0)];
    var pm := PrintStringCode(msg);
    PatchOnto(b.instrs, h + pm + [Trap(code)], b4, 3);
    var t := Jcc(Inverse(op), b4.pc);
    UpdatePrefix(h, pm, 3, t);
    UpdatePrefix(h + pm, [Trap(code)], 3, t);
  }

  /** The guard before its jump is patched: the test, the message, the trap. */
  lemma GuardTrapLayout(b: Buf, op: Rel, msg: string, code: int)
    requires 0 <= code < 256
    ensures var r := TrapWith(PrintString(GuardTest(b, op), msg), code);
            && r.pc == b.pc + 10 + Len(PrintStringCode(msg))
            && r.instrs == b.instrs + ([Enter(1, 1), Load(0), Const(0), Jcc(Inverse(op), 0)] + PrintStringCode(msg) + [Trap(code)])
  {
    var p := b.instrs;
    var h := [Enter(1, 1), Load(0), Const(0), Jcc(Inverse(op), 0)];
    var pm := PrintStringCode(msg);
    var b3 := PrintString(GuardTest(b, op), msg);
    AppendAssoc(p, h, pm);
    EmitOnto(p, h + pm, b3, Trap(code));
  }

  /** The guard's skip lands on its final code. */
  lemma GuardLabels(b: Buf, op: Rel, msg: string, code: int, n: int, k: int, t: int)
    requires |b.addrs| == |b.instrs|
    requires n == |b.instrs| && k == 3 * |msg| && t == b.pc + 10 + Len(PrintStringCode(msg))
    ensures var r := Guard(b, op, msg, code);
            |r.addrs| == n + 7 + k && r.addrs[n + 5 + k] == t
  {
    var body := GuardBody(b, op, msg, code);
    GuardBodyLabels(b, op, msg, code, n, k);
    MethodFinalCodeAt(body);
  }

  /** The length of the guard's address table before the final code. */
  lemma GuardBodyLabels(b: Buf, op: Rel, msg: string, code: int, n: int, k: int)
    requires |b.addrs| == |b.instrs| && n == |b.instrs| && k == 3 * |msg|
    ensures |GuardBody(b, op, msg, code).addrs| == n + 5 + k
  {
  }

  lemma GuardValid(b: Buf, op: Rel, msg: string, code: int)
    requires Valid(b)
    ensures Valid(Guard(b, op, msg, code))
  {
    var b2 := GuardTest(b, op);
    GuardTestValid(b, op);
    PrintStringValid(b2, msg);
    var b3 := PrintString(b2, msg);
    EmitValid(b3, Trap(Byte(code)));
    PatchValid(Emit(b3, Trap(Byte(code))), |b2.instrs| - 1);
    MethodFinalCodeValid(GuardBody(b, op, msg, code));
  }

  lemma GuardTestValid(b: Buf, op: Rel)
    requires Valid(b)
    ensures Valid(GuardTest(b, op))
  {
    var b1 := MethodInitialCode(b, 1, 0);
    MethodInitialCodeValid(b, 1, 0);
    EmitValid(b1, Load(0));
    EmitValid(Emit(b1, Load(0)), Const(0));
    EmitValid(Emit(Emit(b1, Load(0)), Const(0)), Jcc(Inverse(op), 0));
  }

  /** `createArrayLengthCheckFunction`: trap with code 0 after the message
      when the length argument is negative. */
  function LengthGuard(b: Buf): (r: Buf)
    ensures r.pc == b.pc + 12 + Len(PrintStringCode(LengthMessage))
  {
    Guard(b, Lt, LengthMessage, 0)
  }

  /** `createArrayMembersAccessCheckFunction`: trap with code 2 after the
      message when the array argument is null (0). */
  function AccessGuard(b: Buf): (r: Buf)
    ensures r.pc == b.pc + 12 + Len(PrintStringCode(AccessMessage))
  {
    Guard(b, Eq, AccessMessage, 2)
  }

  /** `createArrayIndexCheckFunction` with its jumps resolved: both failed
      checks jump past the final code to the message and the trap. */
  function IndexGuardCode(base: int, msg: string): seq<Instr>
  {
    IndexChecksCode(base) + PrintStringCode(msg) + [Trap(1)]
  }

  /** `createArrayIndexCheckFunction`: return when 0 <= index < length, and
      otherwise print the message and trap with code 1. */
  function IndexGuard(b: Buf): (r: Buf)
    ensures r.pc == b.pc + 18 + Len(PrintStringCode(IndexMessage))
    ensures |r.instrs| == |b.instrs| + 11 + 3 * |IndexMessage|
  {
    IndexGuardWith(b, IndexMessage)
  }

  /** The index guard with its message as a parameter. */
  function IndexGuardWith(b: Buf, msg: string): (r: Buf)
    ensures r.pc == b.pc + 18 + Len(PrintStringCode(msg))
    ensures |r.instrs| == |b.instrs| + 11 + 3 * |msg|
  {
    TrapWith(PrintString(IndexChecks(b), msg), 1)
  }

  /** The bound checks and the return path of the index guard, with both
      failing jumps patched to the address that follows them. */
  function IndexChecks(b: Buf): (r: Buf)
    ensures r.pc == b.pc + 16 && |r.instrs| == |b.instrs| + 10
  {
    var b3 := IndexTest(b);
    var indexOverflow := |b.instrs| + 4;
    var indexUnderflow := |b3.instrs| - 1;
    var b4 := MethodFinalCode(b3);
    Patch(Patch(b4, indexOverflow), indexUnderflow)
  }

  /** The two bound checks that open the index guard; the overflow check's
      jump is the fifth instruction. */
  function IndexTest(b: Buf): (r: Buf)
    ensures r.pc == b.pc + 14
    ensures r.instrs == b.instrs + [Enter(2, 2), Load(0), ArrayLength, Load(1), Jcc(Le, 0), Load(1), Const(0), Jcc(Lt, 0)]
    ensures r.addrs == b.addrs + [b.pc, b.pc + 3, b.pc + 4, b.pc + 5, b.pc + 6, b.pc + 9, b.pc + 10, b.pc + 11]
  {
    var b1 := MethodInitialCode(b, 2, 0);
    var b2 := Emit(Emit(Emit(Emit(b1, Load(0)), ArrayLength), Load(1)), Jcc(Inverse(Gt), 0));
    Emit(Emit(Emit(b2, Load(1)), Const(0)), Jcc(Inverse(Ge), 0))
  }

  lemma IndexGuardLayout(b: Buf, msg: string)
    ensures IndexGuardWith(b, msg).instrs == b.instrs + IndexGuardCode(b.pc, msg)
  {
    var p := b.instrs;
    var h := IndexChecksCode(b.pc);
    IndexChecksLayout(b);
    AppendAssoc(p, h, PrintStringCode(msg));
    EmitOnto(p, h + PrintStringCode(msg), PrintString(IndexChecks(b), msg), Trap(1));
  }

  function IndexChecksCode(base: int): seq<Instr>
  {
    [Enter(2, 2), Load(0), ArrayLength, Load(1), Jcc(Le, base + 16),
     Load(1), Const(0), Jcc(Lt, base + 16), Exit, Return]
  }

  lemma IndexChecksLayout(b: Buf)
    ensures IndexChecks(b).instrs == b.instrs + IndexChecksCode(b.pc)
  {
    var p := b.instrs;
    var h8 := [Enter(2, 2), Load(0), ArrayLength, Load(1), Jcc(Le, 0), Load(1), Const(0), Jcc(Lt, 0)];
    var e := [Exit, Return];
    var b4 := MethodFinalCode(IndexTest(b));
    AppendAssoc(p, h8, e);
    var x := Jcc(Le, b.pc + 16);
    var y := Jcc(Lt, b.pc + 16);
    PatchOnto(p, h8 + e, b4, 4);
    UpdatePrefix(h8, e, 4, x);
    PatchOnto(p, h8[4 := x] + e, Patch(b4, |p| + 4), 7);
    UpdatePrefix(h8[4 := x], e, 7, y);
    IndexChecksPatched(b.pc);
  }

  /** Both failed checks land on the message. */
  lemma IndexGuardLabels(b: Buf, msg: string)
    requires |b.addrs| == |b.instrs|
    ensures var n := |b.instrs|; var r := IndexGuardWith(b, msg);
            && |r.addrs| == n + 11 + 3 * |msg| && r.addrs[n] == b.pc && r.addrs[n + 10] == b.pc + 16
  {
    var b5 := IndexChecks(b);
    var b3 := IndexTest(b);
    assert b5.addrs[|b.instrs|] == b3.addrs[|b.instrs|];
    var b6 := PrintString(b5, msg);
    assert b6.addrs[|b.instrs|] == b6.addrs[..|b5.addrs|][|b.instrs|];
  }

  lemma IndexGuardValid(b: Buf, msg: string)
    requires Valid(b)
    ensures Valid(IndexGuardWith(b, msg))
  {
    var b1 := MethodInitialCode(b, 2, 0);
    MethodInitialCodeValid(b, 2, 0);
    var c1 := Emit(b1, Load(0));
    var c2 := Emit(c1, ArrayLength);
    var c3 := Emit(c2, Load(1));
    var c4 := Emit(c3, Jcc(Inverse(Gt), 0));
    var c5 := Emit(c4, Load(1));
    var c6 := Emit(c5, Const(0));
    EmitValid(b1, Load(0));
    EmitValid(c1, ArrayLength);
    EmitValid(c2, Load(1));
    EmitValid(c3, Jcc(Inverse(Gt), 0));
    EmitValid(c4, Load(1));
    EmitValid(c5, Const(0));
    EmitValid(c6, Jcc(Inverse(Ge), 0));
    var b3 := IndexTest(b);
    MethodFinalCodeValid(b3);
    var b4 := MethodFinalCode(b3);
    PatchValid(b4, |b.instrs| + 4);
    PatchValid(Patch(b4, |b.instrs| + 4), |b3.instrs| - 1);
    PrintStringValid(IndexChecks(b), msg);
    EmitValid(PrintString(IndexChecks(b), msg), Trap(Byte(1)));
  }

  lemma IndexChecksPatched(base: int)
    ensures [Enter(2, 2), Load(0), ArrayLength, Load(1), Jcc(Le, 0), Load(1), Const(0), Jcc(Lt, 0)]
              [4 := Jcc(Le, base + 16)][7 := Jcc(Lt, base + 16)]
            == [Enter(2, 2), Load(0), ArrayLength, Load(1), Jcc(Le, base + 16), Load(1), Const(0), Jcc(Lt, base + 16)]
  {
  }

  // ---------------------------------------------------------------- initCodeGenerator

  /** The six routines `initCodeGenerator` creates. */
  datatype Routine = PrintBoolRoutine | FindAnyRoutine | FindAllRoutine
                   | LengthCheck | AccessCheck | IndexCheck

  /** The order of creation. */
  const CreationOrder: seq<Routine> :=
    [PrintBoolRoutine, FindAnyRoutine, FindAllRoutine, LengthCheck, AccessCheck, IndexCheck]

  /** The texts the three guards print before trapping. */
  datatype Messages = Messages(length: string, access: string, index: string)

  const GuardMessages := Messages(LengthMessage, AccessMessage, IndexMessage)

  /** How many instructions a routine occupies. */
  function RoutineCount(rt: Routine, m: Messages): (c: nat)
    ensures c >= 7
  {
    match rt
    case PrintBoolRoutine => 34
    case FindAnyRoutine => 21
    case FindAllRoutine => 26
    case LengthCheck => 7 + 3 * |m.length|
    case AccessCheck => 7 + 3 * |m.access|
    case IndexCheck => 11 + 3 * |m.index|
  }

  /** A routine's code when its entry address is `base`, jumps resolved. */
  function RoutineCode(rt: Routine, base: int, m: Messages): seq<Instr>
  {
    match rt
    case PrintBoolRoutine => PrintBoolCode(base)
    case FindAnyRoutine => FindAnyCode(base)
    case FindAllRoutine => FindAllCode(base)
    case LengthCheck => GuardCode(base, Lt, m.length, 0)
    case AccessCheck => GuardCode(base, Eq, m.access, 2)
    case IndexCheck => IndexGuardCode(base, m.index)
  }

  /** The `create*` method of each routine, with the guard messages `m`. */
  function Builder(rt: Routine, m: Messages): Buf -> Buf
  {
    match rt
    case PrintBoolRoutine => PrintBool
    case FindAnyRoutine => FindAny
    case FindAllRoutine => FindAll
    case LengthCheck => LengthGuardWith(m)
    case AccessCheck => AccessGuardWith(m)
    case IndexCheck => IndexGuardBuilder(m)
  }

  // The guard builders, each with its message taken from `m`.
  function LengthGuardWith(m: Messages): Buf -> Buf { b => Guard(b, Lt, m.length, 0) }
  function AccessGuardWith(m: Messages): Buf -> Buf { b => Guard(b, Eq, m.access, 2) }
  function IndexGuardBuilder(m: Messages): Buf -> Buf { b => IndexGuardWith(b, m.index) }

  /** One `create*` call. */
  function Create(b: Buf, rt: Routine, m: Messages): (r: Buf)
  {
    Builder(rt, m)(b)
  }

  lemma CreateLayout(b: Buf, rt: Routine, m: Messages)
    ensures Create(b, rt, m).instrs == b.instrs + RoutineCode(rt, b.pc, m)
  {
    match rt
    case PrintBoolRoutine => PrintBoolLayout(b);
    case FindAnyRoutine => FindAnyLayout(b);
    case FindAllRoutine => FindAllLayout(b);
    case LengthCheck => GuardLayout(b, Lt, m.length, 0);
    case AccessCheck => GuardLayout(b, Eq, m.access, 2);
    case IndexCheck => IndexGuardLayout(b, m.index);
  }

  lemma CreateCount(b: Buf, rt: Routine, m: Messages)
    ensures |Create(b, rt, m).instrs| == |b.instrs| + RoutineCount(rt, m)
  {
    match rt
    case PrintBoolRoutine =>
    case FindAnyRoutine =>
    case FindAllRoutine =>
    case LengthCheck =>
    case AccessCheck =>
    case IndexCheck =>
  }

  lemma CreateAdvances(b: Buf, rt: Routine, m: Messages)
    ensures Create(b, rt, m).pc > b.pc
  {
    match rt
    case PrintBoolRoutine =>
    case FindAnyRoutine =>
    case FindAllRoutine =>
    case LengthCheck =>
    case AccessCheck =>
    case IndexCheck =>
  }

  lemma CreateValid(b: Buf, rt: Routine, m: Messages)
    requires Valid(b)
    ensures Valid(Create(b, rt, m))
  {
    match rt
    case PrintBoolRoutine => PrintBoolValid(b);
    case FindAnyRoutine => FindAnyValid(b);
    case FindAllRoutine => FindAllValid(b);
    case LengthCheck => GuardValid(b, Lt, m.length, 0);
    case AccessCheck => GuardValid(b, Eq, m.access, 2);
    case IndexCheck => IndexGuardValid(b, m.index);
  }

  /** Instructions the routines `rts` occupy together. */
  function Offset(rts: seq<Routine>, m: Messages): nat
    decreases |rts|
  {
    if |rts| == 0 then 0 else Offset(rts[..|rts| - 1], m) + RoutineCount(rts[|rts| - 1], m)
  }

  /** The routines `rts` created one after the other. */
  function CreateAll(b: Buf, rts: seq<Routine>, m: Messages): (r: Buf)
    ensures |r.instrs| == |b.instrs| + Offset(rts, m) && r.pc >= b.pc
    decreases |rts|
  {
    if |rts| == 0 then b
    else
      var x := CreateAll(b, rts[..|rts| - 1], m);
      CreateCount(x, rts[|rts| - 1], m);
      CreateAdvances(x, rts[|rts| - 1], m);
      Create(x, rts[|rts| - 1], m)
  }

  /** The pc at the start of each routine, which is what every `create*`
      records as the routine's address. */
  function Entries(b: Buf, rts: seq<Routine>, m: Messages): (e: seq<int>)
    ensures |e| == |rts|
  {
    seq(|rts|, k requires 0 <= k < |rts| => CreateAll(b, rts[..k], m).pc)
  }

  /** Creating one more routine moves the pc forward. */
  lemma CreateAllLast(b: Buf, rts: seq<Routine>, m: Messages)
    requires |rts| > 0
    ensures CreateAll(b, rts, m).pc > CreateAll(b, rts[..|rts| - 1], m).pc
  {
    CreateAdvances(CreateAll(b, rts[..|rts| - 1], m), rts[|rts| - 1], m);
  }

  /** Creating the `k`-th routine of `rts` moves the pc forward. */
  lemma CreateAllPrefixStep(b: Buf, rts: seq<Routine>, m: Messages, k: int)
    requires 0 < k <= |rts|
    ensures CreateAll(b, rts[..k - 1], m).pc < CreateAll(b, rts[..k], m).pc
  {
    CreateAllLast(b, rts[..k], m);
    assert rts[..k][..k - 1] == rts[..k - 1];
  }

  lemma CreateAllAdvances(b: Buf, rts: seq<Routine>, m: Messages, i: int, j: int)
    requires 0 <= i < j <= |rts|
    ensures CreateAll(b, rts[..i], m).pc < CreateAll(b, rts[..j], m).pc
  {
    var e := seq(|rts| + 1, k requires 0 <= k <= |rts| => CreateAll(b, rts[..k], m).pc);
    forall k | 0 < k < |e|
      ensures e[k - 1] < e[k]
    {
      CreateAllPrefixStep(b, rts, m, k);
    }
    StepwiseIncreasing(e, i, j);
  }

  /** A sequence that grows at every step grows between any two positions. */
  lemma {:induction false} StepwiseIncreasing(e: seq<int>, i: int, j: int)
    requires forall k :: 0 < k < |e| ==> e[k - 1] < e[k]
    requires 0 <= i < j < |e|
    ensures e[i] < e[j]
    decreases j - i
  {
    if i < j - 1 {
      StepwiseIncreasing(e, i, j - 1);
    }
  }

  /** The recorded addresses strictly increase in the order of creation, start
      at the pc `initCodeGenerator` was called with, and end below the pc it
      leaves behind. */
  lemma EntriesIncrease(b: Buf, rts: seq<Routine>, m: Messages)
    ensures var e := Entries(b, rts, m);
            && (forall i, j :: 0 <= i < j < |e| ==> e[i] < e[j])
            && (forall i :: 0 <= i < |e| ==> e[i] < CreateAll(b, rts, m).pc)
            && (|e| > 0 ==> e[0] == b.pc)
  {
    var e := Entries(b, rts, m);
    forall i, j | 0 <= i < j < |e|
      ensures e[i] < e[j]
    {
      CreateAllAdvances(b, rts, m, i, j);
    }
    forall i | 0 <= i < |e|
      ensures e[i] < CreateAll(b, rts, m).pc
    {
      CreateAllAdvances(b, rts, m, i, |rts|);
      assert rts[..|rts|] == rts;
    }
  }

  /** The routines created so far stay as they are while more are created. */
  lemma CreateAllLastKeeps(b: Buf, rts: seq<Routine>, m: Messages)
    requires |rts| > 0
    ensures var x := CreateAll(b, rts[..|rts| - 1], m).instrs;
            CreateAll(b, rts, m).instrs[..|x|] == x
  {
    CreateLayout(CreateAll(b, rts[..|rts| - 1], m), rts[|rts| - 1], m);
  }

  lemma CreateAllKeeps(b: Buf, rts: seq<Routine>, m: Messages, j: int)
    requires 0 <= j <= |rts|
    ensures var x := CreateAll(b, rts[..j], m).instrs;
            |x| <= |CreateAll(b, rts, m).instrs| && CreateAll(b, rts, m).instrs[..|x|] == x
  {
    var e := seq(|rts| + 1, k requires 0 <= k <= |rts| => CreateAll(b, rts[..k], m).instrs);
    forall k | 0 < k < |e|
      ensures |e[k - 1]| <= |e[k]| && e[k][..|e[k - 1]|] == e[k - 1]
    {
      CreateAllLastKeeps(b, rts[..k], m);
      assert rts[..k][..k - 1] == rts[..k - 1];
    }
    PrefixChain(e, j, |rts|);
    assert rts[..|rts|] == rts;
  }

  /** A sequence of sequences each extending the one before: every later one
      extends every earlier one. */
  lemma {:induction false} PrefixChain<T>(e: seq<seq<T>>, i: int, j: int)
    requires forall k :: 0 < k < |e| ==> |e[k - 1]| <= |e[k]| && e[k][..|e[k - 1]|] == e[k - 1]
    requires 0 <= i <= j < |e|
    ensures |e[i]| <= |e[j]| && e[j][..|e[i]|] == e[i]
    decreases j - i
  {
    if i < j {
      PrefixChain(e, i, j - 1);
      PrefixOfPrefix(e[i], e[j - 1], e[j]);
    }
  }

  lemma PrefixOfPrefix<T>(x: seq<T>, y: seq<T>, z: seq<T>)
    requires |x| <= |y| <= |z| && y[..|x|] == x && z[..|y|] == y
    ensures z[..|x|] == x
  {
    assert z[..|x|] == z[..|y|][..|x|];
  }

  lemma {:induction false} CreateAllValid(b: Buf, rts: seq<Routine>, m: Messages)
    requires Valid(b)
    ensures Valid(CreateAll(b, rts, m))
    decreases |rts|
  {
    if |rts| > 0 {
      CreateAllValid(b, rts[..|rts| - 1], m);
      CreateValid(CreateAll(b, rts[..|rts| - 1], m), rts[|rts| - 1], m);
    }
  }

  lemma EntryAt(b: Buf, r: Buf)
    requires Valid(b) && Valid(r) && |b.instrs| < |r.instrs| && r.instrs[..|b.instrs|] == b.instrs
    ensures r.addrs[|b.instrs|] == b.pc
  {
    ValidGrow(b, r, r.instrs[|b.instrs|..]);
  }

  /** `initCodeGenerator`: the buffer after the six routines, and the six
      recorded addresses. */
  function InitCodeGenerator(b: Buf): (r: (Buf, RuntimeAddrs))
  {
    InitCodeGeneratorWith(b, GuardMessages)
  }

  /** `initCodeGenerator` with the three guard messages taken from `m`; the
      proofs about where the routines land hold for any messages. */
  function InitCodeGeneratorWith(b: Buf, m: Messages): (r: (Buf, RuntimeAddrs))
  {
    var e := Entries(b, CreationOrder, m);
    (CreateAll(b, CreationOrder, m), RuntimeAddrs(e[0], e[1], e[2], e[3], e[4], e[5]))
  }

  /** The entry addresses `initCodeGenerator` records, one field per routine. */
  datatype RuntimeAddrs = RuntimeAddrs(printBool: int, findAny: int, findAll: int,
                                       lengthCheck: int, accessCheck: int, indexCheck: int)

  /** The six recorded addresses in the order of creation: printBool first at
      the pc `initCodeGenerator` starts from, the index guard last, all below
      the pc it leaves. */
  lemma InitCodeGeneratorOrder(b: Buf)
    ensures var (r, a) := InitCodeGenerator(b);
            && b.pc == a.printBool < a.findAny < a.findAll < a.lengthCheck
            && a.lengthCheck < a.accessCheck < a.indexCheck < r.pc
  {
    EntriesIncrease(b, CreationOrder, GuardMessages);
  }

  lemma InitCodeGeneratorValid(b: Buf)
    requires Valid(b)
    ensures Valid(InitCodeGenerator(b).0)
  {
    CreateAllValid(b, CreationOrder, GuardMessages);
  }
}

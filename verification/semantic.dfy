/** The semantic analyzer: one pure rule per visited construct, over a scope
    stack and the annotations the construct's children already carry, plus the
    analyzer's cross-cutting state threaded as a record value. */
module Semantic {
  import opened Types

  /** One scope of the symbol table. */
  type Scope = map<string, Sym>

  /** A rule's outcome: the annotation it computes and how many times it called
      `report_error`. */
  datatype Checked<T> = Checked(val: T, errs: nat)

  /** A pending `name = literal` pair of a constant declaration. */
  datatype ConstAssignment = ConstAssignment(name: string, lit: Literal)

  /** A pending declared variable name, with or without `[]`. */
  datatype VarName = VarName(name: string, isArray: bool)

  /** The analyzer's state. Scopes are listed outermost first; the last one is
      the current scope. `errors` counts calls of `report_error`. */
  datatype Analyzer = Analyzer(
    scopes: seq<Scope>,
    currentMethod: Option<Sym>,
    pendingConsts: seq<ConstAssignment>,
    pendingVars: seq<VarName>,
    lastVar: Option<VarName>,
    mainFound: bool,
    returnFound: bool,
    errors: nat,
    numberOfVariables: nat)

  // ---------------------------------------------------------------- scopes

  /** `Tab.find`: the entry for `name` in the innermost scope that holds it. */
  function Find(scopes: seq<Scope>, name: string): (r: Option<Sym>)
    ensures r.Some? <==> exists i :: 0 <= i < |scopes| && name in scopes[i]
    ensures r.Some? ==> exists i :: 0 <= i < |scopes| && name in scopes[i] && r.value == scopes[i][name] &&
                                     forall j :: i < j < |scopes| ==> name !in scopes[j]
    decreases |scopes|
  {
    if |scopes| == 0 then None
    else if name in scopes[|scopes| - 1] then Some(scopes[|scopes| - 1][name])
    else Find(scopes[..|scopes| - 1], name)
  }

  /** `Tab.currentScope().findSymbol(name) != null`. */
  predicate InCurrent(scopes: seq<Scope>, name: string)
  {
    |scopes| > 0 && name in scopes[|scopes| - 1]
  }

  /** `Tab.insert`: add `s` to the current scope. */
  function Insert(scopes: seq<Scope>, s: Sym): (r: seq<Scope>)
    requires |scopes| > 0
    ensures |r| == |scopes| && r[..|r| - 1] == scopes[..|scopes| - 1]
    ensures InCurrent(r, s.name)
    ensures Find(r, s.name) == Some(s)
    ensures forall n :: n != s.name ==> Find(r, n) == Find(scopes, n)
  {
    var last := scopes[|scopes| - 1];
    var r := scopes[..|scopes| - 1] + [last[s.name := s]];
    assert r[..|r| - 1] == scopes[..|scopes| - 1];
    r
  }

  /** The number of variables held by a scope (`Scope.getnVars`). */
  function VarCount(scope: Scope): nat
  {
    |set n | n in scope && scope[n].kind == Var|
  }

  /** The universe scope `Tab.init` fills, plus the `bool` type that
      `CommonUtils.initSymbolTable` adds: the type names `int`, `char` and
      `bool`, the constants `eol` (character 10) and `null`, and the one-argument
      methods `chr`, `ord` and `len`. (A method's level is its number of formal
      parameters; its parameter entries are not modelled.) */
  function Universe(): (u: Scope)
    ensures u.Keys == {"int", "char", "bool", "eol", "null", "chr", "ord", "len"}
    ensures forall n :: n in u ==> u[n].name == n
    ensures u["int"].kind == TypeName && u["int"].typ == Int
    ensures u["char"].kind == TypeName && u["char"].typ == Char
    ensures u["bool"].kind == TypeName && u["bool"].typ == Bool
    ensures u["eol"].kind == Con && u["eol"].typ == Char && u["eol"].adr == 10
    ensures u["null"].kind == Con && u["null"].typ == Class && u["null"].adr == 0
    ensures u["chr"].kind == Meth && u["chr"].typ == Char && u["chr"].level == 1
    ensures u["ord"].kind == Meth && u["ord"].typ == Int && u["ord"].level == 1
    ensures u["len"].kind == Meth && u["len"].typ == Int && u["len"].level == 1
  {
    map["int" := Sym(TypeName, "int", Int, 0, -1),
        "char" := Sym(TypeName, "char", Char, 0, -1),
        "bool" := Sym(TypeName, "bool", Bool, 0, -1),
        "eol" := Sym(Con, "eol", Char, 10, 0),
        "null" := Sym(Con, "null", Class, 0, 0),
        "chr" := Sym(Meth, "chr", Char, 0, 1),
        "ord" := Sym(Meth, "ord", Int, 0, 1),
        "len" := Sym(Meth, "len", Int, 0, 1)]
  }

  /** A freshly constructed analyzer. */
  function Initial(): (a: Analyzer)
    ensures |a.scopes| == 1 && a.scopes[0] == Universe()
    ensures a.errors == 0 && !a.mainFound && !a.returnFound
    ensures a.currentMethod == None && a.pendingConsts == [] && a.pendingVars == [] && a.lastVar == None
  {
    Analyzer([Universe()], None, [], [], None, false, false, 0, 0)
  }

  /** `report_error`: one more error. */
  function Report(a: Analyzer): Analyzer
  {
    a.(errors := a.errors + 1)
  }

  /** `semanticAnalysisPassed`. */
  predicate Passed(a: Analyzer)
  {
    a.errors == 0
  }

  // ---------------------------------------------------------------- program

  /** The entry `visit(ProgName)` inserts for the program. */
  function ProgSym(scopes: seq<Scope>, name: string): Sym
  {
    Sym(Prog, name, NoType, 0, |scopes| - 2)
  }

  /** `visit(ProgName)`: insert the program entry and open the program scope.
      No redeclaration is checked, and `Tab.insert` hands back the entry the
      current scope already holds under that name instead of replacing it, so
      a program named after a predeclared name leaves that entry in place. */
  function ProgName(a: Analyzer, name: string): (r: Analyzer)
    requires |a.scopes| > 0
    ensures |r.scopes| == |a.scopes| + 1 && r.scopes[|a.scopes|] == map[]
    ensures InCurrent(a.scopes, name) ==> r.scopes[..|a.scopes|] == a.scopes
    ensures forall n :: Find(r.scopes, n) ==
              if n == name && !InCurrent(a.scopes, name) then Some(ProgSym(a.scopes, name)) else Find(a.scopes, n)
    ensures r.errors == a.errors
  {
    var s := if InCurrent(a.scopes, name) then a.scopes else Insert(a.scopes, ProgSym(a.scopes, name));
    assert (s + [map[]])[..|s|] == s;
    a.(scopes := s + [map[]])
  }

  /** `visit(Program)`: report a missing `void main`, record the number of global
      variables and close the program scope. */
  function ProgramEnd(a: Analyzer): (r: Analyzer)
    requires |a.scopes| > 0
    ensures r.errors == a.errors + 1 <==> !a.mainFound
    ensures r.errors == a.errors <==> a.mainFound
    ensures r.numberOfVariables == VarCount(a.scopes[|a.scopes| - 1])
    ensures r.scopes == a.scopes[..|a.scopes| - 1]
  {
    var b := if !a.mainFound then Report(a) else a;
    b.(numberOfVariables := VarCount(a.scopes[|a.scopes| - 1]), scopes := a.scopes[..|a.scopes| - 1])
  }

  // ---------------------------------------------------------------- constants

  /** One `name = literal` of a constant declaration with declared type `t`:
      rejected when the name is visible in ANY scope or the literal's type is
      not assignable to `t`; otherwise a constant holding the literal's integer
      encoding is inserted. */
  function DeclareConst(a: Analyzer, t: Type, c: ConstAssignment, rels: Rels): (r: Analyzer)
    requires |a.scopes| > 0
    ensures Find(a.scopes, c.name).Some? ==> r == Report(a)
    ensures !rels.assignable(LiteralType(c.lit), t) ==> r == Report(a)
    ensures Find(a.scopes, c.name).None? && rels.assignable(LiteralType(c.lit), t) ==>
              && r.errors == a.errors
              && Find(r.scopes, c.name) == Some(Sym(Con, c.name, t, ConstValue(c.lit), 0))
              && (forall n :: n != c.name ==> Find(r.scopes, n) == Find(a.scopes, n))
    ensures |r.scopes| == |a.scopes| && r.pendingConsts == a.pendingConsts
  {
    if Find(a.scopes, c.name).Some? then Report(a)
    else if !rels.assignable(LiteralType(c.lit), t) then Report(a)
    else a.(scopes := Insert(a.scopes, ConstSym(c.name, t, ConstValue(c.lit))))
  }

  /** The pending constant pairs, processed in order. */
  function DeclareConsts(a: Analyzer, t: Type, cs: seq<ConstAssignment>, rels: Rels): (r: Analyzer)
    requires |a.scopes| > 0
    ensures a.errors <= r.errors <= a.errors + |cs|
    ensures |r.scopes| == |a.scopes| && r.pendingConsts == a.pendingConsts
    ensures r.currentMethod == a.currentMethod && r.mainFound == a.mainFound && r.returnFound == a.returnFound
    decreases |cs|
  {
    if |cs| == 0 then a else DeclareConsts(DeclareConst(a, t, cs[0], rels), t, cs[1..], rels)
  }

  /** `visit(ConstAssignment)`: remember the pair for the enclosing declaration. */
  function ConstAssignmentSeen(a: Analyzer, c: ConstAssignment): (r: Analyzer)
    ensures r.pendingConsts == a.pendingConsts + [c] && r.errors == a.errors && r.scopes == a.scopes
  {
    a.(pendingConsts := a.pendingConsts + [c])
  }

  /** `visit(ConstDecl)`: process every pending pair, then clear the list. */
  function ConstDecl(a: Analyzer, t: Type, rels: Rels): (r: Analyzer)
    requires |a.scopes| > 0
    ensures r.pendingConsts == []
    ensures a.errors <= r.errors <= a.errors + |a.pendingConsts|
    ensures |r.scopes| == |a.scopes| && r.mainFound == a.mainFound
  {
    DeclareConsts(a, t, a.pendingConsts, rels).(pendingConsts := [])
  }

  // ---------------------------------------------------------------- variables

  /** The entry inserted for a declared variable of base type `t`: the next free
      slot of the current scope at the current level. */
  function VarSym(scopes: seq<Scope>, v: VarName, t: Type): (s: Sym)
    requires |scopes| > 0
    ensures s.kind == Var && s.name == v.name
    ensures s.typ == (if v.isArray then Array(t) else t)
  {
    Sym(Var, v.name, if v.isArray then ArrayOf(t) else t, VarCount(scopes[|scopes| - 1]), |scopes| - 2)
  }

  /** `addVarToSymTable`: rejected only when the name is already declared in the
      CURRENT scope, so names of enclosing scopes may be shadowed. */
  function DeclareVar(a: Analyzer, t: Type, v: VarName): (r: Analyzer)
    requires |a.scopes| > 0
    ensures InCurrent(a.scopes, v.name) ==> r == Report(a)
    ensures !InCurrent(a.scopes, v.name) ==>
              && r.errors == a.errors
              && Find(r.scopes, v.name) == Some(VarSym(a.scopes, v, t))
              && (forall n :: n != v.name ==> Find(r.scopes, n) == Find(a.scopes, n))
    ensures |r.scopes| == |a.scopes| && r.scopes[..|r.scopes| - 1] == a.scopes[..|a.scopes| - 1]
    ensures r.pendingVars == a.pendingVars && r.lastVar == a.lastVar && r.currentMethod == a.currentMethod
    ensures r.mainFound == a.mainFound
  {
    if Find(a.scopes, v.name).Some? && InCurrent(a.scopes, v.name) then Report(a)
    else a.(scopes := Insert(a.scopes, VarSym(a.scopes, v, t)))
  }

  /** The declared names of one declaration, processed in order. */
  function DeclareVars(a: Analyzer, t: Type, vs: seq<VarName>): (r: Analyzer)
    requires |a.scopes| > 0
    ensures a.errors <= r.errors <= a.errors + |vs|
    ensures |r.scopes| == |a.scopes| && r.scopes[..|r.scopes| - 1] == a.scopes[..|a.scopes| - 1]
    ensures r.pendingVars == a.pendingVars && r.lastVar == a.lastVar && r.currentMethod == a.currentMethod
    ensures r.mainFound == a.mainFound
    decreases |vs|
  {
    if |vs| == 0 then a else DeclareVars(DeclareVar(a, t, vs[0]), t, vs[1..])
  }

  /** The names a declaration has collected: every `VarDesignatorNoError`, then
      the `LastVarDesignatorNoError`, if any. */
  function PendingNames(a: Analyzer): (vs: seq<VarName>)
    ensures |vs| == |a.pendingVars| + (if a.lastVar.Some? then 1 else 0)
    ensures vs[..|a.pendingVars|] == a.pendingVars
  {
    a.pendingVars + (if a.lastVar.Some? then [a.lastVar.value] else [])
  }

  /** `visit(VarDecl)`: declare every pending name, then clear the pending list. */
  function VarDecl(a: Analyzer, t: Type): (r: Analyzer)
    requires |a.scopes| > 0
    ensures r.pendingVars == [] && r.lastVar == None
    ensures a.errors <= r.errors <= a.errors + |PendingNames(a)|
    ensures |r.scopes| == |a.scopes| && r.scopes[..|r.scopes| - 1] == a.scopes[..|a.scopes| - 1]
    ensures r.mainFound == a.mainFound
  {
    DeclareVars(a, t, PendingNames(a)).(pendingVars := [], lastVar := None)
  }

  /** A name declared in an enclosing scope may be declared again in the current
      one: no error, and afterwards the name resolves to the new variable. */
  lemma ShadowingAllowed(a: Analyzer, t: Type, v: VarName)
    requires |a.scopes| > 1
    requires v.name in a.scopes[0] && v.name !in a.scopes[|a.scopes| - 1]
    ensures DeclareVar(a, t, v).errors == a.errors
    ensures Find(DeclareVar(a, t, v).scopes, v.name).value.kind == Var
  {
  }

  /** Declaring the same fresh name twice in one declaration reports exactly one
      error, and the name resolves to the first declaration. */
  lemma {:induction false} RedeclarationReportedOnce(a: Analyzer, t: Type, v: VarName)
    requires |a.scopes| > 0 && !InCurrent(a.scopes, v.name)
    ensures DeclareVars(a, t, [v, v]).errors == a.errors + 1
    ensures Find(DeclareVars(a, t, [v, v]).scopes, v.name) == Some(VarSym(a.scopes, v, t))
  {
    var a1 := DeclareVar(a, t, v);
    assert InCurrent(a1.scopes, v.name);
    var a2 := DeclareVar(a1, t, v);
    assert DeclareVars(a, t, [v, v]) == DeclareVars(a1, t, [v]);
    assert DeclareVars(a1, t, [v]) == DeclareVars(a2, t, []);
  }

  /** When the current scope lacks `name`, lookup continues in the enclosing ones. */
  lemma FindSkipsLast(scopes: seq<Scope>, name: string)
    requires |scopes| > 0 && name !in scopes[|scopes| - 1]
    ensures Find(scopes, name) == Find(scopes[..|scopes| - 1], name)
  {
  }

  // ---------------------------------------------------------------- types

  /** `visit(Type)`: a type name resolves only to an entry of kind Type. */
  function ResolveType(scopes: seq<Scope>, name: string): (r: Checked<Type>)
    ensures r.errs == 0 <==> Find(scopes, name).Some? && Find(scopes, name).value.kind == TypeName
    ensures r.errs == 0 ==> r.val == Find(scopes, name).value.typ
    ensures r.errs != 0 ==> r.errs == 1 && r.val == NoType
  {
    match Find(scopes, name)
    case None => Checked(NoType, 1)
    case Some(s) => if s.kind == TypeName then Checked(s.typ, 0) else Checked(NoType, 1)
  }

  // ---------------------------------------------------------------- methods

  /** The method entry inserted for a new method (its address is set by the
      code generator). */
  function MethodSym(scopes: seq<Scope>, name: string, ret: Option<Type>): Sym
  {
    Sym(Meth, name, if ret.Some? then ret.value else NoType, 0, |scopes| - 2)
  }

  /** `visit(MethodTypeName)`: a name already in the current scope is reported
      and the method becomes `noObj`; in both cases a scope is opened. */
  function MethodEnter(a: Analyzer, name: string, ret: Option<Type>): (r: Analyzer)
    requires |a.scopes| > 0
    ensures |r.scopes| == |a.scopes| + 1 && r.scopes[|a.scopes|] == map[]
    ensures InCurrent(a.scopes, name) ==>
              r.errors == a.errors + 1 && r.currentMethod == Some(NoObj) && r.scopes[..|a.scopes|] == a.scopes
    ensures !InCurrent(a.scopes, name) ==>
              && r.errors == a.errors
              && r.currentMethod == Some(MethodSym(a.scopes, name, ret))
              && r.currentMethod.value.typ == (if ret.Some? then ret.value else NoType)
              && Find(r.scopes[..|a.scopes|], name) == r.currentMethod
    ensures r.returnFound == a.returnFound && r.mainFound == a.mainFound
  {
    if Find(a.scopes, name).Some? && InCurrent(a.scopes, name) then
      Report(a).(currentMethod := Some(NoObj), scopes := a.scopes + [map[]])
    else
      var m := MethodSym(a.scopes, name, ret);
      var s := Insert(a.scopes, m);
      assert (s + [map[]])[..|a.scopes|] == s;
      a.(currentMethod := Some(m), scopes := s + [map[]])
  }

  /** A void method named exactly "main" (case-sensitive). */
  predicate IsVoidMain(m: Option<Sym>)
  {
    m.Some? && m.value.typ == NoType && m.value.name == "main"
  }

  /** `visit(MethodDecl)`: a non-void method without a return is reported; a void
      "main" is recorded; the method scope is closed and the per-method state
      reset. */
  function MethodExit(a: Analyzer): (r: Analyzer)
    requires a.currentMethod.Some? && |a.scopes| > 0
    ensures r.errors == a.errors + 1 <==> !a.returnFound && a.currentMethod.value.typ != NoType
    ensures r.errors == a.errors <==> a.returnFound || a.currentMethod.value.typ == NoType
    ensures r.mainFound <==> a.mainFound || IsVoidMain(a.currentMethod)
    ensures r.currentMethod == None && !r.returnFound
    ensures r.scopes == a.scopes[..|a.scopes| - 1]
  {
    var m := a.currentMethod.value;
    var b := if !a.returnFound && m.typ != NoType then Report(a) else a;
    b.(mainFound := a.mainFound || (m.typ == NoType && m.name == "main"),
       scopes := a.scopes[..|a.scopes| - 1], currentMethod := None, returnFound := false)
  }

  // ---------------------------------------------------------------- statements

  /** `visit(StatementReturn)`: a value in a void method, no value in a non-void
      method, or a value incompatible with the return type is reported. */
  function ReturnStmt(a: Analyzer, e: Option<Type>, rels: Rels): (r: Analyzer)
    requires a.currentMethod.Some?
    ensures r.returnFound
    ensures var t := a.currentMethod.value.typ;
            r.errors == a.errors + 1 <==>
              (t == NoType && e.Some?) || (t != NoType && e.None?) ||
              (t != NoType && e.Some? && !rels.compatible(t, e.value))
    ensures r.errors <= a.errors + 1 && r.errors >= a.errors
    ensures r.scopes == a.scopes && r.currentMethod == a.currentMethod
  {
    var t := a.currentMethod.value.typ;
    var b := a.(returnFound := true);
    if t == NoType && e.Some? then Report(b)
    else if t != NoType && e.None? then Report(b)
    else if t != NoType && !rels.compatible(t, e.value) then Report(b)
    else b
  }

  /** `visit(StatementPrint)`: the argument must be int, char or bool. */
  function PrintErrors(t: Type): (r: nat)
    ensures r == 0 <==> t == Int || t == Char || t == Bool
    ensures r <= 1
  {
    if IsScalar(t) then 0 else 1
  }

  /** `visit(StatementRead)`: the target must be a variable or array element
      (one report), of type int, char or bool (another report). */
  function ReadErrors(s: Sym): (r: nat)
    ensures r == 0 <==> (s.kind == Var || s.kind == Elem) && IsScalar(s.typ)
    ensures r == 2 <==> !(s.kind == Var || s.kind == Elem) && !IsScalar(s.typ)
  {
    (if IsLocation(s) then 0 else 1) + (if IsScalar(s.typ) then 0 else 1)
  }

  /** `visit(DesignatorInc)` and `visit(DesignatorDec)`: the target must be a
      variable or array element (one report) of type int (another report). */
  function IncDecErrors(s: Sym): (r: nat)
    ensures r == 0 <==> (s.kind == Var || s.kind == Elem) && s.typ == Int
    ensures r == 2 <==> !(s.kind == Var || s.kind == Elem) && s.typ != Int
  {
    (if IsLocation(s) then 0 else 1) + (if s.typ == Int then 0 else 1)
  }

  /** `visit(Assignment)`: the target must be a variable or array element and
      the right-hand side's type assignable to the target's type. */
  function AssignErrors(s: Sym, rhs: Type, rels: Rels): (r: nat)
    ensures r == 0 <==> (s.kind == Var || s.kind == Elem) && rels.assignable(rhs, s.typ)
    ensures r <= 2
  {
    (if IsLocation(s) then 0 else 1) + (if rels.assignable(rhs, s.typ) then 0 else 1)
  }

  /** `visit(AssignmentValueFindAny)` (all = false) and
      `visit(AssignmentValueFindAll)` (all = true): the target must be an array
      and the value compatible with its element type; the result is typed Bool
      (findAny) or Int (findAll) even when an error is reported. */
  function FindType(target: Sym, value: Type, all: bool, rels: Rels): (r: Checked<Type>)
    ensures r.val == (if all then Int else Bool)
    ensures r.errs == 0 <==> target.typ.Array? && rels.compatible(value, target.typ.elem)
    ensures r.errs <= 1
  {
    var t := if all then Int else Bool;
    if !target.typ.Array? then Checked(t, 1)
    else if !rels.compatible(value, target.typ.elem) then Checked(t, 1)
    else Checked(t, 0)
  }

  /** `visit(Designator)`: an undeclared name, indexing a non-array, or an index
      that is not int is reported and yields `noObj`; an indexed array yields a
      fresh element entry of the element type, which is not inserted. */
  function Designator(scopes: seq<Scope>, name: string, index: Option<Type>): (r: Checked<Sym>)
    ensures r.errs == 0 <==>
              Find(scopes, name).Some? &&
              (index.None? || (Find(scopes, name).value.typ.Array? && index.value == Int))
    ensures r.errs != 0 ==> r.errs == 1 && r.val == NoObj
    ensures r.errs == 0 && index.None? ==> r.val == Find(scopes, name).value
    ensures r.errs == 0 && index.Some? ==>
              r.val.kind == Elem && r.val.name == name && r.val.typ == Find(scopes, name).value.typ.elem
  {
    match Find(scopes, name)
    case None => Checked(NoObj, 1)
    case Some(s) =>
      if index.None? then Checked(s, 0)
      else if !s.typ.Array? then Checked(NoObj, 1)
      else if index.value != Int then Checked(NoObj, 1)
      else Checked(Sym(Elem, name, s.typ.elem, 0, 0), 0)
  }

  // ---------------------------------------------------------------- expressions

  /** `visit(ExprAddOp)` and `visit(TermMulOp)`: both operands must be int. */
  function ArithType(left: Type, right: Type): (r: Checked<Type>)
    ensures r.errs == 0 <==> left == Int && right == Int
    ensures r.errs == 0 ==> r.val == Int
    ensures r.errs != 0 ==> r.errs == 1 && r.val == NoType
  {
    if right == left && right == Int then Checked(right, 0) else Checked(NoType, 1)
  }

  /** `visit(ExprTermNegative)`: the operand must be int. */
  function NegType(t: Type): (r: Checked<Type>)
    ensures r.errs == 0 <==> t == Int
    ensures r.errs == 0 ==> r.val == Int
    ensures r.errs != 0 ==> r.errs == 1 && r.val == NoType
  {
    if t == Int then Checked(t, 0) else Checked(NoType, 1)
  }

  /** `visit(FactorNewArray)`: `new T[e]` is an array of T when e is int. */
  function NewArrayType(elem: Type, size: Type): (r: Checked<Type>)
    ensures r.errs == 0 <==> size == Int
    ensures r.errs == 0 ==> r.val == Array(elem)
    ensures r.errs != 0 ==> r.errs == 1 && r.val == NoType
  {
    if size != Int then Checked(NoType, 1) else Checked(ArrayOf(elem), 0)
  }

  // ---------------------------------------------------------------- predeclared names

  /** A name of the universe scope that no inner scope redeclares resolves,
      without error, to its predeclared entry: `print(eol)` needs no
      declaration of `eol`. */
  lemma {:induction false} PredeclaredResolves(scopes: seq<Scope>, name: string)
    requires |scopes| > 0 && scopes[0] == Universe() && name in Universe()
    requires forall i :: 0 < i < |scopes| ==> name !in scopes[i]
    ensures Designator(scopes, name, None) == Checked(Universe()[name], 0)
  {
    var i :| 0 <= i < |scopes| && name in scopes[i] && Find(scopes, name).value == scopes[i][name] &&
              forall j :: i < j < |scopes| ==> name !in scopes[j];
    assert i == 0;
  }

  /** A constant may not reuse a predeclared name: `const char eol = 'x';`
      is reported and changes nothing, in whatever scope it appears. */
  lemma PredeclaredConstReported(a: Analyzer, t: Type, c: ConstAssignment, rels: Rels)
    requires |a.scopes| > 0 && a.scopes[0] == Universe() && c.name in Universe()
    ensures DeclareConst(a, t, c, rels) == Report(a)
  {
    assert c.name in a.scopes[0];
  }

  /** A program named after a predeclared name keeps the predeclared entry:
      after `program len`, `len` is still the predeclared method. */
  lemma ProgNameKeepsPredeclared(name: string)
    requires name in Universe()
    ensures Find(ProgName(Initial(), name).scopes, name) == Some(Universe()[name])
  {
    assert InCurrent(Initial().scopes, name);
  }

  /** `program int` still lets `int` name the type int. */
  lemma ProgNamedInt()
    ensures ResolveType(ProgName(Initial(), "int").scopes, "int") == Checked(Int, 0)
  {
    ProgNameKeepsPredeclared("int");
  }

  /** A program whose name is new resolves to its program entry. */
  lemma ProgNameFresh(name: string)
    requires name !in Universe()
    ensures Find(ProgName(Initial(), name).scopes, name) == Some(ProgSym([Universe()], name))
    ensures Designator(ProgName(Initial(), name).scopes, name, None).errs == 0
  {
  }
}

/** Type descriptors, symbol-table entries and literal constants shared by the
    semantic analyzer and the code generator (the `Struct`/`Obj` concepts of the
    MicroJava symbol table, seen as values). */
module Types {

  datatype Option<+T> = None | Some(value: T)

  /** A type descriptor. `NoType` is the error sentinel and also the type of
      void methods; `Class` is the reference type of the predeclared `null`. */
  datatype Type = Int | Char | Bool | NoType | Array(elem: Type) | Class

  /** The kinds of symbol-table entries the compiler creates or reads. */
  datatype Kind = Con | Var | TypeName | Meth | Prog | Elem

  /** A symbol-table entry: kind, name, type, address (the value for a constant,
      the code address for a method) and nesting level (0 = global). */
  datatype Sym = Sym(kind: Kind, name: string, typ: Type, adr: int, level: int)

  /** The error sentinel symbol (the library's `Tab.noObj`): a variable named
      "noObj" of type `NoType`. */
  const NoObj: Sym := Sym(Var, "noObj", NoType, 0, 0)

  /** A literal constant of the language. */
  datatype Literal = IntLit(i: int) | CharLit(c: char) | BoolLit(b: bool)

  /** `CommonUtils.getArrayType`: the array type whose elements have type `elem`. */
  function ArrayOf(elem: Type): (r: Type)
    ensures r.Array? && r.elem == elem
  {
    Array(elem)
  }

  /** The type a literal node is annotated with. */
  function LiteralType(lit: Literal): (r: Type)
    ensures lit.IntLit? <==> r == Int
    ensures lit.CharLit? <==> r == Char
    ensures lit.BoolLit? <==> r == Bool
  {
    match lit
    case IntLit(_) => Int
    case CharLit(_) => Char
    case BoolLit(_) => Bool
  }

  /** `CommonUtils.getConstValue`: the integer encoding of a literal. */
  function ConstValue(lit: Literal): (r: int)
    ensures lit.IntLit? ==> r == lit.i
    ensures lit.CharLit? ==> r == lit.c as int && 0 <= r
    ensures lit.BoolLit? ==> (r == 1 <==> lit.b) && (r == 0 <==> !lit.b)
  {
    match lit
    case IntLit(i) => i
    case CharLit(c) => c as int
    case BoolLit(b) => if b then 1 else 0
  }

  /** `CommonUtils.addConstToSymTable`: the constant entry for `name` of type
      `t` carrying `value`, at the global level. */
  function ConstSym(name: string, t: Type, value: int): (r: Sym)
    ensures r.kind == Con && r.name == name && r.typ == t
    ensures r.level == 0 && r.adr == value
  {
    Sym(Con, name, t, value, 0)
  }

  /** Printable/readable scalar types: int, char and bool. */
  predicate IsScalar(t: Type)
  {
    t == Int || t == Char || t == Bool
  }

  /** Symbols that denote a storage location (a variable or an array element). */
  predicate IsLocation(s: Sym)
  {
    s.kind == Var || s.kind == Elem
  }

  /** The two type relations the analyzer consults. Their definitions live in the
      symbol-table library, so the model takes them as parameters. */
  datatype Rels = Rels(compatible: (Type, Type) -> bool, assignable: (Type, Type) -> bool)

  /** The relations as the language design describes them: equal types, or one
      of the two is the error sentinel. */
  function DesignRels(): (r: Rels)
    ensures forall t :: r.compatible(t, t) && r.assignable(t, t)
    ensures forall t :: r.compatible(t, NoType) && r.compatible(NoType, t)
    ensures forall t :: r.assignable(t, NoType) && r.assignable(NoType, t)
    ensures forall a, b :: r.compatible(a, b) <==> (a == b || a == NoType || b == NoType)
    ensures forall a, b :: r.assignable(a, b) <==> r.compatible(a, b)
  {
    var c := (a: Type, b: Type) => a == b || a == NoType || b == NoType;
    Rels(c, c)
  }
}

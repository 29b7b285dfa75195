/** The analyzer's bottom-up traversal as a sequence of visit events. Each event
    carries the annotations its children already received; `Step` dispatches it
    to the rule of `Semantic`. */
module AnalysisRun {
  import opened Types
  import opened Semantic

  datatype Event =
    | ProgNameEv(name: string)
    | ProgramEv
    | ConstAssignmentEv(c: ConstAssignment)
    | ConstDeclEv(constType: Type)
    | VarNameEv(v: VarName)
    | LastVarNameEv(v: VarName)
    | VarDeclEv(varType: Type)
    | TypeEv(typeName: string)
    | MethodTypeNameEv(methodName: string, ret: Option<Type>)
    | MethodDeclEv
    | PrintEv(printed: Type)
    | ReturnEv(returned: Option<Type>)
    | ReadEv(readTarget: Sym)
    | IncEv(incTarget: Sym)
    | DecEv(decTarget: Sym)
    | AssignEv(dst: Sym, rhs: Type)
    | FindAnyEv(anyTarget: Sym, anyValue: Type)
    | FindAllEv(allTarget: Sym, allValue: Type)
    | DesignatorEv(desName: string, index: Option<Type>)
    | AddEv(addLeft: Type, addRight: Type)
    | MulEv(mulLeft: Type, mulRight: Type)
    | NegEv(negated: Type)
    | NewArrayEv(elem: Type, size: Type)

  /** Events whose rule needs an open scope or a current method. The parser's
      grammar guarantees these; an event that lacks them would make the Java
      code dereference null, and `Step` leaves the state unchanged instead. */
  predicate Enabled(a: Analyzer, ev: Event)
  {
    match ev
    case ReturnEv(_) => a.currentMethod.Some?
    case MethodDeclEv => a.currentMethod.Some? && |a.scopes| > 0
    case _ => |a.scopes| > 0
  }

  /** One visit. */
  function Step(a: Analyzer, ev: Event, rels: Rels): (r: Analyzer)
    ensures r.errors >= a.errors
    ensures !ev.ProgramEv? && !ev.MethodDeclEv? ==> r.mainFound == a.mainFound
  {
    if !Enabled(a, ev) then a
    else match ev
      case ProgNameEv(n) => ProgName(a, n)
      case ProgramEv => ProgramEnd(a)
      case ConstAssignmentEv(c) => ConstAssignmentSeen(a, c)
      case ConstDeclEv(t) => ConstDecl(a, t, rels)
      case VarNameEv(v) => a.(pendingVars := a.pendingVars + [v])
      case LastVarNameEv(v) => a.(lastVar := Some(v))
      case VarDeclEv(t) => VarDecl(a, t)
      case TypeEv(n) => a.(errors := a.errors + ResolveType(a.scopes, n).errs)
      case MethodTypeNameEv(n, ret) => MethodEnter(a, n, ret)
      case MethodDeclEv => MethodExit(a)
      case PrintEv(t) => a.(errors := a.errors + PrintErrors(t))
      case ReturnEv(e) => ReturnStmt(a, e, rels)
      case ReadEv(s) => a.(errors := a.errors + ReadErrors(s))
      case IncEv(s) => a.(errors := a.errors + IncDecErrors(s))
      case DecEv(s) => a.(errors := a.errors + IncDecErrors(s))
      case AssignEv(s, t) => a.(errors := a.errors + AssignErrors(s, t, rels))
      case FindAnyEv(s, t) => a.(errors := a.errors + FindType(s, t, false, rels).errs)
      case FindAllEv(s, t) => a.(errors := a.errors + FindType(s, t, true, rels).errs)
      case DesignatorEv(n, i) => a.(errors := a.errors + Designator(a.scopes, n, i).errs)
      case AddEv(l, r) => a.(errors := a.errors + ArithType(l, r).errs)
      case MulEv(l, r) => a.(errors := a.errors + ArithType(l, r).errs)
      case NegEv(t) => a.(errors := a.errors + NegType(t).errs)
      case NewArrayEv(e, s) => a.(errors := a.errors + NewArrayType(e, s).errs)
  }

  /** The states the analyzer passes through while visiting `evs` in order:
      `t[k]` is the state before visiting `evs[k]`, the last one the final state. */
  function Trace(a: Analyzer, evs: seq<Event>, rels: Rels): (t: seq<Analyzer>)
    ensures |t| == |evs| + 1 && t[0] == a
    ensures forall k :: 0 <= k < |evs| ==> t[k + 1] == Step(t[k], evs[k], rels)
    decreases |evs|
  {
    if |evs| == 0 then [a]
    else
      var t := Trace(a, evs[..|evs| - 1], rels);
      t + [Step(t[|t| - 1], evs[|evs| - 1], rels)]
  }

  /** The state after visiting `evs` in order. */
  function Run(a: Analyzer, evs: seq<Event>, rels: Rels): (r: Analyzer)
  {
    Trace(a, evs, rels)[|evs|]
  }

  /** Whether visiting `ev` in state `a` called `report_error`. */
  predicate Reports(a: Analyzer, ev: Event, rels: Rels)
  {
    Step(a, ev, rels).errors > a.errors
  }

  /** The error count never decreases along a run. */
  lemma {:induction false} ErrorsGrow(t: seq<Analyzer>, evs: seq<Event>, rels: Rels, i: nat, j: nat)
    requires |t| == |evs| + 1
    requires forall k :: 0 <= k < |evs| ==> t[k + 1] == Step(t[k], evs[k], rels)
    requires i <= j < |t|
    ensures t[i].errors <= t[j].errors
    decreases j - i
  {
    if i < j {
      ErrorsGrow(t, evs, rels, i, j - 1);
      assert t[j] == Step(t[j - 1], evs[j - 1], rels);
    }
  }

  /** Without a report the error count stays where it was. */
  lemma {:induction false} ErrorsStay(t: seq<Analyzer>, evs: seq<Event>, rels: Rels, j: nat)
    requires |t| == |evs| + 1
    requires forall k :: 0 <= k < |evs| ==> t[k + 1] == Step(t[k], evs[k], rels)
    requires forall k :: 0 <= k < |evs| ==> !Reports(t[k], evs[k], rels)
    requires j < |t|
    ensures t[j].errors == t[0].errors
  {
    if j > 0 {
      ErrorsStay(t, evs, rels, j - 1);
      assert t[j] == Step(t[j - 1], evs[j - 1], rels);
    }
  }

  /** `semanticAnalysisPassed()` is false exactly when some visit reported an
      error. */
  lemma PassedIffNoReport(a: Analyzer, evs: seq<Event>, rels: Rels)
    ensures var t := Trace(a, evs, rels);
            Passed(Run(a, evs, rels)) <==>
              Passed(a) && forall k :: 0 <= k < |evs| ==> !Reports(t[k], evs[k], rels)
  {
    var t := Trace(a, evs, rels);
    if forall k :: 0 <= k < |evs| ==> !Reports(t[k], evs[k], rels) {
      ErrorsStay(t, evs, rels, |evs|);
    }
    if Passed(Run(a, evs, rels)) {
      ErrorsGrow(t, evs, rels, 0, |evs|);
      forall k | 0 <= k < |evs|
        ensures !Reports(t[k], evs[k], rels)
      {
        ErrorsGrow(t, evs, rels, k + 1, |evs|);
      }
    }
  }

  /** Visiting `ev` in state `s` closes a void method named exactly "main". */
  predicate ClosesMain(s: Analyzer, ev: Event)
  {
    ev == MethodDeclEv && Enabled(s, ev) && IsVoidMain(s.currentMethod)
  }

  /** A visit sets the main flag only by closing a void method named "main". */
  lemma StepMainFound(s: Analyzer, ev: Event, rels: Rels)
    ensures Step(s, ev, rels).mainFound <==> s.mainFound || ClosesMain(s, ev)
  {
    if ev.ProgramEv? && Enabled(s, ev) {
      assert Step(s, ev, rels) == ProgramEnd(s);
    } else if ev.MethodDeclEv? && Enabled(s, ev) {
      assert Step(s, ev, rels) == MethodExit(s);
    }
  }

  /** Along a run, the main flag is set at state `j` exactly when it was set at
      the start or one of the first `j` visits closed a void "main". */
  lemma {:induction false} MainFoundAt(t: seq<Analyzer>, evs: seq<Event>, rels: Rels, j: nat)
    requires |t| == |evs| + 1
    requires forall k :: 0 <= k < |evs| ==> t[k + 1] == Step(t[k], evs[k], rels)
    requires j < |t|
    ensures t[j].mainFound <==> t[0].mainFound || exists k :: 0 <= k < j && ClosesMain(t[k], evs[k])
  {
    if j > 0 {
      MainFoundAt(t, evs, rels, j - 1);
      assert t[j] == Step(t[j - 1], evs[j - 1], rels);
      StepMainFound(t[j - 1], evs[j - 1], rels);
    }
  }

  /** The end-of-program visit reports a missing main exactly when no void
      "main" was closed during the run that preceded it. */
  lemma MissingMainReported(a: Analyzer, evs: seq<Event>, rels: Rels)
    requires |Run(a, evs, rels).scopes| > 0
    ensures var t := Trace(a, evs, rels);
            var s := Run(a, evs, rels);
            Step(s, ProgramEv, rels).errors == s.errors + 1 <==>
              !a.mainFound && forall k :: 0 <= k < |evs| ==> !ClosesMain(t[k], evs[k])
  {
    var t := Trace(a, evs, rels);
    MainFoundAt(t, evs, rels, |evs|);
    assert Step(Run(a, evs, rels), ProgramEv, rels) == ProgramEnd(Run(a, evs, rels));
  }
}

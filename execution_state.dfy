/**
 * The execution state the small-step evaluator advances: a continuation body (the
 * pending commands, the top one first), the symbolic environment and the set of
 * tainted state variables, whose values are unknown rather than merely symbolic.
 * States are values: an extern handler copies its input state and edits the copy.
 */
module ExecutionStates {
  import opened Wrappers
  import opened Ir

  /** One command of the continuation body. */
  datatype Command =
    | Return(value: Expr)     // return this value to the enclosing evaluation
    | EvalExpr(expr: Expr)    // evaluate this expression (an extern call, say)
    | Stmt(text: string)      // a statement the model does not look into

  /** `env` is the symbolic environment's binding map: the value of the `bindings` field of
      the `SymbolicEnvironment.SymbolicEnv` object the state owns.  The handlers only read
      it, so the state carries the map rather than the object. */
  datatype ExecutionState = ExecutionState(
    body: seq<Command>,
    env: map<StateVar, Expr>,
    taint: set<StateVar>)
  {
    /** `popBody`: drops the top command. */
    function PopBody(): (s: ExecutionState)
      requires |body| > 0
      ensures s.body == body[1..] && s.env == env && s.taint == taint
    {
      this.(body := body[1..])
    }

    /** `replaceTopBody`: the top command becomes `c`. */
    function ReplaceTopBody(c: Command): (s: ExecutionState)
      requires |body| > 0
      ensures |s.body| == |body| && s.body[0] == c && s.body[1..] == body[1..]
      ensures s.env == env && s.taint == taint
    {
      this.(body := [c] + body[1..])
    }

    /** `get`: the symbolic value of a reference; None when the reference is not a state
        variable or is unbound (the source treats that as a BUG). */
    function Get(ref: Expr): (r: Option<Expr>)
      ensures r.Some? <==> RefPath(ref).Some? && RefPath(ref).value in env
      ensures r.Some? ==> r.value == env[RefPath(ref).value]
    {
      match RefPath(ref)
      case Some(p) => if p in env then Some(env[p]) else None
      case None => None
    }

    /** `hasTaint`: the value reads some tainted state variable. */
    predicate HasTaint(e: Expr)
      ensures HasTaint(e) <==> exists x :: x in Vars(e) && x in taint
    {
      assert forall x :: x in Vars(e) && x in taint ==> x in Vars(e) * taint;
      Vars(e) * taint != {}
    }
  }

  /** Two models that agree on the variables in `vs`. */
  ghost predicate AgreeOn(vs: set<StateVar>, m1: Model, m2: Model) {
    forall x :: x in vs ==> (x in m1 <==> x in m2) && (x in m1 ==> m1[x] == m2[x])
  }

  /** An expression's value depends only on the variables it reads. */
  lemma {:induction false} EvalReadsOnlyVars(e: Expr, m1: Model, m2: Model)
    requires AgreeOn(Vars(e), m1, m2)
    ensures Eval(e, m1) == Eval(e, m2)
  {
    match e
    case PathExpr(_, _) =>
    case Member(_, _, _) =>
    case BoolLit(_) =>
    case Constant(_, _) =>
    case Cast(_, x) => EvalReadsOnlyVars(x, m1, m2);
    case Concat(_, l, r) => EvalReadsOnlyVars(l, m1, m2); EvalReadsOnlyVars(r, m1, m2);
    case Slice(x, _, _) => EvalReadsOnlyVars(x, m1, m2);
    case Add(_, l, r) => EvalReadsOnlyVars(l, m1, m2); EvalReadsOnlyVars(r, m1, m2);
    case Cmpl(_, x) => EvalReadsOnlyVars(x, m1, m2);
    case Equ(l, r) => EvalReadsOnlyVars(l, m1, m2); EvalReadsOnlyVars(r, m1, m2);
    case LAnd(l, r) => EvalReadsOnlyVars(l, m1, m2); EvalReadsOnlyVars(r, m1, m2);
    case MethodCall(_, _, _) =>
    case ConcolicVariable(_, _, _) =>
  }

  /** What taint means: a value without taint has the same meaning whatever the tainted
      variables hold. */
  lemma {:induction false} UntaintedIgnoresTaint(s: ExecutionState, e: Expr, m1: Model, m2: Model)
    requires !s.HasTaint(e)
    requires forall x :: x !in s.taint ==> (x in m1 <==> x in m2) && (x in m1 ==> m1[x] == m2[x])
    ensures Eval(e, m1) == Eval(e, m2)
  {
    EvalReadsOnlyVars(e, m1, m2);
  }
}

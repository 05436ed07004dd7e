/**
 * The symbolic environment: a map from state variables to their symbolic value, an
 * expression over the program's initial state.  `set` constant-folds what it stores,
 * `subst` replaces bound variables only, `complete` extends a model to every variable
 * the stored values read, and `evaluate` turns the environment into a concrete model.
 */
module SymbolicEnvironment {
  import opened Wrappers
  import opened Bits
  import opened Ir

  // ---------------------------------------------------------------------------------
  // Constant folding
  // ---------------------------------------------------------------------------------

  /** The bits of a literal constant, reduced to its width. */
  function ConstBits(e: Expr): nat
    requires e.Constant?
  {
    Truncate(e.width, e.value)
  }

  // One folding step per operator, applied to operands that are already folded.

  function FoldCast(w: nat, fx: Expr): Expr {
    if fx.Constant? then Constant(w, Truncate(w, ConstBits(fx))) else Cast(w, fx)
  }

  function FoldConcat(w: nat, fl: Expr, fr: Expr): Expr {
    if fl.Constant? && fr.Constant?
    then Constant(w, Truncate(w, ShiftLeft(ConstBits(fl), fr.width) + ConstBits(fr)))
    else Concat(w, fl, fr)
  }

  function FoldSlice(fx: Expr, hi: nat, lo: nat): Expr {
    if fx.Constant? && lo <= hi
    then Constant(hi - lo + 1, Truncate(hi - lo + 1, ShiftRight(ConstBits(fx), lo)))
    else Slice(fx, hi, lo)
  }

  function FoldAdd(w: nat, fl: Expr, fr: Expr): Expr {
    if fl.Constant? && fr.Constant? then Constant(w, Truncate(w, ConstBits(fl) + ConstBits(fr)))
    else Add(w, fl, fr)
  }

  function FoldCmpl(w: nat, fx: Expr): Expr {
    if fx.Constant? then Constant(w, Complement(w, ConstBits(fx))) else Cmpl(w, fx)
  }

  function FoldEqu(fl: Expr, fr: Expr): Expr {
    if fl.Constant? && fr.Constant? then BoolLit(ConstBits(fl) == ConstBits(fr))
    else if fl.BoolLit? && fr.BoolLit? then BoolLit(fl.boolean == fr.boolean)
    else Equ(fl, fr)
  }

  function FoldLAnd(fl: Expr, fr: Expr): Expr {
    if fl.BoolLit? && fr.BoolLit? then BoolLit(fl.boolean && fr.boolean) else LAnd(fl, fr)
  }

  /** Folds every operator whose operands are literals into a literal, bottom-up. */
  function Fold(e: Expr): Expr {
    match e
    case PathExpr(_, _) => e
    case Member(_, _, _) => e
    case BoolLit(_) => e
    case Constant(_, _) => e
    case Cast(w, x) => FoldCast(w, Fold(x))
    case Concat(w, l, r) => FoldConcat(w, Fold(l), Fold(r))
    case Slice(x, hi, lo) => FoldSlice(Fold(x), hi, lo)
    case Add(w, l, r) => FoldAdd(w, Fold(l), Fold(r))
    case Cmpl(w, x) => FoldCmpl(w, Fold(x))
    case Equ(l, r) => FoldEqu(Fold(l), Fold(r))
    case LAnd(l, r) => FoldLAnd(Fold(l), Fold(r))
    case MethodCall(c, ts, args) => MethodCall(c, ts, FoldArgs(args))
    case ConcolicVariable(n, v, args) => ConcolicVariable(n, v, FoldArgs(args))
  }

  function FoldArg(a: Argument): Argument {
    Argument(a.name, Fold(a.expression))
  }

  function FoldArgs(args: seq<Argument>): (r: seq<Argument>)
    ensures |r| == |args|
  {
    if args == [] then [] else [FoldArg(args[0])] + FoldArgs(args[1..])
  }

  /** Normal form of folding: no operator node is left whose operands are all literals. */
  predicate Folded(e: Expr) {
    match e
    case PathExpr(_, _) => true
    case Member(_, _, _) => true
    case BoolLit(_) => true
    case Constant(_, _) => true
    case Cast(_, x) => Folded(x) && !x.Constant?
    case Concat(_, l, r) => Folded(l) && Folded(r) && !(l.Constant? && r.Constant?)
    case Slice(x, hi, lo) => Folded(x) && !(x.Constant? && lo <= hi)
    case Add(_, l, r) => Folded(l) && Folded(r) && !(l.Constant? && r.Constant?)
    case Cmpl(_, x) => Folded(x) && !x.Constant?
    case Equ(l, r) =>
      Folded(l) && Folded(r) && !(l.Constant? && r.Constant?) && !(l.BoolLit? && r.BoolLit?)
    case LAnd(l, r) => Folded(l) && Folded(r) && !(l.BoolLit? && r.BoolLit?)
    case MethodCall(_, _, args) => ArgsFolded(args)
    case ConcolicVariable(_, _, args) => ArgsFolded(args)
  }

  predicate ArgFolded(a: Argument) {
    Folded(a.expression)
  }

  predicate ArgsFolded(args: seq<Argument>) {
    args == [] || (ArgFolded(args[0]) && ArgsFolded(args[1..]))
  }

  /** Folding never changes what an expression means, under any model. */
  lemma {:induction false} FoldPreservesEval(e: Expr, m: Model)
    ensures Eval(Fold(e), m) == Eval(e, m)
  {
    match e
    case PathExpr(_, _) =>
    case Member(_, _, _) =>
    case BoolLit(_) =>
    case Constant(_, _) =>
    case Cast(w, x) => FoldPreservesEval(x, m); FoldCastSound(w, Fold(x), m);
    case Concat(w, l, r) =>
      FoldPreservesEval(l, m); FoldPreservesEval(r, m); FoldConcatSound(w, Fold(l), Fold(r), m);
    case Slice(x, hi, lo) => FoldPreservesEval(x, m); FoldSliceSound(Fold(x), hi, lo, m);
    case Add(w, l, r) =>
      FoldPreservesEval(l, m); FoldPreservesEval(r, m); FoldAddSound(w, Fold(l), Fold(r), m);
    case Cmpl(w, x) => FoldPreservesEval(x, m); FoldCmplSound(w, Fold(x), m);
    case Equ(l, r) =>
      FoldPreservesEval(l, m); FoldPreservesEval(r, m); FoldEquSound(Fold(l), Fold(r), m);
    case LAnd(l, r) =>
      FoldPreservesEval(l, m); FoldPreservesEval(r, m); FoldLAndSound(Fold(l), Fold(r), m);
    case MethodCall(_, _, _) =>
    case ConcolicVariable(_, _, _) =>
  }

  // Each folding step means what the operator means on its operands' values.  A
  // literal's value is already truncated to its width, so truncating it again changes
  // nothing.

  lemma {:induction false} FoldCastSound(w: nat, fx: Expr, m: Model)
    ensures Eval(FoldCast(w, fx), m) == CastValue(w, Eval(fx, m))
  {
    if fx.Constant? {
      TruncateTwice(w, ConstBits(fx));
    }
  }

  lemma {:induction false} FoldConcatSound(w: nat, fl: Expr, fr: Expr, m: Model)
    ensures Eval(FoldConcat(w, fl, fr), m) == ConcatValue(w, Eval(fl, m), Eval(fr, m))
  {
    if fl.Constant? && fr.Constant? {
      TruncateTwice(w, ShiftLeft(ConstBits(fl), fr.width) + ConstBits(fr));
    }
  }

  lemma {:induction false} FoldSliceSound(fx: Expr, hi: nat, lo: nat, m: Model)
    ensures Eval(FoldSlice(fx, hi, lo), m) == SliceValue(Eval(fx, m), hi, lo)
  {
    if fx.Constant? && lo <= hi {
      TruncateTwice(hi - lo + 1, ShiftRight(ConstBits(fx), lo));
    }
  }

  lemma {:induction false} FoldAddSound(w: nat, fl: Expr, fr: Expr, m: Model)
    ensures Eval(FoldAdd(w, fl, fr), m) == AddValue(w, Eval(fl, m), Eval(fr, m))
  {
    if fl.Constant? && fr.Constant? {
      TruncateTwice(w, ConstBits(fl) + ConstBits(fr));
    }
  }

  lemma {:induction false} FoldCmplSound(w: nat, fx: Expr, m: Model)
    ensures Eval(FoldCmpl(w, fx), m) == CmplValue(w, Eval(fx, m))
  {
    if fx.Constant? {
      ComplementSmall(w, ConstBits(fx));
    }
  }

  lemma {:induction false} FoldEquSound(fl: Expr, fr: Expr, m: Model)
    ensures Eval(FoldEqu(fl, fr), m) == EquValue(Eval(fl, m), Eval(fr, m))
  {
    if fl.Constant? && fr.Constant? {
      assert Eval(fl, m) == Some(BitsVal(fl.width, ConstBits(fl)));
      assert Eval(fr, m) == Some(BitsVal(fr.width, ConstBits(fr)));
    } else if fl.BoolLit? && fr.BoolLit? {
      assert Eval(fl, m) == Some(BoolVal(fl.boolean));
      assert Eval(fr, m) == Some(BoolVal(fr.boolean));
    } else {
      assert FoldEqu(fl, fr) == Equ(fl, fr);
      assert Eval(Equ(fl, fr), m) == EquValue(Eval(fl, m), Eval(fr, m));
    }
  }

  lemma {:induction false} FoldLAndSound(fl: Expr, fr: Expr, m: Model)
    ensures Eval(FoldLAnd(fl, fr), m) == LAndValue(Eval(fl, m), Eval(fr, m))
  {
    if fl.BoolLit? && fr.BoolLit? {
      assert Eval(fl, m) == Some(BoolVal(fl.boolean));
      assert Eval(fr, m) == Some(BoolVal(fr.boolean));
    } else {
      assert FoldLAnd(fl, fr) == LAnd(fl, fr);
    }
  }

  /** Folding reaches its normal form in one pass. */
  lemma {:induction false} FoldIsFolded(e: Expr)
    ensures Folded(Fold(e))
  {
    match e
    case PathExpr(_, _) =>
    case Member(_, _, _) =>
    case BoolLit(_) =>
    case Constant(_, _) =>
    case Cast(_, x) => FoldIsFolded(x);
    case Concat(_, l, r) => FoldIsFolded(l); FoldIsFolded(r);
    case Slice(x, _, _) => FoldIsFolded(x);
    case Add(_, l, r) => FoldIsFolded(l); FoldIsFolded(r);
    case Cmpl(_, x) => FoldIsFolded(x);
    case Equ(l, r) => FoldIsFolded(l); FoldIsFolded(r);
    case LAnd(l, r) => FoldIsFolded(l); FoldIsFolded(r);
    case MethodCall(_, _, args) => FoldArgsAreFolded(args);
    case ConcolicVariable(_, _, args) => FoldArgsAreFolded(args);
  }

  lemma {:induction false} FoldArgIsFolded(a: Argument)
    ensures ArgFolded(FoldArg(a))
  {
    FoldIsFolded(a.expression);
  }

  lemma {:induction false} FoldArgsAreFolded(args: seq<Argument>)
    ensures ArgsFolded(FoldArgs(args))
  {
    if args != [] {
      FoldArgIsFolded(args[0]);
      FoldArgsAreFolded(args[1..]);
      assert FoldArgs(args)[1..] == FoldArgs(args[1..]);
    }
  }

  /** An expression already in normal form is left alone by folding. */
  lemma {:induction false} FoldKeepsFolded(e: Expr)
    requires Folded(e)
    ensures Fold(e) == e
  {
    match e
    case PathExpr(_, _) =>
    case Member(_, _, _) =>
    case BoolLit(_) =>
    case Constant(_, _) =>
    case Cast(_, x) => FoldKeepsFolded(x);
    case Concat(_, l, r) => FoldKeepsFolded(l); FoldKeepsFolded(r);
    case Slice(x, _, _) => FoldKeepsFolded(x);
    case Add(_, l, r) => FoldKeepsFolded(l); FoldKeepsFolded(r);
    case Cmpl(_, x) => FoldKeepsFolded(x);
    case Equ(l, r) => FoldKeepsFolded(l); FoldKeepsFolded(r);
    case LAnd(l, r) => FoldKeepsFolded(l); FoldKeepsFolded(r);
    case MethodCall(_, _, args) => FoldArgsKeepFolded(args);
    case ConcolicVariable(_, _, args) => FoldArgsKeepFolded(args);
  }

  lemma {:induction false} FoldArgKeepsFolded(a: Argument)
    requires ArgFolded(a)
    ensures FoldArg(a) == a
  {
    FoldKeepsFolded(a.expression);
  }

  lemma {:induction false} FoldArgsKeepFolded(args: seq<Argument>)
    requires ArgsFolded(args)
    ensures FoldArgs(args) == args
  {
    if args != [] {
      FoldArgKeepsFolded(args[0]);
      FoldArgsKeepFolded(args[1..]);
    }
  }

  /** Folding is idempotent: storing a folded value and folding again changes nothing. */
  lemma {:induction false} FoldIdempotent(e: Expr)
    ensures Fold(Fold(e)) == Fold(e)
  {
    FoldIsFolded(e);
    FoldKeepsFolded(Fold(e));
  }

  // ---------------------------------------------------------------------------------
  // Substitution
  // ---------------------------------------------------------------------------------

  /** Replaces every reference to a bound state variable by its value; references to
      unbound variables, and everything else, are kept. */
  function SubstIn(env: map<StateVar, Expr>, e: Expr): Expr {
    match e
    case PathExpr(n, _) => if [n] in env then env[[n]] else e
    case Member(b, f, ty) =>
      (match RefPath(e)
       case Some(p) => if p in env then env[p] else e
       case None => Member(SubstIn(env, b), f, ty))
    case BoolLit(_) => e
    case Constant(_, _) => e
    case Cast(w, x) => Cast(w, SubstIn(env, x))
    case Concat(w, l, r) => Concat(w, SubstIn(env, l), SubstIn(env, r))
    case Slice(x, hi, lo) => Slice(SubstIn(env, x), hi, lo)
    case Add(w, l, r) => Add(w, SubstIn(env, l), SubstIn(env, r))
    case Cmpl(w, x) => Cmpl(w, SubstIn(env, x))
    case Equ(l, r) => Equ(SubstIn(env, l), SubstIn(env, r))
    case LAnd(l, r) => LAnd(SubstIn(env, l), SubstIn(env, r))
    case MethodCall(c, ts, args) => MethodCall(c, ts, SubstArgs(env, args))
    case ConcolicVariable(n, v, args) => ConcolicVariable(n, v, SubstArgs(env, args))
  }

  function SubstArg(env: map<StateVar, Expr>, a: Argument): Argument {
    Argument(a.name, SubstIn(env, a.expression))
  }

  function SubstArgs(env: map<StateVar, Expr>, args: seq<Argument>): seq<Argument> {
    if args == [] then [] else [SubstArg(env, args[0])] + SubstArgs(env, args[1..])
  }

  /** An expression that reads no bound variable comes back unchanged. */
  lemma {:induction false} SubstUnboundIsIdentity(env: map<StateVar, Expr>, e: Expr)
    requires Vars(e) !! env.Keys
    ensures SubstIn(env, e) == e
  {
    match e
    case PathExpr(_, _) =>
    case Member(b, _, _) => if RefPath(e).None? { SubstUnboundIsIdentity(env, b); }
    case BoolLit(_) =>
    case Constant(_, _) =>
    case Cast(_, x) => SubstUnboundIsIdentity(env, x);
    case Concat(_, l, r) => SubstUnboundIsIdentity(env, l); SubstUnboundIsIdentity(env, r);
    case Slice(x, _, _) => SubstUnboundIsIdentity(env, x);
    case Add(_, l, r) => SubstUnboundIsIdentity(env, l); SubstUnboundIsIdentity(env, r);
    case Cmpl(_, x) => SubstUnboundIsIdentity(env, x);
    case Equ(l, r) => SubstUnboundIsIdentity(env, l); SubstUnboundIsIdentity(env, r);
    case LAnd(l, r) => SubstUnboundIsIdentity(env, l); SubstUnboundIsIdentity(env, r);
    case MethodCall(_, _, args) => SubstArgsUnboundIsIdentity(env, args);
    case ConcolicVariable(_, _, args) => SubstArgsUnboundIsIdentity(env, args);
  }

  lemma {:induction false} SubstArgUnboundIsIdentity(env: map<StateVar, Expr>, a: Argument)
    requires ArgVars(a) !! env.Keys
    ensures SubstArg(env, a) == a
  {
    SubstUnboundIsIdentity(env, a.expression);
  }

  lemma {:induction false} SubstArgsUnboundIsIdentity(env: map<StateVar, Expr>, args: seq<Argument>)
    requires ArgsVars(args) !! env.Keys
    ensures SubstArgs(env, args) == args
  {
    if args != [] {
      SubstArgUnboundIsIdentity(env, args[0]);
      SubstArgsUnboundIsIdentity(env, args[1..]);
    }
  }

  /** The model in which every bound variable takes the value of its symbolic value under
      `m` (and is unbound when that value cannot be evaluated), and every other variable
      keeps its value in `m`. */
  function Overlay(m: Model, env: map<StateVar, Expr>): Model {
    (map p | p in m && p !in env :: m[p]) +
    (map p | p in env && Eval(env[p], m).Some? :: Eval(env[p], m).value)
  }

  lemma {:induction false} OverlayAt(m: Model, env: map<StateVar, Expr>, p: StateVar)
    ensures p !in env ==> (p in Overlay(m, env) <==> p in m)
    ensures p !in env && p in m ==> Overlay(m, env)[p] == m[p]
    ensures p in env ==> (p in Overlay(m, env) <==> Eval(env[p], m).Some?)
    ensures p in env && p in Overlay(m, env) ==> Some(Overlay(m, env)[p]) == Eval(env[p], m)
  {
  }

  /** Substituting and then evaluating is evaluating under the environment's values. */
  lemma {:induction false} SubstEval(env: map<StateVar, Expr>, e: Expr, m: Model)
    ensures Eval(SubstIn(env, e), m) == Eval(e, Overlay(m, env))
  {
    match e
    case PathExpr(_, _) => SubstEvalReference(env, e, m);
    case Member(_, _, _) => SubstEvalReference(env, e, m);
    case BoolLit(_) =>
    case Constant(_, _) =>
    case Cast(_, x) => SubstEval(env, x, m);
    case Concat(_, l, r) => SubstEval(env, l, m); SubstEval(env, r, m);
    case Slice(x, _, _) => SubstEval(env, x, m);
    case Add(_, l, r) => SubstEval(env, l, m); SubstEval(env, r, m);
    case Cmpl(_, x) => SubstEval(env, x, m);
    case Equ(l, r) => SubstEval(env, l, m); SubstEval(env, r, m);
    case LAnd(l, r) => SubstEval(env, l, m); SubstEval(env, r, m);
    case MethodCall(_, _, _) =>
    case ConcolicVariable(_, _, _) =>
  }

  lemma {:induction false} SubstEvalReference(env: map<StateVar, Expr>, e: Expr, m: Model)
    requires e.PathExpr? || e.Member?
    ensures Eval(SubstIn(env, e), m) == Eval(e, Overlay(m, env))
  {
    if e.PathExpr? {
      OverlayAt(m, env, [e.path]);
    } else if RefPath(e).None? {
      SubstKeepsNonReference(env, e.base);
    } else {
      OverlayAt(m, env, RefPath(e).value);
    }
  }

  /** Substitution never turns a non-reference into a reference. */
  lemma {:induction false} SubstKeepsNonReference(env: map<StateVar, Expr>, e: Expr)
    requires RefPath(e).None?
    ensures RefPath(SubstIn(env, e)).None?
  {
    if e.Member? {
      SubstKeepsNonReference(env, e.base);
    }
  }

  lemma {:induction false} SubstEvalAll(env: map<StateVar, Expr>, e: Expr)
    ensures forall m :: Eval(SubstIn(env, e), m) == Eval(e, Overlay(m, env))
  {
    forall m ensures Eval(SubstIn(env, e), m) == Eval(e, Overlay(m, env)) {
      SubstEval(env, e, m);
    }
  }

  // ---------------------------------------------------------------------------------
  // Models
  // ---------------------------------------------------------------------------------

  /** Every state variable that some stored symbolic value reads. */
  function EnvVars(env: map<StateVar, Expr>): set<StateVar> {
    set v, x | v in env && x in Vars(env[v]) :: x
  }

  /** The given model, extended with `fill(x)` for each variable the stored values read
      that the model does not bind. */
  function CompleteModel(env: map<StateVar, Expr>, model: Model, fill: StateVar -> Value): Model {
    model + map x | x in EnvVars(env) && x !in model :: fill(x)
  }

  datatype EvalError =
    | UnboundVariable  // a stored value reads a variable the model does not bind (a BUG)
    | NotConcrete      // a stored value does not evaluate to a literal under the model

  function EvaluateIn(env: map<StateVar, Expr>, model: Model): Result<Model, EvalError> {
    if !(EnvVars(env) <= model.Keys) then Failure(UnboundVariable)
    else if exists v :: v in env && Eval(env[v], model).None? then Failure(NotConcrete)
    else Success(map v | v in env :: Eval(env[v], model).value)
  }

  /** Evaluation only depends on the variables an expression reads. */
  lemma {:induction false} EvalBound(e: Expr, m: Model)
    requires Eval(e, m).Some?
    ensures Vars(e) <= m.Keys
  {
    match e
    case PathExpr(_, _) =>
    case Member(b, _, _) =>
    case BoolLit(_) =>
    case Constant(_, _) =>
    case Cast(_, x) => EvalBound(x, m);
    case Concat(_, l, r) => EvalBound(l, m); EvalBound(r, m);
    case Slice(x, _, _) => EvalBound(x, m);
    case Add(_, l, r) => EvalBound(l, m); EvalBound(r, m);
    case Cmpl(_, x) => EvalBound(x, m);
    case Equ(l, r) => EvalBound(l, m); EvalBound(r, m);
    case LAnd(l, r) => EvalBound(l, m); EvalBound(r, m);
  }

  /** Completing a completed model adds nothing. */
  lemma {:induction false} CompleteIdempotent(env: map<StateVar, Expr>, model: Model, fill: StateVar -> Value)
    ensures CompleteModel(env, CompleteModel(env, model, fill), fill) == CompleteModel(env, model, fill)
  {
    var c := CompleteModel(env, model, fill);
    assert EnvVars(env) <= c.Keys;
    assert (map x | x in EnvVars(env) && x !in c :: fill(x)) == map[];
  }

  /** After `complete`, `evaluate` can no longer hit the unbound-variable BUG. */
  lemma {:induction false} CompleteThenEvaluate(env: map<StateVar, Expr>, model: Model, fill: StateVar -> Value)
    ensures EvaluateIn(env, CompleteModel(env, model, fill)) != Failure(UnboundVariable)
  {
    assert EnvVars(env) <= CompleteModel(env, model, fill).Keys;
  }

  // ---------------------------------------------------------------------------------
  // The environment object
  // ---------------------------------------------------------------------------------

  class SymbolicEnv {
    var bindings: map<StateVar, Expr>

    /** The map is private and written only by `set`, which folds what it stores: every
        stored value is in folded form. */
    ghost predicate Valid()
      reads this
    {
      forall v :: v in bindings ==> Folded(bindings[v])
    }

    constructor ()
      ensures Valid()
      ensures bindings == map[]
    {
      bindings := map[];
    }

    /** `exists`: the variable is bound; what it is bound to is folded. */
    predicate Exists(v: StateVar)
      reads this
      requires Valid()
      ensures Exists(v) ==> v in bindings && Folded(bindings[v])
    {
      v in bindings
    }

    /** `get`: the symbolic value of a bound variable, always in folded form. */
    function Get(v: StateVar): (r: Expr)
      reads this
      requires Valid() && Exists(v)
      ensures Folded(r)
      ensures r in bindings.Values
    {
      bindings[v]
    }

    /** Binds `v` to the constant-folded form of `value`; nothing else changes. */
    method Set(v: StateVar, value: Expr)
      modifies this
      requires Valid()
      ensures Valid()
      ensures bindings == old(bindings)[v := Fold(value)]
      ensures Exists(v) && Get(v) == Fold(value) && Folded(Get(v))
      ensures forall mdl :: Eval(Get(v), mdl) == Eval(value, mdl)
      ensures forall u :: u != v ==> (Exists(u) <==> old(Exists(u)))
      ensures forall u :: u != v && Exists(u) ==> Get(u) == old(bindings[u])
    {
      var folded := Fold(value);
      FoldIsFolded(value);
      forall mdl ensures Eval(folded, mdl) == Eval(value, mdl) {
        FoldPreservesEval(value, mdl);
      }
      bindings := bindings[v := folded];
    }

    /** `subst`: bound variables are replaced by their values, unbound ones left untouched. */
    function Subst(e: Expr): (r: Expr)
      reads this
      ensures Vars(e) !! bindings.Keys ==> r == e
      ensures forall mdl :: Eval(r, mdl) == Eval(e, Overlay(mdl, bindings))
    {
      if Vars(e) !! bindings.Keys then SubstUnboundIsIdentity(bindings, e); SubstEvalAll(bindings, e); SubstIn(bindings, e)
      else SubstEvalAll(bindings, e); SubstIn(bindings, e)
    }

    /** `complete`: binds every variable the stored values read, and keeps the model's own
        bindings. */
    function Complete(model: Model, fill: StateVar -> Value): (r: Model)
      reads this
      ensures r.Keys == model.Keys + EnvVars(bindings)
      ensures forall x :: x in model ==> r[x] == model[x]
      ensures forall x :: x in r && x !in model ==> r[x] == fill(x)
    {
      CompleteModel(bindings, model, fill)
    }

    /** `evaluate`: a BUG exactly when a stored value reads a variable the model leaves
        unbound; on success, every bound variable maps to the value of its symbolic value. */
    function Evaluate(model: Model): (r: Result<Model, EvalError>)
      reads this
      ensures r == Failure(UnboundVariable) <==> !(EnvVars(bindings) <= model.Keys)
      ensures r == Failure(NotConcrete) ==> exists v :: v in bindings && Eval(bindings[v], model).None?
      ensures r.Success? ==>
        r.value.Keys == bindings.Keys &&
        forall v :: v in bindings ==> Eval(bindings[v], model) == Some(r.value[v])
    {
      EvaluateIn(bindings, model)
    }
  }
}

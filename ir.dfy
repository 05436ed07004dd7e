/**
 * The slice of the P4 intermediate representation that the test generator's
 * symbolic-execution support code manipulates: references to state variables,
 * literals, the bit-vector operators the eBPF checksum extern builds, method
 * calls and concolic-variable placeholders.  Evaluation under a concrete model
 * gives these trees their meaning.
 */
module Ir {
  import opened Wrappers
  import opened Bits

  /** A state variable is named by the path of a reference, such as hdr.ipv4.version. */
  type StateVar = seq<string>

  /** The type tags the modelled code inspects. */
  datatype Type = BitsType(width: nat) | BoolType | HeaderType | StructType | OtherType

  /** A call argument; `name` is present only for a named argument (`f(x = e)`). */
  datatype Argument = Argument(name: Option<string>, expression: Expr)

  datatype Expr =
    | PathExpr(path: string, ty: Type)
    | Member(base: Expr, member: string, ty: Type)
    | BoolLit(boolean: bool)
    | Constant(width: nat, value: nat)
    | Cast(width: nat, operand: Expr)
    | Concat(width: nat, left: Expr, right: Expr)
    | Slice(operand: Expr, hi: nat, lo: nat)
    | Add(width: nat, left: Expr, right: Expr)
    | Cmpl(width: nat, operand: Expr)
    | Equ(left: Expr, right: Expr)
    | LAnd(left: Expr, right: Expr)
    | MethodCall(callee: Expr, typeArgs: seq<Type>, args: seq<Argument>)
    | ConcolicVariable(methodName: string, concolicMember: StateVar, arguments: seq<Argument>)

  /** The state variable a reference denotes; None for anything that is not a chain of
      member accesses ending in a path expression. */
  function RefPath(e: Expr): (r: Option<StateVar>)
    ensures r.Some? ==> |r.value| >= 1
    ensures e.PathExpr? ==> r == Some([e.path])
  {
    match e
    case PathExpr(n, _) => Some([n])
    case Member(b, f, _) =>
      (match RefPath(b)
       case Some(p) => Some(p + [f])
       case None => None)
    case _ => None
  }

  /** The static type of an expression, as far as the model tracks types. */
  function TypeOf(e: Expr): Type {
    match e
    case PathExpr(_, ty) => ty
    case Member(_, _, ty) => ty
    case BoolLit(_) => BoolType
    case Constant(w, _) => BitsType(w)
    case Cast(w, _) => BitsType(w)
    case Concat(w, _, _) => BitsType(w)
    case Slice(_, hi, lo) => if lo <= hi then BitsType(hi - lo + 1) else OtherType
    case Add(w, _, _) => BitsType(w)
    case Cmpl(w, _) => BitsType(w)
    case Equ(_, _) => BoolType
    case LAnd(_, _) => BoolType
    case MethodCall(_, _, _) => OtherType
    case ConcolicVariable(_, _, _) => OtherType
  }

  /** The state variables an expression reads.  A reference contributes its own path and
      nothing below it; the callee of a method call is a name, not a read. */
  function Vars(e: Expr): set<StateVar>
  {
    match e
    case PathExpr(n, _) => {[n]}
    case Member(b, _, _) => if RefPath(e).Some? then {RefPath(e).value} else Vars(b)
    case BoolLit(_) => {}
    case Constant(_, _) => {}
    case Cast(_, x) => Vars(x)
    case Concat(_, l, r) => Vars(l) + Vars(r)
    case Slice(x, _, _) => Vars(x)
    case Add(_, l, r) => Vars(l) + Vars(r)
    case Cmpl(_, x) => Vars(x)
    case Equ(l, r) => Vars(l) + Vars(r)
    case LAnd(l, r) => Vars(l) + Vars(r)
    case MethodCall(_, _, args) => ArgsVars(args)
    case ConcolicVariable(_, _, args) => ArgsVars(args)
  }

  function ArgVars(a: Argument): set<StateVar> {
    Vars(a.expression)
  }

  function ArgsVars(args: seq<Argument>): set<StateVar>
  {
    if args == [] then {} else ArgVars(args[0]) + ArgsVars(args[1..])
  }

  /** A concrete value: an unsigned bit-vector of a given width, or a boolean. */
  datatype Value = BitsVal(width: nat, bits: nat) | BoolVal(b: bool)

  /** A model assigns concrete values to state variables. */
  type Model = map<StateVar, Value>

  // The meaning of each operator on the values of its operands: None when an operand
  // has no value or a value of the wrong kind.

  /** A value that is a bit-vector. */
  predicate IsBits(x: Option<Value>) {
    x.Some? && x.value.BitsVal?
  }

  /** A value that is a boolean. */
  predicate IsBool(x: Option<Value>) {
    x.Some? && x.value.BoolVal?
  }

  function CastValue(w: nat, x: Option<Value>): Option<Value> {
    if IsBits(x) then Some(BitsVal(w, Truncate(w, x.value.bits))) else None
  }

  /** The left operand supplies the high bits, the right operand its own width of low bits. */
  function ConcatValue(w: nat, l: Option<Value>, r: Option<Value>): Option<Value> {
    if IsBits(l) && IsBits(r)
    then Some(BitsVal(w, Truncate(w, ShiftLeft(l.value.bits, r.value.width) + r.value.bits)))
    else None
  }

  /** Bits `hi` down to `lo`; an empty range has no value. */
  function SliceValue(x: Option<Value>, hi: nat, lo: nat): Option<Value> {
    if IsBits(x) && lo <= hi
    then Some(BitsVal(hi - lo + 1, Truncate(hi - lo + 1, ShiftRight(x.value.bits, lo))))
    else None
  }

  /** Addition modulo 2^w. */
  function AddValue(w: nat, l: Option<Value>, r: Option<Value>): Option<Value> {
    if IsBits(l) && IsBits(r) then Some(BitsVal(w, Truncate(w, l.value.bits + r.value.bits))) else None
  }

  /** Bitwise complement at width w. */
  function CmplValue(w: nat, x: Option<Value>): Option<Value> {
    if IsBits(x) then Some(BitsVal(w, Complement(w, x.value.bits))) else None
  }

  /** Equality of two bit-vectors or of two booleans. */
  function EquValue(l: Option<Value>, r: Option<Value>): Option<Value> {
    if IsBits(l) && IsBits(r) then Some(BoolVal(l.value.bits == r.value.bits))
    else if IsBool(l) && IsBool(r) then Some(BoolVal(l.value.b == r.value.b))
    else None
  }

  function LAndValue(l: Option<Value>, r: Option<Value>): Option<Value> {
    if IsBool(l) && IsBool(r) then Some(BoolVal(l.value.b && r.value.b)) else None
  }

  /** The meaning of an expression under a model.  None when a variable is unbound, the
      operands have the wrong kind, or the node is not a value (a call, an unresolved
      concolic variable). */
  function Eval(e: Expr, m: Model): Option<Value> {
    match e
    case PathExpr(_, _) => Lookup(e, m)
    case Member(_, _, _) => Lookup(e, m)
    case BoolLit(b) => Some(BoolVal(b))
    case Constant(w, v) => Some(BitsVal(w, Truncate(w, v)))
    case Cast(w, x) => CastValue(w, Eval(x, m))
    case Concat(w, l, r) => ConcatValue(w, Eval(l, m), Eval(r, m))
    case Slice(x, hi, lo) => SliceValue(Eval(x, m), hi, lo)
    case Add(w, l, r) => AddValue(w, Eval(l, m), Eval(r, m))
    case Cmpl(w, x) => CmplValue(w, Eval(x, m))
    case Equ(l, r) => EquValue(Eval(l, m), Eval(r, m))
    case LAnd(l, r) => LAndValue(Eval(l, m), Eval(r, m))
    case MethodCall(_, _, _) => None
    case ConcolicVariable(_, _, _) => None
  }

  function Lookup(e: Expr, m: Model): Option<Value>
    requires e.PathExpr? || e.Member?
  {
    match RefPath(e)
    case Some(p) => if p in m then Some(m[p]) else None
    case None => None
  }
}

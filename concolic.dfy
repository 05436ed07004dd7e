/**
 * Concolic method registry and resolver.  The registry maps a qualified method name to
 * an arity to a list of overloads (parameter-name list, implementation).  A call is
 * dispatched to the unique overload whose parameter names agree with the call's named
 * arguments; two matching overloads are a fatal ambiguity.  The resolver visits the
 * concolic variables of an expression and runs each member's implementation at most
 * once, memoising the results per member variable.
 */
module Concolic {
  import opened Wrappers
  import opened Ir
  import opened ExecutionStates

  /** Implementations are opaque: the registry only stores and returns their ids. */
  type HandlerId = nat

  /** One registration: qualified name, parameter names, implementation. */
  datatype ImplSpec = ImplSpec(name: string, paramNames: seq<string>, impl: HandlerId)

  datatype Overload = Overload(paramNames: seq<string>, impl: HandlerId)

  /** qualified method name -> arity -> overloads */
  type ImplMap = map<string, map<nat, seq<Overload>>>

  // ---------------------------------------------------------------------------------
  // Matching and dispatch, as specifications
  // ---------------------------------------------------------------------------------

  /** The matching rule: equal counts, and every named argument names the parameter at
      its own position.  Unnamed arguments match any parameter name. */
  predicate ArgsMatch(paramNames: seq<string>, args: seq<Argument>) {
    && |paramNames| == |args|
    && forall i :: 0 <= i < |args| && args[i].name.Some? ==> args[i].name.value == paramNames[i]
  }

  /** The implementations of the overloads that match the call, in registration order. */
  function MatchingImpls(overloads: seq<Overload>, args: seq<Argument>): (r: seq<HandlerId>)
    ensures |r| <= |overloads|
  {
    if overloads == [] then []
    else
      var rest := MatchingImpls(overloads[..|overloads| - 1], args);
      var last := overloads[|overloads| - 1];
      if ArgsMatch(last.paramNames, args) then rest + [last.impl] else rest
  }

  datatype Dispatch =
    | NotFound               // `exec` returns false: unknown name or arity, or no overload matches
    | Dispatched(impl: HandlerId)   // `exec` runs this implementation once and returns true
    | Ambiguous              // two overloads match: a BUG

  function DispatchSpec(impls: ImplMap, name: string, args: seq<Argument>): Dispatch {
    if name !in impls || |args| !in impls[name] then NotFound
    else
      var ms := MatchingImpls(impls[name][|args|], args);
      if |ms| == 0 then NotFound else if |ms| == 1 then Dispatched(ms[0]) else Ambiguous
  }

  /** The arguments of a call that names every parameter. */
  function NamedArgs(names: seq<string>, values: seq<Expr>): (r: seq<Argument>)
    requires |names| == |values|
    ensures |r| == |names|
    ensures forall i :: 0 <= i < |r| ==> r[i] == Argument(Some(names[i]), values[i])
  {
    if names == [] then [] else [Argument(Some(names[0]), values[0])] + NamedArgs(names[1..], values[1..])
  }

  predicate AllUnnamed(args: seq<Argument>) {
    forall i :: 0 <= i < |args| ==> args[i].name.None?
  }

  // ---------------------------------------------------------------------------------
  // Registration, as specifications
  // ---------------------------------------------------------------------------------

  /** Overloads of one arity all have that arity, and no parameter-name list twice. */
  predicate WellFormedBucket(b: seq<Overload>, n: nat) {
    && (forall i :: 0 <= i < |b| ==> |b[i].paramNames| == n)
    && (forall i, j :: 0 <= i < j < |b| ==> b[i].paramNames != b[j].paramNames)
  }

  predicate ValidImpls(m: ImplMap) {
    forall name, n :: name in m && n in m[name] ==> WellFormedBucket(m[name][n], n)
  }

  predicate IsRegistered(m: ImplMap, name: string, paramNames: seq<string>) {
    && name in m
    && |paramNames| in m[name]
    && exists i :: 0 <= i < |m[name][|paramNames|]| && m[name][|paramNames|][i].paramNames == paramNames
  }

  function Bucket(m: ImplMap, name: string, n: nat): seq<Overload> {
    if name in m && n in m[name] then m[name][n] else []
  }

  /** One registration: append the overload to its bucket, creating the bucket if needed. */
  function AddOne(m: ImplMap, s: ImplSpec): ImplMap {
    var n := |s.paramNames|;
    var sub := if s.name in m then m[s.name] else map[];
    m[s.name := sub[n := Bucket(m, s.name, n) + [Overload(s.paramNames, s.impl)]]]
  }

  function AddAll(m: ImplMap, specs: seq<ImplSpec>): ImplMap {
    if specs == [] then m
    else AddOne(AddAll(m, specs[..|specs| - 1]), specs[|specs| - 1])
  }

  /** The index of the first registration that repeats a name and parameter-name list
      already present (in the map or earlier in the list). */
  function FirstDuplicate(m: ImplMap, specs: seq<ImplSpec>): Option<nat> {
    if specs == [] then None
    else
      var prefix := specs[..|specs| - 1];
      var last := specs[|specs| - 1];
      match FirstDuplicate(m, prefix)
      case Some(k) => Some(k)
      case None =>
        if IsRegistered(AddAll(m, prefix), last.name, last.paramNames) then Some(|specs| - 1) else None
  }

  // ---------------------------------------------------------------------------------
  // Lemmas about registration and dispatch
  // ---------------------------------------------------------------------------------

  /** Registering a name that has no bucket yet creates a single one-overload bucket. */
  lemma {:induction false} AddOneFresh(m: ImplMap, s: ImplSpec)
    requires s.name !in m
    ensures AddOne(m, s) == m[s.name := map[|s.paramNames| := [Overload(s.paramNames, s.impl)]]]
  {
    var n := |s.paramNames|;
    var o := [Overload(s.paramNames, s.impl)];
    assert Bucket(m, s.name, n) == [];
    var empty: map<nat, seq<Overload>> := map[];
    assert [] + o == o;
    assert empty[n := o].Keys == {n};
    assert empty[n := o] == map[n := o];
  }

  /** Registering an unregistered signature keeps every bucket well formed. */
  lemma {:induction false} AddOneValid(m: ImplMap, s: ImplSpec)
    requires ValidImpls(m)
    requires !IsRegistered(m, s.name, s.paramNames)
    ensures ValidImpls(AddOne(m, s))
  {
    var r := AddOne(m, s);
    var n := |s.paramNames|;
    forall name, k | name in r && k in r[name]
      ensures WellFormedBucket(r[name][k], k)
    {
      if name == s.name && k == n {
        var b := Bucket(m, s.name, n);
        assert r[name][k] == b + [Overload(s.paramNames, s.impl)];
        assert forall i :: 0 <= i < |b| ==> b[i].paramNames != s.paramNames;
      }
    }
  }

  /** Registration appends: every overload already present stays at its place. */
  lemma {:induction false} AddAllKeepsExisting(m: ImplMap, specs: seq<ImplSpec>, name: string, n: nat)
    ensures Bucket(m, name, n) <= Bucket(AddAll(m, specs), name, n)
  {
    if specs != [] {
      AddAllKeepsExisting(m, specs[..|specs| - 1], name, n);
    }
  }

  /** A duplicate found in a prefix is the first duplicate of the whole list. */
  lemma {:induction false} FirstDuplicateOfPrefix(m: ImplMap, specs: seq<ImplSpec>, j: nat)
    requires j <= |specs|
    requires FirstDuplicate(m, specs[..j]).Some?
    ensures FirstDuplicate(m, specs) == FirstDuplicate(m, specs[..j])
  {
    if j < |specs| {
      assert specs[..|specs| - 1][..j] == specs[..j];
      FirstDuplicateOfPrefix(m, specs[..|specs| - 1], j);
    } else {
      assert specs[..j] == specs;
    }
  }

  /** A registration not yet present extends a duplicate-free prefix by one step. */
  lemma {:induction false} RegisterStep(m: ImplMap, specs: seq<ImplSpec>, i: nat)
    requires i < |specs| && FirstDuplicate(m, specs[..i]).None?
    requires !IsRegistered(AddAll(m, specs[..i]), specs[i].name, specs[i].paramNames)
    ensures FirstDuplicate(m, specs[..i + 1]).None?
    ensures AddAll(m, specs[..i + 1]) == AddOne(AddAll(m, specs[..i]), specs[i])
  {
    assert specs[..i + 1][..i] == specs[..i];
  }

  /** A registration already present after a duplicate-free prefix is the first duplicate
      of the whole list. */
  lemma {:induction false} DuplicateStep(m: ImplMap, specs: seq<ImplSpec>, i: nat)
    requires i < |specs| && FirstDuplicate(m, specs[..i]).None?
    requires IsRegistered(AddAll(m, specs[..i]), specs[i].name, specs[i].paramNames)
    ensures FirstDuplicate(m, specs) == Some(i)
  {
    assert specs[..i + 1][..i] == specs[..i];
    FirstDuplicateOfPrefix(m, specs, i + 1);
  }

  /** Overload order does not matter for matching beyond registration order. */
  lemma {:induction false} MatchingImplsMember(overloads: seq<Overload>, args: seq<Argument>, i: nat)
    requires i < |overloads| && ArgsMatch(overloads[i].paramNames, args)
    ensures overloads[i].impl in MatchingImpls(overloads, args)
  {
    if i < |overloads| - 1 {
      MatchingImplsMember(overloads[..|overloads| - 1], args, i);
    }
  }

  /** A call that matches two overloads of its arity is ambiguous. */
  lemma {:induction false} TwoMatchesAmbiguous(overloads: seq<Overload>, args: seq<Argument>, i: nat, j: nat)
    requires i < j < |overloads|
    requires ArgsMatch(overloads[i].paramNames, args) && ArgsMatch(overloads[j].paramNames, args)
    ensures |MatchingImpls(overloads, args)| >= 2
  {
    var n := |overloads|;
    if j < n - 1 {
      TwoMatchesAmbiguous(overloads[..n - 1], args, i, j);
    } else {
      MatchingImplsMember(overloads[..n - 1], args, i);
    }
  }

  /** With only unnamed arguments, every overload of the call's arity matches, so a name
      overloaded twice at one arity can never be called positionally. */
  lemma {:induction false} PositionalCallToOverloadIsAmbiguous(m: ImplMap, name: string, args: seq<Argument>)
    requires ValidImpls(m)
    requires AllUnnamed(args)
    requires name in m && |args| in m[name] && |m[name][|args|]| >= 2
    ensures DispatchSpec(m, name, args) == Ambiguous
  {
    var b := m[name][|args|];
    assert WellFormedBucket(b, |args|);
    assert ArgsMatch(b[0].paramNames, args);
    assert ArgsMatch(b[1].paramNames, args);
    TwoMatchesAmbiguous(b, args, 0, 1);
  }

  /** A call that names all of its arguments matches exactly the overload with those
      parameter names. */
  lemma {:induction false} FullyNamedMatch(paramNames: seq<string>, names: seq<string>, values: seq<Expr>)
    requires |names| == |values|
    ensures ArgsMatch(paramNames, NamedArgs(names, values)) <==> paramNames == names
  {
    var args := NamedArgs(names, values);
    if ArgsMatch(paramNames, args) {
      assert forall i :: 0 <= i < |names| ==> paramNames[i] == names[i] by {
        forall i | 0 <= i < |names| ensures paramNames[i] == names[i] {
          assert args[i].name == Some(names[i]);
        }
      }
    }
  }

  /** In a well-formed bucket, a fully named call selects at most one overload. */
  lemma {:induction false} FullyNamedMatchesOnce(b: seq<Overload>, names: seq<string>, values: seq<Expr>, i: nat)
    requires WellFormedBucket(b, |names|) && |names| == |values|
    requires i < |b| && b[i].paramNames == names
    ensures MatchingImpls(b, NamedArgs(names, values)) == [b[i].impl]
  {
    var n := |b|;
    var prefix := b[..n - 1];
    assert forall k :: 0 <= k < n - 1 ==> prefix[k] == b[k];
    var args := NamedArgs(names, values);
    FullyNamedMatch(b[n - 1].paramNames, names, values);
    if i < n - 1 {
      assert b[n - 1].paramNames != names;
      FullyNamedMatchesOnce(prefix, names, values, i);
      assert MatchingImpls(b, args) == MatchingImpls(prefix, args);
    } else {
      NoFullyNamedMatch(prefix, names, values);
      assert MatchingImpls(b, args) == MatchingImpls(prefix, args) + [b[i].impl];
    }
  }

  lemma {:induction false} NoFullyNamedMatch(b: seq<Overload>, names: seq<string>, values: seq<Expr>)
    requires |names| == |values|
    requires forall k :: 0 <= k < |b| ==> b[k].paramNames != names
    ensures MatchingImpls(b, NamedArgs(names, values)) == []
  {
    if b != [] {
      FullyNamedMatch(b[|b| - 1].paramNames, names, values);
      NoFullyNamedMatch(b[..|b| - 1], names, values);
    }
  }

  /** After a successful registration, calling the method with every parameter named
      dispatches to the implementation just registered. */
  lemma {:induction false} AddThenFullyNamedCallDispatches(m: ImplMap, s: ImplSpec, values: seq<Expr>)
    requires ValidImpls(m) && !IsRegistered(m, s.name, s.paramNames)
    requires |values| == |s.paramNames|
    ensures DispatchSpec(AddOne(m, s), s.name, NamedArgs(s.paramNames, values)) == Dispatched(s.impl)
  {
    var r := AddOne(m, s);
    AddOneValid(m, s);
    var b := r[s.name][|s.paramNames|];
    assert WellFormedBucket(b, |s.paramNames|);
    FullyNamedMatchesOnce(b, s.paramNames, values, |b| - 1);
  }

  // ---------------------------------------------------------------------------------
  // The registry object
  // ---------------------------------------------------------------------------------

  class ConcolicMethodImpls {
    var impls: ImplMap

    ghost predicate Valid()
      reads this
    {
      ValidImpls(impls)
    }

    /** Registers the initial list; the caller must not list a signature twice (doing so
        is the BUG that `add` raises). */
    constructor (implList: seq<ImplSpec>)
      requires FirstDuplicate(map[], implList).None?
      ensures Valid() && impls == AddAll(map[], implList)
    {
      impls := map[];
      new;
      var failedAt := Add(implList);
    }

    /** `matches`: counts agree and every named argument names its parameter. */
    static method Matches(paramNames: seq<string>, args: seq<Argument>) returns (r: bool)
      ensures r <==> ArgsMatch(paramNames, args)
      ensures |paramNames| != |args| ==> !r
    {
      if |paramNames| != |args| {
        return false;
      }
      var idx := 0;
      while idx < |paramNames|
        invariant 0 <= idx <= |paramNames|
        invariant forall i :: 0 <= i < idx && args[i].name.Some? ==> args[i].name.value == paramNames[i]
      {
        var paramName := paramNames[idx];
        var arg := args[idx];
        if arg.name.Some? && paramName != arg.name.value {
          return false;
        }
        idx := idx + 1;
      }
      return true;
    }

    /** `exec`: finds the overload to run for a call of `qualifiedMethodName` with the
        concolic variable's arguments. */
    method Exec(qualifiedMethodName: string, args: seq<Argument>) returns (r: Dispatch)
      ensures r == DispatchSpec(impls, qualifiedMethodName, args)
      ensures (qualifiedMethodName !in impls || |args| !in impls[qualifiedMethodName]) ==> r == NotFound
    {
      if qualifiedMethodName !in impls {
        return NotFound;
      }
      var submap := impls[qualifiedMethodName];
      if |args| !in submap {
        return NotFound;
      }
      var overloads := submap[|args|];
      var matchingImpl: Option<HandlerId> := None;
      var k := 0;
      while k < |overloads|
        invariant 0 <= k <= |overloads|
        invariant |MatchingImpls(overloads[..k], args)| <= 1
        invariant matchingImpl == (if MatchingImpls(overloads[..k], args) == [] then None
                                   else Some(MatchingImpls(overloads[..k], args)[0]))
      {
        assert overloads[..k + 1][..k] == overloads[..k];
        var isMatch := Matches(overloads[k].paramNames, args);
        if isMatch {
          if matchingImpl.Some? {
            AmbiguousFromPrefix(overloads, args, k + 1);
            return Ambiguous;
          }
          matchingImpl := Some(overloads[k].impl);
        }
        k := k + 1;
      }
      assert overloads[..k] == overloads;
      if matchingImpl.None? {
        return NotFound;
      }
      return Dispatched(matchingImpl.value);
    }

    /** `add`: registers the list in order.  Returns the index of the first registration
        whose name and parameter names are already registered (the source's BUG), with
        the registrations before it kept. */
    method Add(implList: seq<ImplSpec>) returns (failedAt: Option<nat>)
      requires Valid()
      modifies this
      ensures Valid()
      ensures failedAt == FirstDuplicate(old(impls), implList)
      ensures failedAt.None? ==> impls == AddAll(old(impls), implList)
      ensures failedAt.Some? ==>
        failedAt.value < |implList| && impls == AddAll(old(impls), implList[..failedAt.value])
    {
      var i := 0;
      while i < |implList|
        invariant 0 <= i <= |implList|
        invariant ValidImpls(impls)
        invariant impls == AddAll(old(impls), implList[..i])
        invariant FirstDuplicate(old(impls), implList[..i]).None?
      {
        var spec := implList[i];
        var name, paramNames, impl := spec.name, spec.paramNames, spec.impl;
        var tmpImplList := Bucket(impls, name, |paramNames|);
        var j := 0;
        while j < |tmpImplList| && tmpImplList[j].paramNames != paramNames
          invariant 0 <= j <= |tmpImplList|
          invariant forall k :: 0 <= k < j ==> tmpImplList[k].paramNames != paramNames
        {
          j := j + 1;
        }
        if j < |tmpImplList| {
          assert IsRegistered(impls, name, paramNames);
          DuplicateStep(old(impls), implList, i);
          return Some(i);
        }
        assert !IsRegistered(impls, name, paramNames);
        RegisterStep(old(impls), implList, i);
        AddOneValid(impls, spec);
        impls := AddOne(impls, spec);
        i := i + 1;
      }
      assert implList[..i] == implList;
      return None;
    }
  }

  lemma {:induction false} AmbiguousFromPrefix(overloads: seq<Overload>, args: seq<Argument>, j: nat)
    requires j <= |overloads|
    requires |MatchingImpls(overloads[..j], args)| >= 2
    ensures |MatchingImpls(overloads, args)| >= 2
  {
    PrefixMatches(overloads, args, j);
  }

  lemma {:induction false} PrefixMatches(overloads: seq<Overload>, args: seq<Argument>, j: nat)
    requires j <= |overloads|
    ensures |MatchingImpls(overloads[..j], args)| <= |MatchingImpls(overloads, args)|
  {
    if j < |overloads| {
      assert overloads[..|overloads| - 1][..j] == overloads[..j];
      PrefixMatches(overloads[..|overloads| - 1], args, j);
    } else {
      assert overloads[..j] == overloads;
    }
  }

  /** The target-independent concolic methods: none, so nothing dispatches. */
  function CoreConcolicMethodImpls(): (r: seq<ImplSpec>)
    ensures forall name, args :: DispatchSpec(AddAll(map[], r), name, args) == NotFound
  {
    []
  }

  // ---------------------------------------------------------------------------------
  // The resolver
  // ---------------------------------------------------------------------------------

  /** Resolved concolic members and their replacements. */
  type ConcolicVariableMap = map<StateVar, Expr>

  /** What an implementation contributes, given the concolic variable, the execution
      state and the completed model: the entries it writes into the resolved map. */
  type ImplSemantics = (HandlerId, Expr, ExecutionState, Model) -> ConcolicVariableMap

  /** The concolic variables an inspector meets walking `e` in preorder.  It does not
      descend into a concolic variable, since the resolver's preorder hook returns false. */
  function ConcolicOccurrences(e: Expr): (r: seq<Expr>)
    ensures forall k :: 0 <= k < |r| ==> r[k].ConcolicVariable?
    ensures e.ConcolicVariable? ==> r == [e]
    ensures e.PathExpr? || e.BoolLit? || e.Constant? ==> r == []
  {
    match e
    case PathExpr(_, _) => []
    case Member(b, _, _) => ConcolicOccurrences(b)
    case BoolLit(_) => []
    case Constant(_, _) => []
    case Cast(_, x) => ConcolicOccurrences(x)
    case Concat(_, l, r) => ConcolicOccurrences(l) + ConcolicOccurrences(r)
    case Slice(x, _, _) => ConcolicOccurrences(x)
    case Add(_, l, r) => ConcolicOccurrences(l) + ConcolicOccurrences(r)
    case Cmpl(_, x) => ConcolicOccurrences(x)
    case Equ(l, r) => ConcolicOccurrences(l) + ConcolicOccurrences(r)
    case LAnd(l, r) => ConcolicOccurrences(l) + ConcolicOccurrences(r)
    case MethodCall(callee, _, args) => ConcolicOccurrences(callee) + ArgsOccurrences(args)
    case ConcolicVariable(_, _, _) => [e]
  }

  function ArgOccurrences(a: Argument): (r: seq<Expr>)
    ensures forall k :: 0 <= k < |r| ==> r[k].ConcolicVariable?
  {
    ConcolicOccurrences(a.expression)
  }

  function ArgsOccurrences(args: seq<Argument>): (r: seq<Expr>)
    ensures forall k :: 0 <= k < |r| ==> r[k].ConcolicVariable?
  {
    if args == [] then [] else ArgOccurrences(args[0]) + ArgsOccurrences(args[1..])
  }

  /** The immediate subexpressions an inspector visits below a node: the base of a member,
      the operands of an operator, the callee and argument expressions of a call. */
  function Children(e: Expr): seq<Expr> {
    match e
    case PathExpr(_, _) => []
    case Member(b, _, _) => [b]
    case BoolLit(_) => []
    case Constant(_, _) => []
    case Cast(_, x) => [x]
    case Concat(_, l, r) => [l, r]
    case Slice(x, _, _) => [x]
    case Add(_, l, r) => [l, r]
    case Cmpl(_, x) => [x]
    case Equ(l, r) => [l, r]
    case LAnd(l, r) => [l, r]
    case MethodCall(callee, _, args) => [callee] + ArgExpressions(args)
    case ConcolicVariable(_, _, args) => ArgExpressions(args)
  }

  function ArgExpressions(args: seq<Argument>): seq<Expr> {
    seq(|args|, i requires 0 <= i < |args| => args[i].expression)
  }

  /** The walk over a list of arguments meets exactly what the walks over the argument
      expressions meet. */
  lemma {:induction false} ArgsOccurrencesComplete(args: seq<Argument>)
    ensures forall x :: x in ArgsOccurrences(args) <==>
      exists i :: 0 <= i < |args| && x in ConcolicOccurrences(args[i].expression)
  {
    if args != [] {
      ArgsOccurrencesComplete(args[1..]);
      forall x ensures x in ArgsOccurrences(args) <==>
        exists i :: 0 <= i < |args| && x in ConcolicOccurrences(args[i].expression)
      {
        if exists i :: 0 <= i < |args[1..]| && x in ConcolicOccurrences(args[1..][i].expression) {
          var i :| 0 <= i < |args[1..]| && x in ConcolicOccurrences(args[1..][i].expression);
          assert args[i + 1] == args[1..][i];
        }
        if exists i :: 0 <= i < |args| && x in ConcolicOccurrences(args[i].expression) {
          var i :| 0 <= i < |args| && x in ConcolicOccurrences(args[i].expression);
          if i > 0 {
            assert args[1..][i - 1] == args[i];
          }
        }
      }
    }
  }

  /** The inspector descends into every child of a node that is not a concolic variable:
      the walk of such a node meets exactly what the walks of its children meet. */
  lemma {:induction false} ConcolicOccurrencesComplete(e: Expr)
    requires !e.ConcolicVariable?
    ensures forall x :: x in ConcolicOccurrences(e) <==>
      exists c :: c in Children(e) && x in ConcolicOccurrences(c)
  {
    match e
    case MethodCall(callee, _, args) =>
      ArgsOccurrencesComplete(args);
      var cs := ArgExpressions(args);
      forall x ensures x in ConcolicOccurrences(e) <==>
        exists c :: c in Children(e) && x in ConcolicOccurrences(c)
      {
        if exists i :: 0 <= i < |args| && x in ConcolicOccurrences(args[i].expression) {
          var i :| 0 <= i < |args| && x in ConcolicOccurrences(args[i].expression);
          assert cs[i] in Children(e);
        }
        if exists c :: c in Children(e) && x in ConcolicOccurrences(c) {
          var c :| c in Children(e) && x in ConcolicOccurrences(c);
          if c != callee {
            var i :| 0 <= i < |cs| && cs[i] == c;
            assert x in ConcolicOccurrences(args[i].expression);
          }
        }
      }
    case Member(b, _, _) => UnaryOccurrences(e, b);
    case Cast(_, x) => UnaryOccurrences(e, x);
    case Slice(x, _, _) => UnaryOccurrences(e, x);
    case Cmpl(_, x) => UnaryOccurrences(e, x);
    case Concat(_, l, r) => BinaryOccurrences(e, l, r);
    case Add(_, l, r) => BinaryOccurrences(e, l, r);
    case Equ(l, r) => BinaryOccurrences(e, l, r);
    case LAnd(l, r) => BinaryOccurrences(e, l, r);
    case PathExpr(_, _) =>
    case BoolLit(_) =>
    case Constant(_, _) =>
  }

  lemma UnaryOccurrences(e: Expr, x: Expr)
    requires Children(e) == [x] && ConcolicOccurrences(e) == ConcolicOccurrences(x)
    ensures forall y :: y in ConcolicOccurrences(e) <==>
      exists c :: c in Children(e) && y in ConcolicOccurrences(c)
  {
    assert x in Children(e);
  }

  lemma BinaryOccurrences(e: Expr, l: Expr, r: Expr)
    requires Children(e) == [l, r]
    requires ConcolicOccurrences(e) == ConcolicOccurrences(l) + ConcolicOccurrences(r)
    ensures forall y :: y in ConcolicOccurrences(e) <==>
      exists c :: c in Children(e) && y in ConcolicOccurrences(c)
  {
    assert l in Children(e) && r in Children(e);
  }

  /** The BUG messages of the resolver. */
  const UnknownMethod := "Unknown or unimplemented concolic method"
  const AmbiguousCall := "Ambiguous extern method call"

  /** One visit of a concolic variable: a memoised member is left alone; otherwise the
      registry dispatches and the implementation's entries are written into the map. */
  function ResolveStep(impls: ImplMap, run: ImplSemantics, state: ExecutionState, model: Model,
                       resolved: ConcolicVariableMap, v: Expr): Result<ConcolicVariableMap, string>
    requires v.ConcolicVariable?
  {
    if v.concolicMember in resolved then Success(resolved)
    else match DispatchSpec(impls, v.methodName, v.arguments)
      case NotFound => Failure(UnknownMethod)
      case Ambiguous => Failure(AmbiguousCall)
      case Dispatched(h) => Success(resolved + run(h, v, state, model))
  }

  /** Visiting the occurrences in order; the first BUG ends the run. */
  function ResolveAll(impls: ImplMap, run: ImplSemantics, state: ExecutionState, model: Model,
                      resolved: ConcolicVariableMap, occs: seq<Expr>): Result<ConcolicVariableMap, string>
    requires forall k :: 0 <= k < |occs| ==> occs[k].ConcolicVariable?
    decreases |occs|
  {
    if occs == [] then Success(resolved)
    else match ResolveStep(impls, run, state, model, resolved, occs[0])
      case Failure(msg) => Failure(msg)
      case Success(r) => ResolveAll(impls, run, state, model, r, occs[1..])
  }

  /** The members whose implementation the run invokes, in order. */
  function Invocations(impls: ImplMap, run: ImplSemantics, state: ExecutionState, model: Model,
                       resolved: ConcolicVariableMap, occs: seq<Expr>): seq<StateVar>
    requires forall k :: 0 <= k < |occs| ==> occs[k].ConcolicVariable?
    decreases |occs|
  {
    if occs == [] then []
    else match ResolveStep(impls, run, state, model, resolved, occs[0])
      case Failure(_) => []
      case Success(r) =>
        (if occs[0].concolicMember in resolved then [] else [occs[0].concolicMember])
        + Invocations(impls, run, state, model, r, occs[1..])
  }

  /** Implementations that record a replacement for the member they are run for. */
  ghost predicate BindsOwnMember(run: ImplSemantics) {
    forall h: HandlerId, v: Expr, s: ExecutionState, m: Model :: v.ConcolicVariable? ==> v.concolicMember in run(h, v, s, m)
  }

  /** Resolution only adds entries: every member resolved before is still resolved. */
  lemma {:induction false} ResolveAllKeepsResolved(impls: ImplMap, run: ImplSemantics, state: ExecutionState,
                                                   model: Model, resolved: ConcolicVariableMap, occs: seq<Expr>)
    requires forall k :: 0 <= k < |occs| ==> occs[k].ConcolicVariable?
    requires ResolveAll(impls, run, state, model, resolved, occs).Success?
    ensures resolved.Keys <= ResolveAll(impls, run, state, model, resolved, occs).value.Keys
    decreases |occs|
  {
    if occs != [] {
      var r := ResolveStep(impls, run, state, model, resolved, occs[0]).value;
      ResolveAllKeepsResolved(impls, run, state, model, r, occs[1..]);
    }
  }

  /** When implementations record their own member, a run without BUG resolves every
      concolic variable it visited. */
  lemma {:induction false} ResolveAllCovers(impls: ImplMap, run: ImplSemantics, state: ExecutionState,
                                            model: Model, resolved: ConcolicVariableMap, occs: seq<Expr>)
    requires forall k :: 0 <= k < |occs| ==> occs[k].ConcolicVariable?
    requires BindsOwnMember(run)
    requires ResolveAll(impls, run, state, model, resolved, occs).Success?
    ensures forall k :: 0 <= k < |occs| ==>
      occs[k].concolicMember in ResolveAll(impls, run, state, model, resolved, occs).value
    decreases |occs|
  {
    if occs != [] {
      var r := ResolveStep(impls, run, state, model, resolved, occs[0]).value;
      assert occs[0].concolicMember in r;
      ResolveAllCovers(impls, run, state, model, r, occs[1..]);
      ResolveAllKeepsResolved(impls, run, state, model, r, occs[1..]);
      forall k | 1 <= k < |occs|
        ensures occs[k].concolicMember in ResolveAll(impls, run, state, model, resolved, occs).value
      {
        assert occs[k] == occs[1..][k - 1];
      }
    }
  }

  predicate NoRepeats<T(==)>(xs: seq<T>) {
    forall i, j :: 0 <= i < j < |xs| ==> xs[i] != xs[j]
  }

  /** Memoisation: when implementations record their own member, no implementation runs
      twice for one member, nor for a member resolved beforehand. */
  lemma {:induction false} InvocationsDistinct(impls: ImplMap, run: ImplSemantics, state: ExecutionState,
                                               model: Model, resolved: ConcolicVariableMap, occs: seq<Expr>)
    requires forall k :: 0 <= k < |occs| ==> occs[k].ConcolicVariable?
    requires BindsOwnMember(run)
    ensures forall x :: x in Invocations(impls, run, state, model, resolved, occs) ==> x !in resolved
    ensures NoRepeats(Invocations(impls, run, state, model, resolved, occs))
    decreases |occs|
  {
    if occs != [] {
      match ResolveStep(impls, run, state, model, resolved, occs[0])
      case Failure(_) =>
      case Success(r) =>
        InvocationsDistinct(impls, run, state, model, r, occs[1..]);
        var rest := Invocations(impls, run, state, model, r, occs[1..]);
        var m0 := occs[0].concolicMember;
        assert resolved.Keys <= r.Keys;
        assert m0 in r;
        if m0 !in resolved {
          var inv := [m0] + rest;
          assert Invocations(impls, run, state, model, resolved, occs) == inv;
          assert m0 !in rest;
          forall i, j | 0 <= i < j < |inv| ensures inv[i] != inv[j] {
            assert inv[j] == rest[j - 1];
            if i > 0 {
              assert inv[i] == rest[i - 1];
            }
          }
        } else {
          assert Invocations(impls, run, state, model, resolved, occs) == rest;
        }
    }
  }

  class ConcolicResolver {
    const state: ExecutionState
    const completedModel: Model
    const concolicMethodImpls: ConcolicMethodImpls
    /** What the registered implementations do; implementations are not part of the model. */
    const run: ImplSemantics
    var resolvedConcolicVariables: ConcolicVariableMap

    /** A resolver with nothing resolved yet. */
    constructor (completedModel: Model, state: ExecutionState, concolicMethodImpls: ConcolicMethodImpls,
                 run: ImplSemantics)
      ensures this.completedModel == completedModel && this.state == state
      ensures this.concolicMethodImpls == concolicMethodImpls && this.run == run
      ensures resolvedConcolicVariables == map[]
    {
      this.state := state;
      this.completedModel := completedModel;
      this.concolicMethodImpls := concolicMethodImpls;
      this.run := run;
      resolvedConcolicVariables := map[];
    }

    /** A resolver that continues from earlier resolutions. */
    constructor WithResolved(completedModel: Model, state: ExecutionState,
                             concolicMethodImpls: ConcolicMethodImpls, run: ImplSemantics,
                             resolvedConcolicVariables: ConcolicVariableMap)
      ensures this.completedModel == completedModel && this.state == state
      ensures this.concolicMethodImpls == concolicMethodImpls && this.run == run
      ensures this.resolvedConcolicVariables == resolvedConcolicVariables
    {
      this.state := state;
      this.completedModel := completedModel;
      this.concolicMethodImpls := concolicMethodImpls;
      this.run := run;
      this.resolvedConcolicVariables := resolvedConcolicVariables;
    }

    /** `getResolvedConcolicVariables` */
    function GetResolvedConcolicVariables(): (r: ConcolicVariableMap)
      reads this
      ensures r == resolvedConcolicVariables
    {
      resolvedConcolicVariables
    }

    /** `preorder(ConcolicVariable)`: runs the implementation unless the member is already
        resolved; never descends into the variable's arguments. */
    method Preorder(v: Expr) returns (descend: bool, bug: Option<string>)
      requires v.ConcolicVariable?
      modifies this
      ensures !descend
      ensures bug.None? <==> ResolveStep(concolicMethodImpls.impls, run, state, completedModel,
                                         old(resolvedConcolicVariables), v).Success?
      ensures bug.None? ==>
        resolvedConcolicVariables ==
        ResolveStep(concolicMethodImpls.impls, run, state, completedModel, old(resolvedConcolicVariables), v).value
      ensures bug.Some? ==>
        bug.value ==
        ResolveStep(concolicMethodImpls.impls, run, state, completedModel, old(resolvedConcolicVariables), v).error
      ensures bug.Some? ==> resolvedConcolicVariables == old(resolvedConcolicVariables)
      ensures v.concolicMember in old(resolvedConcolicVariables) ==>
        bug.None? && resolvedConcolicVariables == old(resolvedConcolicVariables)
    {
      var concolicVarName := v.concolicMember;
      if concolicVarName !in resolvedConcolicVariables {
        var found := concolicMethodImpls.Exec(v.methodName, v.arguments);
        match found
        case NotFound =>
          return false, Some(UnknownMethod);
        case Ambiguous =>
          return false, Some(AmbiguousCall);
        case Dispatched(h) =>
          resolvedConcolicVariables := resolvedConcolicVariables + run(h, v, state, completedModel);
      }
      return false, None;
    }

    /** Applying the resolver to an expression: the preorder hook on each concolic variable
        met, stopping at the first BUG. */
    method ApplyTo(e: Expr) returns (bug: Option<string>)
      modifies this
      ensures var expected := ResolveAll(concolicMethodImpls.impls, run, state, completedModel,
                                         old(resolvedConcolicVariables), ConcolicOccurrences(e));
        && (bug.None? <==> expected.Success?)
        && (bug.None? ==> resolvedConcolicVariables == expected.value)
        && (bug.Some? ==> bug.value == expected.error)
    {
      var occs := ConcolicOccurrences(e);
      var k := 0;
      while k < |occs|
        invariant 0 <= k <= |occs|
        invariant ResolveAll(concolicMethodImpls.impls, run, state, completedModel, old(resolvedConcolicVariables), occs)
               == ResolveAll(concolicMethodImpls.impls, run, state, completedModel, resolvedConcolicVariables, occs[k..])
      {
        assert occs[k..][1..] == occs[k + 1..];
        var descend, stepBug := Preorder(occs[k]);
        if stepBug.Some? {
          return stepBug;
        }
        k := k + 1;
      }
      return None;
    }
  }
}

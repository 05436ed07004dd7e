/**
 * The test generator's stack of namespaces.  A context is immutable: pushing a namespace
 * builds a new context over the old one, popping returns the context underneath.  Names
 * are looked up in the innermost namespace first (its own declarations, then the
 * namespaces nested in it), then in the surrounding contexts; a name found nowhere is a
 * BUG.  Fresh names are generated against every name that appears in the context.
 */
module NamespaceContexts {
  import opened Wrappers

  /** A declaration: its name and the node that declares it. */
  datatype Declaration = Declaration(name: string, node: nat)

  /** A namespace: its own declarations and the namespaces nested in it. */
  datatype Namespace = Namespace(decls: seq<Declaration>, nested: seq<Namespace>)

  /** The first declaration of `name` among `decls`. */
  function FindOwn(decls: seq<Declaration>, name: string): (r: Option<Declaration>)
    ensures r.Some? ==> r.value in decls && r.value.name == name
    ensures r.None? <==> forall i :: 0 <= i < |decls| ==> decls[i].name != name
  {
    if decls == [] then None
    else if decls[0].name == name then Some(decls[0])
    else FindOwn(decls[1..], name)
  }

  /** Lookup inside one namespace: its own declarations, then its nested namespaces. */
  function FindInNamespace(ns: Namespace, name: string): (r: Option<Declaration>)
    ensures r.Some? ==> r.value.name == name && name in NamespaceNames(ns)
    decreases ns, 1
  {
    match FindOwn(ns.decls, name)
    case Some(d) => Some(d)
    case None => FindNestedDecl(ns.nested, name)
  }

  /** `findNestedDecl`: the first nested namespace, in order, that declares `name`
      (recursing into namespaces nested deeper); it never looks outside them. */
  function FindNestedDecl(nss: seq<Namespace>, name: string): (r: Option<Declaration>)
    ensures r.Some? ==> r.value.name == name && name in NestedNames(nss)
    decreases nss, 0
  {
    if nss == [] then None
    else
      match FindInNamespace(nss[0], name)
      case Some(d) => Some(d)
      case None => FindNestedDecl(nss[1..], name)
  }

  /** Every name declared in a namespace or in a namespace nested in it. */
  function NamespaceNames(ns: Namespace): set<string>
    decreases ns, 1
  {
    (set i | 0 <= i < |ns.decls| :: ns.decls[i].name) + NestedNames(ns.nested)
  }

  function NestedNames(nss: seq<Namespace>): set<string>
    decreases nss, 0
  {
    if nss == [] then {} else NamespaceNames(nss[0]) + NestedNames(nss[1..])
  }

  datatype NamespaceContext =
    | EmptyContext
    | Context(ns: Namespace, outer: NamespaceContext)
  {
    /** `push`: a new context with `n` innermost and this one around it. */
    function Push(n: Namespace): (c: NamespaceContext)
      ensures c.Context? && c.ns == n && c.outer == this
    {
      Context(n, this)
    }

    /** `pop`: the surrounding context; popping the empty context is a BUG. */
    function Pop(): (r: Result<NamespaceContext, string>)
      ensures r.Success? <==> this.Context?
      ensures r.Success? ==> r.value == outer
    {
      if EmptyContext? then Failure("popped the empty namespace context") else Success(outer)
    }

    /** `findDecl`: innermost namespace first, then outwards; a BUG when no context
        declares the name. */
    function FindDecl(name: string): (r: Result<Declaration, string>)
      ensures r.Success? ==> r.value.name == name && name in UsedNames()
    {
      match this
      case EmptyContext => Failure("declaration not found in the available namespaces")
      case Context(n, o) =>
        match FindInNamespace(n, name)
        case Some(d) => Success(d)
        case None => o.FindDecl(name)
    }

    /** `getUsedNames`: the names of this context's namespace and of every outer one. */
    function UsedNames(): (r: set<string>)
      ensures EmptyContext? ==> r == {}
      ensures Context? ==> NamespaceNames(ns) <= r && outer.UsedNames() <= r
    {
      match this
      case EmptyContext => {}
      case Context(n, o) => NamespaceNames(n) + o.UsedNames()
    }

    /** `genName`: `name` itself when it is unused, otherwise `name` followed by `sep`
        and the least counter that makes it unused. */
    function GenName(name: string, sep: char): (r: string)
      ensures r !in UsedNames()
      ensures name !in UsedNames() ==> r == name
      ensures name in UsedNames() ==> exists k: nat :: (r == Candidate(name, sep, k)
        && forall j :: 0 <= j < k ==> Candidate(name, sep, j) in UsedNames())
    {
      MakeUnique(UsedNames(), name, sep)
    }
  }

  /** The context the generator starts from: no namespace, so no name is used and every
      lookup fails. */
  function Empty(): (c: NamespaceContext)
    ensures c.UsedNames() == {}
    ensures forall name :: c.FindDecl(name).Failure?
    ensures c.Pop().Failure?
  {
    EmptyContext
  }

  // ---------------------------------------------------------------------------------
  // Fresh names
  // ---------------------------------------------------------------------------------

  function DigitChar(d: nat): char
    requires d < 10
  {
    "0123456789"[d]
  }

  /** The decimal spelling of a counter. */
  function Decimal(n: nat): (r: string)
    ensures |r| >= 1
    ensures n >= 10 ==> |r| >= 2
  {
    if n < 10 then [DigitChar(n)] else Decimal(n / 10) + [DigitChar(n % 10)]
  }

  /** Different counters are spelled differently. */
  lemma {:induction false} DecimalInjective(a: nat, b: nat)
    requires Decimal(a) == Decimal(b)
    ensures a == b
  {
    var da, db := Decimal(a), Decimal(b);
    assert DigitChar(a % 10) == da[|da| - 1] == db[|db| - 1] == DigitChar(b % 10);
    assert a % 10 == b % 10;
    if a >= 10 && b >= 10 {
      assert Decimal(a / 10) == da[..|da| - 1] == db[..|db| - 1] == Decimal(b / 10);
      DecimalInjective(a / 10, b / 10);
    }
  }

  /** The k-th candidate: `base`, the separator, the counter. */
  function Candidate(base: string, sep: char, k: nat): string {
    base + [sep] + Decimal(k)
  }

  lemma {:induction false} CandidateInjective(base: string, sep: char, j: nat, k: nat)
    requires Candidate(base, sep, j) == Candidate(base, sep, k)
    ensures j == k
  {
    var c := Candidate(base, sep, j);
    assert Decimal(j) == c[|base| + 1..] == Decimal(k);
    DecimalInjective(j, k);
  }

  /** `make_unique`: `base` when unused, else the first unused candidate. */
  function MakeUnique(inUse: set<string>, base: string, sep: char): (r: string)
    ensures r !in inUse
    ensures base !in inUse ==> r == base
    ensures base in inUse ==> exists n: nat :: (r == Candidate(base, sep, n)
      && forall j :: 0 <= j < n ==> Candidate(base, sep, j) in inUse)
  {
    if base !in inUse then base else FirstUnused(inUse, inUse, base, sep, 0)
  }

  /** The first candidate from `k` on that is not in use.  `avail` is what is left of
      `inUse` once the candidates below `k`, all of which are in use, are taken out; it
      shrinks on every step, which bounds the search. */
  function FirstUnused(inUse: set<string>, avail: set<string>, base: string, sep: char, k: nat): (r: string)
    requires avail <= inUse
    requires forall x :: x in inUse && x !in avail ==> exists j :: 0 <= j < k && x == Candidate(base, sep, j)
    ensures r !in inUse
    ensures exists n: nat :: (n >= k && r == Candidate(base, sep, n)
      && forall j :: k <= j < n ==> Candidate(base, sep, j) in inUse)
    decreases avail
  {
    var c := Candidate(base, sep, k);
    if c !in inUse then c
    else
      assert c in avail by {
        if c !in avail {
          var j :| 0 <= j < k && c == Candidate(base, sep, j);
          CandidateInjective(base, sep, j, k);
        }
      }
      FirstUnused(inUse, avail - {c}, base, sep, k + 1)
  }

  // ---------------------------------------------------------------------------------
  // Properties
  // ---------------------------------------------------------------------------------

  /** Popping a pushed context gives back the context it was pushed onto. */
  lemma {:induction false} PushPop(c: NamespaceContext, n: Namespace)
    ensures c.Push(n).Pop() == Success(c)
    ensures c.Push(n).UsedNames() == NamespaceNames(n) + c.UsedNames()
  {
  }

  /** Pushing only adds used names. */
  lemma {:induction false} UsedNamesGrowUnderPush(c: NamespaceContext, n: Namespace)
    ensures c.UsedNames() <= c.Push(n).UsedNames()
  {
  }

  /** Lookup inside a namespace finds a declaration exactly when the namespace (or one
      nested in it) declares the name, and what it finds has that name. */
  lemma {:induction false} FindInNamespaceComplete(ns: Namespace, name: string)
    ensures FindInNamespace(ns, name).Some? <==> name in NamespaceNames(ns)
    ensures FindInNamespace(ns, name).Some? ==> FindInNamespace(ns, name).value.name == name
    decreases ns, 1
  {
    var own := set i | 0 <= i < |ns.decls| :: ns.decls[i].name;
    if FindOwn(ns.decls, name).Some? {
      var d := FindOwn(ns.decls, name).value;
      var i :| 0 <= i < |ns.decls| && ns.decls[i] == d;
      assert name in own;
    } else {
      assert name !in own;
      FindNestedDeclComplete(ns.nested, name);
    }
  }

  lemma {:induction false} FindNestedDeclComplete(nss: seq<Namespace>, name: string)
    ensures FindNestedDecl(nss, name).Some? <==> name in NestedNames(nss)
    ensures FindNestedDecl(nss, name).Some? ==> FindNestedDecl(nss, name).value.name == name
    decreases nss, 0
  {
    if nss != [] {
      FindInNamespaceComplete(nss[0], name);
      FindNestedDeclComplete(nss[1..], name);
    }
  }

  /** `findDecl` fails exactly on names that appear nowhere in the context, and a
      declaration it returns carries the name looked up. */
  lemma {:induction false} FindDeclComplete(c: NamespaceContext, name: string)
    ensures c.FindDecl(name).Success? <==> name in c.UsedNames()
    ensures c.FindDecl(name).Success? ==> c.FindDecl(name).value.name == name
  {
    match c
    case EmptyContext =>
    case Context(n, o) =>
      FindInNamespaceComplete(n, name);
      FindDeclComplete(o, name);
  }

  /** The innermost namespace shadows the outer ones: a name it declares is resolved
      there, whatever the surrounding contexts declare. */
  lemma {:induction false} FindDeclInnermostFirst(c: NamespaceContext, n: Namespace, name: string)
    requires name in NamespaceNames(n)
    ensures FindInNamespace(n, name).Some?
    ensures c.Push(n).FindDecl(name) == Success(FindInNamespace(n, name).value)
  {
    FindInNamespaceComplete(n, name);
  }

  /** A generated name is never found by `findDecl`: it clashes with no declaration. */
  lemma {:induction false} GenNameIsFresh(c: NamespaceContext, name: string, sep: char)
    ensures c.FindDecl(c.GenName(name, sep)).Failure?
  {
    FindDeclComplete(c, c.GenName(name, sep));
  }
}

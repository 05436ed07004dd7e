# Symbolic-execution support code of the P4 test generator, in Dafny

This project models five pieces of the P4 compiler's test generator (p4testgen) and of its front end, and proves what they promise:

- **Concolic method registry and resolver.** This is `ConcolicMethodImpls` with `matches`, `exec` and `add`, plus `ConcolicResolver`.
  - The registry maps a qualified method name, then an arity, to a list of overloads. Each overload is a parameter-name list and an implementation.
  - A call dispatches to the single overload whose parameter names agree with the call's named arguments. Two matching overloads are a fatal ambiguity. Registering the same name and parameter names twice is fatal.
  - The resolver visits the concolic variables of an expression. It runs the implementation for a member at most once, and memoises the result in its resolved map.
- **eBPF extern handlers** of the small-step evaluator. Each handler takes an execution state (continuation body, symbolic environment, taint set) and yields one successor.
  - `CounterArray.add` and `CounterArray.increment` pop the call.
  - `verify_ipv4_checksum` returns the symbolic checksum verdict over the IPv4 header. This is the header checksum of section 3.1 of RFC 791, computed with the ones' complement sum of RFC 1071.
  - `tcp_conntrack` returns `syn == 1 && ack == 0`.
  - Any other call falls through to the generic handler.
- **The front end's `CreateBuiltins` pass.** It rewrites parsers and tables:
  - it appends `accept`/`reject` states;
  - it adds implicit transitions to `reject`;
  - it turns bare action names into calls;
  - it adds `NoAction` to tables that lack a default action;
  - it drops empty `key` properties.
- **`NamespaceContext`.** This is an immutable stack of namespaces with `push`, `pop`, `findDecl`, `getUsedNames` and `genName`.
- **`SymbolicEnv`.** This is a map from state variables to symbolic values with `get`, `exists`, `set` (which constant-folds), `subst`, `complete` and `evaluate`.

Expressions are one datatype (`Ir.Expr`) with evaluation under a concrete model (`Ir.Eval`). The IPv4 checksum proof connects three things:
- the expression tree the handler builds;
- the 32-bit sum, single fold and complement it denotes;
- the RFC 1071 ones' complement check.

It shows that for every well-formed header the handler's verdict is exactly the RFC check.

The evaluation proof works on templates. The handler's expression is written over stand-in variables (one per header field, one per word, one for the sum), evaluated once there, and instantiated by substitution (`SymbolicEnvironment.SubstEval`).

Files, one module each:
- `wrappers.dfy` holds Option and Result.
- `ir.dfy` holds expressions, values and evaluation.
- `bits.dfy` holds the bit-vector arithmetic the evaluator uses: truncation to a width, complement and shifts, each defined bit by bit and related to `%`, `/` and `*` by lemmas.
- `execution_state.dfy` holds the execution state.
- `symbolic_env.dfy`, `concolic.dfy`, `ebpf_expr_stepper.dfy`, `create_builtins.dfy` and `namespace_context.dfy` each model one source file.

Modelling decisions:
- A BUG becomes an explicit error outcome: `Dispatch.Ambiguous`, `StepResult.Bug`, a `Failure`, or an out-parameter naming the failing registration.
- The extern table of the eBPF stepper is built with the concolic registry's `AddOne`/`AddAll` and dispatched with its `DispatchSpec`. The generic `ExternMethodImpls` class that the stepper uses is not part of this model. It is taken to follow the same name, arity and parameter-name rule.
- `CreateBuiltins` is a transform: each hook gets a copy of the node, and what it returns replaces the node. Nodes are therefore values, and hooks are methods of a `CreateBuiltins` class that return the edited node. The class's field `addNoAction` carries the flag from the table preorder to the action-list and table-properties postorders. `VisitParser`, `VisitActionList`, `VisitProperty` and `VisitTable` model the transform's visiting order: children first, then the node's postorder. The properties of the whole pass are proved against them.
- `namespace_context.h` declares `NamespaceContext` but does not define it (`namespace_context.cpp` is not part of this model). Behaviour follows the declarations' comments:
  - Lookup searches the innermost namespace (its own declarations, then the namespaces nested in it) before the outer contexts.
  - `genName` follows `cstring::make_unique`: the base name if unused, otherwise the base, the separator and the least counter that makes it unused.

## Model

| member | source | states |
|---|---|---|
| Concolic.ConcolicMethodImpls.Matches | backends/p4tools/testgen/lib/concolic.cpp:18-40 | true exactly when the counts agree and every named argument names the parameter at its own position; false whenever the counts differ |
| Concolic.ConcolicMethodImpls.Exec | backends/p4tools/testgen/lib/concolic.cpp:42-73 | unknown name or arity gives NotFound; otherwise Ambiguous when two overloads match, Dispatched(impl) of the unique match, NotFound when none matches |
| Concolic.ConcolicMethodImpls.Add | backends/p4tools/testgen/lib/concolic.cpp:75-94 | registers the list in order and keeps buckets free of duplicate parameter lists; stops at the first registration already present, keeping the earlier ones |
| Concolic.ConcolicMethodImpls.constructor | backends/p4tools/testgen/lib/concolic.cpp:96 | the registry holds exactly the given list, registered in order |
| Concolic.AddOneFresh | backends/p4tools/testgen/lib/concolic.cpp:82-92 | registering under a new name creates a bucket holding just that overload |
| Concolic.AddOneValid | backends/p4tools/testgen/lib/concolic.cpp:82-92 | appending an unregistered signature keeps every bucket well formed (right arity, no repeated parameter list) |
| Concolic.AddAllKeepsExisting | backends/p4tools/testgen/lib/concolic.cpp:75-94 | registration only appends: every existing bucket is a prefix of the new one |
| Concolic.MatchingImplsMember | backends/p4tools/testgen/lib/concolic.cpp:57-66 | every matching overload is among the collected matches |
| Concolic.TwoMatchesAmbiguous | backends/p4tools/testgen/lib/concolic.cpp:57-66 | two matching overloads make at least two matches, i.e. the ambiguity BUG |
| Concolic.PositionalCallToOverloadIsAmbiguous | backends/p4tools/testgen/lib/concolic.cpp:27-37 | a call with only unnamed arguments to an arity with two overloads is ambiguous |
| Concolic.FullyNamedMatch | backends/p4tools/testgen/lib/concolic.cpp:18-40 | a call naming every argument matches a parameter list exactly when the names are equal |
| Concolic.FullyNamedMatchesOnce | backends/p4tools/testgen/lib/concolic.cpp:57-72 | in a well-formed bucket, a fully named call matches its one overload and nothing else |
| Concolic.NoFullyNamedMatch | backends/p4tools/testgen/lib/concolic.cpp:68-69 | a fully named call whose names no overload carries matches nothing |
| Concolic.AddThenFullyNamedCallDispatches | backends/p4tools/testgen/lib/concolic.cpp:75-94 | after registering a signature, a call naming its parameters dispatches to that implementation |
| Concolic.CoreConcolicMethodImpls | backends/p4tools/testgen/lib/concolic.cpp:131-135 | the core list is empty, so nothing dispatches through it |
| Concolic.ResolveAllKeepsResolved | backends/p4tools/testgen/lib/concolic.cpp:98-109 | resolution never forgets a resolved member |
| Concolic.ResolveAllCovers | backends/p4tools/testgen/lib/concolic.cpp:98-109 | a resolution without BUG resolves every concolic variable it visited, given implementations that bind their own member |
| Concolic.InvocationsDistinct | backends/p4tools/testgen/lib/concolic.cpp:102-107 | memoisation: no implementation runs for a member resolved earlier, nor, given implementations that bind their own member, twice for one member |
| Concolic.ConcolicResolver.constructor | backends/p4tools/testgen/lib/concolic.cpp:115-119 | a resolver over the given model, state and registry with nothing resolved |
| Concolic.ConcolicResolver.WithResolved | backends/p4tools/testgen/lib/concolic.cpp:121-129 | a resolver that starts from the given resolved map |
| Concolic.ConcolicResolver.GetResolvedConcolicVariables | backends/p4tools/testgen/lib/concolic.cpp:111-113 | returns the resolved map itself |
| Concolic.ConcolicResolver.Preorder | backends/p4tools/testgen/lib/concolic.cpp:98-109 | never descends; a memoised member runs nothing; otherwise the dispatched implementation's entries are added, and an unknown method or ambiguity is a BUG leaving the map unchanged |
| Concolic.ConcolicOccurrences | backends/p4tools/testgen/lib/concolic.cpp:98-109 | the preorder walk meets only concolic variables; a concolic variable is met itself and not below, and a leaf meets none |
| Concolic.ConcolicOccurrencesComplete | backends/p4tools/testgen/lib/concolic.cpp:98-129 | below any node that is not a concolic variable, the walk meets exactly the concolic variables its children's walks meet: the base, operands, callee and every argument are all visited |
| Concolic.ConcolicResolver.ApplyTo | backends/p4tools/testgen/lib/concolic.cpp:98-109 | visiting an expression runs the preorder on each concolic variable in turn, giving the resolution function's result or its first BUG |
| ExecutionStates.ExecutionState.PopBody | backends/p4tools/testgen/targets/ebpf/expr_stepper.cpp:65-66 | drops the top command; environment and taint unchanged |
| ExecutionStates.ExecutionState.ReplaceTopBody | backends/p4tools/testgen/targets/ebpf/expr_stepper.cpp:117-118 | the top command is replaced, the rest of the body, environment and taint unchanged |
| ExecutionStates.ExecutionState.Get | backends/p4tools/testgen/targets/ebpf/expr_stepper.cpp:123-134 | a value exactly when the reference names a bound state variable, and then that variable's binding |
| ExecutionStates.ExecutionState.HasTaint | backends/p4tools/testgen/targets/ebpf/expr_stepper.cpp:115 | true exactly when the value reads some tainted state variable |
| ExecutionStates.EvalReadsOnlyVars | backends/p4tools/testgen/targets/ebpf/expr_stepper.cpp:115 | a value's meaning depends only on the state variables it reads |
| ExecutionStates.UntaintedIgnoresTaint | backends/p4tools/testgen/targets/ebpf/expr_stepper.cpp:115 | a value without taint means the same whatever the tainted variables hold |
| EbpfExprStepper.CounterArrayNoOp | backends/p4tools/testgen/targets/ebpf/expr_stepper.cpp:59-89 | one successor: the input state with its top command popped, nothing else changed |
| EbpfExprStepper.VerifyIpv4Checksum | backends/p4tools/testgen/targets/ebpf/expr_stepper.cpp:99-166 | not a reference: unimplemented; not a header: BUG; tainted or false validity: one successor returning false; otherwise one successor returning the checksum comparison over the header fields |
| EbpfExprStepper.TcpConntrack | backends/p4tools/testgen/targets/ebpf/expr_stepper.cpp:176-200 | not a reference: unimplemented; not a struct: BUG; otherwise one successor returning `syn == 1 && ack == 0` with constants of the flags' types |
| EbpfExprStepper.ConntrackCondMeaning | backends/p4tools/testgen/targets/ebpf/expr_stepper.cpp:189-199 | the returned condition evaluates to true exactly for syn = 1 and ack = 0 |
| EbpfExprStepper.ChecksumSumFits | backends/p4tools/testgen/targets/ebpf/expr_stepper.cpp:139-158 | the sum of the ten 16-bit header words is at most ten times 0xFFFF, so the 32-bit sum never wraps |
| EbpfExprStepper.EvalBytes | backends/p4tools/testgen/targets/ebpf/expr_stepper.cpp:143-149 | two bytes concatenated into 16 bits give the first byte times 256 plus the second |
| EbpfExprStepper.EvalFlagsOffset | backends/p4tools/testgen/targets/ebpf/expr_stepper.cpp:146-147 | the 3-bit flags concatenated above the 13-bit fragment offset give flags times 2^13 plus the offset |
| EbpfExprStepper.EvalHalves | backends/p4tools/testgen/targets/ebpf/expr_stepper.cpp:151-158 | bits 31..16 and 15..0 of a 32-bit address are its quotient and remainder by 2^16 |
| EbpfExprStepper.TemplateWordsEval | backends/p4tools/testgen/targets/ebpf/expr_stepper.cpp:142-158 | over one variable per field, the ten words the handler builds evaluate to the ten 16-bit words of the header |
| EbpfExprStepper.SubstWords | backends/p4tools/testgen/targets/ebpf/expr_stepper.cpp:123-158 | replacing the field variables by the expressions read from the header gives exactly the handler's words |
| EbpfExprStepper.WordsEval | backends/p4tools/testgen/targets/ebpf/expr_stepper.cpp:123-158 | whenever the field expressions evaluate to a well-formed header, the handler's ten words evaluate to the header's words |
| EbpfExprStepper.EvalAddWordSmall | backends/p4tools/testgen/targets/ebpf/expr_stepper.cpp:144-158 | adding a widened 16-bit word to a 32-bit sum is exact while the total stays below 2^32 |
| EbpfExprStepper.WordTemplateSum | backends/p4tools/testgen/targets/ebpf/expr_stepper.cpp:142-158 | over one variable per word, the chain of widened 32-bit additions evaluates to the plain sum of the words |
| EbpfExprStepper.SubstSumOver | backends/p4tools/testgen/targets/ebpf/expr_stepper.cpp:142-158 | replacing the word variables by the handler's words gives exactly the handler's chain of additions |
| EbpfExprStepper.SumEval | backends/p4tools/testgen/targets/ebpf/expr_stepper.cpp:142-158 | for any ten 16-bit words, the chain of additions evaluates to their plain sum |
| EbpfExprStepper.TemplateVerdictEval | backends/p4tools/testgen/targets/ebpf/expr_stepper.cpp:159-162 | over a 32-bit sum variable, the fold, complement and comparison with zero evaluate to the fold verdict on the sum |
| EbpfExprStepper.SubstVerdict | backends/p4tools/testgen/targets/ebpf/expr_stepper.cpp:159-162 | substitution commutes with the fold, complement and comparison |
| EbpfExprStepper.VerdictEval | backends/p4tools/testgen/targets/ebpf/expr_stepper.cpp:159-162 | for any 32-bit sum expression, the fold, complement and comparison evaluate to the fold verdict on its value |
| EbpfExprStepper.SingleFold | backends/p4tools/testgen/targets/ebpf/expr_stepper.cpp:159-160 | for sums of at most ten words, the single fold gives 0xFFFF exactly when the sum is a non-zero multiple of 0xFFFF |
| EbpfExprStepper.ChecksumVerdictIsOnesComplementCheck | backends/p4tools/testgen/targets/ebpf/expr_stepper.cpp:159-162 | the handler's verdict is true exactly when the RFC 1071 ones' complement sum of the header is all ones |
| EbpfExprStepper.ChecksumExprEval | backends/p4tools/testgen/targets/ebpf/expr_stepper.cpp:123-162 | the returned comparison evaluates to the fold verdict on the header's word sum |
| EbpfExprStepper.ChecksumExprMeaning | backends/p4tools/testgen/targets/ebpf/expr_stepper.cpp:123-162 | the returned comparison evaluates to true exactly when the header passes the RFC 791 / RFC 1071 check |
| EbpfExprStepper.ExternTableContents | backends/p4tools/testgen/targets/ebpf/expr_stepper.cpp:47-201 | the table holds one overload for each of the four externs, with its parameter names |
| EbpfExprStepper.ExternTableUnambiguous | backends/p4tools/testgen/targets/ebpf/expr_stepper.cpp:47-201 | no call is ambiguous, other names fall through, and the checksum and conntrack handlers get exactly one argument |
| EbpfExprStepper.PositionalCounterAdd | backends/p4tools/testgen/targets/ebpf/expr_stepper.cpp:59-60 | `CounterArray.add` with two unnamed arguments reaches its handler |
| EbpfExprStepper.EvalExternMethodCall | backends/p4tools/testgen/targets/ebpf/expr_stepper.cpp:42-206 | falls through exactly when no extern matches; the counters pop the call; a `verify_ipv4_checksum` or `tcp_conntrack` call gets one argument and yields exactly that handler's outcome (`ChecksumOutcome`, `ConntrackOutcome`), unimplemented exactly when the argument is not a reference; never more than one successor |
| SymbolicEnvironment.FoldPreservesEval | backends/p4tools/common/lib/symbolic_env.h:27-29 | constant folding never changes what a value means under any model |
| SymbolicEnvironment.FoldIsFolded | backends/p4tools/common/lib/symbolic_env.h:27-29 | a folded value has no operator left whose operands are all literals |
| SymbolicEnvironment.FoldIdempotent | backends/p4tools/common/lib/symbolic_env.h:27-29 | folding a folded value changes nothing |
| SymbolicEnvironment.SubstUnboundIsIdentity | backends/p4tools/common/lib/symbolic_env.h:40-42 | an expression reading no bound variable is left untouched |
| SymbolicEnvironment.SubstEval | backends/p4tools/common/lib/symbolic_env.h:40-42 | evaluating after substitution is evaluating with the environment's values in place of the bound variables |
| SymbolicEnvironment.EvalBound | backends/p4tools/common/lib/symbolic_env.h:34-38 | a value that evaluates under a model reads only variables the model binds |
| SymbolicEnvironment.CompleteIdempotent | backends/p4tools/common/lib/symbolic_env.h:31-32 | completing a completed model adds nothing |
| SymbolicEnvironment.CompleteThenEvaluate | backends/p4tools/common/lib/symbolic_env.h:31-38 | after `complete`, `evaluate` cannot hit the unbound-variable BUG |
| SymbolicEnvironment.SymbolicEnv.constructor | backends/p4tools/common/lib/symbolic_env.h:16 | an environment with no bindings |
| SymbolicEnvironment.SymbolicEnv.Exists | backends/p4tools/common/lib/symbolic_env.h:24-25 | a variable that exists is bound, and its stored value is constant-folded |
| SymbolicEnvironment.SymbolicEnv.Get | backends/p4tools/common/lib/symbolic_env.h:21-22 | the symbolic value of a bound variable is one of the stored values and is constant-folded, since `set` folds everything it stores |
| SymbolicEnvironment.SymbolicEnv.Set | backends/p4tools/common/lib/symbolic_env.h:21-29 | afterwards `v` exists and is bound to the folded value, which means the same as the given value; every other binding is unchanged |
| SymbolicEnvironment.SymbolicEnv.Subst | backends/p4tools/common/lib/symbolic_env.h:40-42 | identity on expressions reading no bound variable; otherwise means the expression under the bound values |
| SymbolicEnvironment.SymbolicEnv.Complete | backends/p4tools/common/lib/symbolic_env.h:31-32 | binds the model's variables and every variable a stored value reads, keeping the model's own values |
| SymbolicEnvironment.SymbolicEnv.Evaluate | backends/p4tools/common/lib/symbolic_env.h:34-38 | the unbound-variable BUG exactly when a stored value reads a variable the model leaves unbound; the not-concrete BUG only when some stored value does not evaluate; on success each bound variable maps to its value's evaluation |
| CreateBuiltinsPass.CreateBuiltins.PostorderParser | frontends/p4/createBuiltins.cpp:22-26 | the parser's states are followed by `accept` and then `reject`, without transitions |
| CreateBuiltinsPass.CreateBuiltins.PostorderActionListElement | frontends/p4/createBuiltins.cpp:28-38 | a bare action path becomes a call of it with no type arguments and no arguments; other elements are unchanged |
| CreateBuiltinsPass.CreateBuiltins.PostorderExpressionValue | frontends/p4/createBuiltins.cpp:40-51 | a bare path becomes a call only inside a `default_action` property; other values are unchanged |
| CreateBuiltinsPass.CreateBuiltins.PostorderEntry | frontends/p4/createBuiltins.cpp:53-60 | a constant entry's bare action becomes a call; other entries are unchanged |
| CreateBuiltinsPass.CreateBuiltins.PostorderParserState | frontends/p4/createBuiltins.cpp:62-68 | a state without a transition gets one to `reject` and a warning; a state with one is unchanged |
| CreateBuiltinsPass.CreateBuiltins.PostorderActionList | frontends/p4/createBuiltins.cpp:70-84 | with the flag set and NoAction undeclared, `@defaultonly NoAction()` is appended; otherwise the list is unchanged |
| CreateBuiltinsPass.CreateBuiltins.PreorderTable | frontends/p4/createBuiltins.cpp:86-91 | the flag is set exactly when the table has no default action; the table is unchanged |
| CreateBuiltinsPass.CreateBuiltins.PostorderProperty | frontends/p4/createBuiltins.cpp:93-106 | non-key properties and non-empty keys stay; an empty key is dropped; a key property that is not a key is dropped with an error |
| CreateBuiltinsPass.CreateBuiltins.PostorderTableProperties | frontends/p4/createBuiltins.cpp:108-120 | with the flag set, a non-constant `default_action = NoAction()` is appended; otherwise the properties are unchanged |
| CreateBuiltinsPass.CreateBuiltins.VisitParser | frontends/p4/createBuiltins.cpp:22-68 | a parser after the pass: each state rewritten, then `accept` and `reject`; the warnings reported are those of its states without a transition, in order |
| CreateBuiltinsPass.CreateBuiltins.VisitActionList | frontends/p4/createBuiltins.cpp:28-38 | an action list after the pass: elements rewritten, then NoAction added as the flag says |
| CreateBuiltinsPass.CreateBuiltins.VisitProperty | frontends/p4/createBuiltins.cpp:40-106 | a property after the pass: value rewritten in its property's context, then the key rule; an error exactly when a `key` property's value is not a key |
| CreateBuiltinsPass.CreateBuiltins.VisitTable | frontends/p4/createBuiltins.cpp:86-120 | a table after the pass: flag from the preorder, surviving rewritten properties, then the NoAction default when flagged; the errors reported are those of its malformed keys, in order |
| CreateBuiltinsPass.AsCallMeaning | frontends/p4/createBuiltins.cpp:28-60 | the rewrite leaves no bare path, keeps the named action, and is idempotent |
| CreateBuiltinsPass.ParserAfterPass | frontends/p4/createBuiltins.cpp:22-26 | after the pass a parser ends with `accept` then `reject`, and each of its own states keeps its name and has a transition |
| CreateBuiltinsPass.ParserWarningsExact | frontends/p4/createBuiltins.cpp:62-68 | the pass warns once for each state without a transition, naming it, and for nothing else |
| CreateBuiltinsPass.KeyErrorsExact | frontends/p4/createBuiltins.cpp:93-106 | the pass reports an error for each `key` property whose value is not a key, naming it, and no other error |
| CreateBuiltinsPass.ActionListAfterDeclaresNoAction | frontends/p4/createBuiltins.cpp:70-84 | with the flag set the list declares NoAction afterwards; no element is lost or renamed and only NoAction is added |
| CreateBuiltinsPass.PropertiesAfterKeepsNonKeys | frontends/p4/createBuiltins.cpp:93-106 | every surviving property satisfies the key rule and every non-key property survives |
| CreateBuiltinsPass.TableAfterPass | frontends/p4/createBuiltins.cpp:86-120 | after the pass every table has a default action and no empty or malformed key; NoAction is appended exactly when the table had no default action |
| NamespaceContexts.NamespaceContext.Push | backends/p4tools/testgen/lib/namespace_context.h:37-39 | a new context whose namespace is the argument and whose outer context is the receiver |
| NamespaceContexts.NamespaceContext.Pop | backends/p4tools/testgen/lib/namespace_context.h:41-42 | the outer context; popping the empty context is a BUG |
| NamespaceContexts.NamespaceContext.GenName | backends/p4tools/testgen/lib/namespace_context.h:50-52 | never a used name; the requested name when it is unused; otherwise the requested name, the separator and the least counter making it unused |
| NamespaceContexts.NamespaceContext.FindDecl | backends/p4tools/testgen/lib/namespace_context.h:44-45 | a declaration found carries the name looked up, and that name is used in the context |
| NamespaceContexts.NamespaceContext.UsedNames | backends/p4tools/testgen/lib/namespace_context.h:47-48 | the empty context uses no name; a context uses every name of its own namespace and every name its outer contexts use |
| NamespaceContexts.FindNestedDecl | backends/p4tools/testgen/lib/namespace_context.h:27-31 | a declaration found in the nested namespaces carries the name looked up, and that name is declared in one of them |
| NamespaceContexts.Empty | backends/p4tools/testgen/lib/namespace_context.h:34-35 | the empty context uses no name, every lookup in it fails, and it cannot be popped |
| NamespaceContexts.MakeUnique | backends/p4tools/testgen/lib/namespace_context.h:50-52 | the base when unused, otherwise the first unused numbered candidate |
| NamespaceContexts.PushPop | backends/p4tools/testgen/lib/namespace_context.h:37-42 | popping a pushed context gives back the original; its used names are the namespace's plus the original's |
| NamespaceContexts.UsedNamesGrowUnderPush | backends/p4tools/testgen/lib/namespace_context.h:21-22 | pushing only adds used names |
| NamespaceContexts.FindInNamespaceComplete | backends/p4tools/testgen/lib/namespace_context.h:27-31 | lookup inside a namespace and its nested namespaces finds the name exactly when it is declared there |
| NamespaceContexts.FindNestedDeclComplete | backends/p4tools/testgen/lib/namespace_context.h:27-31 | nested lookup finds exactly the names declared in the nested namespaces, never outside them |
| NamespaceContexts.FindDeclComplete | backends/p4tools/testgen/lib/namespace_context.h:44-48 | `findDecl` succeeds exactly for used names, returning a declaration of that name; otherwise it is a BUG |
| NamespaceContexts.FindDeclInnermostFirst | backends/p4tools/testgen/lib/namespace_context.h:44-45 | a name the innermost namespace declares resolves there, whatever outer contexts declare |
| NamespaceContexts.GenNameIsFresh | backends/p4tools/testgen/lib/namespace_context.h:44-52 | `findDecl` fails on a generated name |

## Left out

- `EBPFExprStepper::preorder(P4Table)` (expr_stepper.cpp:208-213): it delegates to the eBPF table stepper, which is not part of this model.
- The generic `ExprStepper::evalExternMethodCall` that unmatched calls fall through to is not part of this model. It appears as the `Fallthrough` outcome.
- Diagnostic text: the counters' "not fully implemented" warnings, the wording of BUG and unimplemented messages, and the text of the implicit-transition warning and the not-a-key error. The not-a-key error of `postorder(Property)` prints the null result of the failed cast rather than the property. Only which diagnostic is reported is modelled.
- Source positions, annotations other than `@defaultonly`, and IR types other than the tags the code checks (bit width, header, struct).
- EbpfExprStepper.TcpConntrack: an unbound `syn` or `ack`, or one that is not a bit vector, is modelled as a BUG outcome. The source has no check of its own there and relies on the state lookup and `getConstant` to fail.
- EbpfExprStepper.VerifyIpv4Checksum: an unbound header field is modelled as a BUG outcome. The source relies on the state lookup to fail.
- The meaning of the checksum is proved for field values that fit their header widths (`ValidHeader`); wider values are not considered.
- `NamespaceContext`'s lazily filled `usedNames` cache: the model computes the set as a function, so repeated calls trivially agree. Pointer identity of contexts is not modelled.
- Which IR nodes are `INestedNamespace`s, and absolute paths in `findDecl`: a namespace is its declarations plus its nested namespaces, and a path is its name.
- `SymbolicEnv::getInternalMap` and `isSymbolicValue` (symbolic_env.h:44-49): the latter's definition is not part of this model. `get` on an unbound variable is a precondition of `Get`. That every stored value is folded is the class invariant `Valid`, which `set`, the only writer of the private map, keeps.
- SymbolicEnvironment.SymbolicEnv.Set: the folding `set` applies is literal-operand folding only. An operator is folded when all its operands are literals. There is no `&&` short-circuit (`false && x` stays as it is), no identities such as `x + 0`, and no strength reduction. The folder `set` calls is not part of this model, and a short-circuit would not preserve the model's meaning when `x` has none. A value stored as `false && x` is therefore not the literal `false` that `verify_ipv4_checksum` compares against (expr_stepper.cpp:115-116).
- `complete` fills variables the model lacks with values from a `fill` parameter. This stands in for the solver's default values, which are not part of this model.
- The concrete concolic implementations and what they compute: implementations are handler ids. Their effect on the resolved map is a parameter (`ImplSemantics`).
- Concolic.ResolveAllKeepsResolved: implementations are modelled as adding or overwriting entries of the resolved map only, without reading it. The source hands them the map itself, so a real implementation could also read or erase entries; the lemma holds only for implementations that do neither.
- The `ConcolicMethodImpls` constructor demands a list without duplicate signatures. Where `add` would hit the BUG, `Add` reports the failing index instead.
- `createBuiltins.h` is not part of this model. The flag's initial value is taken to be false. `P4Table::getDefaultAction` is taken to be the lookup of a property named `default_action`.
- The solver interface, compiler driver and compile context (`solver.h`, `compiler_target.h`, `context.h`): they are interfaces and plumbing with no logic of their own.

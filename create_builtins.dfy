/**
 * The front end's CreateBuiltins pass: it desugars parsers and tables.  Every parser gets
 * the `accept` and `reject` states appended, a parser state without a transition gets an
 * implicit transition to `reject`, a bare action name used as an action-list element, a
 * constant entry's action or a `default_action` value becomes a call with no arguments,
 * an empty `key` property disappears, and a table without a default action gets
 * `@defaultonly NoAction` in its action list and `default_action = NoAction()`.
 *
 * The pass is a transform: each hook receives a copy of the node, edits it and returns
 * it, and what it returns replaces the node.  The hooks are therefore modelled as methods
 * that take the node's value and return the edited value.  The one piece of state the
 * pass carries from hook to hook, `addNoAction`, is a field of the pass object: the table
 * preorder sets it and the action-list and table-properties postorders read it.
 */
module CreateBuiltinsPass {
  import opened Wrappers
  import opened Ir

  // ---------------------------------------------------------------------------------
  // The IR nodes the pass rewrites
  // ---------------------------------------------------------------------------------

  datatype ParserState = ParserState(name: string, selectExpression: Option<Expr>)

  datatype P4Parser = P4Parser(name: string, states: seq<ParserState>)

  datatype ActionListElement = ActionListElement(annotations: seq<string>, expression: Expr)

  datatype ActionList = ActionList(elements: seq<ActionListElement>)

  /** A constant table entry: its keyset and its action. */
  datatype Entry = Entry(keys: seq<Expr>, action: Expr)

  datatype PropertyValue =
    | ExpressionValue(expression: Expr)
    | Key(keyElements: seq<Expr>)
    | ActionListValue(actions: ActionList)
    | EntriesList(entries: seq<Entry>)
    | OtherValue

  datatype Property = Property(name: string, value: PropertyValue, isConstant: bool)

  datatype TableProperties = TableProperties(properties: seq<Property>)

  datatype P4Table = P4Table(name: string, properties: TableProperties)

  /** What the pass reports: the implicit-transition warning and the not-a-key error. */
  datatype Diagnostic = ImplicitRejectWarning(state: string) | NotAKeyError(property: string)

  const AcceptName := "accept"
  const RejectName := "reject"
  const KeyPropertyName := "key"
  const DefaultActionPropertyName := "default_action"
  const NoActionName := "NoAction"
  const DefaultOnlyAnnotation := "defaultonly"

  const AcceptState := ParserState(AcceptName, None)
  const RejectState := ParserState(RejectName, None)

  // ---------------------------------------------------------------------------------
  // Specification functions
  // ---------------------------------------------------------------------------------

  /** A call of `callee` with no type arguments and no arguments. */
  function NullaryCall(callee: Expr): Expr {
    MethodCall(callee, [], [])
  }

  /** The desugaring of an action reference: a bare path becomes a call of that path,
      anything else is left as it is. */
  function AsCall(e: Expr): Expr {
    if e.PathExpr? then NullaryCall(e) else e
  }

  /** The name of the action an action reference denotes, whether it is written bare or
      as a call; None for anything else. */
  function ActionName(e: Expr): Option<string> {
    match e
    case PathExpr(p, _) => Some(p)
    case MethodCall(PathExpr(p, _), _, _) => Some(p)
    case _ => None
  }

  /** `ActionList::getDeclaration`: some element names the action. */
  predicate Declares(actions: ActionList, name: string) {
    exists i :: 0 <= i < |actions.elements| && ActionName(actions.elements[i].expression) == Some(name)
  }

  /** The element the pass appends: `@defaultonly NoAction()`. */
  const NoActionElement := ActionListElement([DefaultOnlyAnnotation], NullaryCall(PathExpr(NoActionName, OtherType)))

  /** The property the pass appends: `default_action = NoAction()`, not constant. */
  const NoActionDefault := Property(DefaultActionPropertyName,
    ExpressionValue(NullaryCall(PathExpr(NoActionName, OtherType))), false)

  /** `P4Table::getDefaultAction() != nullptr`: some property is named `default_action`. */
  predicate HasDefaultAction(properties: seq<Property>) {
    exists i :: 0 <= i < |properties| && properties[i].name == DefaultActionPropertyName
  }

  /** A property the key rule keeps: any non-key property, and a key property whose
      value is a key with at least one element. */
  predicate KeptProperty(p: Property) {
    p.name != KeyPropertyName || (p.value.Key? && |p.value.keyElements| > 0)
  }

  function StateAfter(s: ParserState): ParserState {
    if s.selectExpression.None? then s.(selectExpression := Some(PathExpr(RejectName, OtherType))) else s
  }

  function StatesAfter(ss: seq<ParserState>): (r: seq<ParserState>)
    ensures |r| == |ss|
    ensures forall i :: 0 <= i < |ss| ==> r[i] == StateAfter(ss[i])
  {
    if ss == [] then [] else StatesAfter(ss[..|ss| - 1]) + [StateAfter(ss[|ss| - 1])]
  }

  function ElementsAfter(es: seq<ActionListElement>): (r: seq<ActionListElement>)
    ensures |r| == |es|
    ensures forall i :: 0 <= i < |es| ==> r[i] == es[i].(expression := AsCall(es[i].expression))
  {
    if es == [] then [] else ElementsAfter(es[..|es| - 1]) + [es[|es| - 1].(expression := AsCall(es[|es| - 1].expression))]
  }

  function EntriesAfter(es: seq<Entry>): (r: seq<Entry>)
    ensures |r| == |es|
    ensures forall i :: 0 <= i < |es| ==> r[i] == es[i].(action := AsCall(es[i].action))
  {
    if es == [] then [] else EntriesAfter(es[..|es| - 1]) + [es[|es| - 1].(action := AsCall(es[|es| - 1].action))]
  }

  /** The action list after its elements and then the list itself were visited. */
  function ActionListAfter(actions: ActionList, addNoAction: bool): ActionList {
    var visited := ActionList(ElementsAfter(actions.elements));
    if addNoAction && !Declares(visited, NoActionName) then ActionList(visited.elements + [NoActionElement])
    else visited
  }

  /** A property value after it was visited, inside the property named `propName`. */
  function ValueAfter(v: PropertyValue, propName: string, addNoAction: bool): PropertyValue {
    match v
    case ExpressionValue(e) => if propName == DefaultActionPropertyName then ExpressionValue(AsCall(e)) else v
    case ActionListValue(al) => ActionListValue(ActionListAfter(al, addNoAction))
    case EntriesList(es) => EntriesList(EntriesAfter(es))
    case _ => v
  }

  /** The properties that survive, each with its value visited, in their order. */
  function PropertiesAfter(ps: seq<Property>, addNoAction: bool): seq<Property> {
    if ps == [] then []
    else
      var p := ps[|ps| - 1];
      var visited := p.(value := ValueAfter(p.value, p.name, addNoAction));
      PropertiesAfter(ps[..|ps| - 1], addNoAction) + (if KeptProperty(visited) then [visited] else [])
  }

  function TablePropertiesAfter(ps: seq<Property>, addNoAction: bool): seq<Property> {
    PropertiesAfter(ps, addNoAction) + (if addNoAction then [NoActionDefault] else [])
  }

  /** The warnings the state postorders report, in state order. */
  function ParserWarnings(ss: seq<ParserState>): seq<Diagnostic> {
    if ss == [] then []
    else
      var s := ss[|ss| - 1];
      ParserWarnings(ss[..|ss| - 1]) + (if s.selectExpression.None? then [ImplicitRejectWarning(s.name)] else [])
  }

  /** The errors the key rule reports, in property order. */
  function KeyErrors(ps: seq<Property>): seq<Diagnostic> {
    if ps == [] then []
    else
      var p := ps[|ps| - 1];
      KeyErrors(ps[..|ps| - 1]) + (if p.name == KeyPropertyName && !p.value.Key? then [NotAKeyError(p.name)] else [])
  }

  // ---------------------------------------------------------------------------------
  // The pass
  // ---------------------------------------------------------------------------------

  class CreateBuiltins {
    /** Set on entering a table that has no default action. */
    var addNoAction: bool

    constructor()
      ensures !addNoAction
    {
      addNoAction := false;
    }

    /** postorder(P4Parser): `accept` then `reject` after the parser's own states. */
    method PostorderParser(parser: P4Parser) returns (r: P4Parser)
      ensures r.name == parser.name
      ensures r.states == parser.states + [AcceptState, RejectState]
    {
      r := parser.(states := parser.states + [AcceptState]);
      r := r.(states := r.states + [RejectState]);
    }

    /** postorder(ActionListElement): `a` becomes `a()`. */
    method PostorderActionListElement(element: ActionListElement) returns (r: ActionListElement)
      ensures element.expression.PathExpr? ==> r == element.(expression := NullaryCall(element.expression))
      ensures !element.expression.PathExpr? ==> r == element
    {
      r := element;
      if element.expression.PathExpr? {
        r := r.(expression := MethodCall(element.expression, [], []));
      }
    }

    /** postorder(ExpressionValue): `default_action = a` becomes `default_action = a()`;
        `enclosing` is the name of the property around the value, if any. */
    method PostorderExpressionValue(value: PropertyValue, enclosing: Option<string>) returns (r: PropertyValue)
      requires value.ExpressionValue?
      ensures enclosing == Some(DefaultActionPropertyName) && value.expression.PathExpr? ==>
        r == ExpressionValue(NullaryCall(value.expression))
      ensures !(enclosing == Some(DefaultActionPropertyName) && value.expression.PathExpr?) ==> r == value
    {
      r := value;
      if enclosing.Some? && enclosing.value == DefaultActionPropertyName && value.expression.PathExpr? {
        r := r.(expression := MethodCall(value.expression, [], []));
      }
    }

    /** postorder(Entry): a constant entry's bare action `a` becomes `a()`. */
    method PostorderEntry(entry: Entry) returns (r: Entry)
      ensures entry.action.PathExpr? ==> r == entry.(action := NullaryCall(entry.action))
      ensures !entry.action.PathExpr? ==> r == entry
    {
      r := entry;
      if entry.action.PathExpr? {
        r := r.(action := MethodCall(entry.action, [], []));
      }
    }

    /** postorder(ParserState): a state without a transition goes to `reject`, with a
        warning. */
    method PostorderParserState(state: ParserState) returns (r: ParserState, diag: Option<Diagnostic>)
      ensures state.selectExpression.None? ==>
        r == state.(selectExpression := Some(PathExpr(RejectName, OtherType)))
        && diag == Some(ImplicitRejectWarning(state.name))
      ensures state.selectExpression.Some? ==> r == state && diag == None
    {
      r, diag := state, None;
      if state.selectExpression.None? {
        diag := Some(ImplicitRejectWarning(state.name));
        r := r.(selectExpression := Some(PathExpr(RejectName, OtherType)));
      }
    }

    /** postorder(ActionList): when the table lacks a default action and the list does
        not declare NoAction, `@defaultonly NoAction()` is appended. */
    method PostorderActionList(actions: ActionList) returns (r: ActionList)
      ensures addNoAction && !Declares(actions, NoActionName) ==>
        r.elements == actions.elements + [NoActionElement]
      ensures !(addNoAction && !Declares(actions, NoActionName)) ==> r == actions
    {
      if !addNoAction {
        return actions;
      }
      if Declares(actions, NoActionName) {
        return actions;
      }
      r := actions.(elements := actions.elements + [NoActionElement]);
    }

    /** preorder(P4Table): records whether the table lacks a default action. */
    method PreorderTable(table: P4Table) returns (r: P4Table)
      modifies this
      ensures addNoAction <==> !HasDefaultAction(table.properties.properties)
      ensures r == table
    {
      addNoAction := false;
      if !HasDefaultAction(table.properties.properties) {
        addNoAction := true;
      }
      r := table;
    }

    /** postorder(Property): a `key` property is dropped when its key is empty, and
        dropped with an error when its value is not a key; every other property stays. */
    method PostorderProperty(property: Property) returns (r: Option<Property>, diag: Option<Diagnostic>)
      ensures r.Some? <==> KeptProperty(property)
      ensures r.Some? ==> r.value == property
      ensures diag.Some? <==> property.name == KeyPropertyName && !property.value.Key?
      ensures diag.Some? ==> diag.value == NotAKeyError(property.name)
    {
      if property.name != KeyPropertyName {
        return Some(property), None;
      }
      if property.value.Key? {
        if |property.value.keyElements| == 0 {
          return None, None;
        }
      } else {
        return None, Some(NotAKeyError(property.name));
      }
      return Some(property), None;
    }

    /** postorder(TableProperties): when the table lacks a default action, a non-constant
        `default_action = NoAction()` is appended. */
    method PostorderTableProperties(properties: TableProperties) returns (r: TableProperties)
      ensures addNoAction ==> r.properties == properties.properties + [NoActionDefault]
      ensures !addNoAction ==> r == properties
    {
      if !addNoAction {
        return properties;
      }
      var act := PathExpr(NoActionName, OtherType);
      var methodCall := MethodCall(act, [], []);
      var prop := Property(DefaultActionPropertyName, ExpressionValue(methodCall), false);
      r := properties.(properties := properties.properties + [prop]);
    }

    // -------------------------------------------------------------------------------
    // The traversal: children first, then the node's postorder
    // -------------------------------------------------------------------------------

    /** A parser: each state, then the parser. */
    method VisitParser(parser: P4Parser) returns (r: P4Parser, warnings: seq<Diagnostic>)
      ensures r == parser.(states := StatesAfter(parser.states) + [AcceptState, RejectState])
      ensures warnings == ParserWarnings(parser.states)
    {
      var states: seq<ParserState> := [];
      warnings := [];
      var i := 0;
      while i < |parser.states|
        invariant 0 <= i <= |parser.states|
        invariant states == StatesAfter(parser.states[..i])
        invariant warnings == ParserWarnings(parser.states[..i])
      {
        var s, diag := PostorderParserState(parser.states[i]);
        assert parser.states[..i + 1][..i] == parser.states[..i];
        states := states + [s];
        if diag.Some? {
          warnings := warnings + [diag.value];
        }
        i := i + 1;
      }
      assert parser.states[..i] == parser.states;
      r := PostorderParser(parser.(states := states));
    }

    /** An action list: each element, then the list. */
    method VisitActionList(actions: ActionList) returns (r: ActionList)
      ensures r == ActionListAfter(actions, addNoAction)
    {
      var elements: seq<ActionListElement> := [];
      var i := 0;
      while i < |actions.elements|
        invariant 0 <= i <= |actions.elements|
        invariant elements == ElementsAfter(actions.elements[..i])
      {
        var e := PostorderActionListElement(actions.elements[i]);
        assert actions.elements[..i + 1][..i] == actions.elements[..i];
        elements := elements + [e];
        i := i + 1;
      }
      assert actions.elements[..i] == actions.elements;
      r := PostorderActionList(ActionList(elements));
    }

    /** A property: its value, then the property. */
    method VisitProperty(property: Property) returns (r: Option<Property>, diag: Option<Diagnostic>)
      ensures var visited := property.(value := ValueAfter(property.value, property.name, addNoAction));
        r == if KeptProperty(visited) then Some(visited) else None
      ensures diag.Some? <==> property.name == KeyPropertyName && !property.value.Key?
      ensures diag.Some? ==> diag.value == NotAKeyError(property.name)
    {
      var value := property.value;
      match property.value {
      case ExpressionValue(_) =>
        value := PostorderExpressionValue(property.value, Some(property.name));
      case ActionListValue(al) =>
        var visited := VisitActionList(al);
        value := ActionListValue(visited);
      case EntriesList(es) =>
        var entries: seq<Entry> := [];
        var i := 0;
        while i < |es|
          invariant 0 <= i <= |es|
          invariant entries == EntriesAfter(es[..i])
        {
          var e := PostorderEntry(es[i]);
          assert es[..i + 1][..i] == es[..i];
          entries := entries + [e];
          i := i + 1;
        }
        assert es[..i] == es;
        value := EntriesList(entries);
      case _ =>
      }
      r, diag := PostorderProperty(property.(value := value));
    }

    /** A table: the preorder, each property, then the property list. */
    method VisitTable(table: P4Table) returns (r: P4Table, errors: seq<Diagnostic>)
      modifies this
      ensures addNoAction <==> !HasDefaultAction(table.properties.properties)
      ensures r == table.(properties := TableProperties(TablePropertiesAfter(table.properties.properties, addNoAction)))
      ensures errors == KeyErrors(table.properties.properties)
    {
      var t := PreorderTable(table);
      var ps := t.properties.properties;
      var kept: seq<Property> := [];
      errors := [];
      var i := 0;
      while i < |ps|
        invariant 0 <= i <= |ps|
        invariant addNoAction <==> !HasDefaultAction(table.properties.properties)
        invariant kept == PropertiesAfter(ps[..i], addNoAction)
        invariant errors == KeyErrors(ps[..i])
      {
        var p, diag := VisitProperty(ps[i]);
        assert ps[..i + 1][..i] == ps[..i];
        if p.Some? {
          kept := kept + [p.value];
        }
        if diag.Some? {
          errors := errors + [diag.value];
        }
        i := i + 1;
      }
      assert ps[..i] == ps;
      var props := PostorderTableProperties(TableProperties(kept));
      r := t.(properties := props);
    }
  }

  // ---------------------------------------------------------------------------------
  // Properties of the pass
  // ---------------------------------------------------------------------------------

  /** The desugaring leaves no bare action name behind, keeps the action it names, and
      desugaring twice changes nothing. */
  lemma {:induction false} AsCallMeaning(e: Expr)
    ensures !AsCall(e).PathExpr?
    ensures ActionName(AsCall(e)) == ActionName(e)
    ensures AsCall(AsCall(e)) == AsCall(e)
    ensures AsCall(e) != e <==> e.PathExpr?
  {
  }

  /** After the pass every parser ends with `accept` then `reject`, and every one of its
      own states has a transition and keeps its name. */
  lemma {:induction false} ParserAfterPass(parser: P4Parser)
    ensures var states := StatesAfter(parser.states) + [AcceptState, RejectState];
      && |states| == |parser.states| + 2
      && states[|states| - 2] == AcceptState && states[|states| - 1] == RejectState
      && (forall i :: 0 <= i < |parser.states| ==>
            states[i].name == parser.states[i].name && states[i].selectExpression.Some?)
      && (forall i :: 0 <= i < |parser.states| && parser.states[i].selectExpression.Some? ==>
            states[i] == parser.states[i])
  {
  }

  /** The pass warns once for each state without a transition, naming it, in order, and
      for nothing else. */
  lemma {:induction false} ParserWarningsExact(ss: seq<ParserState>)
    ensures |ParserWarnings(ss)| <= |ss|
    ensures forall d :: d in ParserWarnings(ss) <==>
      exists i :: 0 <= i < |ss| && ss[i].selectExpression.None? && d == ImplicitRejectWarning(ss[i].name)
  {
    if ss != [] {
      var init := ss[..|ss| - 1];
      ParserWarningsExact(init);
      forall d ensures d in ParserWarnings(ss) <==>
        exists i :: 0 <= i < |ss| && ss[i].selectExpression.None? && d == ImplicitRejectWarning(ss[i].name)
      {
        if d in ParserWarnings(init) {
          var i :| 0 <= i < |init| && init[i].selectExpression.None? && d == ImplicitRejectWarning(init[i].name);
          assert ss[i] == init[i];
        }
        if exists i :: 0 <= i < |ss| && ss[i].selectExpression.None? && d == ImplicitRejectWarning(ss[i].name) {
          var i :| 0 <= i < |ss| && ss[i].selectExpression.None? && d == ImplicitRejectWarning(ss[i].name);
          if i < |init| {
            assert init[i] == ss[i];
          }
        }
      }
    }
  }

  /** The pass reports one error for each `key` property whose value is not a key, naming
      it, and no other error. */
  lemma {:induction false} KeyErrorsExact(ps: seq<Property>)
    ensures |KeyErrors(ps)| <= |ps|
    ensures forall d :: d in KeyErrors(ps) <==>
      exists i :: 0 <= i < |ps| && ps[i].name == KeyPropertyName && !ps[i].value.Key? && d == NotAKeyError(ps[i].name)
  {
    if ps != [] {
      var init := ps[..|ps| - 1];
      KeyErrorsExact(init);
      forall d ensures d in KeyErrors(ps) <==>
        exists i :: 0 <= i < |ps| && ps[i].name == KeyPropertyName && !ps[i].value.Key? && d == NotAKeyError(ps[i].name)
      {
        if d in KeyErrors(init) {
          var i :| 0 <= i < |init| && init[i].name == KeyPropertyName && !init[i].value.Key? && d == NotAKeyError(init[i].name);
          assert ps[i] == init[i];
        }
        if exists i :: 0 <= i < |ps| && ps[i].name == KeyPropertyName && !ps[i].value.Key? && d == NotAKeyError(ps[i].name) {
          var i :| 0 <= i < |ps| && ps[i].name == KeyPropertyName && !ps[i].value.Key? && d == NotAKeyError(ps[i].name);
          if i < |init| {
            assert init[i] == ps[i];
          }
        }
      }
    }
  }

  /** A visited action list, when the table lacks a default action, declares NoAction;
      it never loses an element, and only NoAction is ever added. */
  lemma {:induction false} ActionListAfterDeclaresNoAction(actions: ActionList, addNoAction: bool)
    ensures addNoAction ==> Declares(ActionListAfter(actions, addNoAction), NoActionName)
    ensures var r := ActionListAfter(actions, addNoAction).elements;
      && |actions.elements| <= |r| <= |actions.elements| + 1
      && (forall i :: 0 <= i < |actions.elements| ==>
            ActionName(r[i].expression) == ActionName(actions.elements[i].expression))
      && (|r| > |actions.elements| ==> r[|r| - 1] == NoActionElement)
  {
    var visited := ActionList(ElementsAfter(actions.elements));
    forall i | 0 <= i < |actions.elements|
      ensures ActionName(visited.elements[i].expression) == ActionName(actions.elements[i].expression)
    {
      AsCallMeaning(actions.elements[i].expression);
    }
    if addNoAction && !Declares(visited, NoActionName) {
      var r := visited.elements + [NoActionElement];
      assert ActionName(r[|r| - 1].expression) == Some(NoActionName);
    }
  }

  /** The key rule and the visits keep exactly the properties that are not empty or
      malformed keys: every surviving property is kept by the rule, and every property
      not named `key` survives with its name. */
  lemma {:induction false} PropertiesAfterKeepsNonKeys(ps: seq<Property>, addNoAction: bool)
    ensures forall q :: q in PropertiesAfter(ps, addNoAction) ==> KeptProperty(q)
    ensures forall i :: 0 <= i < |ps| && ps[i].name != KeyPropertyName ==>
      exists q :: q in PropertiesAfter(ps, addNoAction) && q.name == ps[i].name
    ensures |PropertiesAfter(ps, addNoAction)| <= |ps|
  {
    if ps != [] {
      var init := ps[..|ps| - 1];
      PropertiesAfterKeepsNonKeys(init, addNoAction);
      var rest := PropertiesAfter(init, addNoAction);
      var p := ps[|ps| - 1];
      var visited := p.(value := ValueAfter(p.value, p.name, addNoAction));
      var r := PropertiesAfter(ps, addNoAction);
      assert r == rest + (if KeptProperty(visited) then [visited] else []);
      forall i | 0 <= i < |ps| && ps[i].name != KeyPropertyName
        ensures exists q :: q in r && q.name == ps[i].name
      {
        if i < |ps| - 1 {
          assert init[i] == ps[i];
          var q :| q in rest && q.name == ps[i].name;
          assert q in r;
        } else {
          assert visited in r;
        }
      }
    }
  }

  /** After the pass every table has a default action: its own, or NoAction; and no
      `key` property is left empty or malformed. */
  lemma {:induction false} TableAfterPass(table: P4Table)
    ensures var add := !HasDefaultAction(table.properties.properties);
      var ps := TablePropertiesAfter(table.properties.properties, add);
      && HasDefaultAction(ps)
      && (forall i :: 0 <= i < |ps| && ps[i].name == KeyPropertyName ==>
            ps[i].value.Key? && |ps[i].value.keyElements| > 0)
      && (add <==> ps[|ps| - 1] == NoActionDefault && |ps| == |PropertiesAfter(table.properties.properties, add)| + 1)
  {
    var props := table.properties.properties;
    var add := !HasDefaultAction(props);
    PropertiesAfterKeepsNonKeys(props, add);
    var kept := PropertiesAfter(props, add);
    var ps := TablePropertiesAfter(props, add);
    if add {
      assert ps[|ps| - 1] == NoActionDefault;
    } else {
      var i :| 0 <= i < |props| && props[i].name == DefaultActionPropertyName;
      var q :| q in kept && q.name == props[i].name;
      var j :| 0 <= j < |kept| && kept[j] == q;
      assert ps[j] == q;
    }
    forall i | 0 <= i < |ps| && ps[i].name == KeyPropertyName
      ensures ps[i].value.Key? && |ps[i].value.keyElements| > 0
    {
      if i < |kept| {
        assert ps[i] in kept;
      }
    }
  }
}

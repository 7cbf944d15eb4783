/**
 How an expansion proceeds (qy/macro/expand.py): what a visible call does, in which order the
 items of a list and the forms of a body are expanded, which names are hidden and where a
 macro that a body defines ends.
 */
module MacroCalls {
  import opened Wrappers
  import opened Syntax
  import opened Quasiquote
  import opened TemplateEval
  import opened MacroExpand
  import opened MacroTraces
  import opened MacroVisible
  import opened MacroNormal
  import MacroFree

  // --- a call ---------------------------------------------------------------------------------------

  /** A list that expansion takes for the call of a macro. */
  predicate VisibleCall(form: Form, ctx: Context) {
    && form.Chain? && form.head.Symbol? && Args(form).Some?
    && form.head.name in ctx.macros && form.head.name !in ctx.shadowed
    && form.head.name !in {"quote", "quasiquote", "from", "let", "lambda", "define", "defun", "module"}
    && !(form.head.name == "macro" && IsMacroDefinition(ListItems(form)))
  }

  /** The macro is run on the call's own arguments. What it makes is expanded one level deeper,
      in the same scope, after the trace of this call. */
  lemma CallIsRun(h: Host, form: Form, ctx: Context, depth: nat)
    requires VisibleCall(form, ctx) && depth <= h.maxDepth
    ensures var name := form.head.name;
            var ran := h.run(ctx.macros[name], ListItems(form)[1..], ctx.state);
            ExpandForm(h, form, ctx, depth) ==
            if ran.Failure? then Failure(ran.error)
            else ExpandForm(h, ran.value.0, ctx.(state := ran.value.1, traces := ctx.traces + [Trace(name, depth + 1)]), depth + 1)
  {
    ArgsAreRest(form);
  }

  /** The trace of a call comes before all others, and stays. */
  lemma CallIsTraced(h: Host, form: Form, ctx: Context, depth: nat)
    requires VisibleCall(form, ctx) && ExpandForm(h, form, ctx, depth).Success?
    ensures var traces := ExpandForm(h, form, ctx, depth).value.1.traces;
            ctx.traces + [Trace(form.head.name, depth + 1)] <= traces
  {
    hide ExpandForm;
    DepthIsWithin(h, form, ctx, depth);
    CallIsRun(h, form, ctx, depth);
    var name := form.head.name;
    var ran := h.run(ctx.macros[name], ListItems(form)[1..], ctx.state);
    var next := ctx.(state := ran.value.1, traces := ctx.traces + [Trace(name, depth + 1)]);
    FormGrows(h, ran.value.0, next, depth + 1);
    var traces := ExpandForm(h, ran.value.0, next, depth + 1).value.1.traces;
    assert traces[..|next.traces|] == next.traces;
  }

  lemma DepthIsWithin(h: Host, form: Form, ctx: Context, depth: nat)
    ensures ExpandForm(h, form, ctx, depth).Success? ==> depth <= h.maxDepth
  {
  }

  // --- one form after the other -----------------------------------------------------------------------

  /** Each form is expanded in the context that the one before it left. */
  ghost predicate Threads(h: Host, items: seq<Form>, results: seq<Form>, contexts: seq<Context>, depth: nat, shadows: bool) {
    && |results| == |items| && |contexts| == |items| + 1
    && forall k :: 0 <= k < |items| ==> Follows(h, items[k], results[k], contexts[k], contexts[k + 1], depth, shadows)
  }

  ghost predicate Follows(h: Host, item: Form, result: Form, ctx: Context, after: Context, depth: nat, shadows: bool) {
    var r := ExpandForm(h, item, ctx, depth);
    && r.Success? && r.value.0 == result
    && after == r.value.1.(shadowed := r.value.1.shadowed + (if shadows then DefinedNames(item) else {}))
  }

  ghost predicate ThreadsFrom(h: Host, items: seq<Form>, results: seq<Form>, ctx: Context, after: Context, depth: nat, shadows: bool)
  {
    exists contexts :: Threads(h, items, results, contexts, depth, shadows) && contexts[0] == ctx && contexts[|items|] == after
  }

  lemma {:induction false} ThreadsOne(h: Host, items: seq<Form>, results: seq<Form>, ctx: Context, after: Context, depth: nat, shadows: bool)
    requires items != [] && |results| == |items|
    ensures ThreadsFrom(h, items, results, ctx, after, depth, shadows) <==>
              exists next :: Follows(h, items[0], results[0], ctx, next, depth, shadows) &&
                             ThreadsFrom(h, items[1..], results[1..], next, after, depth, shadows)
  {
    hide Follows;
    if ThreadsFrom(h, items, results, ctx, after, depth, shadows) {
      var contexts :| Threads(h, items, results, contexts, depth, shadows) && contexts[0] == ctx && contexts[|items|] == after;
      assert Follows(h, items[0], results[0], ctx, contexts[1], depth, shadows);
      forall k | 0 <= k < |items| - 1
        ensures Follows(h, items[1..][k], results[1..][k], contexts[1..][k], contexts[1..][k + 1], depth, shadows)
      {
        assert Follows(h, items[k + 1], results[k + 1], contexts[k + 1], contexts[k + 2], depth, shadows);
      }
      assert Threads(h, items[1..], results[1..], contexts[1..], depth, shadows);
    }
    forall next | Follows(h, items[0], results[0], ctx, next, depth, shadows) &&
                  ThreadsFrom(h, items[1..], results[1..], next, after, depth, shadows)
      ensures ThreadsFrom(h, items, results, ctx, after, depth, shadows)
    {
      var rest :| Threads(h, items[1..], results[1..], rest, depth, shadows) && rest[0] == next && rest[|items| - 1] == after;
      var contexts := [ctx] + rest;
      forall k | 0 <= k < |items| ensures Follows(h, items[k], results[k], contexts[k], contexts[k + 1], depth, shadows) {
        if k > 0 { assert Follows(h, items[1..][k - 1], results[1..][k - 1], rest[k - 1], rest[k], depth, shadows); }
      }
      assert Threads(h, items, results, contexts, depth, shadows);
    }
  }

  lemma ThreadsNone(h: Host, ctx: Context, after: Context, depth: nat, shadows: bool)
    ensures ThreadsFrom(h, [], [], ctx, after, depth, shadows) <==> after == ctx
  {
    assert Threads(h, [], [], [ctx], depth, shadows);
  }

  lemma ThreadsAreMany(h: Host, items: seq<Form>, results: seq<Form>, ctx: Context, after: Context, depth: nat, shadows: bool)
    ensures ThreadsFrom(h, items, results, ctx, after, depth, shadows) ==> |results| == |items|
  {
  }

  lemma FollowsIs(h: Host, item: Form, result: Form, ctx: Context, depth: nat, shadows: bool)
    ensures forall after :: Follows(h, item, result, ctx, after, depth, shadows) <==>
              var r := ExpandForm(h, item, ctx, depth);
              && r.Success? && r.value.0 == result
              && after == if shadows then r.value.1.(shadowed := r.value.1.shadowed + DefinedNames(item)) else r.value.1
  {
    hide ExpandForm;
    var r := ExpandForm(h, item, ctx, depth);
    if r.Success? { assert r.value.1.shadowed + {} == r.value.1.shadowed; }
  }

  /** The items of a list are expanded from the left, each once. */
  lemma {:induction false} ItemsInOrder(h: Host, items: seq<Form>, ctx: Context, depth: nat, out: seq<Form>, after: Context)
    ensures ExpandItems(h, items, ctx, depth) == Success((out, after)) <==> ThreadsFrom(h, items, out, ctx, after, depth, false)
    decreases |items|
  {
    hide ExpandForm, ThreadsFrom, Follows;
    ThreadsAreMany(h, items, out, ctx, after, depth, false);
    if items == [] {
      ThreadsNone(h, ctx, after, depth, false);
    } else if ExpandItems(h, items, ctx, depth) == Success((out, after)) {
      var first := ExpandForm(h, items[0], ctx, depth).value;
      var others := ExpandItems(h, items[1..], first.1, depth).value.0;
      assert out[1..] == others;
      ItemsInOrder(h, items[1..], first.1, depth, others, after);
      ThreadsAreMany(h, items[1..], others, first.1, after, depth, false);
      FollowsIs(h, items[0], out[0], ctx, depth, false);
      ThreadsOne(h, items, out, ctx, after, depth, false);
    } else if ThreadsFrom(h, items, out, ctx, after, depth, false) {
      assert out == [out[0]] + out[1..];
      ThreadsOne(h, items, out, ctx, after, depth, false);
      FollowsIs(h, items[0], out[0], ctx, depth, false);
      var next :| Follows(h, items[0], out[0], ctx, next, depth, false) &&
                  ThreadsFrom(h, items[1..], out[1..], next, after, depth, false);
      ItemsInOrder(h, items[1..], next, depth, out[1..], after);
    }
  }

  function NonNil(forms: seq<Form>): seq<Form> {
    if forms == [] then [] else (if forms[0].Nil? then [] else [forms[0]]) + NonNil(forms[1..])
  }

  /** So are the forms of a body, where a definition hides its name from the next forms. What
      expands to nil is left out. */
  lemma {:induction false} FormsInOrder(h: Host, items: seq<Form>, ctx: Context, depth: nat, shadows: bool, out: seq<Form>, after: Context)
    ensures ExpandForms(h, items, ctx, depth, shadows) == Success((out, after)) <==>
              exists results :: ThreadsFrom(h, items, results, ctx, after, depth, shadows) && NonNil(results) == out
    decreases |items|
  {
    hide ExpandForm, ThreadsFrom, Follows, DefinedNames;
    if items == [] {
      forall results: seq<Form> ensures ThreadsFrom(h, items, results, ctx, after, depth, shadows) ==> results == [] {
        ThreadsAreMany(h, items, results, ctx, after, depth, shadows);
      }
      ThreadsNone(h, ctx, after, depth, shadows);
      if after == ctx && out == [] { assert ThreadsFrom(h, items, [], ctx, after, depth, shadows) && NonNil([]) == out; }
    } else {
      if ExpandForms(h, items, ctx, depth, shadows) == Success((out, after)) {
        var first := ExpandForm(h, items[0], ctx, depth).value;
        var next := if shadows then first.1.(shadowed := first.1.shadowed + DefinedNames(items[0])) else first.1;
        var others := ExpandForms(h, items[1..], next, depth, shadows).value.0;
        FormsInOrder(h, items[1..], next, depth, shadows, others, after);
        var rest :| ThreadsFrom(h, items[1..], rest, next, after, depth, shadows) && NonNil(rest) == others;
        var results := [first.0] + rest;
        assert results[1..] == rest;
        ThreadsAreMany(h, items[1..], rest, next, after, depth, shadows);
        FollowsIs(h, items[0], first.0, ctx, depth, shadows);
        ThreadsOne(h, items, results, ctx, after, depth, shadows);
        assert ThreadsFrom(h, items, results, ctx, after, depth, shadows) && NonNil(results) == out;
      }
      forall results | ThreadsFrom(h, items, results, ctx, after, depth, shadows) && NonNil(results) == out
        ensures ExpandForms(h, items, ctx, depth, shadows) == Success((out, after))
      {
        ThreadsAreMany(h, items, results, ctx, after, depth, shadows);
        ThreadsOne(h, items, results, ctx, after, depth, shadows);
        FollowsIs(h, items[0], results[0], ctx, depth, shadows);
        var next :| Follows(h, items[0], results[0], ctx, next, depth, shadows) &&
                    ThreadsFrom(h, items[1..], results[1..], next, after, depth, shadows);
        FormsInOrder(h, items[1..], next, depth, shadows, NonNil(results[1..]), after);
      }
    }
  }

  // --- the pairs of a `let` --------------------------------------------------------------------------------

  /** What is expanded of a pair: the value that a name is bound to. */
  function ValueOf(pair: Form): Form { if Pair(pair) then ListItems(pair)[1] else pair }

  function Values(pairs: seq<Form>): (values: seq<Form>)
    ensures |values| == |pairs| && forall k :: 0 <= k < |pairs| ==> values[k] == ValueOf(pairs[k])
  {
    if pairs == [] then [] else [ValueOf(pairs[0])] + Values(pairs[1..])
  }

  /** The pair with another value: the name is left as it is. */
  function WithValue(pair: Form, value: Form): Form {
    if Pair(pair) then Chain(pair.head, Chain(value, Nil)) else value
  }

  ghost predicate Rebound(pairs: seq<Form>, values: seq<Form>, out: seq<Form>) {
    && |values| == |pairs| == |out|
    && forall k :: 0 <= k < |pairs| ==> out[k] == WithValue(pairs[k], values[k])
  }

  lemma {:induction false} BindingsInOrder(h: Host, pairs: seq<Form>, ctx: Context, depth: nat, out: seq<Form>, after: Context)
    ensures ExpandBindings(h, pairs, ctx, depth) == Success((out, after)) <==>
              exists values :: ThreadsFrom(h, Values(pairs), values, ctx, after, depth, false) && Rebound(pairs, values, out)
    decreases |pairs|
  {
    hide ExpandForm, ThreadsFrom, Follows;
    if pairs == [] {
      forall values: seq<Form> ensures ThreadsFrom(h, [], values, ctx, after, depth, false) ==> values == [] {
        ThreadsAreMany(h, [], values, ctx, after, depth, false);
      }
      ThreadsNone(h, ctx, after, depth, false);
      if after == ctx && out == [] { assert ThreadsFrom(h, Values(pairs), [], ctx, after, depth, false) && Rebound(pairs, [], out); }
    } else {
      var part := ValueOf(pairs[0]);
      BindingStep(h, pairs, ctx, depth);
      assert Values(pairs)[1..] == Values(pairs[1..]);
      if ExpandBindings(h, pairs, ctx, depth) == Success((out, after)) {
        var first := ExpandForm(h, part, ctx, depth).value;
        var others := ExpandBindings(h, pairs[1..], first.1, depth).value.0;
        BindingsInOrder(h, pairs[1..], first.1, depth, others, after);
        var rest :| ThreadsFrom(h, Values(pairs[1..]), rest, first.1, after, depth, false) && Rebound(pairs[1..], rest, others);
        var values := [first.0] + rest;
        assert values[1..] == rest;
        FollowsIs(h, part, first.0, ctx, depth, false);
        ThreadsOne(h, Values(pairs), values, ctx, after, depth, false);
        ReboundOne(pairs, values, out);
        assert ThreadsFrom(h, Values(pairs), values, ctx, after, depth, false) && Rebound(pairs, values, out);
      }
      forall values | ThreadsFrom(h, Values(pairs), values, ctx, after, depth, false) && Rebound(pairs, values, out)
        ensures ExpandBindings(h, pairs, ctx, depth) == Success((out, after))
      {
        ThreadsOne(h, Values(pairs), values, ctx, after, depth, false);
        FollowsIs(h, part, values[0], ctx, depth, false);
        var next :| Follows(h, Values(pairs)[0], values[0], ctx, next, depth, false) &&
                    ThreadsFrom(h, Values(pairs)[1..], values[1..], next, after, depth, false);
        ReboundOne(pairs, values, out);
        BindingsInOrder(h, pairs[1..], next, depth, out[1..], after);
      }
    }
  }

  lemma ReboundOne(pairs: seq<Form>, values: seq<Form>, out: seq<Form>)
    requires pairs != [] && |values| == |pairs|
    ensures Rebound(pairs, values, out) <==>
              out != [] && out[0] == WithValue(pairs[0], values[0]) && Rebound(pairs[1..], values[1..], out[1..])
    ensures out != [] ==> out == [out[0]] + out[1..]
  {
    if out != [] && |out| == |pairs| && out[0] == WithValue(pairs[0], values[0]) && Rebound(pairs[1..], values[1..], out[1..]) {
      forall k | 0 <= k < |pairs| ensures out[k] == WithValue(pairs[k], values[k]) {
        if k > 0 { assert out[1..][k - 1] == WithValue(pairs[1..][k - 1], values[1..][k - 1]); }
      }
    }
  }

  lemma BindingStep(h: Host, pairs: seq<Form>, ctx: Context, depth: nat)
    requires pairs != []
    ensures ExpandBindings(h, pairs, ctx, depth) ==
            var first := ExpandForm(h, ValueOf(pairs[0]), ctx, depth);
            if first.Failure? then Failure(first.error)
            else
              var others := ExpandBindings(h, pairs[1..], first.value.1, depth);
              if others.Failure? then Failure(others.error)
              else Success(([WithValue(pairs[0], first.value.0)] + others.value.0, others.value.1))
  {
    hide ExpandForm;
    var pair := pairs[0];
    if pair.Chain? { ItemsAreSmaller(pair); }
    if Pair(pair) {
      forall value ensures ListToChain([pair.head, value], Nil) == WithValue(pair, value) {
        assert [pair.head, value][1..] == [value] && [value][1..] == [];
        assert ListToChain([value], Nil) == Chain(value, Nil);
      }
    }
  }

  // --- which names are hidden ----------------------------------------------------------------------------

  /** The items of a list are its heads; a tail that is no list is one more. */
  lemma {:induction false} ItemsOfList(items: seq<Form>, last: Form)
    requires items != [] && !last.Chain?
    ensures ListItems(ListToChain(items, last)) == items + (if last.Nil? then [] else [last])
  {
    if |items| == 1 {
      assert items[1..] == [] && items == [items[0]];
    } else {
      ItemsOfList(items[1..], last);
      assert items == [items[0]] + items[1..];
    }
  }

  predicate IsParameter(list: Form, name: Name) {
    Symbol(name) in ListItems(list) && name != "&rest" && name != "&body"
  }

  ghost predicate HeadsOne(list: Form, name: Name) { exists rest :: Chain(Symbol(name), rest) in ListItems(list) }

  /** A body hides the parameters in front of it, and `defun` its own name. A list whose first
      item is a list is read as pairs. */
  lemma ShadowedExactly(items: seq<Form>, bodyStart: nat, name: Name)
    requires bodyStart == 2 || bodyStart == 3
    requires |items| >= bodyStart
    ensures bodyStart == 3 ==>
              (name in ShadowedNames(items, bodyStart) <==> items[1] == Symbol(name) || IsParameter(items[2], name))
    ensures bodyStart == 2 ==>
              (name in ShadowedNames(items, bodyStart) <==>
               if items[1].Chain? && items[1].head.Chain? then HeadsOne(items[1], name) else IsParameter(items[1], name))
  {
    var list := items[bodyStart - 1];
    assert name in ParameterNames(list) <==> IsParameter(list, name);
    if bodyStart == 2 && list.Chain? && list.head.Chain? {
      if name in ShadowedNames(items, bodyStart) {
        var pair :| pair in ListItems(list) && pair.Chain? && pair.head == Symbol(name);
        assert pair == Chain(Symbol(name), pair.tail);
      }
      if HeadsOne(list, name) {
        var rest :| Chain(Symbol(name), rest) in ListItems(list);
        assert Chain(Symbol(name), rest).head.name == name;
      }
    }
  }

  /** A `let` hides the names of its pairs. */
  lemma BoundExactly(pairs: seq<Form>, name: Name)
    ensures name in BoundNames(pairs) <==> exists pair, value :: pair in pairs && ListItems(pair) == [Symbol(name), value]
  {
    forall pair | pair in pairs
      ensures IsBinding(pair) && pair.head.name == name <==> exists value :: ListItems(pair) == [Symbol(name), value]
    {
      if pair.Chain? {
        ItemsAreSmaller(pair);
        if IsBinding(pair) && pair.head.name == name { assert ListItems(pair) == [Symbol(name), ListItems(pair)[1]]; }
      }
    }
  }

  ghost predicate Defines(form: Form, kind: Name, name: Name, rest: seq<Form>) {
    && form.Chain? && ListItems(form) == [Symbol(kind), Symbol(name)] + rest
    && kind in ["define", "defun", "defeffect", "module"]
    && !(kind == "define" && rest != [] && rest[0].Chain? && rest[0].head == Symbol("component"))
  }

  /** A definition hides the name that it defines, unless it defines a component's macro. */
  lemma DefinedExactly(form: Form, name: Name)
    ensures name in DefinedNames(form) <==> exists kind, rest :: Defines(form, kind, name, rest)
  {
    var items := ListItems(form);
    if form.Chain? { ItemsAreSmaller(form); }
    if name in DefinedNames(form) {
      assert items == [items[0], items[1]] + items[2..];
      assert Defines(form, items[0].name, name, items[2..]);
    }
    forall kind, rest | Defines(form, kind, name, rest) ensures name in DefinedNames(form) {
      assert items[2..] == rest;
    }
  }

  // --- where a definition ends -------------------------------------------------------------------------------

  /** What a definition or an import of macros does to the scope around it. */
  lemma DefinitionBinds(h: Host, form: Form, ctx: Context, depth: nat)
    requires form.Chain? && Args(form).Some? && depth <= h.maxDepth
    ensures form.head == Symbol("macro") && IsMacroDefinition(ListItems(form)) ==>
              var defined, name := h.defineMacro(form, ctx.state), ListItems(form)[1].name;
              ExpandForm(h, form, ctx, depth) ==
              if defined.Failure? then Failure(defined.error)
              else Success((Nil, ctx.(macros := ctx.macros[name := defined.value.0], state := defined.value.1)))
    ensures form.head == Symbol("from") ==>
              var imported := h.importMacros(form, ctx.macros, ctx.state);
              ExpandForm(h, form, ctx, depth) ==
              if imported.Failure? then Failure(imported.error)
              else Success((form, ctx.(macros := imported.value.0, state := imported.value.1)))
    ensures form.head == Symbol("define") && IsComponentDefinition(ListItems(form)) &&
            h.component(ListItems(form)[2], ctx.state).Some? ==>
              var name, value := ListItems(form)[1].name, h.component(ListItems(form)[2], ctx.state).value;
              ExpandForm(h, form, ctx, depth) == Success((Nil, ctx.(macros := ctx.macros[name := value])))
  {
    hide ExpandBody, ExpandLet, ExpandItems;
    ItemsAreSmaller(form);
    assert |"macro"| == 5 && |"from"| == 4 && |"define"| == 6 && |"quote"| == 5 && |"quasiquote"| == 10 && |"let"| == 3;
    assert |"lambda"| == 6 && |"defun"| == 5 && |"module"| == 6 && "macro"[0] == 'm' && "quote"[0] == 'q';
    assert "define"[0] == 'd' && "lambda"[0] == 'l' && "module"[0] == 'm';
  }

  /** The parts in front of a body are names and parameter lists. */
  predicate PlainFront(items: seq<Form>, start: nat, macros: set<Name>) {
    start <= |items| && forall k :: 0 <= k < start ==> Plain(items[k], macros)
  }

  /** Whatever macros a body defines or imports, they are gone behind it, and every name that
      it hides is visible again. */
  lemma BodyIsAScope(h: Host, form: Form, ctx: Context, depth: nat)
    requires form.Chain? && form.head.Symbol? && form.head.name in {"lambda", "define", "defun", "module"}
    requires PlainFront(ListItems(form), MacroFree.BodyStart(form.head.name).value, ctx.macros.Keys)
    requires !IsComponentDefinition(ListItems(form))
    ensures var r := ExpandForm(h, form, ctx, depth);
            r.Success? ==> r.value.1.macros == ctx.macros && r.value.1.shadowed == ctx.shadowed
  {
    hide ExpandItems, ExpandForms, Plain;
    var name, items := form.head.name, ListItems(form);
    var start := MacroFree.BodyStart(name).value;
    MacroFree.NotUnderOtherNames();
    BodyNamesAreReserved(name);
    assert |"macro"| == 5 && |"from"| == 4 && |"let"| == 3 && |"lambda"| == 6 && |"defun"| == 5 && |"module"| == 6;
    assert |"define"| == 6 && "macro"[0] == 'm' && "defun"[0] == 'd';
    if depth <= h.maxDepth && Args(form).Some? {
      if |items| <= start { assert items[..start] == items; }
      PlainItemsKeepScope(h, items[..start], ctx, depth);
    }
  }

  /** The same for the body of a `let`. */
  lemma LetIsAScope(h: Host, form: Form, ctx: Context, depth: nat)
    requires form.Chain? && form.head == Symbol("let") && |ListItems(form)| >= 2 && IsListOrNil(ListItems(form)[1])
    requires forall pair :: pair in ListItems(ListItems(form)[1]) ==> !ValueOf(pair).Chain?
    ensures var r := ExpandForm(h, form, ctx, depth);
            r.Success? ==> r.value.1.macros == ctx.macros && r.value.1.shadowed == ctx.shadowed
  {
    hide ExpandBindings, ExpandForms, ValueOf;
    MacroFree.NotUnderOtherNames();
    assert |"macro"| == 5 && |"from"| == 4 && |"let"| == 3;
    LetIsSmaller(ListItems(form));
    AtomPairsKeepScope(h, ListItems(ListItems(form)[1]), ctx, depth);
  }

  lemma {:induction false} AtomPairsKeepScope(h: Host, pairs: seq<Form>, ctx: Context, depth: nat)
    requires forall pair :: pair in pairs ==> !ValueOf(pair).Chain?
    ensures var r := ExpandBindings(h, pairs, ctx, depth); r.Success? ==> r.value.1 == ctx
    decreases |pairs|
  {
    if pairs != [] {
      assert !ValueOf(pairs[0]).Chain?;
      BindingStep(h, pairs, ctx, depth);
      AtomPairsKeepScope(h, pairs[1..], ctx, depth);
    }
  }

  lemma {:induction false} PlainItemsKeepScope(h: Host, items: seq<Form>, ctx: Context, depth: nat)
    requires forall k :: 0 <= k < |items| ==> Plain(items[k], ctx.macros.Keys)
    ensures var r := ExpandItems(h, items, ctx, depth);
            r.Success? ==> r.value.1.macros == ctx.macros && r.value.1.shadowed == ctx.shadowed
    decreases |items|
  {
    hide ExpandForm, Plain;
    if items != [] {
      PlainKeepsScope(h, items[0], ctx, depth);
      var first := ExpandForm(h, items[0], ctx, depth);
      if first.Success? { PlainItemsKeepScope(h, items[1..], first.value.1, depth); }
    }
  }

  lemma PlainKeepsScope(h: Host, form: Form, ctx: Context, depth: nat)
    requires Plain(form, ctx.macros.Keys)
    ensures ExpandForm(h, form, ctx, depth).Success? ==> ExpandForm(h, form, ctx, depth).value.1 == ctx
  {
    hide ExpandBody, ExpandLet, ExpandItems;
    if form.Chain? { AtomsKeepScope(h, ListItems(form), ctx, depth); }
  }

  lemma {:induction false} AtomsKeepScope(h: Host, items: seq<Form>, ctx: Context, depth: nat)
    requires forall item :: item in items ==> !item.Chain?
    ensures var r := ExpandItems(h, items, ctx, depth); r.Success? ==> r.value == (items, ctx)
    decreases |items|
  {
    if items != [] {
      AtomsKeepScope(h, items[1..], ctx, depth);
      assert items == [items[0]] + items[1..];
    }
  }

  // --- outside the tame forms ----------------------------------------------------------------------------------

  /** A call in front of a list's arguments may become the name of another macro, whose call is
      then left as it is. */
  lemma HeadCallEscapes(h: Host, ctx: Context, a: Name, b: Name, x: Form)
    requires VisibleCall(Chain(Symbol(a), Nil), ctx) && b in ctx.macros && b !in ctx.shadowed && b !in RESERVED
    requires h.maxDepth >= 1 && h.run(ctx.macros[a], [], ctx.state) == Success((Symbol(b), ctx.state)) && !x.Chain?
    ensures var r := ExpandForm(h, Chain(Chain(Symbol(a), Nil), Chain(x, Nil)), ctx, 0);
            && r.Success? && r.value.0 == Chain(Symbol(b), Chain(x, Nil))
            && !Settled(r.value.0, ctx.macros.Keys, ctx.shadowed)
  {
    var call := Chain(Symbol(a), Nil);
    var form := Chain(call, Chain(x, Nil));
    var next := ctx.(traces := ctx.traces + [Trace(a, 1)]);
    CallIsRun(h, call, ctx, 0);
    assert ListItems(call)[1..] == [];
    assert ExpandForm(h, call, ctx, 0) == Success((Symbol(b), next));
    assert ListItems(Chain(x, Nil)) == [x];
    assert ListItems(form) == [call, x];
    assert Proper(Chain(x, Nil)) == Some([x]) by { assert Proper(Nil) == Some([]); }
    AtomsKeepScope(h, [x], next, 0);
    assert [call, x][1..] == [x];
    assert ExpandItems(h, [x], next, 0).Success? by {
      assert ExpandForm(h, x, next, 0) == Success((x, next));
      assert [x][1..] == [];
      assert ExpandItems(h, [], next, 0) == Success(([], next));
    }
    assert ExpandItems(h, [call, x], ctx, 0) == Success(([Symbol(b)] + [x], next));
    assert ListToChain([x], Nil) == Chain(x, Nil) by { assert [x][1..] == []; }
    assert ([Symbol(b)] + [x])[1..] == [x];
  }

  /** A parameter list that starts with a macro's name is run as its call. */
  lemma ParameterListIsCalled(h: Host, ctx: Context, a: Name, body: Form, error: Error)
    requires VisibleCall(Chain(Symbol(a), Nil), ctx) && h.run(ctx.macros[a], [], ctx.state) == Failure(error)
    ensures ExpandForm(h, Chain(Symbol("lambda"), Chain(Chain(Symbol(a), Nil), Chain(body, Nil))), ctx, 0) == Failure(error)
  {
    var list := Chain(Symbol(a), Nil);
    var form := Chain(Symbol("lambda"), Chain(list, Chain(body, Nil)));
    CallIsRun(h, list, ctx, 0);
    assert ListItems(list)[1..] == [];
    assert ListItems(form.tail) == [list, body] by { assert ListItems(form.tail.tail) == [body]; }
    var items := ListItems(form);
    assert items == [Symbol("lambda"), list, body];
    assert items[..2] == [Symbol("lambda"), list];
    assert items[..2][1..] == [list];
    assert Proper(form.tail) == Some([list, body]) by {
      assert Proper(Nil) == Some([]);
      assert form.tail.tail.tail == Nil && [body] + [] == [body];
      assert Proper(form.tail.tail) == Some([body]);
      assert [list] + [body] == [list, body];
    }
    assert ExpandForm(h, Symbol("lambda"), ctx, 0) == Success((Symbol("lambda"), ctx));
    assert ExpandItems(h, [list], ctx, 0) == Failure(error);
    assert ExpandItems(h, items[..2], ctx, 0) == Failure(error);
    assert |"lambda"| == 6 && |"macro"| == 5 && |"from"| == 4 && |"let"| == 3 && |"quote"| == 5 && |"quasiquote"| == 10;
  }

  // --- the normal form --------------------------------------------------------------------------------------------

  /** An expansion leaves no visible call, and it ran a macro just when there was one. What it
      gives back, if tame, it would leave without running any macro. */
  lemma ExpansionIsNormal(h: Host, form: Form, ctx: Context)
    requires Tame(form, ctx.macros.Keys) && TameHost(h, ctx.macros.Keys) && "defeffect" !in ctx.macros
    ensures var r := ExpandForm(h, form, ctx, 0);
            r.Success? ==>
              && Settled(r.value.0, ctx.macros.Keys, ctx.shadowed)
              && (r.value.1.traces == ctx.traces <==> Settled(form, ctx.macros.Keys, ctx.shadowed))
              && (Tame(r.value.0, ctx.macros.Keys) ==>
                    var again := ExpandForm(h, r.value.0, r.value.1, 0);
                    again.Success? ==> again.value.1.traces == r.value.1.traces)
  {
    hide ExpandForm, Settled, Tame, TameHost, Kept;
    FormNormal(h, form, ctx, 0);
    CallsAreRun(h, form, ctx, 0);
    var r := ExpandForm(h, form, ctx, 0);
    if r.Success? && Tame(r.value.0, ctx.macros.Keys) { CallsAreRun(h, r.value.0, r.value.1, 0); }
  }
}

/**
 Expansion without macros (qy/macro/expand.py). Code that neither has nor defines a macro is
 left as it is, except that expansion rebuilds every list that it walks through: a dotted
 list becomes a proper one or is refused, an empty list in a body is dropped, and a
 quasiquote is replaced by the code that builds it.
 */
module MacroFree {
  import opened Wrappers
  import opened Syntax
  import opened Quasiquote
  import opened TemplateEval
  import opened MacroExpand

  /** No symbol that could bring a macro in. */
  predicate Quiet(form: Form) {
    match form
    case Symbol(name) => name != "macro" && name != "from" && name != "component"
    case Chain(head, tail) => Quiet(head) && Quiet(tail)
    case _ => true
  }

  predicate AllQuiet(forms: seq<Form>) { forall k :: 0 <= k < |forms| ==> Quiet(forms[k]) }

  predicate NoNil(forms: seq<Form>) { forall k :: 0 <= k < |forms| ==> !forms[k].Nil? }

  /** How many items in front of the body a form has. */
  function BodyStart(name: Name): Option<nat> {
    if name == "let" || name == "lambda" || name == "define" || name == "module" then Some(2)
    else if name == "defun" then Some(3)
    else None
  }

  /** Expansion meets no dotted list, no quasiquote with an argument and no empty list in a body. */
  predicate Unchanged(form: Form)
    decreases Size(form), 0
  {
    if !form.Chain? then true
    else if Args(form).None? then false
    else
      var items := ListItems(form);
      ItemsAreSmaller(form);
      var name := if form.head.Symbol? then form.head.name else "";
      if name == "quote" then true
      else if name == "quasiquote" then |Args(form).value| != 1
      else if name == "let" && |items| >= 2 && IsListOrNil(items[1]) then Proper(form).Some? && LetUnchanged(items)
      else if BodyStart(name).Some? then Proper(form).Some? && BodyUnchanged(items, BodyStart(name).value)
      else Proper(form).Some? && AllUnchanged(items)
  }

  predicate AllUnchanged(items: seq<Form>)
    decreases SizeOf(items), 1
  {
    items == [] || (Unchanged(items[0]) && AllUnchanged(items[1..]))
  }

  predicate BodyUnchanged(items: seq<Form>, bodyStart: nat)
    decreases SizeOf(items), 2
  {
    if |items| <= bodyStart then AllUnchanged(items)
    else
      PartsAreSmaller(items, bodyStart);
      AllUnchanged(items[..bodyStart]) && AllUnchanged(items[bodyStart..]) && NoNil(items[bodyStart..])
  }

  predicate LetUnchanged(items: seq<Form>)
    requires |items| >= 2 && IsListOrNil(items[1])
    decreases SizeOf(items), 2
  {
    LetIsSmaller(items);
    PartsAreSmaller(items, 2);
    && (items[1].Chain? ==> Proper(items[1]).Some?) && PairsUnchanged(ListItems(items[1]))
    && AllUnchanged(items[2..]) && NoNil(items[2..])
  }

  predicate PairsUnchanged(pairs: seq<Form>)
    decreases SizeOf(pairs), 1
  {
    pairs == [] ||
    (var pair := pairs[0];
     && (if IsBinding(pair) then
           ItemsAreSmaller(pair);
           ItemIsSmaller(ListItems(pair), 1);
           Proper(pair).Some? && Unchanged(ListItems(pair)[1])
         else Unchanged(pair))
     && PairsUnchanged(pairs[1..]))
  }

  // --- lists and their items ------------------------------------------------------------------

  lemma {:induction false} ProperItems(form: Form)
    requires form.Chain?
    ensures Proper(form).Some? ==> Proper(form).value == ListItems(form)
    ensures forall items :: ListToChain(items, Nil) == form <==> Proper(form) == Some(items)
  {
    if form.tail.Chain? { ProperItems(form.tail); }
    forall items ensures ListToChain(items, Nil) == form <==> Proper(form) == Some(items) {
      ProperOfChain(items);
      if Proper(form) == Some(items) { ChainOfProper(form); }
    }
  }

  lemma {:induction false} QuietItems(form: Form)
    requires form.Chain? && Quiet(form)
    ensures AllQuiet(ListItems(form))
  {
    if form.tail.Chain? { QuietItems(form.tail); }
  }

  lemma {:induction false} ExpandIsQuiet(form: Form, depth: nat)
    requires Quiet(form)
    ensures Quiet(Expand(form, depth))
    decreases form, 1
  {
    BuildersAreQuiet();
    if form.Chain? {
      ArgumentIsCall1(form);
      var argument := Argument(form);
      if form.head == Symbol("unquote") {
        if argument.Some? && depth > 0 { ExpandIsQuiet(argument.value, depth - 1); }
      } else if form.head == Symbol("quasiquote") {
        if argument.Some? { ExpandIsQuiet(argument.value, depth + 1); }
      } else {
        ExpandChainIsQuiet(form, depth);
      }
    }
  }

  lemma BuildersAreQuiet()
    ensures Quiet(Symbol("quote")) && Quiet(Symbol("list")) && Quiet(Symbol("cons")) && Quiet(Symbol("append"))
    ensures Quiet(Symbol("unquote")) && Quiet(Symbol("quasiquote"))
  {
    assert |"macro"| == 5 && |"from"| == 4 && |"component"| == 9;
    assert "quote"[0] == 'q' && "macro"[0] == 'm' && "list"[0] == 'l' && "cons"[0] == 'c' && "from"[0] == 'f';
  }

  lemma {:induction false} ExpandChainIsQuiet(form: Form, depth: nat)
    requires form.Chain? && Quiet(form)
    ensures Quiet(ExpandChain(form, depth))
    decreases form, 0
  {
    BuildersAreQuiet();
    if form.tail.Chain? { ExpandChainIsQuiet(form.tail, depth); }
    var items := Proper(form.head);
    if items.Some? && |items.value| == 2 {
      assert items.value[1..] == Proper(form.head.tail).value;
      assert items.value[1] == form.head.tail.head;
      assert Quiet(form.head) && Quiet(form.head.tail);
    }
    ExpandIsQuiet(form.head, depth);
    var rest := if form.tail.Chain? then ExpandChain(form.tail, depth) else Call1("quote", form.tail);
    QuietCalls("quote", form.tail, form.tail);
    QuietCalls("append", if items.Some? && |items.value| == 2 then items.value[1] else form.head, rest);
    QuietCalls("cons", Expand(form.head, depth), rest);
  }

  lemma QuietCalls(name: Name, a: Form, b: Form)
    requires Quiet(Symbol(name)) && Quiet(a)
    ensures Quiet(Call1(name, a)) && (Quiet(b) ==> Quiet(Call2(name, a, b)))
  {
    assert Quiet(Chain(a, Nil)) && (Quiet(b) ==> Quiet(Chain(b, Nil)));
  }

  lemma NotUnderOtherNames()
    ensures "quote" != "quasiquote" && "let" != "lambda" && "macro" != "from"
    ensures forall n :: n in ["let", "lambda", "define", "module", "defun"] ==> n != "quote" && n != "quasiquote"
  {
    assert |"quote"| == 5 && |"quasiquote"| == 10 && |"let"| == 3 && |"lambda"| == 6 && |"macro"| == 5 && |"from"| == 4;
    assert |"define"| == 6 && |"module"| == 6 && |"defun"| == 5 && "quote"[0] == 'q' && "defun"[0] == 'd';
  }

  // --- without macros -----------------------------------------------------------------------------

  /** What one expansion without macros comes to: no macro appears, no quasiquote is added, and
      nothing is changed exactly when the form is of the unchanged kind. */
  ghost predicate Settled(h: Host, form: Form, ctx: Context, depth: nat) {
    var r := ExpandForm(h, form, ctx, depth);
    && (r.Success? ==> r.value.1.macros == ctx.macros && Quasiquotes(r.value.0) <= Quasiquotes(form))
    && ((r.Success? && r.value.0 == form) <==> Unchanged(form))
  }

  /** The same for a list of items. */
  ghost predicate SettledList(r: ExpandedList, items: seq<Form>, ctx: Context, same: bool) {
    && (r.Success? ==> r.value.1.macros == ctx.macros && QuasiquotesIn(r.value.0) <= QuasiquotesIn(items)
                       && |r.value.0| <= |items|)
    && ((r.Success? && r.value.0 == items) <==> same)
  }

  lemma {:induction false} FormSettles(h: Host, form: Form, ctx: Context, depth: nat)
    requires Quiet(form) && ctx.macros == map[] && depth <= h.maxDepth
    ensures Settled(h, form, ctx, depth)
    decreases Quasiquotes(form), Size(form), 0
  {
    hide ExpandBody, ExpandLet, ExpandItems, Expand, BodyUnchanged, LetUnchanged, AllUnchanged, Proper, Args;
    if form.Chain? && Args(form).Some? {
      var args, items := Args(form).value, ListItems(form);
      ItemsAreSmaller(form);
      QuietItems(form);
      ProperItems(form);
      NotUnderOtherNames();
      var name := if form.head.Symbol? then form.head.name else "";
      if name == "quote" {
      } else if name == "quasiquote" {
        if |args| == 1 {
          ArgumentsAreFewer(form);
          QuietArgument(form);
          ExpandKeepsQuasiquotes(args[0], 0);
          ExpandIsQuiet(args[0], 0);
          FormSettles(h, Expand(args[0], 0), ctx, depth);
        }
      } else if name == "let" && |items| >= 2 && IsListOrNil(items[1]) {
        LetSettles(h, items, ctx, depth);
        Rebuilt(form, ExpandLet(h, items, ctx, depth), ctx, LetUnchanged(items));
      } else if BodyStart(name).Some? {
        var shadows := name != "module";
        assert IsComponentDefinition(items) ==> !Quiet(items[2]);
        BodySettles(h, items, ctx, depth, BodyStart(name).value, shadows);
        Rebuilt(form, ExpandBody(h, items, ctx, depth, BodyStart(name).value, shadows), ctx,
                BodyUnchanged(items, BodyStart(name).value));
      } else {
        ItemsSettle(h, items, ctx, depth);
        Chained(ExpandItems(h, items, ctx, depth), items, ctx, AllUnchanged(items));
        Rebuilt(form, ChainOf(ExpandItems(h, items, ctx, depth)), ctx, AllUnchanged(items));
      }
    }
  }

  lemma QuietArgument(form: Form)
    requires form.Chain? && Quiet(form) && Args(form).Some? && |Args(form).value| == 1
    ensures Quiet(Args(form).value[0])
  {
    ArgsAreSmaller(form);
  }

  function ChainOf(r: ExpandedList): Expanded {
    if r.Failure? then Failure(r.error) else Success((ListToChain(r.value.0, Nil), r.value.1))
  }

  /** The same for a list that is built from items. */
  ghost predicate SettledChain(r: Expanded, items: seq<Form>, ctx: Context, same: bool) {
    && (r.Success? ==> r.value.1.macros == ctx.macros && Quasiquotes(r.value.0) <= QuasiquotesIn(items)
                       && Proper(r.value.0).Some?)
    && ((r.Success? && r.value.0 == ListToChain(items, Nil)) <==> same)
  }

  lemma {:induction false} CountOfChain(items: seq<Form>)
    ensures Quasiquotes(ListToChain(items, Nil)) == QuasiquotesIn(items)
  {
    if items != [] { CountOfChain(items[1..]); }
  }

  lemma SameChain(a: seq<Form>, b: seq<Form>)
    ensures ListToChain(a, Nil) == ListToChain(b, Nil) <==> a == b
  {
    ProperOfChain(a);
    ProperOfChain(b);
  }

  lemma Chained(r: ExpandedList, items: seq<Form>, ctx: Context, same: bool)
    requires SettledList(r, items, ctx, same)
    ensures SettledChain(ChainOf(r), items, ctx, same)
  {
    if r.Success? {
      CountOfChain(r.value.0);
      ProperOfChain(r.value.0);
      SameChain(r.value.0, items);
    }
  }

  /** A form is given back only if it was a proper list with unchanged items. */
  lemma Rebuilt(form: Form, r: Expanded, ctx: Context, same: bool)
    requires form.Chain? && SettledChain(r, ListItems(form), ctx, same)
    ensures (r.Success? && r.value.0 == form) <==> Proper(form).Some? && same
  {
    ProperItems(form);
    SameChain(ListItems(form), ListItems(form));
  }

  lemma {:induction false} ItemsSettle(h: Host, items: seq<Form>, ctx: Context, depth: nat)
    requires AllQuiet(items) && ctx.macros == map[] && depth <= h.maxDepth
    ensures SettledList(ExpandItems(h, items, ctx, depth), items, ctx, AllUnchanged(items))
    decreases QuasiquotesIn(items), SizeOf(items), 1
  {
    hide ExpandForm, Unchanged;
    if items != [] {
      FormSettles(h, items[0], ctx, depth);
      var first := ExpandForm(h, items[0], ctx, depth);
      if first.Success? {
        ItemsSettle(h, items[1..], first.value.1, depth);
        var others := ExpandItems(h, items[1..], first.value.1, depth);
        if others.Success? { FirstAndRest(first.value.0, others.value.0, items); }
      }
    }
  }

  lemma FirstAndRest(first: Form, others: seq<Form>, items: seq<Form>)
    requires items != []
    ensures [first] + others == items <==> first == items[0] && others == items[1..]
    ensures QuasiquotesIn([first] + others) == Quasiquotes(first) + QuasiquotesIn(others)
  {
    assert ([first] + others)[1..] == others;
    assert items == [items[0]] + items[1..];
  }

  lemma {:induction false} FormsSettle(h: Host, items: seq<Form>, ctx: Context, depth: nat, shadows: bool)
    requires AllQuiet(items) && ctx.macros == map[] && depth <= h.maxDepth
    ensures SettledList(ExpandForms(h, items, ctx, depth, shadows), items, ctx, AllUnchanged(items) && NoNil(items))
    decreases QuasiquotesIn(items), SizeOf(items), 1
  {
    hide ExpandForm, Unchanged;
    if items != [] {
      FormSettles(h, items[0], ctx, depth);
      var first := ExpandForm(h, items[0], ctx, depth);
      if first.Success? {
        var after := if shadows then first.value.1.(shadowed := first.value.1.shadowed + DefinedNames(items[0]))
                     else first.value.1;
        FormsSettle(h, items[1..], after, depth, shadows);
        var others := ExpandForms(h, items[1..], after, depth, shadows);
        if others.Success? {
          FirstAndRest(first.value.0, others.value.0, items);
          assert [] + others.value.0 == others.value.0;
        }
      }
    }
  }

  lemma {:induction false} BodySettles(h: Host, items: seq<Form>, ctx: Context, depth: nat, bodyStart: nat, shadows: bool)
    requires AllQuiet(items) && ctx.macros == map[] && depth <= h.maxDepth
    ensures SettledChain(ExpandBody(h, items, ctx, depth, bodyStart, shadows), items, ctx, BodyUnchanged(items, bodyStart))
    decreases QuasiquotesIn(items), SizeOf(items), 2
  {
    hide ExpandItems, ExpandForms, AllUnchanged;
    if |items| <= bodyStart {
      ItemsSettle(h, items, ctx, depth);
      Chained(ExpandItems(h, items, ctx, depth), items, ctx, AllUnchanged(items));
    } else {
      PartsAreSmaller(items, bodyStart);
      var front, back := items[..bodyStart], items[bodyStart..];
      ItemsSettle(h, front, ctx, depth);
      var prefix := ExpandItems(h, front, ctx, depth);
      if prefix.Success? {
        var inner := if shadows then prefix.value.1.(shadowed := prefix.value.1.shadowed + ShadowedNames(items, bodyStart))
                     else prefix.value.1;
        FormsSettle(h, back, inner, depth, shadows);
        var body := ExpandForms(h, back, inner, depth, shadows);
        if body.Success? { Joined(prefix.value.0, body.value.0, front, back, items); }
      }
    }
  }

  lemma Joined(a: seq<Form>, b: seq<Form>, front: seq<Form>, back: seq<Form>, items: seq<Form>)
    requires items == front + back && |a| <= |front| && |b| <= |back|
    requires QuasiquotesIn(a) <= QuasiquotesIn(front) && QuasiquotesIn(b) <= QuasiquotesIn(back)
    ensures Proper(ListToChain(a + b, Nil)).Some?
    ensures Quasiquotes(ListToChain(a + b, Nil)) <= QuasiquotesIn(items)
    ensures ListToChain(a + b, Nil) == ListToChain(items, Nil) <==> a == front && b == back
  {
    ProperOfChain(a + b);
    CountOfChain(a + b);
    SameChain(a + b, items);
    assert (a + b)[..|a|] == a && (a + b)[|a|..] == b;
    assert items[..|front|] == front && items[|front|..] == back;
    PartsAreSmaller(a + b, |a|);
    PartsAreSmaller(items, |front|);
    if a + b == items { assert |a| == |front|; }
  }

  lemma {:induction false} PairsSettle(h: Host, pairs: seq<Form>, ctx: Context, depth: nat)
    requires AllQuiet(pairs) && ctx.macros == map[] && depth <= h.maxDepth
    ensures SettledList(ExpandBindings(h, pairs, ctx, depth), pairs, ctx, PairsUnchanged(pairs))
    decreases QuasiquotesIn(pairs), SizeOf(pairs), 1
  {
    hide ExpandForm, Unchanged;
    if pairs != [] {
      var pair, items := pairs[0], ListItems(pairs[0]);
      if IsBinding(pair) {
        ItemsAreSmaller(pair);
        ItemIsSmaller(items, 1);
        QuietItems(pair);
        FormSettles(h, items[1], ctx, depth);
        var value := ExpandForm(h, items[1], ctx, depth);
        if value.Success? {
          PairsSettle(h, pairs[1..], value.value.1, depth);
          var others := ExpandBindings(h, pairs[1..], value.value.1, depth);
          BindingRebuilt(pair, value.value.0);
          if others.Success? {
            FirstAndRest(ListToChain([items[0], value.value.0], Nil), others.value.0, pairs);
          }
        }
      } else {
        FormSettles(h, pair, ctx, depth);
        var whole := ExpandForm(h, pair, ctx, depth);
        if whole.Success? {
          PairsSettle(h, pairs[1..], whole.value.1, depth);
          var others := ExpandBindings(h, pairs[1..], whole.value.1, depth);
          if others.Success? { FirstAndRest(whole.value.0, others.value.0, pairs); }
        }
      }
    }
  }

  lemma BindingRebuilt(pair: Form, value: Form)
    requires IsBinding(pair)
    ensures var items := ListItems(pair);
            var rebuilt := ListToChain([items[0], value], Nil);
            && (rebuilt == pair <==> Proper(pair).Some? && value == items[1])
            && (Quasiquotes(value) <= Quasiquotes(items[1]) ==> Quasiquotes(rebuilt) <= Quasiquotes(pair))
  {
    var items := ListItems(pair);
    assert items == [items[0], items[1]];
    ProperItems(pair);
    ItemsAreSmaller(pair);
    CountOfChain([items[0], value]);
    FirstAndRest(items[0], [value], items);
    FirstAndRest(items[0], [items[1]], items);
    FirstAndRest(value, [], [value]);
    FirstAndRest(items[1], [], [items[1]]);
    assert [items[0]] + [value] == [items[0], value] && [value] + [] == [value] && [items[1]] + [] == [items[1]];
  }

  lemma {:induction false} LetSettles(h: Host, items: seq<Form>, ctx: Context, depth: nat)
    requires AllQuiet(items) && ctx.macros == map[] && depth <= h.maxDepth
    requires |items| >= 2 && IsListOrNil(items[1])
    ensures SettledChain(ExpandLet(h, items, ctx, depth), items, ctx, LetUnchanged(items))
    decreases QuasiquotesIn(items), SizeOf(items), 2
  {
    hide ExpandBindings, ExpandForms, PairsUnchanged, AllUnchanged;
    var pairs, back := ListItems(items[1]), items[2..];
    LetIsSmaller(items);
    PartsAreSmaller(items, 2);
    if items[1].Chain? { QuietItems(items[1]); }
    PairsSettle(h, pairs, ctx, depth);
    var bindings := ExpandBindings(h, pairs, ctx, depth);
    if bindings.Success? {
      var inner := bindings.value.1.(shadowed := bindings.value.1.shadowed + BoundNames(pairs));
      FormsSettle(h, back, inner, depth, true);
      var body := ExpandForms(h, back, inner, depth, true);
      if body.Success? {
        var rebuilt := ListToChain(bindings.value.0, Nil);
        BindingsRebuilt(items[1], bindings.value.0);
        assert items[..2] == [items[0], items[1]];
        FirstAndRest(items[0], [rebuilt], items[..2]);
        FirstAndRest(rebuilt, [], [rebuilt]);
        FirstAndRest(items[0], [items[1]], items[..2]);
        FirstAndRest(items[1], [], [items[1]]);
        assert [items[0]] + [rebuilt] == [items[0], rebuilt] && [rebuilt] + [] == [rebuilt];
        assert [items[0]] + [items[1]] == items[..2] && [items[1]] + [] == [items[1]];
        Joined([items[0], rebuilt], body.value.0, items[..2], back, items);
      }
    }
  }

  lemma BindingsRebuilt(bindings: Form, pairs: seq<Form>)
    requires IsListOrNil(bindings) && QuasiquotesIn(pairs) <= QuasiquotesIn(ListItems(bindings))
    ensures Quasiquotes(ListToChain(pairs, Nil)) <= Quasiquotes(bindings)
    ensures ListToChain(pairs, Nil) == bindings <==> (bindings.Chain? ==> Proper(bindings).Some?) && pairs == ListItems(bindings)
  {
    CountOfChain(pairs);
    if bindings.Chain? {
      ItemsAreSmaller(bindings);
      ProperItems(bindings);
    } else {
      ProperOfChain(pairs);
    }
  }

  /** Code without macros is left alone exactly when it is of the unchanged kind. */
  lemma MacroFreeIsUnchanged(h: Host, form: Form, ctx: Context)
    requires Quiet(form) && ctx.macros == map[]
    ensures var r := ExpandForm(h, form, ctx, 0); (r.Success? && r.value.0 == form) <==> Unchanged(form)
  {
    FormSettles(h, form, ctx, 0);
  }
}

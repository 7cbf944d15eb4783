/**
 What every expansion keeps (qy/macro/expand.py): the traces only grow, none is deeper than
 the limit allows, and a name that hides macros is not expanded anywhere inside.
 */
module MacroTraces {
  import opened Wrappers
  import opened Syntax
  import opened Quasiquote
  import opened TemplateEval
  import opened MacroExpand

  /** From one context to a later one, through expansions that start at `depth`. */
  ghost predicate Grows(h: Host, a: Context, b: Context, depth: nat) {
    && a.shadowed <= b.shadowed && |a.traces| <= |b.traces| && b.traces[..|a.traces|] == a.traces
    && forall k :: |a.traces| <= k < |b.traces| ==>
         depth < b.traces[k].depth <= h.maxDepth + 1 && b.traces[k].operator !in a.shadowed
  }

  lemma GrowsThen(h: Host, a: Context, b: Context, c: Context, depth: nat)
    requires Grows(h, a, b, depth) && Grows(h, b, c, depth)
    ensures Grows(h, a, c, depth)
  {
    assert c.traces[..|a.traces|] == c.traces[..|b.traces|][..|a.traces|];
    forall k | |a.traces| <= k < |c.traces|
      ensures depth < c.traces[k].depth <= h.maxDepth + 1 && c.traces[k].operator !in a.shadowed
    {
      if k < |b.traces| { assert c.traces[k] == c.traces[..|b.traces|][k] == b.traces[k]; }
    }
  }

  /** Hiding more names and giving back the scope change neither. */
  lemma GrowsAround(h: Host, a: Context, more: set<Name>, b: Context, depth: nat)
    requires Grows(h, a.(shadowed := a.shadowed + more), b, depth)
    ensures Grows(h, a, Back(a, b), depth)
  {
  }

  lemma {:induction false} FormGrows(h: Host, form: Form, ctx: Context, depth: nat)
    ensures var r := ExpandForm(h, form, ctx, depth);
            r.Success? ==> Grows(h, ctx, r.value.1, depth) && r.value.1.shadowed == ctx.shadowed
    decreases h.maxDepth + 1 - depth, Quasiquotes(form), Size(form), 0
  {
    hide ExpandBody, ExpandLet, ExpandItems, Expand, Args;
    if depth <= h.maxDepth && form.Chain? && Args(form).Some? {
      var args, items := Args(form).value, ListItems(form);
      ItemsAreSmaller(form);
      var name := if form.head.Symbol? then form.head.name else "";
      if name == "quote" || name == "from" || (name == "macro" && IsMacroDefinition(items)) {
      } else if name == "quasiquote" {
        if |args| == 1 {
          ArgumentsAreFewer(form);
          ExpandKeepsQuasiquotes(args[0], 0);
          FormGrows(h, Expand(args[0], 0), ctx, depth);
        }
      } else if name == "let" && |items| >= 2 && IsListOrNil(items[1]) {
        LetGrows(h, items, ctx, depth);
      } else if name == "let" || name == "lambda" {
        BodyGrows(h, items, ctx, depth, 2, true);
      } else if name == "defun" {
        BodyGrows(h, items, ctx, depth, 3, true);
      } else if name == "module" {
        BodyGrows(h, items, ctx, depth, 2, false);
      } else if name == "define" {
        BodyGrows(h, items, ctx, depth, 2, true);
      } else if form.head.Symbol? && name !in ctx.shadowed && name in ctx.macros {
        var ran := h.run(ctx.macros[name], args, ctx.state);
        if ran.Success? {
          var next := ctx.(state := ran.value.1, traces := ctx.traces + [Trace(name, depth + 1)]);
          FormGrows(h, ran.value.0, next, depth + 1);
          assert Grows(h, ctx, next, depth);
          var r := ExpandForm(h, ran.value.0, next, depth + 1);
          if r.Success? { GrowsThen(h, ctx, next, r.value.1, depth); }
        }
      } else {
        ItemsGrow(h, items, ctx, depth);
      }
    }
  }

  lemma {:induction false} ItemsGrow(h: Host, items: seq<Form>, ctx: Context, depth: nat)
    ensures var r := ExpandItems(h, items, ctx, depth);
            r.Success? ==> Grows(h, ctx, r.value.1, depth) && r.value.1.shadowed == ctx.shadowed
    decreases h.maxDepth + 1 - depth, QuasiquotesIn(items), SizeOf(items), 1
  {
    hide ExpandForm, Grows;
    if items == [] {
      GrowsNot(h, ctx, depth);
    } else {
      FormGrows(h, items[0], ctx, depth);
      var first := ExpandForm(h, items[0], ctx, depth);
      if first.Success? {
        ItemsGrow(h, items[1..], first.value.1, depth);
        var others := ExpandItems(h, items[1..], first.value.1, depth);
        if others.Success? { GrowsThen(h, ctx, first.value.1, others.value.1, depth); }
      }
    }
  }

  lemma GrowsNot(h: Host, ctx: Context, depth: nat)
    ensures Grows(h, ctx, ctx, depth)
  {
  }

  lemma {:induction false} FormsGrow(h: Host, items: seq<Form>, ctx: Context, depth: nat, shadows: bool)
    ensures var r := ExpandForms(h, items, ctx, depth, shadows); r.Success? ==> Grows(h, ctx, r.value.1, depth)
    decreases h.maxDepth + 1 - depth, QuasiquotesIn(items), SizeOf(items), 1
  {
    hide ExpandForm;
    if items != [] {
      FormGrows(h, items[0], ctx, depth);
      var first := ExpandForm(h, items[0], ctx, depth);
      if first.Success? {
        var after := if shadows then first.value.1.(shadowed := first.value.1.shadowed + DefinedNames(items[0]))
                     else first.value.1;
        assert Grows(h, ctx, after, depth);
        FormsGrow(h, items[1..], after, depth, shadows);
        var others := ExpandForms(h, items[1..], after, depth, shadows);
        if others.Success? { GrowsThen(h, ctx, after, others.value.1, depth); }
      }
    }
  }

  lemma {:induction false} BodyGrows(h: Host, items: seq<Form>, ctx: Context, depth: nat, bodyStart: nat, shadows: bool)
    ensures var r := ExpandBody(h, items, ctx, depth, bodyStart, shadows);
            r.Success? ==> Grows(h, ctx, r.value.1, depth) && r.value.1.shadowed == ctx.shadowed
    decreases h.maxDepth + 1 - depth, QuasiquotesIn(items), SizeOf(items), 2
  {
    hide ExpandItems, ExpandForms, Grows;
    if |items| <= bodyStart {
      ItemsGrow(h, items, ctx, depth);
    } else {
      PartsAreSmaller(items, bodyStart);
      ItemsGrow(h, items[..bodyStart], ctx, depth);
      var prefix := ExpandItems(h, items[..bodyStart], ctx, depth);
      if prefix.Success? {
        var outer := prefix.value.1;
        var more := if shadows then ShadowedNames(items, bodyStart) else {};
        var inner := outer.(shadowed := outer.shadowed + more);
        assert !shadows ==> inner == outer;
        FormsGrow(h, items[bodyStart..], inner, depth, shadows);
        var body := ExpandForms(h, items[bodyStart..], inner, depth, shadows);
        if body.Success? {
          GrowsAround(h, outer, more, body.value.1, depth);
          GrowsThen(h, ctx, outer, Back(outer, body.value.1), depth);
          StateIsNotSeen(h, ctx, Back(outer, body.value.1), depth);
        }
      }
    }
  }

  lemma StateIsNotSeen(h: Host, a: Context, b: Context, depth: nat)
    requires Grows(h, a, b, depth)
    ensures forall s :: Grows(h, a, b.(state := s), depth)
  {
  }

  lemma {:induction false} BindingsGrow(h: Host, pairs: seq<Form>, ctx: Context, depth: nat)
    ensures var r := ExpandBindings(h, pairs, ctx, depth);
            r.Success? ==> Grows(h, ctx, r.value.1, depth) && r.value.1.shadowed == ctx.shadowed
    decreases h.maxDepth + 1 - depth, QuasiquotesIn(pairs), SizeOf(pairs), 1
  {
    hide ExpandForm, Grows;
    if pairs == [] {
      GrowsNot(h, ctx, depth);
    } else {
      var pair, items := pairs[0], ListItems(pairs[0]);
      var part := pair;
      if IsBinding(pair) {
        ItemsAreSmaller(pair);
        ItemIsSmaller(items, 1);
        part := items[1];
      }
      FormGrows(h, part, ctx, depth);
      var first := ExpandForm(h, part, ctx, depth);
      if first.Success? {
        BindingsGrow(h, pairs[1..], first.value.1, depth);
        var others := ExpandBindings(h, pairs[1..], first.value.1, depth);
        if others.Success? { GrowsThen(h, ctx, first.value.1, others.value.1, depth); }
      }
    }
  }

  lemma {:induction false} LetGrows(h: Host, items: seq<Form>, ctx: Context, depth: nat)
    requires |items| >= 2 && IsListOrNil(items[1])
    ensures var r := ExpandLet(h, items, ctx, depth);
            r.Success? ==> Grows(h, ctx, r.value.1, depth) && r.value.1.shadowed == ctx.shadowed
    decreases h.maxDepth + 1 - depth, QuasiquotesIn(items), SizeOf(items), 2
  {
    hide ExpandBindings, ExpandForms, Grows;
    var pairs := ListItems(items[1]);
    LetIsSmaller(items);
    PartsAreSmaller(items, 2);
    BindingsGrow(h, pairs, ctx, depth);
    var bindings := ExpandBindings(h, pairs, ctx, depth);
    if bindings.Success? {
      var outer := bindings.value.1;
      var inner := outer.(shadowed := outer.shadowed + BoundNames(pairs));
      FormsGrow(h, items[2..], inner, depth, true);
      var body := ExpandForms(h, items[2..], inner, depth, true);
      if body.Success? {
        GrowsAround(h, outer, BoundNames(pairs), body.value.1, depth);
        GrowsThen(h, ctx, outer, Back(outer, body.value.1), depth);
      }
    }
  }
}

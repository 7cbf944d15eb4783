/**
 The normal form of macro expansion (qy/macro/expand.py): what an expansion gives back holds
 no visible call.
 */
module MacroNormal {
  import opened Wrappers
  import opened Syntax
  import opened Quasiquote
  import opened TemplateEval
  import opened MacroExpand
  import opened MacroTraces
  import opened MacroVisible
  import MacroFree

  // --- what stays of a form --------------------------------------------------------------------

  /** The first two items, where they are no lists. */
  ghost predicate FrontKept(a: seq<Form>, b: seq<Form>) {
    forall k :: 0 <= k < 2 && k < |a| && !a[k].Chain? ==> k < |b| && b[k] == a[k]
  }

  ghost predicate Kept(form: Form, result: Form, macros: set<Name>) {
    && (!form.Chain? ==> result == form)
    && (StaysList(form, macros) ==> result.Chain? && FrontKept(ListItems(form), ListItems(result)))
    && (form.Chain? && Plain(form, macros) ==> result.Chain? && ListItems(result) == ListItems(form))
  }

  ghost predicate AllKept(a: seq<Form>, b: seq<Form>, macros: set<Name>) {
    |a| == |b| && forall k :: 0 <= k < |a| ==> Kept(a[k], b[k], macros)
  }

  /** What one expansion comes to. */
  ghost predicate Normal(form: Form, result: Form, after: Context, ctx: Context) {
    && after.macros == ctx.macros && after.shadowed == ctx.shadowed
    && Settled(result, ctx.macros.Keys, ctx.shadowed) && Kept(form, result, ctx.macros.Keys)
  }

  ghost predicate NormalResult(r: Expanded, form: Form, ctx: Context) {
    r.Success? ==> Normal(form, r.value.0, r.value.1, ctx)
  }

  // --- lists that are built ----------------------------------------------------------------------

  lemma ItemsOfChain(items: seq<Form>)
    requires items != []
    ensures ListToChain(items, Nil).Chain? && ListItems(ListToChain(items, Nil)) == items
    ensures ListToChain(items, Nil).head == items[0]
  {
    MacroFree.ProperItems(ListToChain(items, Nil));
    ProperOfChain(items);
  }

  /** The parts of a form with a body, put together. */
  lemma BodyIsSettled(prefix: seq<Form>, body: seq<Form>, start: nat, macros: set<Name>, hidden: set<Name>, more: set<Name>)
    requires |prefix| == start >= 2 && prefix[0].Symbol? && MacroFree.BodyStart(prefix[0].name) == Some(start)
    requires prefix[0].name == "let" ==> !IsListOrNil(prefix[1])
    requires AllSettled(prefix, macros, hidden)
    requires if prefix[0].name == "module" then AllSettled(body, macros, hidden)
             else FormsSettled(body, macros, hidden + more) && more <= Binders(prefix, start)
    ensures Settled(ListToChain(prefix + body, Nil), macros, hidden)
  {
    var items := prefix + body;
    ItemsOfChain(items);
    MacroFree.NotUnderOtherNames();
    assert items[..start] == prefix && items[start..] == body;
    if body == [] {
      assert items == prefix;
    } else if prefix[0].name != "module" {
      assert Binders(items, start) == Binders(prefix, start);
      HidingMoreForms(body, macros, hidden + more, hidden + Binders(items, start));
    }
  }

  lemma LetIsSettled(pairs: seq<Form>, body: seq<Form>, macros: set<Name>, hidden: set<Name>)
    requires PairsSettled(pairs, macros, hidden) && FormsSettled(body, macros, hidden + LetNames(pairs))
    ensures Settled(ListToChain([Symbol("let"), ListToChain(pairs, Nil)] + body, Nil), macros, hidden)
  {
    var items := [Symbol("let"), ListToChain(pairs, Nil)] + body;
    ItemsOfChain(items);
    MacroFree.NotUnderOtherNames();
    if pairs != [] { ItemsOfChain(pairs); }
    assert ListItems(items[1]) == pairs && items[2..] == body;
  }

  lemma ItemsAreSettled(items: seq<Form>, macros: set<Name>, hidden: set<Name>)
    requires items != [] && AllSettled(items, macros, hidden)
    requires items[0].Symbol? ==>
               var name := items[0].name;
               && name != "quasiquote" && (name == "let" && |items| >= 2 ==> !IsListOrNil(items[1]))
               && match MacroFree.BodyStart(name) {
                    case Some(start) => |items| <= start
                    case None => name !in macros || name in hidden
                  }
    ensures Settled(ListToChain(items, Nil), macros, hidden)
  {
    ItemsOfChain(items);
  }

  /** What a form defines, its expansion defines. */
  lemma DefinitionsStay(form: Form, result: Form, macros: set<Name>)
    requires Kept(form, result, macros) && "defeffect" !in macros
    ensures DefinedNames(form) <= Definitions(result)
  {
    if form.Chain? {
      ItemsAreSmaller(form);
      var items := ListItems(form);
      if DefinedNames(form) != {} {
        MacroFree.NotUnderOtherNames();
        assert items[0].name in ["define", "defun", "defeffect", "module"];
        NoOtherMeaning(items[0].name);
        assert StaysList(form, macros);
        assert FrontKept(items, ListItems(result));
      }
    }
  }

  lemma NoOtherMeaning(name: Name)
    requires name in ["define", "defun", "defeffect", "module"]
    ensures name != "quasiquote" && name != "macro" && name != "from"
    ensures name != "defeffect" ==> MacroFree.BodyStart(name).Some?
  {
    assert |"define"| == 6 && |"module"| == 6 && |"defun"| == 5 && |"defeffect"| == 9;
    assert |"quasiquote"| == 10 && |"macro"| == 5 && |"from"| == 4 && "defun"[0] == 'd' && "macro"[0] == 'm';
  }

  // --- one step of each kind -----------------------------------------------------------------------

  /** What the expansion of a list of items comes to. */
  ghost predicate NormalItems(r: ExpandedList, items: seq<Form>, ctx: Context) {
    r.Success? ==>
      && r.value.1.macros == ctx.macros && r.value.1.shadowed == ctx.shadowed
      && AllSettled(r.value.0, ctx.macros.Keys, ctx.shadowed) && AllKept(items, r.value.0, ctx.macros.Keys)
  }

  lemma UnrunIsNormal(form: Form, ctx: Context)
    requires form.Chain? && form.head != Symbol("quote") ==>
               form.head == Symbol("quasiquote") && Args(form).Some? && |Args(form).value| != 1
    ensures Normal(form, form, ctx, ctx)
  {
    MacroFree.NotUnderOtherNames();
  }

  /** A template is replaced by its code, and a call by what the macro makes of it. */
  lemma ReplacedIsNormal(form: Form, code: Form, r: Expanded, ctx: Context, next: Context)
    requires form.Chain? && form.head.Symbol? && !StaysList(form, ctx.macros.Keys) && !Plain(form, ctx.macros.Keys)
    requires NormalResult(r, code, next) && next.macros == ctx.macros && next.shadowed == ctx.shadowed
    ensures NormalResult(r, form, ctx)
  {
  }

  lemma {:induction false} PartsAreTame(items: seq<Form>, k: nat, macros: set<Name>)
    requires AllTame(items, macros) && k <= |items|
    ensures AllTame(items[..k], macros) && AllTame(items[k..], macros)
    ensures k < |items| ==> Tame(items[k], macros)
  {
    if k > 0 {
      PartsAreTame(items[1..], k - 1, macros);
      assert items[..k][1..] == items[1..][..k - 1] && items[k..] == items[1..][k - 1..];
    } else {
      assert items[..0] == [] && items[0..] == items;
    }
  }

  lemma ComponentIsNotTame(form: Form, macros: set<Name>)
    requires form.Chain? && form.head == Symbol("component")
    ensures !Tame(form, macros)
  {
    assert |"component"| == 9 && |"quote"| == 5 && |"quasiquote"| == 10 && |"let"| == 3;
  }

  lemma NoComponent(form: Form, macros: set<Name>)
    requires form.Chain? && AllTame(ListItems(form), macros)
    ensures !IsComponentDefinition(ListItems(form))
  {
    hide Tame, AllTame;
    var items := ListItems(form);
    if |items| == 3 {
      PartsAreTame(items, 2, macros);
      if items[2].Chain? && items[2].head == Symbol("component") { ComponentIsNotTame(items[2], macros); }
    }
  }

  lemma ListIsNormal(form: Form, r: ExpandedList, ctx: Context)
    requires form.Chain? && NormalItems(r, ListItems(form), ctx)
    requires form.head.Chain? ==> StaysList(form.head, ctx.macros.Keys)
    requires form.head.Symbol? ==>
               var name, items := form.head.name, ListItems(form);
               && name != "quasiquote" && (name == "let" && |items| >= 2 ==> !IsListOrNil(items[1]))
               && (if MacroFree.BodyStart(name).Some? then |items| <= MacroFree.BodyStart(name).value
                   else name !in ctx.macros || name in ctx.shadowed)
    ensures NormalResult(MacroFree.ChainOf(r), form, ctx)
  {
    hide Settled, AllSettled, Plain, StaysList;
    if r.Success? {
      var items, out, macros := ListItems(form), r.value.0, ctx.macros.Keys;
      ItemsAreSmaller(form);
      assert Kept(items[0], out[0], macros);
      if |items| >= 2 { assert Kept(items[1], out[1], macros); }
      ItemsAreSettled(out, macros, ctx.shadowed);
      ItemsOfChain(out);
      if Plain(form, macros) { PlainItemsStay(items, out, form, macros); }
    }
  }

  lemma PlainItemsStay(items: seq<Form>, out: seq<Form>, form: Form, macros: set<Name>)
    requires form.Chain? && Plain(form, macros) && items == ListItems(form) && AllKept(items, out, macros)
    ensures out == items
  {
    forall k | 0 <= k < |items| ensures out[k] == items[k] { assert items[k] in items && Kept(items[k], out[k], macros); }
  }

  /** Names that a form hides from its body stay hidden by what the form becomes. */
  lemma BindersStay(items: seq<Form>, out: seq<Form>, start: nat, macros: set<Name>)
    requires (start == 2 || start == 3) && |items| >= start && AllKept(items[..start], out, macros)
    requires Plain(items[start - 1], macros)
    ensures ShadowedNames(items, start) <= Binders(out, start)
  {
    var list := items[start - 1];
    assert items[..start][start - 1] == list && Kept(list, out[start - 1], macros);
    assert items[..start][1] == items[1] && Kept(items[1], out[1], macros);
    assert ListItems(out[start - 1]) == ListItems(list);
    assert ParameterNames(list) <= Parameters(list);
    if list.Chain? { ItemsAreSmaller(list); assert ListItems(list)[0] in ListItems(list); }
  }

  // --- the normal form ---------------------------------------------------------------------------

  lemma {:induction false} FormNormal(h: Host, form: Form, ctx: Context, depth: nat)
    requires Tame(form, ctx.macros.Keys) && TameHost(h, ctx.macros.Keys) && "defeffect" !in ctx.macros
    ensures NormalResult(ExpandForm(h, form, ctx, depth), form, ctx)
    decreases h.maxDepth + 1 - depth, Quasiquotes(form), Size(form), 0
  {
    hide ExpandBody, ExpandLet, ExpandItems, Expand, AllTame, Normal, TameHost, Plain;
    var macros := ctx.macros.Keys;
    if depth <= h.maxDepth && !form.Chain? {
      UnrunIsNormal(form, ctx);
    } else if depth <= h.maxDepth && Args(form).Some? {
      var args, items := Args(form).value, ListItems(form);
      ItemsAreSmaller(form);
      var name := if form.head.Symbol? then form.head.name else "";
      if name == "quote" || (name == "quasiquote" && |args| != 1) {
        UnrunIsNormal(form, ctx);
      } else if name == "quasiquote" {
        ArgumentsAreFewer(form);
        ExpandKeepsQuasiquotes(args[0], 0);
        var code := Expand(args[0], 0);
        FormNormal(h, code, ctx, depth);
        NotPlain(form, macros);
        ReplacedIsNormal(form, code, ExpandForm(h, code, ctx, depth), ctx, ctx);
      } else if name == "let" && |items| >= 2 && IsListOrNil(items[1]) {
        LetNormal(h, form, ctx, depth);
      } else if MacroFree.BodyStart(name).Some? {
        NoComponent(form, macros);
        BodyNormal(h, form, ctx, depth, MacroFree.BodyStart(name).value, name != "module");
      } else if form.head.Symbol? && name !in ctx.shadowed && name in ctx.macros {
        var ran := h.run(ctx.macros[name], args, ctx.state);
        if ran.Success? {
          var next := ctx.(state := ran.value.1, traces := ctx.traces + [Trace(name, depth + 1)]);
          CallIsTame(h, form, ctx);
          FormNormal(h, ran.value.0, next, depth + 1);
          NotPlain(form, macros);
          ReplacedIsNormal(form, ran.value.0, ExpandForm(h, ran.value.0, next, depth + 1), ctx, next);
        }
      } else {
        ItemsNormal(h, items, ctx, depth);
        ListIsNormal(form, ExpandItems(h, items, ctx, depth), ctx);
      }
    }
  }

  lemma NotPlain(form: Form, macros: set<Name>)
    requires form.Chain? && form.head.Symbol? && (form.head.name in macros || form.head.name in RESERVED)
    ensures !Plain(form, macros)
  {
  }

  lemma CallIsTame(h: Host, form: Form, ctx: Context)
    requires form.Chain? && form.head.Symbol? && form.head.name in ctx.macros && Args(form).Some?
    requires AllTame(ListItems(form), ctx.macros.Keys) && TameHost(h, ctx.macros.Keys)
    ensures var ran := h.run(ctx.macros[form.head.name], Args(form).value, ctx.state);
            ran.Success? ==> Tame(ran.value.0, ctx.macros.Keys)
  {
    hide Tame;
    var macros, args := ctx.macros.Keys, Args(form).value;
    ArgsAreRest(form);
    PartsAreTame(ListItems(form), 1, macros);
    assert AllTame(args, macros);
    var m, state := ctx.macros[form.head.name], ctx.state;
    if h.run(m, args, state).Success? { assert Tame(h.run(m, args, state).value.0, macros); }
  }

  lemma ArgsAreRest(form: Form)
    requires form.Chain? && Args(form).Some?
    ensures ListItems(form)[1..] == Args(form).value
  {
    if form.tail.Chain? { MacroFree.ProperItems(form.tail); }
  }

  lemma {:induction false} ItemsNormal(h: Host, items: seq<Form>, ctx: Context, depth: nat)
    requires AllTame(items, ctx.macros.Keys) && TameHost(h, ctx.macros.Keys) && "defeffect" !in ctx.macros
    ensures NormalItems(ExpandItems(h, items, ctx, depth), items, ctx)
    decreases h.maxDepth + 1 - depth, QuasiquotesIn(items), SizeOf(items), 1
  {
    hide ExpandForm, Settled, Kept, TameHost, Tame;
    if items != [] {
      FormNormal(h, items[0], ctx, depth);
      var first := ExpandForm(h, items[0], ctx, depth);
      if first.Success? {
        ItemsNormal(h, items[1..], first.value.1, depth);
        var others := ExpandItems(h, items[1..], first.value.1, depth);
        if others.Success? {
          var out := [first.value.0] + others.value.0;
          assert out[1..] == others.value.0;
          forall k | 0 <= k < |items| ensures Kept(items[k], out[k], ctx.macros.Keys) {
            if k > 0 { assert items[k] == items[1..][k - 1]; }
          }
        }
      }
    }
  }

  lemma {:induction false} FormsNormal(h: Host, items: seq<Form>, ctx: Context, depth: nat, shadows: bool)
    requires AllTame(items, ctx.macros.Keys) && TameHost(h, ctx.macros.Keys) && "defeffect" !in ctx.macros
    ensures var r := ExpandForms(h, items, ctx, depth, shadows);
            r.Success? ==>
              && r.value.1.macros == ctx.macros
              && (if shadows then FormsSettled(r.value.0, ctx.macros.Keys, ctx.shadowed)
                  else AllSettled(r.value.0, ctx.macros.Keys, ctx.shadowed))
    decreases h.maxDepth + 1 - depth, QuasiquotesIn(items), SizeOf(items), 1
  {
    hide ExpandForm, Settled, Kept, TameHost, Tame, Definitions, DefinedNames;
    if items != [] {
      FormNormal(h, items[0], ctx, depth);
      var macros := ctx.macros.Keys;
      var first := ExpandForm(h, items[0], ctx, depth);
      if first.Success? {
        var more := if shadows then DefinedNames(items[0]) else {};
        var after := if shadows then first.value.1.(shadowed := first.value.1.shadowed + DefinedNames(items[0]))
                     else first.value.1;
        FormsNormal(h, items[1..], after, depth, shadows);
        var others := ExpandForms(h, items[1..], after, depth, shadows);
        if others.Success? {
          var out := others.value.0;
          DefinitionsStay(items[0], first.value.0, macros);
          if first.value.0.Nil? {
            NilDefinesNothing();
            assert [] + out == out;
            assert shadows ==> ctx.shadowed + DefinedNames(items[0]) == ctx.shadowed;
          } else {
            assert ([first.value.0] + out)[1..] == out;
            if shadows {
              HidingMoreForms(out, macros, ctx.shadowed + more, ctx.shadowed + Definitions(first.value.0));
            }
          }
        }
      }
    }
  }

  lemma NilDefinesNothing()
    ensures Definitions(Nil) == {}
  {
  }

  lemma {:induction false} BodyNormal(h: Host, form: Form, ctx: Context, depth: nat, start: nat, shadows: bool)
    requires form.Chain? && form.head.Symbol? && MacroFree.BodyStart(form.head.name) == Some(start)
    requires shadows == (form.head.name != "module")
    requires form.head.name == "let" && |ListItems(form)| >= 2 ==> !IsListOrNil(ListItems(form)[1])
    requires Tame(form, ctx.macros.Keys) && TameHost(h, ctx.macros.Keys) && "defeffect" !in ctx.macros
    ensures NormalResult(ExpandBody(h, ListItems(form), ctx, depth, start, shadows), form, ctx)
    decreases h.maxDepth + 1 - depth, QuasiquotesIn(ListItems(form)), SizeOf(ListItems(form)), 2
  {
    hide ExpandItems, ExpandForms, Settled, TameHost, AllTame, Plain, Kept, ShadowedNames, Binders;
    var items, macros := ListItems(form), ctx.macros.Keys;
    MacroFree.NotUnderOtherNames();
    ItemsAreSmaller(form);
    if |items| <= start {
      ItemsNormal(h, items, ctx, depth);
      ListIsNormal(form, ExpandItems(h, items, ctx, depth), ctx);
    } else {
      PartsAreSmaller(items, start);
      PartsAreTame(items, start, macros);
      ItemsNormal(h, items[..start], ctx, depth);
      var prefix := ExpandItems(h, items[..start], ctx, depth);
      if prefix.Success? {
        var more := if shadows then ShadowedNames(items, start) else {};
        var inner := if shadows then prefix.value.1.(shadowed := prefix.value.1.shadowed + ShadowedNames(items, start))
                     else prefix.value.1;
        FormsNormal(h, items[start..], inner, depth, shadows);
        var body := ExpandForms(h, items[start..], inner, depth, shadows);
        if body.Success? {
          if shadows { BindersStay(items, prefix.value.0, start, macros); }
          BodyIsNormal(form, prefix.value.0, body.value.0, start, ctx, more);
        }
      }
    }
  }

  lemma BodyIsNormal(form: Form, prefix: seq<Form>, body: seq<Form>, start: nat, ctx: Context, more: set<Name>)
    requires form.Chain? && form.head.Symbol? && MacroFree.BodyStart(form.head.name) == Some(start)
    requires |ListItems(form)| > start && AllKept(ListItems(form)[..start], prefix, ctx.macros.Keys)
    requires form.head.name == "let" ==> !IsListOrNil(ListItems(form)[1])
    requires AllSettled(prefix, ctx.macros.Keys, ctx.shadowed)
    requires if form.head.name == "module" then AllSettled(body, ctx.macros.Keys, ctx.shadowed)
             else FormsSettled(body, ctx.macros.Keys, ctx.shadowed + more) && more <= Binders(prefix, start)
    ensures Settled(ListToChain(prefix + body, Nil), ctx.macros.Keys, ctx.shadowed)
    ensures Kept(form, ListToChain(prefix + body, Nil), ctx.macros.Keys)
  {
    hide Settled, AllSettled, FormsSettled, Binders;
    var items, macros := ListItems(form), ctx.macros.Keys;
    ItemsAreSmaller(form);
    assert items[..start][0] == items[0] && items[..start][1] == items[1];
    assert Kept(items[0], prefix[0], macros) && Kept(items[1], prefix[1], macros);
    BodyIsSettled(prefix, body, start, macros, ctx.shadowed, more);
    ItemsOfChain(prefix + body);
    BodyNamesAreReserved(form.head.name);
    NotPlain(form, macros);
  }

  lemma BodyNamesAreReserved(name: Name)
    requires MacroFree.BodyStart(name).Some?
    ensures name in RESERVED
  {
  }

  lemma {:induction false} PairsNormal(h: Host, pairs: seq<Form>, ctx: Context, depth: nat)
    requires PairsTame(pairs, ctx.macros.Keys) && TameHost(h, ctx.macros.Keys) && "defeffect" !in ctx.macros
    ensures var r := ExpandBindings(h, pairs, ctx, depth);
            r.Success? ==>
              && r.value.1.macros == ctx.macros && r.value.1.shadowed == ctx.shadowed && |r.value.0| == |pairs|
              && PairsSettled(r.value.0, ctx.macros.Keys, ctx.shadowed) && BoundNames(pairs) == LetNames(r.value.0)
    decreases h.maxDepth + 1 - depth, QuasiquotesIn(pairs), SizeOf(pairs), 1
  {
    hide ExpandForm, Settled, Kept, TameHost, Tame, BoundNames, LetNames;
    if pairs == [] {
      NoPairsNoNames();
    } else {
      var pair, items, macros := pairs[0], ListItems(pairs[0]), ctx.macros.Keys;
      if pair.Chain? {
        ItemsAreSmaller(pair);
        ItemIsSmaller(items, 1);
      }
      var part := if pair.Chain? then items[1] else pair;
      AtomIsTame(pair, macros);
      FormNormal(h, part, ctx, depth);
      var first := ExpandForm(h, part, ctx, depth);
      if first.Success? {
        PairsNormal(h, pairs[1..], first.value.1, depth);
        var others := ExpandBindings(h, pairs[1..], first.value.1, depth);
        if others.Success? {
          var out := if pair.Chain? then ListToChain([items[0], first.value.0], Nil) else first.value.0;
          if pair.Chain? { ItemsOfChain([items[0], first.value.0]); } else { AtomStays(pair, first.value.0, macros); }
          assert ([out] + others.value.0)[1..] == others.value.0;
          assert [pair] + pairs[1..] == pairs;
          FirstNames(pair, pairs[1..], out, others.value.0);
        }
      }
    }
  }

  lemma AtomIsTame(form: Form, macros: set<Name>)
    ensures !form.Chain? ==> Tame(form, macros)
  {
  }

  lemma AtomStays(form: Form, result: Form, macros: set<Name>)
    requires !form.Chain? && Kept(form, result, macros)
    ensures result == form
  {
  }

  lemma NoPairsNoNames()
    ensures BoundNames([]) == {} && LetNames([]) == {}
  {
  }

  lemma FirstNames(pair: Form, pairs: seq<Form>, out: Form, others: seq<Form>)
    requires if pair.Chain? then Pair(pair) && Pair(out) && out.head == pair.head else out == pair
    requires BoundNames(pairs) == LetNames(others)
    ensures BoundNames([pair] + pairs) == LetNames([out] + others)
  {
    var mine := if pair.Chain? then {pair.head.name} else {};
    if pair.Chain? { ItemsAreSmaller(pair); }
    assert BoundNames([pair] + pairs) == mine + BoundNames(pairs) by {
      forall p | p in pairs ensures p in [pair] + pairs {}
      assert pair in [pair] + pairs;
    }
    assert LetNames([out] + others) == mine + LetNames(others) by {
      forall p | p in others ensures p in [out] + others {}
      assert out in [out] + others;
    }
  }

  lemma {:induction false} LetNormal(h: Host, form: Form, ctx: Context, depth: nat)
    requires form.Chain? && form.head == Symbol("let") && |ListItems(form)| >= 2 && IsListOrNil(ListItems(form)[1])
    requires Tame(form, ctx.macros.Keys) && TameHost(h, ctx.macros.Keys) && "defeffect" !in ctx.macros
    ensures NormalResult(ExpandLet(h, ListItems(form), ctx, depth), form, ctx)
    decreases h.maxDepth + 1 - depth, QuasiquotesIn(ListItems(form)), SizeOf(ListItems(form)), 2
  {
    hide ExpandBindings, ExpandForms, Settled, TameHost, AllTame, PairsTame, Plain, BoundNames, LetNames;
    var items, macros := ListItems(form), ctx.macros.Keys;
    var pairs, back := ListItems(items[1]), items[2..];
    MacroFree.NotUnderOtherNames();
    ItemsAreSmaller(form);
    LetIsSmaller(items);
    PartsAreSmaller(items, 2);
    PairsNormal(h, pairs, ctx, depth);
    var bindings := ExpandBindings(h, pairs, ctx, depth);
    if bindings.Success? {
      var inner := bindings.value.1.(shadowed := bindings.value.1.shadowed + BoundNames(pairs));
      FormsNormal(h, back, inner, depth, true);
      var body := ExpandForms(h, back, inner, depth, true);
      if body.Success? {
        LetIsSettled(bindings.value.0, body.value.0, macros, ctx.shadowed);
        ItemsOfChain([items[0], ListToChain(bindings.value.0, Nil)] + body.value.0);
        BodyNamesAreReserved("let");
        NotPlain(form, macros);
      }
    }
  }

  // --- which calls are run -------------------------------------------------------------------------

  /** No macro is run, which the traces show, just when no call was visible. */
  ghost predicate RunsAsSeen(r: Expanded, form: Form, ctx: Context) {
    r.Success? ==> (r.value.1.traces == ctx.traces <==> Settled(form, ctx.macros.Keys, ctx.shadowed))
  }

  /** The same in three steps from one context to the next. */
  lemma RunsAdd(h: Host, a: Context, b: Context, c: Context, depth: nat)
    requires Grows(h, a, b, depth) && Grows(h, b, c, depth)
    ensures c.traces == a.traces <==> b.traces == a.traces && c.traces == b.traces
  {
    if c.traces == a.traces { assert b.traces == b.traces[..|a.traces|]; }
  }

  lemma {:induction false} CallsAreRun(h: Host, form: Form, ctx: Context, depth: nat)
    requires Tame(form, ctx.macros.Keys) && TameHost(h, ctx.macros.Keys) && "defeffect" !in ctx.macros
    ensures RunsAsSeen(ExpandForm(h, form, ctx, depth), form, ctx)
    decreases h.maxDepth + 1 - depth, Quasiquotes(form), Size(form), 0
  {
    hide ExpandBody, ExpandLet, ExpandItems, Expand, AllTame, TameHost, Plain, AllSettled;
    if depth <= h.maxDepth && form.Chain? && Args(form).Some? {
      var args, items := Args(form).value, ListItems(form);
      ItemsAreSmaller(form);
      MacroFree.NotUnderOtherNames();
      var name := if form.head.Symbol? then form.head.name else "";
      if name == "quote" || (name == "quasiquote" && |args| != 1) {
      } else if name == "quasiquote" {
        ArgumentsAreFewer(form);
        ExpandKeepsQuasiquotes(args[0], 0);
        CallsAreRun(h, Expand(args[0], 0), ctx, depth);
      } else if name == "let" && |items| >= 2 && IsListOrNil(items[1]) {
        LetRuns(h, form, ctx, depth);
      } else if MacroFree.BodyStart(name).Some? {
        NoComponent(form, ctx.macros.Keys);
        BodyRuns(h, form, ctx, depth, MacroFree.BodyStart(name).value, name != "module");
      } else if form.head.Symbol? && name !in ctx.shadowed && name in ctx.macros {
        var ran := h.run(ctx.macros[name], args, ctx.state);
        if ran.Success? {
          var next := ctx.(state := ran.value.1, traces := ctx.traces + [Trace(name, depth + 1)]);
          FormGrows(h, ran.value.0, next, depth + 1);
        }
      } else {
        ItemsRun(h, items, ctx, depth);
      }
    }
  }

  lemma {:induction false} ItemsRun(h: Host, items: seq<Form>, ctx: Context, depth: nat)
    requires AllTame(items, ctx.macros.Keys) && TameHost(h, ctx.macros.Keys) && "defeffect" !in ctx.macros
    ensures var r := ExpandItems(h, items, ctx, depth);
            r.Success? ==> (r.value.1.traces == ctx.traces <==> AllSettled(items, ctx.macros.Keys, ctx.shadowed))
    decreases h.maxDepth + 1 - depth, QuasiquotesIn(items), SizeOf(items), 1
  {
    hide ExpandForm, Settled, Kept, TameHost, Tame, Grows;
    if items != [] {
      CallsAreRun(h, items[0], ctx, depth);
      FormNormal(h, items[0], ctx, depth);
      FormGrows(h, items[0], ctx, depth);
      var first := ExpandForm(h, items[0], ctx, depth);
      if first.Success? {
        ItemsRun(h, items[1..], first.value.1, depth);
        ItemsGrow(h, items[1..], first.value.1, depth);
        var others := ExpandItems(h, items[1..], first.value.1, depth);
        if others.Success? { RunsAdd(h, ctx, first.value.1, others.value.1, depth); }
      }
    }
  }

  lemma {:induction false} FormsRun(h: Host, items: seq<Form>, ctx: Context, depth: nat, shadows: bool)
    requires AllTame(items, ctx.macros.Keys) && TameHost(h, ctx.macros.Keys) && "defeffect" !in ctx.macros
    ensures var r := ExpandForms(h, items, ctx, depth, shadows);
            r.Success? ==>
              (r.value.1.traces == ctx.traces <==>
               if shadows then FormsSettled(items, ctx.macros.Keys, ctx.shadowed)
               else AllSettled(items, ctx.macros.Keys, ctx.shadowed))
    decreases h.maxDepth + 1 - depth, QuasiquotesIn(items), SizeOf(items), 1
  {
    hide ExpandForm, Settled, Kept, TameHost, Tame, Grows, Definitions, DefinedNames;
    if items != [] {
      CallsAreRun(h, items[0], ctx, depth);
      FormNormal(h, items[0], ctx, depth);
      FormGrows(h, items[0], ctx, depth);
      var first := ExpandForm(h, items[0], ctx, depth);
      if first.Success? {
        TameDefinitions(items[0], ctx.macros.Keys);
        var after := if shadows then first.value.1.(shadowed := first.value.1.shadowed + DefinedNames(items[0]))
                     else first.value.1;
        FormsRun(h, items[1..], after, depth, shadows);
        FormsGrow(h, items[1..], after, depth, shadows);
        var others := ExpandForms(h, items[1..], after, depth, shadows);
        GrowsHiding(h, ctx, first.value.1, after, depth);
        if others.Success? { RunsAdd(h, ctx, after, others.value.1, depth); }
      }
    }
  }

  lemma GrowsHiding(h: Host, a: Context, b: Context, c: Context, depth: nat)
    requires Grows(h, a, b, depth) && c.traces == b.traces && b.shadowed <= c.shadowed
    ensures Grows(h, a, c, depth)
  {
  }

  /** A tame definition is none of a component. */
  lemma TameDefinitions(form: Form, macros: set<Name>)
    requires Tame(form, macros)
    ensures Definitions(form) == DefinedNames(form)
  {
    var items := ListItems(form);
    if form.Chain? {
      ItemsAreSmaller(form);
      if |items| >= 3 && form.head == Symbol("define") && items[2].Chain? && items[2].head == Symbol("component") {
        assert |"define"| == 6 && |"quote"| == 5 && |"quasiquote"| == 10 && |"let"| == 3 && |"component"| == 9;
        ComponentIsNotTame(items[2], macros);
        PartsAreTame(items, 2, macros);
      }
    }
  }

  lemma {:induction false} BodyRuns(h: Host, form: Form, ctx: Context, depth: nat, start: nat, shadows: bool)
    requires form.Chain? && form.head.Symbol? && MacroFree.BodyStart(form.head.name) == Some(start)
    requires shadows == (form.head.name != "module")
    requires form.head.name == "let" && |ListItems(form)| >= 2 ==> !IsListOrNil(ListItems(form)[1])
    requires Tame(form, ctx.macros.Keys) && TameHost(h, ctx.macros.Keys) && "defeffect" !in ctx.macros
    ensures RunsAsSeen(ExpandBody(h, ListItems(form), ctx, depth, start, shadows), form, ctx)
    decreases h.maxDepth + 1 - depth, QuasiquotesIn(ListItems(form)), SizeOf(ListItems(form)), 2
  {
    hide ExpandItems, ExpandForms, TameHost, AllTame, Plain, Kept, ShadowedNames, Binders, Grows, AllSettled, FormsSettled;
    var items, macros := ListItems(form), ctx.macros.Keys;
    MacroFree.NotUnderOtherNames();
    ItemsAreSmaller(form);
    if |items| <= start {
      ItemsRun(h, items, ctx, depth);
    } else {
      PartsAreSmaller(items, start);
      PartsAreTame(items, start, macros);
      ItemsRun(h, items[..start], ctx, depth);
      ItemsNormal(h, items[..start], ctx, depth);
      ItemsGrow(h, items[..start], ctx, depth);
      var prefix := ExpandItems(h, items[..start], ctx, depth);
      if prefix.Success? {
        var inner := if shadows then prefix.value.1.(shadowed := prefix.value.1.shadowed + ShadowedNames(items, start))
                     else prefix.value.1;
        FormsRun(h, items[start..], inner, depth, shadows);
        FormsGrow(h, items[start..], inner, depth, shadows);
        GrowsHiding(h, ctx, prefix.value.1, inner, depth);
        var body := ExpandForms(h, items[start..], inner, depth, shadows);
        if body.Success? {
          RunsAdd(h, ctx, inner, body.value.1, depth);
          if shadows { PlainBinders(items, start, macros); }
        }
      }
    }
  }

  lemma PlainBinders(items: seq<Form>, start: nat, macros: set<Name>)
    requires (start == 2 || start == 3) && |items| >= start && Plain(items[start - 1], macros)
    ensures ShadowedNames(items, start) == Binders(items, start)
  {
    var list := items[start - 1];
    assert ParameterNames(list) == Parameters(list);
    if list.Chain? { ItemsAreSmaller(list); assert ListItems(list)[0] in ListItems(list); }
    hide ListItems, ParameterNames, Parameters;
    if start == 3 { OneName(items); }
  }

  lemma OneName(items: seq<Form>)
    requires |items| >= 3
    ensures SymbolNames(if |items| >= 2 then [items[1]] else []) == if items[1].Symbol? then {items[1].name} else {}
  {
    assert items[1] in [items[1]];
  }

  lemma {:induction false} PairsRun(h: Host, pairs: seq<Form>, ctx: Context, depth: nat)
    requires PairsTame(pairs, ctx.macros.Keys) && TameHost(h, ctx.macros.Keys) && "defeffect" !in ctx.macros
    ensures var r := ExpandBindings(h, pairs, ctx, depth);
            r.Success? ==> (r.value.1.traces == ctx.traces <==> PairsSettled(pairs, ctx.macros.Keys, ctx.shadowed))
    decreases h.maxDepth + 1 - depth, QuasiquotesIn(pairs), SizeOf(pairs), 1
  {
    hide ExpandForm, Settled, Kept, TameHost, Tame, Grows;
    if pairs != [] {
      var pair, items := pairs[0], ListItems(pairs[0]);
      if pair.Chain? {
        ItemsAreSmaller(pair);
        ItemIsSmaller(items, 1);
      }
      var part := if pair.Chain? then items[1] else pair;
      AtomIsTame(pair, ctx.macros.Keys);
      CallsAreRun(h, part, ctx, depth);
      FormNormal(h, part, ctx, depth);
      FormGrows(h, part, ctx, depth);
      var first := ExpandForm(h, part, ctx, depth);
      if first.Success? {
        PairsRun(h, pairs[1..], first.value.1, depth);
        BindingsGrow(h, pairs[1..], first.value.1, depth);
        var others := ExpandBindings(h, pairs[1..], first.value.1, depth);
        if others.Success? { RunsAdd(h, ctx, first.value.1, others.value.1, depth); }
      }
    }
  }

  lemma {:induction false} LetRuns(h: Host, form: Form, ctx: Context, depth: nat)
    requires form.Chain? && form.head == Symbol("let") && |ListItems(form)| >= 2 && IsListOrNil(ListItems(form)[1])
    requires Tame(form, ctx.macros.Keys) && TameHost(h, ctx.macros.Keys) && "defeffect" !in ctx.macros
    ensures RunsAsSeen(ExpandLet(h, ListItems(form), ctx, depth), form, ctx)
    decreases h.maxDepth + 1 - depth, QuasiquotesIn(ListItems(form)), SizeOf(ListItems(form)), 2
  {
    hide ExpandBindings, ExpandForms, TameHost, AllTame, PairsTame, Plain, BoundNames, LetNames, Grows, FormsSettled,
      PairsSettled;
    var items, macros := ListItems(form), ctx.macros.Keys;
    var pairs, back := ListItems(items[1]), items[2..];
    MacroFree.NotUnderOtherNames();
    ItemsAreSmaller(form);
    LetIsSmaller(items);
    PartsAreSmaller(items, 2);
    PairsRun(h, pairs, ctx, depth);
    PairsNormal(h, pairs, ctx, depth);
    BindingsGrow(h, pairs, ctx, depth);
    SamePairs(pairs);
    var bindings := ExpandBindings(h, pairs, ctx, depth);
    if bindings.Success? {
      var inner := bindings.value.1.(shadowed := bindings.value.1.shadowed + BoundNames(pairs));
      FormsRun(h, back, inner, depth, true);
      FormsGrow(h, back, inner, depth, true);
      GrowsHiding(h, ctx, bindings.value.1, inner, depth);
      var body := ExpandForms(h, back, inner, depth, true);
      if body.Success? { RunsAdd(h, ctx, inner, body.value.1, depth); }
    }
  }

  lemma SamePairs(pairs: seq<Form>)
    ensures BoundNames(pairs) == LetNames(pairs)
  {
    forall pair | pair in pairs ensures Pair(pair) <==> IsBinding(pair) {
      if pair.Chain? { ItemsAreSmaller(pair); }
    }
  }
}

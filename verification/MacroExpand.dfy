/**
 Macro expansion (qy/macro/expand.py). The context is a value that every call hands back.
 What a macro, a macro definition, an import, a component or a module does at compile time
 is left to the host; each is a total function. Hygiene renaming is part of running a macro.
 */
module MacroExpand {
  import opened Wrappers
  import opened Syntax
  import opened Quasiquote
  import opened TemplateEval

  type Name = string
  type Macros = map<Name, int>

  datatype Error = TooDeep | ImproperCall | HostError(code: int)

  datatype Trace = Trace(operator: Name, depth: nat)

  /** The scope's macros, the names that hide macros, the host's state and the traces. */
  datatype Context = Context(macros: Macros, shadowed: set<Name>, state: int, traces: seq<Trace>)

  datatype Host = Host(
    maxDepth: nat,
    run: (int, seq<Form>, int) -> Result<(Form, int), Error>,
    defineMacro: (Form, int) -> Result<(int, int), Error>,
    importMacros: (Form, Macros, int) -> Result<(Macros, int), Error>,
    component: (Form, int) -> Option<int>,
    closeModule: (Form, Macros, int) -> int)

  // --- forms ------------------------------------------------------------------------------

  /** `_form_to_list`: an improper tail becomes one more item. */
  function ListItems(form: Form): seq<Form> {
    match form
    case Chain(head, tail) =>
      [head] + (if tail.Chain? then ListItems(tail) else if tail.Nil? then [] else [tail])
    case _ => []
  }

  /** How many symbols named `quasiquote` a form holds. */
  function Quasiquotes(form: Form): nat {
    match form
    case Symbol(name) => if name == "quasiquote" then 1 else 0
    case Chain(head, tail) => Quasiquotes(head) + Quasiquotes(tail)
    case _ => 0
  }

  function QuasiquotesIn(forms: seq<Form>): nat {
    if forms == [] then 0 else Quasiquotes(forms[0]) + QuasiquotesIn(forms[1..])
  }

  function Size(form: Form): nat {
    match form
    case Chain(head, tail) => 1 + Size(head) + Size(tail)
    case _ => 1
  }

  function SizeOf(forms: seq<Form>): nat {
    if forms == [] then 0 else Size(forms[0]) + SizeOf(forms[1..])
  }

  lemma {:induction false} ItemsAreSmaller(form: Form)
    requires form.Chain?
    ensures SizeOf(ListItems(form)) < Size(form) && QuasiquotesIn(ListItems(form)) == Quasiquotes(form)
    ensures ListItems(form) != [] && ListItems(form)[0] == form.head
  {
    var rest := ListItems(form)[1..];
    if form.tail.Chain? {
      ItemsAreSmaller(form.tail);
      assert rest == ListItems(form.tail);
    } else if form.tail.Nil? {
      assert rest == [];
    } else {
      assert rest == [form.tail] && rest[1..] == [];
      assert SizeOf(rest) == Size(form.tail) && QuasiquotesIn(rest) == Quasiquotes(form.tail);
    }
    assert ListItems(form) == [form.head] + rest;
  }

  lemma {:induction false} PartsAreSmaller(forms: seq<Form>, k: nat)
    requires k <= |forms|
    ensures SizeOf(forms) == SizeOf(forms[..k]) + SizeOf(forms[k..])
    ensures QuasiquotesIn(forms) == QuasiquotesIn(forms[..k]) + QuasiquotesIn(forms[k..])
  {
    if k > 0 {
      PartsAreSmaller(forms[1..], k - 1);
      assert forms[..k][1..] == forms[1..][..k - 1] && forms[k..] == forms[1..][k - 1..];
    } else {
      assert forms[..0] == [] && forms[0..] == forms;
    }
  }

  lemma {:induction false} ItemIsSmaller(forms: seq<Form>, k: nat)
    requires k < |forms|
    ensures Size(forms[k]) <= SizeOf(forms) && Quasiquotes(forms[k]) <= QuasiquotesIn(forms)
  {
    if k > 0 { ItemIsSmaller(forms[1..], k - 1); }
  }

  // --- quasiquotes never multiply ----------------------------------------------------------

  lemma Call1Quasiquotes(name: Name, a: Form)
    ensures Quasiquotes(Call1(name, a)) == (if name == "quasiquote" then 1 else 0) + Quasiquotes(a)
  {
    assert Quasiquotes(Chain(a, Nil)) == Quasiquotes(a);
  }

  lemma Call2Quasiquotes(name: Name, a: Form, b: Form)
    ensures Quasiquotes(Call2(name, a, b)) == (if name == "quasiquote" then 1 else 0) + Quasiquotes(a) + Quasiquotes(b)
  {
    assert Quasiquotes(Chain(b, Nil)) == Quasiquotes(b);
    assert Quasiquotes(Chain(a, Chain(b, Nil))) == Quasiquotes(a) + Quasiquotes(b);
  }

  lemma BuildersAreNoQuasiquotes()
    ensures "quote" != "quasiquote" && "list" != "quasiquote" && "cons" != "quasiquote"
    ensures "append" != "quasiquote" && "unquote" != "quasiquote"
  {
    assert |"quasiquote"| == 10 && |"quote"| == 5 && |"list"| == 4 && |"cons"| == 4 && |"append"| == 6 && |"unquote"| == 7;
  }

  lemma {:induction false} ExpandKeepsQuasiquotes(form: Form, depth: nat)
    ensures Quasiquotes(Expand(form, depth)) <= Quasiquotes(form)
    decreases form, 1
  {
    BuildersAreNoQuasiquotes();
    if !form.Chain? {
      Call1Quasiquotes("quote", form);
    } else {
      ArgumentIsCall1(form);
      var argument := Argument(form);
      if form.head == Symbol("unquote") {
        if argument.Some? && depth > 0 {
          ExpandKeepsQuasiquotes(argument.value, depth - 1);
          Call2Quasiquotes("list", Symbol("unquote"), Expand(argument.value, depth - 1));
        }
      } else if form.head == Symbol("quasiquote") {
        if argument.Some? {
          ExpandKeepsQuasiquotes(argument.value, depth + 1);
          Call2Quasiquotes("list", Symbol("quasiquote"), Expand(argument.value, depth + 1));
        }
      } else {
        ExpandChainKeepsQuasiquotes(form, depth);
      }
    }
  }

  lemma {:induction false} ExpandChainKeepsQuasiquotes(form: Form, depth: nat)
    requires form.Chain?
    ensures Quasiquotes(ExpandChain(form, depth)) <= Quasiquotes(form)
    decreases form, 0
  {
    BuildersAreNoQuasiquotes();
    var rest := if form.tail.Chain? then ExpandChain(form.tail, depth) else Call1("quote", form.tail);
    if form.tail.Chain? {
      ExpandChainKeepsQuasiquotes(form.tail, depth);
    } else {
      Call1Quasiquotes("quote", form.tail);
    }
    var items := Proper(form.head);
    if depth == 0 && items.Some? && items.value != [] && items.value[0] == Symbol("unquote-splicing") {
      if |items.value| == 2 { SpliceHoldsItem(form.head); }
      Call2Quasiquotes("append", if |items.value| == 2 then items.value[1] else form.head, rest);
    } else {
      ExpandKeepsQuasiquotes(form.head, depth);
      Call2Quasiquotes("cons", Expand(form.head, depth), rest);
    }
  }

  lemma SpliceHoldsItem(form: Form)
    requires Proper(form).Some? && |Proper(form).value| == 2
    ensures Quasiquotes(Proper(form).value[1]) <= Quasiquotes(form)
  {
    assert Proper(form).value[1..] == Proper(form.tail).value;
    assert Proper(form).value[1] == form.tail.head;
  }

  // --- expansion -----------------------------------------------------------------------------

  predicate IsListOrNil(form: Form) { form.Chain? || form.Nil? }

  function ParameterNames(params: Form): set<Name> {
    set s | s in ListItems(params) && s.Symbol? && s.name != "&rest" && s.name != "&body" :: s.name
  }

  function SymbolNames(forms: seq<Form>): set<Name> {
    set s | s in forms && s.Symbol? :: s.name
  }

  /** `_shadowed_names`, for a form whose body starts at item 2 or 3. */
  function ShadowedNames(items: seq<Form>, bodyStart: nat): set<Name> {
    if bodyStart == 3 then
      SymbolNames(if |items| >= 2 then [items[1]] else []) + (if |items| >= 3 then ParameterNames(items[2]) else {})
    else if bodyStart == 2 && |items| >= 2 && IsListOrNil(items[1]) then
      if items[1].Chain? && items[1].head.Chain? then
        set pair | pair in ListItems(items[1]) && pair.Chain? && pair.head.Symbol? :: pair.head.name
      else ParameterNames(items[1])
    else {}
  }

  /** `_defined_names`. */
  function DefinedNames(form: Form): set<Name> {
    var items := ListItems(form);
    if !form.Chain? || !items[0].Symbol? || |items| < 2 || !items[1].Symbol? then {}
    else if items[0].name == "define" && |items| >= 3 && items[2].Chain? && items[2].head == Symbol("component") then {}
    else if items[0].name in ["define", "defun", "defeffect", "module"] then {items[1].name}
    else {}
  }

  predicate IsMacroDefinition(items: seq<Form>) {
    |items| >= 4 && items[1].Symbol? && IsListOrNil(items[2])
  }

  predicate IsComponentDefinition(items: seq<Form>) {
    |items| == 3 && items[1].Symbol? && items[2].Chain? && items[2].head == Symbol("component")
  }

  type Expanded = Result<(Form, Context), Error>
  type ExpandedList = Result<(seq<Form>, Context), Error>

  /** What a nested context gives back to the one around it: the state and the traces. */
  function Back(outer: Context, inner: Context): Context {
    outer.(state := inner.state, traces := inner.traces)
  }

  /** `_macroexpand_form`. Either fewer nested expansions are left, or fewer quasiquotes, or
      the form is smaller. */
  function ExpandForm(h: Host, form: Form, ctx: Context, depth: nat): Expanded
    decreases h.maxDepth + 1 - depth, Quasiquotes(form), Size(form), 0
  {
    if depth > h.maxDepth then Failure(TooDeep)
    else if !form.Chain? then Success((form, ctx))
    else if Args(form).None? then Failure(ImproperCall)
    else
      var args := Args(form).value;
      var items := ListItems(form);
      ItemsAreSmaller(form);
      var name := if form.head.Symbol? then form.head.name else "";
      if name == "quote" then Success((form, ctx))
      else if name == "quasiquote" then
        if |args| != 1 then Success((form, ctx))
        else
          ArgumentsAreFewer(form);
          ExpandKeepsQuasiquotes(args[0], 0);
          ExpandForm(h, Expand(args[0], 0), ctx, depth)
      else if name == "macro" && IsMacroDefinition(items) then
        var defined :- h.defineMacro(form, ctx.state);
        Success((Nil, ctx.(macros := ctx.macros[items[1].name := defined.0], state := defined.1)))
      else if name == "from" then
        var imported :- h.importMacros(form, ctx.macros, ctx.state);
        Success((form, ctx.(macros := imported.0, state := imported.1)))
      else if name == "let" && |items| >= 2 && IsListOrNil(items[1]) then ExpandLet(h, items, ctx, depth)
      else if name == "let" || name == "lambda" then ExpandBody(h, items, ctx, depth, 2, true)
      else if name == "defun" then ExpandBody(h, items, ctx, depth, 3, true)
      else if name == "module" then ExpandBody(h, items, ctx, depth, 2, false)
      else if name == "define" then
        var component := if IsComponentDefinition(items) then h.component(items[2], ctx.state) else None;
        if component.Some? then Success((Nil, ctx.(macros := ctx.macros[items[1].name := component.value])))
        else ExpandBody(h, items, ctx, depth, 2, true)
      else if form.head.Symbol? && name !in ctx.shadowed && name in ctx.macros then
        var ran :- h.run(ctx.macros[name], args, ctx.state);
        ExpandForm(h, ran.0, ctx.(state := ran.1, traces := ctx.traces + [Trace(name, depth + 1)]), depth + 1)
      else
        var all :- ExpandItems(h, items, ctx, depth);
        Success((ListToChain(all.0, Nil), all.1))
  }

  lemma ArgumentsAreFewer(form: Form)
    requires form.Chain? && form.head == Symbol("quasiquote") && Args(form).Some? && |Args(form).value| == 1
    ensures Quasiquotes(Args(form).value[0]) < Quasiquotes(form)
  {
    ArgsAreSmaller(form);
  }

  function ExpandItems(h: Host, items: seq<Form>, ctx: Context, depth: nat): ExpandedList
    decreases h.maxDepth + 1 - depth, QuasiquotesIn(items), SizeOf(items), 1
  {
    if items == [] then Success(([], ctx))
    else
      var first :- ExpandForm(h, items[0], ctx, depth);
      var others :- ExpandItems(h, items[1..], first.1, depth);
      Success(([first.0] + others.0, others.1))
  }

  /** The forms of a body: those that expand to nil are dropped, and names that a form defines
      hide macros from the forms after it. */
  function ExpandForms(h: Host, items: seq<Form>, ctx: Context, depth: nat, shadows: bool): ExpandedList
    decreases h.maxDepth + 1 - depth, QuasiquotesIn(items), SizeOf(items), 1
  {
    if items == [] then Success(([], ctx))
    else
      var first :- ExpandForm(h, items[0], ctx, depth);
      var after := if shadows then first.1.(shadowed := first.1.shadowed + DefinedNames(items[0])) else first.1;
      var others :- ExpandForms(h, items[1..], after, depth, shadows);
      Success(((if first.0.Nil? then [] else [first.0]) + others.0, others.1))
  }

  /** `_macroexpand_body_form`, and `_macroexpand_module_form`, whose names hide nothing. */
  function ExpandBody(h: Host, items: seq<Form>, ctx: Context, depth: nat, bodyStart: nat, shadows: bool): Expanded
    decreases h.maxDepth + 1 - depth, QuasiquotesIn(items), SizeOf(items), 2
  {
    if |items| <= bodyStart then
      var all :- ExpandItems(h, items, ctx, depth);
      Success((ListToChain(all.0, Nil), all.1))
    else
      PartsAreSmaller(items, bodyStart);
      var prefix :- ExpandItems(h, items[..bodyStart], ctx, depth);
      var inner := if shadows then prefix.1.(shadowed := prefix.1.shadowed + ShadowedNames(items, bodyStart)) else prefix.1;
      var body :- ExpandForms(h, items[bodyStart..], inner, depth, shadows);
      var outer := Back(prefix.1, body.1);
      var closed := if shadows then outer
                    else outer.(state := h.closeModule(ListToChain(items, Nil), body.1.macros, outer.state));
      Success((ListToChain(prefix.0 + body.0, Nil), closed))
  }

  /** The pairs of a `let`: a name stands as it is, its value is expanded around the `let`. */
  function ExpandBindings(h: Host, pairs: seq<Form>, ctx: Context, depth: nat): ExpandedList
    decreases h.maxDepth + 1 - depth, QuasiquotesIn(pairs), SizeOf(pairs), 1
  {
    if pairs == [] then Success(([], ctx))
    else
      var pair := pairs[0];
      var items := ListItems(pair);
      if IsBinding(pair) then
        ItemsAreSmaller(pair);
        ItemIsSmaller(items, 1);
        var value :- ExpandForm(h, items[1], ctx, depth);
        var others :- ExpandBindings(h, pairs[1..], value.1, depth);
        Success(([ListToChain([items[0], value.0], Nil)] + others.0, others.1))
      else
        var whole :- ExpandForm(h, pair, ctx, depth);
        var others :- ExpandBindings(h, pairs[1..], whole.1, depth);
        Success(([whole.0] + others.0, others.1))
  }

  predicate IsBinding(pair: Form) {
    pair.Chain? && |ListItems(pair)| == 2 && ListItems(pair)[0].Symbol?
  }

  function BoundNames(pairs: seq<Form>): set<Name> {
    set pair | pair in pairs && IsBinding(pair) :: pair.head.name
  }

  function ExpandLet(h: Host, items: seq<Form>, ctx: Context, depth: nat): Expanded
    requires |items| >= 2 && IsListOrNil(items[1])
    decreases h.maxDepth + 1 - depth, QuasiquotesIn(items), SizeOf(items), 2
  {
    var pairs := ListItems(items[1]);
    LetIsSmaller(items);
    PartsAreSmaller(items, 2);
    var bindings :- ExpandBindings(h, pairs, ctx, depth);
    var inner := bindings.1.(shadowed := bindings.1.shadowed + BoundNames(pairs));
    var body :- ExpandForms(h, items[2..], inner, depth, true);
    Success((ListToChain([items[0], ListToChain(bindings.0, Nil)] + body.0, Nil), Back(bindings.1, body.1)))
  }

  lemma LetIsSmaller(items: seq<Form>)
    requires |items| >= 2 && IsListOrNil(items[1])
    ensures SizeOf(ListItems(items[1])) < SizeOf(items) && QuasiquotesIn(ListItems(items[1])) <= QuasiquotesIn(items)
  {
    ItemIsSmaller(items, 1);
    if items[1].Chain? {
      ItemsAreSmaller(items[1]);
    } else {
      ItemIsSmaller(items, 0);
    }
  }
}

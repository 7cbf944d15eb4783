/**
 What macro expansion leaves behind (qy/macro/expand.py). A list is a visible call when a
 macro has its head's name and nothing around it hides that name: no parameter, no `let`
 name and no earlier definition of the same body. Expansion leaves no visible call, and it
 runs a macro exactly when there was one.
 */
module MacroVisible {
  import opened Wrappers
  import opened Syntax
  import opened Quasiquote
  import opened TemplateEval
  import opened MacroExpand
  import MacroFree

  // --- what hides a name ----------------------------------------------------------------------

  /** The symbols of a parameter list name parameters, apart from the two keywords. */
  function Parameters(list: Form): set<Name> {
    (set s | s in ListItems(list) && s.Symbol? :: s.name) - {"&rest", "&body"}
  }

  /** What a form hides in its body: `defun` its own name too. */
  function Binders(items: seq<Form>, bodyStart: nat): set<Name>
    requires bodyStart == 2 || bodyStart == 3
    requires |items| >= bodyStart
  {
    (if bodyStart == 3 && items[1].Symbol? then {items[1].name} else {}) + Parameters(items[bodyStart - 1])
  }

  predicate Pair(form: Form) { form.Chain? && form.head.Symbol? && |ListItems(form)| == 2 }

  function LetNames(pairs: seq<Form>): set<Name> { set pair | pair in pairs && Pair(pair) :: pair.head.name }

  /** What a form hides from the forms after it in the same body. */
  function Definitions(form: Form): set<Name> {
    var items := ListItems(form);
    if |items| >= 2 && items[0].Symbol? && items[1].Symbol? && items[0].name in {"define", "defun", "defeffect", "module"}
    then {items[1].name} else {}
  }

  // --- no visible call ------------------------------------------------------------------------

  /** No list that would be evaluated is headed by the name of a macro, unless that name is
      hidden there. A quasiquote stands for the code that it becomes. */
  predicate Settled(form: Form, macros: set<Name>, hidden: set<Name>)
    decreases Quasiquotes(form), Size(form), 0
  {
    if !form.Chain? then true
    else
      var items := ListItems(form);
      ItemsAreSmaller(form);
      var name := if form.head.Symbol? then form.head.name else "";
      if name == "quote" then true
      else if name == "quasiquote" then
        Args(form).Some? && |Args(form).value| == 1 ==>
          (ArgumentsAreFewer(form);
           ExpandKeepsQuasiquotes(Args(form).value[0], 0);
           Settled(Expand(Args(form).value[0], 0), macros, hidden))
      else if name == "let" && |items| >= 2 && IsListOrNil(items[1]) then
        var pairs := ListItems(items[1]);
        LetIsSmaller(items);
        PartsAreSmaller(items, 2);
        PairsSettled(pairs, macros, hidden) && FormsSettled(items[2..], macros, hidden + LetNames(pairs))
      else
        var start := MacroFree.BodyStart(name);
        if start.Some? && |items| > start.value then
          PartsAreSmaller(items, start.value);
          && AllSettled(items[..start.value], macros, hidden)
          && (if name == "module" then AllSettled(items[start.value..], macros, hidden)
              else FormsSettled(items[start.value..], macros, hidden + Binders(items, start.value)))
        else
          && (form.head.Symbol? && start.None? ==> name !in macros || name in hidden)
          && AllSettled(items, macros, hidden)
  }

  predicate AllSettled(items: seq<Form>, macros: set<Name>, hidden: set<Name>)
    decreases QuasiquotesIn(items), SizeOf(items), 1
  {
    items == [] || (Settled(items[0], macros, hidden) && AllSettled(items[1..], macros, hidden))
  }

  /** The forms of a body: a definition hides its name in the forms after it. */
  predicate FormsSettled(items: seq<Form>, macros: set<Name>, hidden: set<Name>)
    decreases QuasiquotesIn(items), SizeOf(items), 1
  {
    items == [] ||
    (Settled(items[0], macros, hidden) && FormsSettled(items[1..], macros, hidden + Definitions(items[0])))
  }

  predicate PairsSettled(pairs: seq<Form>, macros: set<Name>, hidden: set<Name>)
    decreases QuasiquotesIn(pairs), SizeOf(pairs), 1
  {
    pairs == [] ||
    (&& (if Pair(pairs[0]) then
           ItemsAreSmaller(pairs[0]);
           ItemIsSmaller(ListItems(pairs[0]), 1);
           Settled(ListItems(pairs[0])[1], macros, hidden)
         else Settled(pairs[0], macros, hidden))
     && PairsSettled(pairs[1..], macros, hidden))
  }

  // --- tame forms --------------------------------------------------------------------------------

  const RESERVED: set<Name> := {"quote", "quasiquote", "macro", "from", "let", "lambda", "define", "defun", "module"}

  /** A parameter list without lists in it, that is not itself taken for a call. */
  predicate Plain(list: Form, macros: set<Name>) {
    list.Chain? ==>
      && (list.head.Symbol? ==> list.head.name !in macros + RESERVED)
      && forall item :: item in ListItems(list) ==> !item.Chain?
  }

  /** Expansion gives a list for this one: it is neither a macro's call nor a quasiquote. */
  predicate StaysList(form: Form, macros: set<Name>) {
    form.Chain? &&
    (form.head.Symbol? ==>
       var name := form.head.name;
       && name != "quasiquote" && name != "macro" && name != "from"
       && (name in macros ==> name == "quote" || MacroFree.BodyStart(name).Some?))
  }

  /** The form defines and imports no macro, a list in front of a list's arguments stays a
      list, parameter lists are plain and the lists among the pairs of a `let` are pairs. */
  predicate Tame(form: Form, macros: set<Name>)
    decreases Quasiquotes(form), Size(form), 0
  {
    if !form.Chain? then true
    else
      var items := ListItems(form);
      ItemsAreSmaller(form);
      var name := if form.head.Symbol? then form.head.name else "";
      if name == "quote" then true
      else if name == "quasiquote" then
        Args(form).Some? && |Args(form).value| == 1 ==>
          (ArgumentsAreFewer(form);
           ExpandKeepsQuasiquotes(Args(form).value[0], 0);
           Tame(Expand(Args(form).value[0], 0), macros))
      else if name == "let" && |items| >= 2 && IsListOrNil(items[1]) then
        LetIsSmaller(items);
        PartsAreSmaller(items, 2);
        PairsTame(ListItems(items[1]), macros) && AllTame(items[2..], macros)
      else
        var start := MacroFree.BodyStart(name);
        && name != "from" && name != "component" && !(name == "macro" && IsMacroDefinition(items))
        && (form.head.Chain? ==> StaysList(form.head, macros))
        && (start.Some? && |items| > start.value && name != "module" ==> Plain(items[start.value - 1], macros))
        && AllTame(items, macros)
  }

  predicate AllTame(items: seq<Form>, macros: set<Name>)
    decreases QuasiquotesIn(items), SizeOf(items), 1
  {
    items == [] || (Tame(items[0], macros) && AllTame(items[1..], macros))
  }

  predicate PairsTame(pairs: seq<Form>, macros: set<Name>)
    decreases QuasiquotesIn(pairs), SizeOf(pairs), 1
  {
    pairs == [] ||
    (&& (pairs[0].Chain? ==>
           && Pair(pairs[0])
           && (ItemsAreSmaller(pairs[0]);
               ItemIsSmaller(ListItems(pairs[0]), 1);
               Tame(ListItems(pairs[0])[1], macros)))
     && PairsTame(pairs[1..], macros))
  }

  /** Macros that make tame code of tame arguments. */
  ghost predicate TameHost(h: Host, macros: set<Name>) {
    forall m: int, args: seq<Form>, state: int ::
      AllTame(args, macros) && h.run(m, args, state).Success? ==> Tame(h.run(m, args, state).value.0, macros)
  }

  // --- hiding more ---------------------------------------------------------------------------------

  lemma {:induction false} HidingMoreSettles(form: Form, macros: set<Name>, a: set<Name>, b: set<Name>)
    requires Settled(form, macros, a) && a <= b
    ensures Settled(form, macros, b)
    decreases Quasiquotes(form), Size(form), 0
  {
    hide AllSettled, FormsSettled, PairsSettled, Expand, Args, LetNames, Binders;
    if form.Chain? {
      var items := ListItems(form);
      ItemsAreSmaller(form);
      var name := if form.head.Symbol? then form.head.name else "";
      if name == "quote" {
      } else if name == "quasiquote" {
        if Args(form).Some? && |Args(form).value| == 1 {
          ArgumentsAreFewer(form);
          ExpandKeepsQuasiquotes(Args(form).value[0], 0);
          HidingMoreSettles(Expand(Args(form).value[0], 0), macros, a, b);
        }
      } else if name == "let" && |items| >= 2 && IsListOrNil(items[1]) {
        var pairs := ListItems(items[1]);
        LetIsSmaller(items);
        PartsAreSmaller(items, 2);
        HidingMorePairs(pairs, macros, a, b);
        HidingMoreForms(items[2..], macros, a + LetNames(pairs), b + LetNames(pairs));
      } else {
        var start := MacroFree.BodyStart(name);
        if start.Some? && |items| > start.value {
          PartsAreSmaller(items, start.value);
          HidingMoreItems(items[..start.value], macros, a, b);
          if name == "module" {
            HidingMoreItems(items[start.value..], macros, a, b);
          } else {
            var more := Binders(items, start.value);
            HidingMoreForms(items[start.value..], macros, a + more, b + more);
          }
        } else {
          HidingMoreItems(items, macros, a, b);
        }
      }
    }
  }

  lemma {:induction false} HidingMoreItems(items: seq<Form>, macros: set<Name>, a: set<Name>, b: set<Name>)
    requires AllSettled(items, macros, a) && a <= b
    ensures AllSettled(items, macros, b)
    decreases QuasiquotesIn(items), SizeOf(items), 1
  {
    hide Settled;
    if items != [] {
      HidingMoreSettles(items[0], macros, a, b);
      HidingMoreItems(items[1..], macros, a, b);
    }
  }

  lemma {:induction false} HidingMoreForms(items: seq<Form>, macros: set<Name>, a: set<Name>, b: set<Name>)
    requires FormsSettled(items, macros, a) && a <= b
    ensures FormsSettled(items, macros, b)
    decreases QuasiquotesIn(items), SizeOf(items), 1
  {
    hide Settled, Definitions;
    if items != [] {
      HidingMoreSettles(items[0], macros, a, b);
      HidingMoreForms(items[1..], macros, a + Definitions(items[0]), b + Definitions(items[0]));
    }
  }

  lemma {:induction false} HidingMorePairs(pairs: seq<Form>, macros: set<Name>, a: set<Name>, b: set<Name>)
    requires PairsSettled(pairs, macros, a) && a <= b
    ensures PairsSettled(pairs, macros, b)
    decreases QuasiquotesIn(pairs), SizeOf(pairs), 1
  {
    hide Settled;
    if pairs != [] {
      if Pair(pairs[0]) {
        ItemsAreSmaller(pairs[0]);
        ItemIsSmaller(ListItems(pairs[0]), 1);
        HidingMoreSettles(ListItems(pairs[0])[1], macros, a, b);
      } else {
        HidingMoreSettles(pairs[0], macros, a, b);
      }
      HidingMorePairs(pairs[1..], macros, a, b);
    }
  }
}

/**
 The two instantiations of a quasiquote template: running the code of `expand_quasiquote`,
 and `_eval_quasiquote`. A template is well formed if it has no nested quasiquote and its
 unquote and splice forms have one argument. Well-formed templates agree in every
 environment exactly when both instantiations refuse them or neither does; all others agree
 exactly when both refuse them.
 */
module TemplateAgreement {
  import opened Wrappers
  import opened Syntax
  import opened Quasiquote
  import opened TemplateEval

  predicate OneArgument(form: Form)
    requires form.Chain?
  {
    form.tail.Chain? && form.tail.tail.Nil?
  }

  /** No nested quasiquote, one argument to each unquote and splice form, and no list that ends
      in a tuple or list value. */
  predicate WellFormed(form: Form)
    decreases form, 1
  {
    form.Chain? ==>
      if form.head == Symbol("unquote") then OneArgument(form)
      else form.head != Symbol("quasiquote") && ItemsWellFormed(form)
  }

  predicate ItemsWellFormed(form: Form)
    requires form.Chain?
    decreases form, 0
  {
    && (if IsSplice(form.head) then OneArgument(form.head) else WellFormed(form.head))
    && (if form.tail.Chain? then ItemsWellFormed(form.tail) else !form.tail.Host?)
  }

  /** A splice that `_expand_chain` takes for one. */
  predicate ProperSplice(form: Form) { IsSplice(form) && Proper(form).Some? }

  /** Syntax data: no list that is expanded ends in a tuple or list value. */
  predicate Plain(form: Form)
    decreases form, 1
  {
    form.Chain? && form.head != Symbol("unquote") && form.head != Symbol("quasiquote") ==> ItemsPlain(form)
  }

  predicate ItemsPlain(form: Form)
    requires form.Chain?
    decreases form, 0
  {
    && (ProperSplice(form.head) || Plain(form.head))
    && (if form.tail.Chain? then ItemsPlain(form.tail) else !form.tail.Host?)
  }

  // --- what is refused --------------------------------------------------------------------------

  /** The only argument as `_args_of` counts: a tail that is no chain is one as well. */
  function OnlyArgument(form: Form): (a: Option<Form>)
    requires form.Chain?
    ensures a.Some? ==> a.value < form
  {
    if form.tail.Chain? then if form.tail.tail.Nil? then Some(form.tail.head) else None
    else if form.tail.Nil? then None
    else Some(form.tail)
  }

  predicate LongDotted(form: Form) { form.Chain? && form.tail.Chain? && Proper(form.tail).None? }

  /** What the direct evaluator refuses: a list or call that is dotted with two heads or more,
      and an unquote, quasiquote or splice form without its one argument. */
  predicate DirectTrouble(form: Form, depth: nat)
    decreases form, 1
  {
    form.Chain? &&
    (LongDotted(form) ||
     if form.head == Symbol("unquote") then
       OnlyArgument(form).None? || (depth > 0 && DirectTrouble(OnlyArgument(form).value, depth - 1))
     else if form.head == Symbol("quasiquote") then
       OnlyArgument(form).None? || DirectTrouble(OnlyArgument(form).value, depth + 1)
     else DirectItemsTrouble(form, depth))
  }

  predicate DirectItemsTrouble(form: Form, depth: nat)
    requires form.Chain?
    decreases form, 0
  {
    || (if IsSplice(form.head) && depth == 0 then OnlyArgument(form.head).None? else DirectTrouble(form.head, depth))
    || (form.tail.Chain? && DirectItemsTrouble(form.tail, depth))
  }

  /** What the expanded code refuses: a splice in a dotted list, which `append` cannot build. */
  predicate AppendTrouble(form: Form)
    decreases form, 1
  {
    form.Chain? && form.head != Symbol("unquote") && form.head != Symbol("quasiquote") && AppendItemsTrouble(form)
  }

  predicate AppendItemsTrouble(form: Form)
    requires form.Chain?
    decreases form, 0
  {
    || (if ProperSplice(form.head) then Proper(form.tail).None? else AppendTrouble(form.head))
    || (form.tail.Chain? && AppendItemsTrouble(form.tail))
  }

  /** Both instantiations succeed with the same datum after the same evaluations, or neither
      succeeds. A spliced value that is no sequence fails in both, but in the expanded code
      only after the forms behind it have been evaluated. */
  predicate SameResult(a: Outcome, b: Outcome) {
    (a.Done? <==> b.Done?) && (a.Done? ==> a == b)
  }

  function Expanded(form: Form, env: Env, state: int): Outcome { Eval(Expand(form, 0), env, state) }

  // --- one step of each ----------------------------------------------------------------------

  /** What evaluating two arguments in turn comes to. */
  function Both(a: Form, b: Form, env: Env, state: int): Items {
    match Eval(a, env, state)
    case Raised(s) => Failed(s)
    case Done(left, s) =>
      match Eval(b, env, s)
      case Raised(t) => Failed(t)
      case Done(right, t) => AllDone([left], right, t)
  }

  lemma EvalCons(a: Form, b: Form, env: Env, state: int)
    ensures var r := Both(a, b, env, state);
            Eval(Call2("cons", a, b), env, state) ==
            if r.Failed? then Raised(r.state) else Done(Chain(r.items[0], r.last), r.state)
  {
  }

  lemma EvalAppend(a: Form, b: Form, env: Env, state: int)
    ensures var r := Both(a, b, env, state);
            Eval(Call2("append", a, b), env, state) ==
            if r.Failed? then Raised(r.state)
            else var list := Append(r.items[0], r.last);
                 if list.None? then Raised(r.state) else Done(list.value, r.state)
  {
  }

  /** The code for what follows the head of a list. */
  function RestCode(form: Form): Form
    requires form.Chain?
  {
    if form.tail.Chain? then ExpandChain(form.tail, 0) else Call1("quote", form.tail)
  }

  /** The code whose value `_expand_chain` appends or conses. */
  function HeadCode(head: Form): Form {
    if ProperSplice(head) then if OneArgument(head) then head.tail.head else head else Expand(head, 0)
  }

  lemma ExpandedHead(form: Form)
    requires form.Chain?
    ensures ExpandChain(form, 0) ==
            Call2(if ProperSplice(form.head) then "append" else "cons", HeadCode(form.head), RestCode(form))
  {
    var items := Proper(form.head);
    assert form.head.Chain? && items.Some? ==> items.value[0] == form.head.head;
    if ProperSplice(form.head) {
      ProperSpliceItems(form.head);
    }
  }

  lemma ProperSpliceItems(head: Form)
    requires ProperSplice(head)
    ensures |Proper(head).value| == 2 <==> OneArgument(head)
    ensures OneArgument(head) ==> Proper(head).value[1] == head.tail.head
  {
    assert Proper(head.tail).Some?;
    if head.tail.Chain? && head.tail.tail.Chain? {
      assert Proper(head.tail.tail).Some? && |Proper(head.tail.tail).value| >= 1;
    }
  }

  lemma {:induction false} LastOfProper(form: Form, env: Env, state: int)
    requires Proper(form).Some? && DirectItems(form, 0, env, state).AllDone?
    ensures DirectItems(form, 0, env, state).last == Nil
  {
    hide HeadItems;
    if form.Chain? {
      LastOfProper(form.tail, env, HeadItems(form.head, 0, env, state).state);
    }
  }

  // --- agreement ---------------------------------------------------------------------------

  lemma {:induction false} WellFormedIsPlain(form: Form)
    requires WellFormed(form)
    ensures Plain(form)
    decreases form, 1
  {
    if form.Chain? && form.head != Symbol("unquote") {
      ItemsWellFormedArePlain(form);
    }
  }

  lemma {:induction false} ItemsWellFormedArePlain(form: Form)
    requires form.Chain? && ItemsWellFormed(form)
    ensures ItemsPlain(form)
    decreases form, 0
  {
    if IsSplice(form.head) {
      OneArgumentIsProper(form.head);
    } else {
      WellFormedIsPlain(form.head);
    }
    if form.tail.Chain? {
      ItemsWellFormedArePlain(form.tail);
    }
  }

  lemma {:induction false} FormsAgree(form: Form, env: Env, state: int)
    requires WellFormed(form) && !DirectTrouble(form, 0) && !AppendTrouble(form)
    ensures SameResult(Expanded(form, env, state), Direct(form, 0, env, state))
    decreases form, 1
  {
    if form.Chain? {
      ArgumentIsCall1(form);
      if form.head != Symbol("unquote") {
        ItemsAgree(form, env, state);
      }
    }
  }

  lemma {:induction false} ItemsAgree(form: Form, env: Env, state: int)
    requires form.Chain? && ItemsWellFormed(form)
    requires !DirectItemsTrouble(form, 0) && !AppendItemsTrouble(form)
    ensures SameResult(Eval(ExpandChain(form, 0), env, state), Collected(DirectItems(form, 0, env, state)))
    decreases form, 0
  {
    ExpandedHead(form);
    if IsSplice(form.head) {
      OneArgumentArgs(form.head);
      OneArgumentIsProper(form.head);
      RestAgrees(form, env, Eval(form.head.tail.head, env, state).state);
      SplicedHead(form, env, state);
    } else {
      FormsAgree(form.head, env, state);
      RestAgrees(form, env, Direct(form.head, 0, env, state).state);
      ConsedHead(form, env, state);
    }
  }

  lemma OneArgumentIsProper(form: Form)
    requires form.Chain? && OneArgument(form)
    ensures Proper(form).Some?
  {
    assert Proper(form.tail.tail).Some? && Proper(form.tail).Some?;
  }

  lemma OneArgumentArgs(form: Form)
    requires form.Chain? && OneArgument(form)
    ensures Args(form) == Some([form.tail.head])
  {
    assert Proper(form.tail.tail) == Some([]);
    assert [form.tail.head] + [] == [form.tail.head];
  }

  lemma {:induction false} RestAgrees(form: Form, env: Env, state: int)
    requires form.Chain? && ItemsWellFormed(form)
    requires !DirectItemsTrouble(form, 0) && !AppendItemsTrouble(form)
    ensures SameResult(Eval(RestCode(form), env, state), Collected(DirectItems(form.tail, 0, env, state)))
    decreases form.tail, 1
  {
    if form.tail.Chain? {
      ItemsAgree(form.tail, env, state);
    }
  }

  lemma ConsedHead(form: Form, env: Env, state: int)
    requires form.Chain? && !IsSplice(form.head)
    requires var d := Direct(form.head, 0, env, state);
             && SameResult(Expanded(form.head, env, state), d)
             && SameResult(Eval(RestCode(form), env, d.state), Collected(DirectItems(form.tail, 0, env, d.state)))
    ensures SameResult(Eval(Call2("cons", Expand(form.head, 0), RestCode(form)), env, state),
                       Collected(DirectItems(form, 0, env, state)))
  {
    EvalCons(Expand(form.head, 0), RestCode(form), env, state);
    hide Eval, Direct, Expand, RestCode;
    var d := Direct(form.head, 0, env, state);
    var rest := DirectItems(form.tail, 0, env, d.state);
    if d.Done? && rest.AllDone? {
      assert ([d.value] + rest.items)[1..] == rest.items;
    }
  }

  lemma SplicedHead(form: Form, env: Env, state: int)
    requires form.Chain? && IsSplice(form.head) && OneArgument(form.head) && Proper(form).Some?
    requires Args(form.head) == Some([form.head.tail.head])
    requires var e := Eval(form.head.tail.head, env, state);
             SameResult(Eval(RestCode(form), env, e.state), Collected(DirectItems(form.tail, 0, env, e.state)))
    ensures SameResult(Eval(Call2("append", form.head.tail.head, RestCode(form)), env, state),
                       Collected(DirectItems(form, 0, env, state)))
  {
    var x := form.head.tail.head;
    EvalAppend(x, RestCode(form), env, state);
    hide Eval, RestCode, Direct;
    var e := Eval(x, env, state);
    var rest := DirectItems(form.tail, 0, env, e.state);
    if e.Done? && rest.AllDone? {
      LastOfProper(form.tail, env, e.state);
      ProperOfChain(rest.items);
      AppendToList(e.value, rest.items);
    }
  }

  lemma AppendToList(value: Form, items: seq<Form>)
    ensures Append(value, ListToChain(items, Nil)) ==
            if SequenceItems(value).None? then None
            else Some(ListToChain(SequenceItems(value).value + items, Nil))
  {
    ProperOfChain(items);
  }

  // --- refusal --------------------------------------------------------------------------------

  lemma ArgsOf(form: Form)
    requires form.Chain?
    ensures Args(form).None? <==> LongDotted(form)
    ensures OnlyArgument(form).Some? <==> Args(form).Some? && |Args(form).value| == 1
    ensures OnlyArgument(form).Some? ==> Args(form).value[0] == OnlyArgument(form).value
  {
    if form.tail.Chain? && form.tail.tail.Chain? {
      var deeper := Proper(form.tail.tail.tail);
      assert Proper(form.tail).Some? ==> deeper.Some? && |Proper(form.tail).value| == 2 + |deeper.value|;
    }
  }

  /** Direct evaluation refuses in every environment. */
  lemma {:induction false} DirectRefuses(form: Form, depth: nat, env: Env, state: int)
    requires DirectTrouble(form, depth)
    ensures Direct(form, depth, env, state).Raised?
    decreases form, 1
  {
    ArgsOf(form);
    if !LongDotted(form) {
      if form.head == Symbol("unquote") {
        if OnlyArgument(form).Some? { DirectRefuses(OnlyArgument(form).value, depth - 1, env, state); }
      } else if form.head == Symbol("quasiquote") {
        if OnlyArgument(form).Some? { DirectRefuses(OnlyArgument(form).value, depth + 1, env, state); }
      } else {
        ItemsRefuse(form, depth, env, state);
      }
    }
  }

  lemma {:induction false} ItemsRefuse(form: Form, depth: nat, env: Env, state: int)
    requires form.Chain? && DirectItemsTrouble(form, depth)
    ensures DirectItems(form, depth, env, state).Failed?
    decreases form, 0
  {
    if IsSplice(form.head) && depth == 0 && OnlyArgument(form.head).None? {
      ArgsOf(form.head);
    } else if !(IsSplice(form.head) && depth == 0) && DirectTrouble(form.head, depth) {
      DirectRefuses(form.head, depth, env, state);
    } else {
      ItemsRefuse(form.tail, depth, env, HeadItems(form.head, depth, env, state).state);
    }
  }

  /** The code of a dotted list builds a dotted list, that of a proper one a proper one. */
  lemma {:induction false} ShapeStays(form: Form, env: Env, state: int)
    requires form.Chain? && ItemsPlain(form) && Eval(ExpandChain(form, 0), env, state).Done?
    ensures var v := Eval(ExpandChain(form, 0), env, state).value;
            !v.Host? && (Proper(v).Some? <==> Proper(form).Some?)
    decreases form
  {
    ExpandedHead(form);
    var rest, head := RestCode(form), HeadCode(form.head);
    EvalCons(head, rest, env, state);
    EvalAppend(head, rest, env, state);
    var both := Both(head, rest, env, state);
    if form.tail.Chain? {
      ShapeStays(form.tail, env, Eval(head, env, state).state);
    } else {
      assert both.last == form.tail;
    }
    hide Eval;
    assert !both.last.Host? && (Proper(both.last).Some? <==> Proper(form.tail).Some?);
    if ProperSplice(form.head) {
      AppendShape(both.items[0], both.last);
    }
  }

  lemma AppendShape(left: Form, right: Form)
    requires Append(left, right).Some? && !right.Host?
    ensures !Append(left, right).value.Host? && Proper(Append(left, right).value).Some? && Proper(right).Some?
  {
    ProperOfChain(SequenceItems(left).value + SequenceItems(right).value);
  }

  lemma RestShape(form: Form, env: Env, state: int)
    requires form.Chain? && ItemsPlain(form)
    ensures var r := Eval(RestCode(form), env, state);
            r.Done? ==> !r.value.Host? && (Proper(r.value).Some? <==> Proper(form.tail).Some?)
  {
    if form.tail.Chain? && Eval(RestCode(form), env, state).Done? {
      ShapeStays(form.tail, env, state);
    }
  }

  /** The expanded code refuses in every environment. */
  lemma {:induction false} ExpandedRefuses(form: Form, env: Env, state: int)
    requires Plain(form) && AppendTrouble(form)
    ensures Expanded(form, env, state).Raised?
    decreases form, 1
  {
    ExpandedItemsRefuse(form, env, state);
  }

  lemma {:induction false} ExpandedItemsRefuse(form: Form, env: Env, state: int)
    requires form.Chain? && ItemsPlain(form) && AppendItemsTrouble(form)
    ensures Eval(ExpandChain(form, 0), env, state).Raised?
    decreases form, 0
  {
    ExpandedHead(form);
    var rest, head := RestCode(form), HeadCode(form.head);
    EvalCons(head, rest, env, state);
    EvalAppend(head, rest, env, state);
    if !ProperSplice(form.head) && AppendTrouble(form.head) {
      ExpandedRefuses(form.head, env, state);
    } else if form.tail.Chain? && AppendItemsTrouble(form.tail) {
      ExpandedItemsRefuse(form.tail, env, Eval(head, env, state).state);
    } else {
      RestShape(form, env, Eval(head, env, state).state);
    }
  }

  /** The agreement, whatever is unquoted. */
  lemma TemplatesAgree(form: Form, env: Env, state: int)
    requires WellFormed(form) && (DirectTrouble(form, 0) <==> AppendTrouble(form))
    ensures SameResult(Expanded(form, env, state), Direct(form, 0, env, state))
  {
    if DirectTrouble(form, 0) {
      WellFormedIsPlain(form);
      DirectRefuses(form, 0, env, state);
      ExpandedRefuses(form, env, state);
    } else {
      FormsAgree(form, env, state);
    }
  }
}

/**
 Exactly which quasiquote templates the two instantiations agree on. One environment tells
 all others apart: a form that is evaluated gives nil, and an `unquote` form that is run as
 a call gives an empty list value, so both sides succeed wherever neither has trouble.
 */
module TemplateExact {
  import opened Wrappers
  import opened Syntax
  import opened Quasiquote
  import opened TemplateEval
  import opened TemplateAgreement

  const MARK: Env := (f: Form, s: int) => Done(if f.Chain? && f.head == Symbol("unquote") then Host([]) else Nil, s)

  /** Code that does not fail of itself, whatever the environment. */
  predicate GoodCode(code: Form) { Eval(code, MARK, 0).Done? }

  /** Code that can give a sequence. */
  predicate GoodSplice(code: Form) {
    GoodCode(code) && SequenceItems(Eval(code, MARK, 0).value).Some?
  }

  /** The code that either side evaluates is good. */
  predicate GoodCodes(form: Form, depth: nat)
    decreases form, 1
  {
    form.Chain? ==>
      if form.head == Symbol("unquote") then
        OnlyArgument(form).Some? ==>
          if depth == 0 then GoodCode(OnlyArgument(form).value) else GoodCodes(OnlyArgument(form).value, depth - 1)
      else if form.head == Symbol("quasiquote") then
        OnlyArgument(form).Some? ==> GoodCodes(OnlyArgument(form).value, depth + 1)
      else GoodItems(form, depth)
  }

  predicate GoodItems(form: Form, depth: nat)
    requires form.Chain?
    decreases form, 0
  {
    && (if ProperSplice(form.head) && depth == 0 then OneArgument(form.head) ==> GoodSplice(form.head.tail.head)
        else GoodCodes(form.head, depth))
    && (form.tail.Chain? ==> GoodItems(form.tail, depth))
  }

  // --- neither fails without trouble --------------------------------------------------------------

  lemma {:induction false} MarkIgnoresState(code: Form, s: int)
    ensures Eval(code, MARK, s).Done? <==> Eval(code, MARK, 0).Done?
    ensures Eval(code, MARK, s).state == s
    ensures Eval(code, MARK, s).Done? ==> Eval(code, MARK, s).value == Eval(code, MARK, 0).value
    decreases code
  {
    if IsCall2(code, "cons") || IsCall2(code, "append") {
      MarkIgnoresState(code.tail.head, s);
      MarkIgnoresState(code.tail.head, 0);
      MarkIgnoresState(code.tail.tail.head, s);
      MarkIgnoresState(code.tail.tail.head, 0);
    }
  }

  lemma {:induction false} DirectSucceeds(form: Form, depth: nat, s: int)
    requires GoodCodes(form, depth) && !DirectTrouble(form, depth)
    ensures Direct(form, depth, MARK, s).Done? && Direct(form, depth, MARK, s).state == s
    decreases form, 1
  {
    if form.Chain? {
      ArgsOf(form);
      if form.head == Symbol("unquote") {
        var x := OnlyArgument(form).value;
        if depth == 0 { MarkIgnoresState(x, s); } else { DirectSucceeds(x, depth - 1, s); }
      } else if form.head == Symbol("quasiquote") {
        DirectSucceeds(OnlyArgument(form).value, depth + 1, s);
      } else {
        DirectItemsSucceed(form, depth, s);
      }
    }
  }

  /** A splice that only the direct evaluator takes for one has a tail that is no chain. */
  lemma ImproperSplice(head: Form)
    requires IsSplice(head) && OnlyArgument(head).Some? && !ProperSplice(head)
    ensures !head.tail.Chain? && !head.tail.Nil? && OnlyArgument(head).value == head.tail
  {
    if head.tail.Chain? {
      OneArgumentIsProper(head);
    }
  }

  lemma {:induction false} DirectItemsSucceed(form: Form, depth: nat, s: int)
    requires form.Chain? && GoodItems(form, depth) && !DirectItemsTrouble(form, depth)
    ensures DirectItems(form, depth, MARK, s).AllDone? && DirectItems(form, depth, MARK, s).state == s
    decreases form, 0
  {
    if IsSplice(form.head) && depth == 0 {
      ArgsOf(form.head);
      SpliceSucceeds(form.head, s);
    } else {
      DirectSucceeds(form.head, depth, s);
    }
    if form.tail.Chain? {
      DirectItemsSucceed(form.tail, depth, HeadItems(form.head, depth, MARK, s).state);
    }
  }

  lemma SpliceSucceeds(head: Form, s: int)
    requires IsSplice(head) && OnlyArgument(head).Some?
    requires ProperSplice(head) && OneArgument(head) ==> GoodSplice(head.tail.head)
    ensures var r := Eval(OnlyArgument(head).value, MARK, s); r.Done? && SequenceItems(r.value).Some?
    ensures HeadItems(head, 0, MARK, s) ==
            AllDone(SequenceItems(Eval(OnlyArgument(head).value, MARK, s).value).value, Nil, s)
    ensures !ProperSplice(head) ==> HeadItems(head, 0, MARK, s).items == []
  {
    ArgsOf(head);
    if ProperSplice(head) {
      assert Proper(head.tail).Some?;
      MarkIgnoresState(head.tail.head, s);
    } else {
      ImproperSplice(head);
    }
  }

  lemma {:induction false} ExpandedSucceeds(form: Form, s: int)
    requires Plain(form) && GoodCodes(form, 0) && !AppendTrouble(form)
    ensures Expanded(form, MARK, s).Done?
    decreases form, 1
  {
    if form.Chain? {
      ArgumentIsCall1(form);
      if form.head == Symbol("unquote") {
        if OneArgument(form) { MarkIgnoresState(form.tail.head, s); }
      } else if form.head != Symbol("quasiquote") {
        ExpandedItemsSucceed(form, s);
      }
    }
  }

  lemma {:induction false} ExpandedItemsSucceed(form: Form, s: int)
    requires form.Chain? && ItemsPlain(form) && GoodItems(form, 0) && !AppendItemsTrouble(form)
    ensures Eval(ExpandChain(form, 0), MARK, s).Done?
    decreases form, 0
  {
    ExpandedHead(form);
    var rest, head := RestCode(form), HeadCode(form.head);
    EvalCons(head, rest, MARK, s);
    EvalAppend(head, rest, MARK, s);
    if ProperSplice(form.head) {
      if OneArgument(form.head) { MarkIgnoresState(head, s); }
    } else {
      ExpandedSucceeds(form.head, s);
    }
    var t := Eval(head, MARK, s).state;
    if form.tail.Chain? {
      ExpandedItemsSucceed(form.tail, t);
    }
    RestShape(form, MARK, t);
  }

  // --- what is not well formed differs ----------------------------------------------------------------

  /** The pairs that a list value is made of. */
  function Cells(v: Form): nat { if v.Chain? then 1 + Cells(v.tail) else 0 }

  lemma {:induction false} CellsOfChain(items: seq<Form>, tail: Form)
    ensures Cells(ListToChain(items, tail)) == |items| + Cells(tail)
  {
    if items != [] { CellsOfChain(items[1..], tail); }
  }

  lemma {:induction false} SamePrefix(items: seq<Form>, a: Form, b: Form)
    requires ListToChain(items, a) == ListToChain(items, b)
    ensures a == b
  {
    if items != [] { SamePrefix(items[1..], a, b); }
  }

  lemma {:induction false} FormsDiffer(form: Form, s: int)
    requires Plain(form) && GoodCodes(form, 0) && !DirectTrouble(form, 0) && !AppendTrouble(form) && !WellFormed(form)
    ensures Expanded(form, MARK, s).Done? && Direct(form, 0, MARK, s).Done?
    ensures Expanded(form, MARK, s).value != Direct(form, 0, MARK, s).value
    decreases form, 1
  {
    ExpandedSucceeds(form, s);
    DirectSucceeds(form, 0, s);
    ArgsOf(form);
    ArgumentIsCall1(form);
    if form.head == Symbol("unquote") {
      assert Expanded(form, MARK, s).value == Host([]);
    } else if form.head == Symbol("quasiquote") {
      assert Expanded(form, MARK, s).value == Nil;
    } else {
      ItemsDiffer(form, s);
    }
  }

  lemma AppendedTo(v: Form, r: Form)
    requires Append(v, r).Some? && !r.Host?
    ensures Append(v, r).value == ListToChain(SequenceItems(v).value, r)
  {
    ChainOfProper(r);
    ChainsConcatenate(SequenceItems(v).value, Proper(r).value, Nil);
  }

  /** A list from its head and what follows, on both sides. */
  ghost predicate Follows(whole: Form, rest: Form, items: seq<Form>) { whole == ListToChain(items, rest) }

  lemma DirectFollows(form: Form, s: int)
    requires form.Chain? && GoodItems(form, 0) && !DirectItemsTrouble(form, 0)
    ensures var h, r, d := HeadItems(form.head, 0, MARK, s), DirectItems(form.tail, 0, MARK, s), DirectItems(form, 0, MARK, s);
            && h.AllDone? && r.AllDone? && d.AllDone?
            && Follows(Collected(d).value, Collected(r).value, h.items)
  {
    DirectItemsSucceed(form, 0, s);
    var h := HeadItems(form.head, 0, MARK, s);
    if IsSplice(form.head) {
      ArgsOf(form.head);
      SpliceSucceeds(form.head, s);
    } else {
      DirectSucceeds(form.head, 0, s);
    }
    var r := DirectItems(form.tail, 0, MARK, s);
    if form.tail.Chain? {
      DirectItemsSucceed(form.tail, 0, s);
    }
    ChainsConcatenate(h.items, r.items, r.last);
  }

  lemma ExpandedFollows(form: Form, s: int)
    requires form.Chain? && ItemsPlain(form) && GoodItems(form, 0) && !AppendItemsTrouble(form)
    ensures var h, r, e := Eval(HeadCode(form.head), MARK, s), Eval(RestCode(form), MARK, s), Eval(ExpandChain(form, 0), MARK, s);
            && h.Done? && r.Done? && e.Done? && (ProperSplice(form.head) ==> SequenceItems(h.value).Some?)
            && Follows(e.value, r.value, if ProperSplice(form.head) then SequenceItems(h.value).value else [h.value])
  {
    ExpandedItemsSucceed(form, s);
    ExpandedHead(form);
    EvalCons(HeadCode(form.head), RestCode(form), MARK, s);
    EvalAppend(HeadCode(form.head), RestCode(form), MARK, s);
    MarkIgnoresState(HeadCode(form.head), s);
    RestShape(form, MARK, s);
    hide Eval, Expand, ExpandChain, ItemsPlain, GoodItems, HeadCode, RestCode;
    if ProperSplice(form.head) {
      AppendedTo(Eval(HeadCode(form.head), MARK, s).value, Eval(RestCode(form), MARK, s).value);
    } else {
      var h, r := Eval(HeadCode(form.head), MARK, s), Eval(RestCode(form), MARK, s);
      assert ListToChain([h.value][1..], r.value) == r.value;
    }
  }

  /** Both sides of a list, item by item. */
  lemma {:induction false} ItemsDiffer(form: Form, s: int)
    requires form.Chain? && ItemsPlain(form) && GoodItems(form, 0)
    requires !DirectItemsTrouble(form, 0) && !AppendItemsTrouble(form)
    ensures var e, d := Eval(ExpandChain(form, 0), MARK, s), Collected(DirectItems(form, 0, MARK, s));
            && e.Done? && d.Done? && Cells(e.value) >= Cells(d.value)
            && (!ItemsWellFormed(form) ==> e.value != d.value)
    decreases form, 0
  {
    DirectFollows(form, s);
    ExpandedFollows(form, s);
    var re, rd := Eval(RestCode(form), MARK, s).value, Collected(DirectItems(form.tail, 0, MARK, s)).value;
    if form.tail.Chain? {
      ItemsDiffer(form.tail, s);
    }
    var he, hd := Eval(HeadCode(form.head), MARK, s).value, HeadItems(form.head, 0, MARK, s).items;
    CellsOfChain(hd, rd);
    if IsSplice(form.head) {
      SpliceSucceeds(form.head, s);
      if ProperSplice(form.head) {
        CellsOfChain(hd, re);
        assert OneArgument(form.head) by { assert Proper(form.head.tail).Some?; }
        if ListToChain(hd, re) == ListToChain(hd, rd) { SamePrefix(hd, re, rd); }
      } else {
        CellsOfChain([he], re);
      }
    } else {
      CellsOfChain([he], re);
      assert [he][1..] == [] && hd[1..] == [];
      if !WellFormed(form.head) { FormsDiffer(form.head, s); }
    }
  }

  // --- exactly when -------------------------------------------------------------------------------------

  /** The two instantiations agree in every environment. */
  ghost predicate Agree(form: Form) {
    forall env: Env, state: int :: SameResult(Expanded(form, env, state), Direct(form, 0, env, state))
  }

  /** For all templates: well-formed ones agree when both sides refuse or neither does, others
      when both refuse. */
  lemma TemplatesAgreeExactly(form: Form)
    requires Plain(form) && GoodCodes(form, 0)
    ensures Agree(form) <==>
            if WellFormed(form) then DirectTrouble(form, 0) <==> AppendTrouble(form)
            else DirectTrouble(form, 0) && AppendTrouble(form)
  {
    hide Plain, GoodCodes, WellFormed, DirectTrouble, AppendTrouble, Expanded, Direct;
    var direct, append := DirectTrouble(form, 0), AppendTrouble(form);
    if direct && append {
      forall env: Env, state: int ensures SameResult(Expanded(form, env, state), Direct(form, 0, env, state)) {
        DirectRefuses(form, 0, env, state);
        ExpandedRefuses(form, env, state);
      }
    } else if direct != append {
      if direct { DirectRefuses(form, 0, MARK, 0); } else { DirectSucceeds(form, 0, 0); }
      if append { ExpandedRefuses(form, MARK, 0); } else { ExpandedSucceeds(form, 0); }
      assert !SameResult(Expanded(form, MARK, 0), Direct(form, 0, MARK, 0));
    } else if WellFormed(form) {
      forall env: Env, state: int ensures SameResult(Expanded(form, env, state), Direct(form, 0, env, state)) {
        TemplatesAgree(form, env, state);
      }
    } else {
      FormsDiffer(form, 0);
      assert !SameResult(Expanded(form, MARK, 0), Direct(form, 0, MARK, 0));
    }
  }

  /** A template that is a quasiquote form never agrees: the expansion is a call that the
      environment runs, where the direct evaluator refuses it or builds a quasiquote form. */
  lemma NestedQuasiquoteDisagrees(form: Form)
    requires form.Chain? && form.head == Symbol("quasiquote") && GoodCodes(form, 0)
    ensures !Agree(form)
  {
    hide GoodCodes, DirectTrouble;
    assert Plain(form) && !AppendTrouble(form) && !WellFormed(form);
    TemplatesAgreeExactly(form);
  }

  /** Nor does an unquote form without its one argument: the expansion runs the form itself. */
  lemma BareUnquoteDisagrees(form: Form)
    requires form.Chain? && form.head == Symbol("unquote") && !OneArgument(form)
    ensures !Agree(form)
  {
    hide DirectTrouble;
    assert Plain(form) && !AppendTrouble(form) && !WellFormed(form);
    if OnlyArgument(form).Some? {
      assert !form.tail.Chain?;
    }
    TemplatesAgreeExactly(form);
  }

  /** A template that is not well formed agrees only by being refused on both sides. */
  lemma OthersOnlyRefuse(form: Form)
    requires Plain(form) && GoodCodes(form, 0) && !WellFormed(form)
    ensures Agree(form) ==> DirectTrouble(form, 0) && AppendTrouble(form)
    ensures Agree(form) ==> forall env: Env, state: int ::
              Expanded(form, env, state).Raised? && Direct(form, 0, env, state).Raised?
  {
    TemplatesAgreeExactly(form);
    if Agree(form) {
      forall env: Env, state: int
        ensures Expanded(form, env, state).Raised? && Direct(form, 0, env, state).Raised?
      {
        DirectRefuses(form, 0, env, state);
        ExpandedRefuses(form, env, state);
      }
    }
  }
}

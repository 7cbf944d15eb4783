/**
 What a quasiquote template stands for, at every level of nesting: which parts are data,
 which are evaluated, in which order, and what a splice puts in (qy/core/quasiquote.py and
 `_eval_quasiquote` in qy/macro/evaluator.py).
 */
module TemplateLevels {
  import opened Wrappers
  import opened Syntax
  import opened Quasiquote
  import opened TemplateEval
  import opened TemplateAgreement

  // --- sequences ------------------------------------------------------------------------------

  /** A tuple or list value, or a proper list, of these items. */
  predicate IsSequence(value: Form, items: seq<Form>) { value == Host(items) || value == ListToChain(items, Nil) }

  lemma SequenceExactly(value: Form, items: seq<Form>)
    ensures SequenceItems(value) == Some(items) <==> IsSequence(value, items)
  {
    ProperOfChain(items);
    if Proper(value) == Some(items) { ChainOfProper(value); }
    if value.Nil? && items != [] { assert ListToChain(items, Nil).Chain?; }
  }

  /** `append` concatenates; it makes a list if either side is one, or empty. */
  lemma AppendExactly(left: Form, right: Form, result: Form)
    ensures Append(left, right) == Some(result) <==>
              exists a, b :: IsSequence(left, a) && IsSequence(right, b) &&
                             result == if left.Host? && right.Host? then Host(a + b) else ListToChain(a + b, Nil)
  {
    if Append(left, right) == Some(result) {
      var a, b := SequenceItems(left).value, SequenceItems(right).value;
      SequenceExactly(left, a);
      SequenceExactly(right, b);
      assert IsSequence(left, a) && IsSequence(right, b);
    }
    forall a, b | IsSequence(left, a) && IsSequence(right, b) &&
                  result == if left.Host? && right.Host? then Host(a + b) else ListToChain(a + b, Nil)
      ensures Append(left, right) == Some(result)
    {
      SequenceExactly(left, a);
      SequenceExactly(right, b);
    }
  }

  // --- data --------------------------------------------------------------------------------------

  /** Nothing in the template belongs to its own quasiquote: each unquote is undone by a
      quasiquote in the template, and lists are proper or have one item in front of the dot. */
  predicate Inert(form: Form, depth: nat)
    decreases form, 1
  {
    form.Chain? ==>
      if form.head == Symbol("unquote") then OneArgument(form) && depth > 0 && Inert(form.tail.head, depth - 1)
      else if form.head == Symbol("quasiquote") then OneArgument(form) && Inert(form.tail.head, depth + 1)
      else !LongDotted(form) && ItemsInert(form, depth)
  }

  predicate ItemsInert(form: Form, depth: nat)
    requires form.Chain?
    decreases form, 0
  {
    && !(IsSplice(form.head) && depth == 0) && Inert(form.head, depth)
    && (form.tail.Chain? ==> ItemsInert(form.tail, depth))
  }

  /** Such a template is data: it comes back as it is and nothing is evaluated. */
  lemma {:induction false} InertStays(form: Form, depth: nat, env: Env, state: int)
    requires Inert(form, depth)
    ensures Direct(form, depth, env, state) == Done(form, state)
    decreases form, 1
  {
    if form.Chain? {
      if form.head == Symbol("unquote") {
        OneArgumentArgs(form);
        InertStays(form.tail.head, depth - 1, env, state);
      } else if form.head == Symbol("quasiquote") {
        OneArgumentArgs(form);
        InertStays(form.tail.head, depth + 1, env, state);
      } else {
        ArgsOf(form);
        ItemsInertStay(form, depth, env, state);
      }
    }
  }

  lemma {:induction false} ItemsInertStay(form: Form, depth: nat, env: Env, state: int)
    requires form.Chain? && ItemsInert(form, depth)
    ensures Collected(DirectItems(form, depth, env, state)) == Done(form, state)
    decreases form, 0
  {
    InertStays(form.head, depth, env, state);
    var rest := DirectItems(form.tail, depth, env, state);
    if form.tail.Chain? { ItemsInertStay(form.tail, depth, env, state); }
    assert HeadItems(form.head, depth, env, state) == AllDone([form.head], Nil, state);
    assert ([form.head] + rest.items)[1..] == rest.items;
    assert ListToChain(rest.items, rest.last) == form.tail;
  }

  // --- levels --------------------------------------------------------------------------------------

  predicate IsList(form: Form) { form.Chain? || form.Nil? }

  /** An unquote inside a quasiquote inside the template leads back to the level around both,
      and at the template's own level it is replaced by its value,
      also where it is dotted. */
  lemma LevelsCancel(form: Form, depth: nat, env: Env, state: int)
    ensures Direct(Call1("quasiquote", Call1("unquote", form)), depth, env, state) ==
            Rebuilt("quasiquote", Rebuilt("unquote", Direct(form, depth, env, state)))
    ensures Direct(Call1("unquote", form), 0, env, state) == Eval(form, env, state)
    ensures !IsList(form) ==> Direct(Chain(Symbol("unquote"), form), 0, env, state) == Eval(form, env, state)
  {
    hide Eval;
    OneArgumentArgs(Call1("unquote", form));
    OneArgumentArgs(Call1("quasiquote", Call1("unquote", form)));
    assert |"unquote"| == 7 && |"quasiquote"| == 10;
  }

  // --- lists ----------------------------------------------------------------------------------------

  /** What one item of a list contributes: the items that a splice at the template's own level
      evaluates to, or the instance of the item. */
  ghost predicate Piece(item: Form, piece: seq<Form>, depth: nat, env: Env, before: int, after: int) {
    if IsSplice(item) && depth == 0 then
      && OnlyArgument(item).Some?
      && var v := Eval(OnlyArgument(item).value, env, before); v.Done? && IsSequence(v.value, piece) && v.state == after
    else
      var v := Direct(item, depth, env, before); v.Done? && piece == [v.value] && v.state == after
  }

  /** Each item is instantiated in the state that the one before it left. */
  ghost predicate Pieces(items: seq<Form>, pieces: seq<seq<Form>>, states: seq<int>, depth: nat, env: Env) {
    && |pieces| == |items| && |states| == |items| + 1
    && forall k :: 0 <= k < |items| ==> Piece(items[k], pieces[k], depth, env, states[k], states[k + 1])
  }

  function Joined(pieces: seq<seq<Form>>): seq<Form> { if pieces == [] then [] else pieces[0] + Joined(pieces[1..]) }

  ghost predicate Instance(items: seq<Form>, list: seq<Form>, depth: nat, env: Env, before: int, after: int) {
    exists pieces, states ::
      Pieces(items, pieces, states, depth, env) && states[0] == before && states[|items|] == after && Joined(pieces) == list
  }

  lemma HeadIsPiece(head: Form, depth: nat, env: Env, before: int, piece: seq<Form>, after: int)
    ensures HeadItems(head, depth, env, before) == AllDone(piece, Nil, after) <==> Piece(head, piece, depth, env, before, after)
  {
    hide Eval, Direct;
    if IsSplice(head) && depth == 0 {
      ArgsOf(head);
      if OnlyArgument(head).Some? {
        var v := Eval(OnlyArgument(head).value, env, before);
        if v.Done? { SequenceExactly(v.value, piece); }
      }
    }
  }

  /** The items of a list, in order: their pieces are joined in front of the same tail. */
  lemma {:induction false} ItemsAreInstance(items: seq<Form>, last: Form, depth: nat, env: Env, before: int, list: seq<Form>, after: int)
    requires !last.Chain?
    ensures DirectItems(ListToChain(items, last), depth, env, before) == AllDone(list, last, after) <==>
              Instance(items, list, depth, env, before, after)
    decreases |items|
  {
    hide HeadItems, Piece;
    var form := ListToChain(items, last);
    if items == [] {
      if list == [] && before == after { assert Pieces(items, [], [before], depth, env) && Joined([]) == list; }
    } else {
      assert form.head == items[0] && form.tail == ListToChain(items[1..], last);
      if DirectItems(form, depth, env, before) == AllDone(list, last, after) {
        var first := HeadItems(form.head, depth, env, before);
        var others := DirectItems(form.tail, depth, env, first.state);
        HeadEndsInNil(form.head, depth, env, before);
        HeadIsPiece(form.head, depth, env, before, first.items, first.state);
        ItemsAreInstance(items[1..], last, depth, env, first.state, others.items, after);
        var pieces, states :| Pieces(items[1..], pieces, states, depth, env) && states[0] == first.state &&
                              states[|items| - 1] == after && Joined(pieces) == others.items;
        PiecesOne(items, [first.items] + pieces, [before] + states, depth, env);
        assert Joined([first.items] + pieces) == list by { assert ([first.items] + pieces)[1..] == pieces; }
      }
      forall pieces, states | Pieces(items, pieces, states, depth, env) && states[0] == before &&
                              states[|items|] == after && Joined(pieces) == list
        ensures DirectItems(form, depth, env, before) == AllDone(list, last, after)
      {
        PiecesOne(items, pieces, states, depth, env);
        HeadIsPiece(form.head, depth, env, before, pieces[0], states[1]);
        assert states[1..][0] == states[1] && states[1..][|items| - 1] == after;
        assert Instance(items[1..], Joined(pieces[1..]), depth, env, states[1], after);
        ItemsAreInstance(items[1..], last, depth, env, states[1], Joined(pieces[1..]), after);
      }
    }
  }

  lemma HeadEndsInNil(head: Form, depth: nat, env: Env, state: int)
    ensures HeadItems(head, depth, env, state).AllDone? ==> HeadItems(head, depth, env, state).last == Nil
  {
  }

  lemma PiecesOne(items: seq<Form>, pieces: seq<seq<Form>>, states: seq<int>, depth: nat, env: Env)
    requires items != [] && |pieces| == |items| && |states| == |items| + 1
    ensures Pieces(items, pieces, states, depth, env) <==>
              Piece(items[0], pieces[0], depth, env, states[0], states[1]) && Pieces(items[1..], pieces[1..], states[1..], depth, env)
  {
    hide Piece;
    if Piece(items[0], pieces[0], depth, env, states[0], states[1]) && Pieces(items[1..], pieces[1..], states[1..], depth, env) {
      forall k | 0 <= k < |items| ensures Piece(items[k], pieces[k], depth, env, states[k], states[k + 1]) {
        if k > 0 { assert Piece(items[1..][k - 1], pieces[1..][k - 1], depth, env, states[1..][k - 1], states[1..][k]); }
      }
    }
    if Pieces(items, pieces, states, depth, env) {
      forall k | 0 <= k < |items| - 1
        ensures Piece(items[1..][k], pieces[1..][k], depth, env, states[1..][k], states[1..][k + 1])
      {
        assert Piece(items[k + 1], pieces[k + 1], depth, env, states[k + 1], states[k + 2]);
      }
    }
  }

  /** A list that is no unquote or quasiquote form is instantiated item by item from the left. */
  lemma ListIsInstance(items: seq<Form>, last: Form, depth: nat, env: Env, before: int, result: Form, after: int)
    requires items != [] && !last.Chain? && (last.Nil? || |items| == 1)
    requires items[0] != Symbol("unquote") && items[0] != Symbol("quasiquote")
    ensures Direct(ListToChain(items, last), depth, env, before) == Done(result, after) <==>
              exists list :: Instance(items, list, depth, env, before, after) && result == ListToChain(list, last)
  {
    hide Eval, HeadItems, Instance;
    var form := ListToChain(items, last);
    assert form.tail == ListToChain(items[1..], last);
    if last.Nil? { ProperOfChain(items[1..]); } else { assert items[1..] == []; }
    var whole := DirectItems(form, depth, env, before);
    if whole.AllDone? {
      LastStays(items, last, depth, env, before);
      ItemsAreInstance(items, last, depth, env, before, whole.items, whole.state);
      if Direct(form, depth, env, before) == Done(result, after) {
        assert Instance(items, whole.items, depth, env, before, after);
      }
    }
    forall list | Instance(items, list, depth, env, before, after) && result == ListToChain(list, last)
      ensures Direct(form, depth, env, before) == Done(result, after)
    {
      ItemsAreInstance(items, last, depth, env, before, list, after);
    }
  }

  lemma {:induction false} LastStays(items: seq<Form>, last: Form, depth: nat, env: Env, state: int)
    requires !last.Chain?
    ensures var r := DirectItems(ListToChain(items, last), depth, env, state); r.AllDone? ==> r.last == last
    decreases |items|
  {
    hide HeadItems;
    if items != [] { LastStays(items[1..], last, depth, env, HeadItems(items[0], depth, env, state).state); }
  }

  // --- the code of every level ----------------------------------------------------------------------------

  /** `list` builds a list, and the two words of the levels stand for themselves. */
  ghost predicate BuildsLevels(env: Env) {
    forall name: string, code: Form, s: int :: name in {"unquote", "quasiquote"} ==>
      env(Call2("list", Symbol(name), code), s) == Rebuilt(name, Eval(code, env, s))
  }

  /** One argument to each unquote, quasiquote and splice form of its own level, and no list
      that either instantiation refuses. */
  predicate Regular(form: Form, depth: nat)
    decreases form, 1
  {
    form.Chain? ==>
      if form.head == Symbol("unquote") then OneArgument(form) && (depth > 0 ==> Regular(form.tail.head, depth - 1))
      else if form.head == Symbol("quasiquote") then OneArgument(form) && Regular(form.tail.head, depth + 1)
      else !LongDotted(form) && ItemsRegular(form, depth)
  }

  predicate ItemsRegular(form: Form, depth: nat)
    requires form.Chain?
    decreases form, 0
  {
    && (if IsSplice(form.head) && depth == 0 then OneArgument(form.head) && Proper(form).Some? else Regular(form.head, depth))
    && (form.tail.Chain? ==> ItemsRegular(form.tail, depth))
  }

  /** Where the words of the levels stand for themselves, the two instantiations of a template
      agree at every depth of nesting. */
  lemma {:induction false} LevelsAgree(form: Form, depth: nat, env: Env, state: int)
    requires Regular(form, depth) && BuildsLevels(env)
    ensures SameResult(Eval(Expand(form, depth), env, state), Direct(form, depth, env, state))
    decreases form, 1
  {
    if form.Chain? {
      ArgumentIsCall1(form);
      if form.head == Symbol("unquote") {
        OneArgumentArgs(form);
        if depth > 0 {
          LevelsAgree(form.tail.head, depth - 1, env, state);
          LevelCode("unquote", Expand(form.tail.head, depth - 1), env, state);
        }
      } else if form.head == Symbol("quasiquote") {
        OneArgumentArgs(form);
        LevelsAgree(form.tail.head, depth + 1, env, state);
        LevelCode("quasiquote", Expand(form.tail.head, depth + 1), env, state);
      } else {
        ArgsOf(form);
        ItemsOfLevelAgree(form, depth, env, state);
      }
    }
  }

  lemma LevelCode(name: string, code: Form, env: Env, state: int)
    requires name in {"unquote", "quasiquote"} && BuildsLevels(env)
    ensures Eval(Call2("list", Symbol(name), code), env, state) == Rebuilt(name, Eval(code, env, state))
  {
    assert |"list"| == 4 && |"cons"| == 4 && "list"[0] == 'l' && "cons"[0] == 'c' && |"append"| == 6 && |"quote"| == 5;
    assert !IsCall1(Call2("list", Symbol(name), code), "quote");
  }

  lemma {:induction false} ItemsOfLevelAgree(form: Form, depth: nat, env: Env, state: int)
    requires form.Chain? && ItemsRegular(form, depth) && BuildsLevels(env)
    ensures SameResult(Eval(ExpandChain(form, depth), env, state), Collected(DirectItems(form, depth, env, state)))
    decreases form, 0
  {
    hide Eval, BuildsLevels;
    if IsSplice(form.head) && depth == 0 {
      ExpandedHead(form);
      OneArgumentArgs(form.head);
      OneArgumentIsProper(form.head);
      RestOfLevelAgrees(form, 0, env, Eval(form.head.tail.head, env, state).state);
      SplicedHead(form, env, state);
    } else {
      var rest := if form.tail.Chain? then ExpandChain(form.tail, depth) else Call1("quote", form.tail);
      SpliceByHead(form.head);
      assert ExpandChain(form, depth) == Call2("cons", Expand(form.head, depth), rest);
      LevelsAgree(form.head, depth, env, state);
      var d := Direct(form.head, depth, env, state);
      RestOfLevelAgrees(form, depth, env, d.state);
      EvalCons(Expand(form.head, depth), rest, env, state);
      var others := DirectItems(form.tail, depth, env, d.state);
      if d.Done? && others.AllDone? { assert ([d.value] + others.items)[1..] == others.items; }
    }
  }

  lemma SpliceByHead(head: Form)
    ensures var items := Proper(head);
            items.Some? && items.value != [] && items.value[0] == Symbol("unquote-splicing") ==> IsSplice(head)
  {
  }

  lemma {:induction false} RestOfLevelAgrees(form: Form, depth: nat, env: Env, state: int)
    requires form.Chain? && ItemsRegular(form, depth) && BuildsLevels(env)
    ensures var rest := if form.tail.Chain? then ExpandChain(form.tail, depth) else Call1("quote", form.tail);
            SameResult(Eval(rest, env, state), Collected(DirectItems(form.tail, depth, env, state)))
    decreases form.tail, 1
  {
    if form.tail.Chain? {
      hide Eval;
      ItemsOfLevelAgree(form.tail, depth, env, state);
    }
  }

  // --- an environment of this kind -------------------------------------------------------------------------

  predicate IsLevelCode(code: Form) {
    IsCall2(code, "list") && (code.tail.head == Symbol("unquote") || code.tail.head == Symbol("quasiquote"))
  }

  /** Any environment, with `list` applied to the two words. */
  function Levelled(base: Env, code: Form, state: int): Outcome
    decreases code, 0
  {
    if IsLevelCode(code) then Rebuilt(code.tail.head.name, EvalLevelled(base, code.tail.tail.head, state))
    else base(code, state)
  }

  function EvalLevelled(base: Env, code: Form, state: int): Outcome
    decreases code, 1
  {
    if IsCall1(code, "quote") then Done(code.tail.head, state)
    else if IsCall2(code, "cons") || IsCall2(code, "append") then
      match EvalLevelled(base, code.tail.head, state)
      case Raised(s) => Raised(s)
      case Done(left, s) =>
        match EvalLevelled(base, code.tail.tail.head, s)
        case Raised(s') => Raised(s')
        case Done(right, s') =>
          if IsCall2(code, "cons") then Done(Chain(left, right), s')
          else match Append(left, right) {
            case Some(list) => Done(list, s')
            case None => Raised(s')
          }
    else Levelled(base, code, state)
  }

  lemma {:induction false} EvalIsLevelled(base: Env, env: Env, code: Form, state: int)
    requires forall c: Form, s: int :: env(c, s) == Levelled(base, c, s)
    ensures Eval(code, env, state) == EvalLevelled(base, code, state)
    decreases code
  {
    if IsCall2(code, "cons") || IsCall2(code, "append") {
      EvalIsLevelled(base, env, code.tail.head, state);
      EvalIsLevelled(base, env, code.tail.tail.head, Eval(code.tail.head, env, state).state);
    }
  }

  /** Every environment can be made one in which the words of the levels stand for themselves. */
  lemma LevelledBuilds(base: Env)
    ensures BuildsLevels((code, state) => Levelled(base, code, state))
  {
    var env: Env := (code, state) => Levelled(base, code, state);
    forall name: string, code: Form, s: int | name in {"unquote", "quasiquote"}
      ensures env(Call2("list", Symbol(name), code), s) == Rebuilt(name, Eval(code, env, s))
    {
      EvalIsLevelled(base, env, code, s);
    }
  }
}

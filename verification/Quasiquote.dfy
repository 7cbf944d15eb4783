/** `expand_quasiquote` (qy/core/quasiquote.py): a template becomes code that builds it. */
module Quasiquote {
  import opened Wrappers
  import opened Syntax

  /** The one argument that an `unquote` or `quasiquote` form needs, if it has just that. */
  function Argument(form: Form): Option<Form>
    requires form.Chain?
  {
    var rest := Proper(form.tail);
    if rest.Some? && |rest.value| == 1 then Some(rest.value[0]) else None
  }

  lemma ArgumentIsCall1(form: Form)
    requires form.Chain?
    ensures Argument(form).Some? <==> form.tail.Chain? && form.tail.tail.Nil?
    ensures Argument(form).Some? ==> Argument(form).value == form.tail.head
  {
    if form.tail.Chain? && form.tail.tail.Chain? {
      var deeper := Proper(form.tail.tail.tail);
      assert Proper(form.tail).Some? ==> deeper.Some? && |Proper(form.tail).value| == 2 + |deeper.value|;
    }
  }

  function Expand(form: Form, depth: nat): Form
    decreases form, 1
  {
    if !form.Chain? then Call1("quote", form)
    else
      ArgumentIsCall1(form);
      var argument := Argument(form);
      if form.head == Symbol("unquote") then
        if argument.None? then form
        else if depth == 0 then argument.value
        else Call2("list", Symbol("unquote"), Expand(argument.value, depth - 1))
      else if form.head == Symbol("quasiquote") then
        if argument.None? then form
        else Call2("list", Symbol("quasiquote"), Expand(argument.value, depth + 1))
      else ExpandChain(form, depth)
  }

  predicate IsSplice(form: Form) { form.Chain? && form.head == Symbol("unquote-splicing") }

  function ExpandChain(form: Form, depth: nat): Form
    requires form.Chain?
    decreases form, 0
  {
    var rest := if form.tail.Chain? then ExpandChain(form.tail, depth) else Call1("quote", form.tail);
    var items := Proper(form.head);
    if depth == 0 && items.Some? && items.value != [] && items.value[0] == Symbol("unquote-splicing") then
      Call2("append", if |items.value| == 2 then items.value[1] else form.head, rest)
    else
      Call2("cons", Expand(form.head, depth), rest)
  }
}

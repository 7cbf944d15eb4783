/**
 Syntax data of the Python front end (qy/core/syntax.py), without spans. A `Host` is any
 tuple or list value of the language, an `Atom` any other value.
 */
module Syntax {
  import opened Wrappers

  datatype Form = Symbol(name: string) | Nil | Chain(head: Form, tail: Form) | Host(items: seq<Form>) | Atom(id: int)

  /** `list_to_chain`, with any tail. */
  function ListToChain(items: seq<Form>, tail: Form): Form {
    if items == [] then tail else Chain(items[0], ListToChain(items[1..], tail))
  }

  function Call1(name: string, a: Form): Form { Chain(Symbol(name), Chain(a, Nil)) }

  function Call2(name: string, a: Form, b: Form): Form { Chain(Symbol(name), Chain(a, Chain(b, Nil))) }

  predicate IsCall1(form: Form, name: string) {
    form.Chain? && form.head == Symbol(name) && form.tail.Chain? && form.tail.tail.Nil?
  }

  predicate IsCall2(form: Form, name: string) {
    && form.Chain? && form.head == Symbol(name)
    && form.tail.Chain? && form.tail.tail.Chain? && form.tail.tail.tail.Nil?
  }

  /** The items of a proper list. */
  function Proper(form: Form): Option<seq<Form>> {
    match form
    case Nil => Some([])
    case Chain(head, tail) =>
      var rest := Proper(tail);
      if rest.Some? then Some([head] + rest.value) else None
    case _ => None
  }

  lemma {:induction false} ProperOfChain(items: seq<Form>)
    ensures Proper(ListToChain(items, Nil)) == Some(items)
  {
    if items != [] {
      ProperOfChain(items[1..]);
      assert [items[0]] + items[1..] == items;
    }
  }

  lemma {:induction false} ChainOfProper(form: Form)
    requires Proper(form).Some?
    ensures ListToChain(Proper(form).value, Nil) == form
  {
    if form.Chain? {
      ChainOfProper(form.tail);
      assert Proper(form).value[1..] == Proper(form.tail).value;
    }
  }

  lemma {:induction false} ChainsConcatenate(a: seq<Form>, b: seq<Form>, tail: Form)
    ensures ListToChain(a + b, tail) == ListToChain(a, ListToChain(b, tail))
  {
    if a == [] {
      assert a + b == b;
    } else {
      ChainsConcatenate(a[1..], b, tail);
      assert (a + b)[1..] == a[1..] + b;
    }
  }

  /** `_proper_items` (qy/core/quasiquote.py). */
  method ProperItems(chain: Form) returns (items: Option<seq<Form>>)
    ensures items == Proper(chain)
  {
    if chain.Nil? { return Some([]); }
    if !chain.Chain? { return None; }
    var list: seq<Form> := [];
    var current := chain;
    while current.Chain?
      invariant Proper(chain).None? == Proper(current).None?
      invariant Proper(chain).Some? ==> Proper(chain).value == list + Proper(current).value
      decreases current
    {
      list := list + [current.head];
      current := current.tail;
    }
    assert current.Nil? ==> list + [] == list;
    return if current.Nil? then Some(list) else None;
  }
}

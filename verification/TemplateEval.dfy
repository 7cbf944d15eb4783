/**
 Compile-time evaluation of quasiquote templates (qy/macro/evaluator.py). Evaluation
 threads a state, so two evaluations that end in the same state for every environment have
 evaluated the same forms in the same order. `cons` and `append` are the standard operators;
 every other form is left to the environment.
 */
module TemplateEval {
  import opened Wrappers
  import opened Syntax
  import opened Quasiquote

  datatype Outcome = Done(value: Form, state: int) | Raised(state: int)

  type Env = (Form, int) -> Outcome

  /** What `append` and `unquote-splicing` accept (qy/std/data.py, `_append_items`). */
  function SequenceItems(value: Form): Option<seq<Form>> {
    match value
    case Host(items) => Some(items)
    case Nil => Some([])
    case Chain(_, _) => Proper(value)
    case _ => None
  }

  function Append(left: Form, right: Form): Option<Form> {
    var (a, b) := (SequenceItems(left), SequenceItems(right));
    if a.None? || b.None? then None
    else if left.Chain? || left.Nil? || right.Chain? || right.Nil? then
      Some(ListToChain(a.value + b.value, Nil))
    else Some(Host(a.value + b.value))
  }

  function Eval(code: Form, env: Env, state: int): Outcome {
    if IsCall1(code, "quote") then Done(code.tail.head, state)
    else if IsCall2(code, "cons") || IsCall2(code, "append") then
      match Eval(code.tail.head, env, state)
      case Raised(s) => Raised(s)
      case Done(left, s) =>
        match Eval(code.tail.tail.head, env, s)
        case Raised(s') => Raised(s')
        case Done(right, s') =>
          if IsCall2(code, "cons") then Done(Chain(left, right), s')
          else match Append(left, right) {
            case Some(list) => Done(list, s')
            case None => Raised(s')
          }
    else env(code, state)
  }

  /** `_args_of`, which raises on a call whose tail is an improper chain. */
  function Args(form: Form): Option<seq<Form>>
    requires form.Chain?
  {
    if form.tail.Nil? then Some([])
    else if form.tail.Chain? then Proper(form.tail)
    else Some([form.tail])
  }

  datatype Items = AllDone(items: seq<Form>, last: Form, state: int) | Failed(state: int)

  lemma ArgsAreSmaller(form: Form)
    requires form.Chain? && Args(form).Some? && |Args(form).value| == 1
    ensures form.tail.Chain? ==> Args(form).value[0] == form.tail.head
    ensures !form.tail.Chain? ==> Args(form).value[0] == form.tail
  {
  }

  /** `_eval_quasiquote`: the template is instantiated directly. */
  function Direct(value: Form, depth: nat, env: Env, state: int): Outcome
    decreases value, 1
  {
    if !value.Chain? then Done(value, state)
    else
      var args := Args(value);
      if args.None? then Raised(state)
      else if value.head == Symbol("unquote") then
        if |args.value| != 1 then Raised(state)
        else if depth == 0 then Eval(args.value[0], env, state)
        else
          ArgsAreSmaller(value);
          Rebuilt("unquote", Direct(args.value[0], depth - 1, env, state))
      else if value.head == Symbol("quasiquote") then
        if |args.value| != 1 then Raised(state)
        else
          ArgsAreSmaller(value);
          Rebuilt("quasiquote", Direct(args.value[0], depth + 1, env, state))
      else Collected(DirectItems(value, depth, env, state))
  }

  function Rebuilt(name: string, inner: Outcome): Outcome {
    match inner
    case Done(v, s) => Done(Call1(name, v), s)
    case Raised(s) => Raised(s)
  }

  function Collected(items: Items): Outcome {
    match items
    case AllDone(list, last, s) => Done(ListToChain(list, last), s)
    case Failed(s) => Raised(s)
  }

  /** The items of the chain from `value` on, and what follows the last of them. */
  function DirectItems(value: Form, depth: nat, env: Env, state: int): Items
    decreases value, 0
  {
    if !value.Chain? then AllDone([], value, state)
    else
      match HeadItems(value.head, depth, env, state)
      case Failed(s) => Failed(s)
      case AllDone(first, _, s) =>
        match DirectItems(value.tail, depth, env, s)
        case Failed(s') => Failed(s')
        case AllDone(others, last, s') => AllDone(first + others, last, s')
  }

  function HeadItems(head: Form, depth: nat, env: Env, state: int): Items
    decreases head, 2
  {
    if IsSplice(head) && depth == 0 then
      var args := Args(head);
      if args.None? || |args.value| != 1 then Failed(state)
      else
        match Eval(args.value[0], env, state)
        case Raised(s) => Failed(s)
        case Done(v, s) =>
          match SequenceItems(v)
          case Some(items) => AllDone(items, Nil, s)
          case None => Failed(s)
    else
      match Direct(head, depth, env, state)
      case Raised(s) => Failed(s)
      case Done(v, s) => AllDone([v], Nil, s)
  }

  // --- the evaluator as written -------------------------------------------------------------

  class Evaluator {
    const env: Env
    var state: int

    constructor (env: Env, state: int)
      ensures this.env == env && this.state == state
    {
      this.env := env;
      this.state := state;
    }

    /** The value that a method returned, or that it raised, with the state it left. */
    function Report(r: Option<Form>): Outcome
      reads this
    {
      if r.Some? then Done(r.value, state) else Raised(state)
    }

    method EvalForm(form: Form) returns (r: Option<Form>)
      modifies this
      ensures Report(r) == Eval(form, env, old(state))
    {
      var outcome := Eval(form, env, state);
      state := outcome.state;
      r := if outcome.Done? then Some(outcome.value) else None;
    }

    method EvalQuasiquote(value: Form, depth: nat) returns (r: Option<Form>)
      modifies this
      ensures Report(r) == Direct(value, depth, env, old(state))
      decreases value, 1
    {
      if value.Chain? {
        var args := Args(value);
        if args.None? { return None; }
        if value.head == Symbol("unquote") {
          if |args.value| != 1 { return None; }
          if depth == 0 {
            r := EvalForm(args.value[0]);
            return;
          }
          ArgsAreSmaller(value);
          var inner := EvalQuasiquote(args.value[0], depth - 1);
          return if inner.None? then None else Some(Call1("unquote", inner.value));
        }
        if value.head == Symbol("quasiquote") {
          if |args.value| != 1 { return None; }
          ArgsAreSmaller(value);
          var inner := EvalQuasiquote(args.value[0], depth + 1);
          return if inner.None? then None else Some(Call1("quasiquote", inner.value));
        }
        r := EvalQuasiquoteChain(value, depth);
        return;
      }
      return Some(value);
    }

    method EvalQuasiquoteChain(value: Form, depth: nat) returns (r: Option<Form>)
      requires value.Chain?
      modifies this
      ensures Report(r) == Collected(DirectItems(value, depth, env, old(state)))
      decreases value, 0
    {
      hide Eval;
      ghost var whole := DirectItems(value, depth, env, state);
      var items: seq<Form> := [];
      var current := value;
      while current.Chain?
        invariant current == value || current < value
        invariant whole == Extended(items, DirectItems(current, depth, env, state))
        decreases current
      {
        var head := current.head;
        ghost var rest := current.tail;
        if IsSplice(head) && depth == 0 {
          var args := Args(head);
          if args.None? || |args.value| != 1 { return None; }
          var v := EvalForm(args.value[0]);
          if v.None? { return None; }
          var spliced := SequenceItems(v.value);
          if spliced.None? { return None; }
          ExtendedStep(items, spliced.value, DirectItems(rest, depth, env, state));
          items := items + spliced.value;
        } else {
          var v := EvalQuasiquote(head, depth);
          if v.None? { return None; }
          ExtendedStep(items, [v.value], DirectItems(rest, depth, env, state));
          items := items + [v.value];
        }
        current := current.tail;
      }
      assert items + [] == items;
      if !current.Nil? {
        var last := EvalQuasiquote(current, depth);
        return Some(ListToChain(items, last.value));
      }
      return Some(ListToChain(items, Nil));
    }
  }

  function Extended(items: seq<Form>, rest: Items): Items {
    match rest
    case AllDone(others, last, s) => AllDone(items + others, last, s)
    case Failed(s) => Failed(s)
  }

  lemma ExtendedStep(items: seq<Form>, more: seq<Form>, rest: Items)
    ensures Extended(items, Extended(more, rest)) == Extended(items + more, rest)
  {
    if rest.AllDone? {
      assert items + (more + rest.items) == items + more + rest.items;
    }
  }
}

/**
 What a name stands for in emitted code (`_value_expr` of qy/backend/wasm/emit.py), said
 without the words it is compiled to: the innermost binding of a scope, else the function's
 own name, a truth literal, a builtin operator or an integer, in this order.
 */
module Names {
  import opened Wrappers
  import opened ConstantPool
  import opened Lir
  import opened Emitter
  import W = Wasm

  // --- scopes ------------------------------------------------------------------------------

  /** Scope `i` binds the name, and no scope inside it does. */
  ghost predicate BoundAt<T(!new)>(chain: seq<map<Name, T>>, name: Name, i: int) {
    0 <= i < |chain| && name in chain[i] && forall j :: i < j < |chain| ==> name !in chain[j]
  }

  /** A lookup finds the innermost binding, and nothing only where there is none. */
  lemma {:induction false} InnermostBinding<T(!new)>(chain: seq<map<Name, T>>, name: Name)
    ensures Lookup(chain, name).None? <==> forall i :: 0 <= i < |chain| ==> name !in chain[i]
    ensures forall i :: BoundAt(chain, name, i) ==> Lookup(chain, name) == Some(chain[i][name])
    ensures Lookup(chain, name).Some? ==> exists i :: BoundAt(chain, name, i)
  {
    if chain != [] {
      var n := |chain| - 1;
      InnermostBinding(chain[..n], name);
      if name in chain[n] {
        assert BoundAt(chain, name, n);
      } else if Lookup(chain, name).Some? {
        var i :| BoundAt(chain[..n], name, i);
        assert BoundAt(chain, name, i);
      }
      forall i | BoundAt(chain, name, i) ensures Lookup(chain, name) == Some(chain[i][name]) {
        if i < n { assert BoundAt(chain[..n], name, i); }
      }
    }
  }

  ghost predicate LastAt(params: seq<Name>, x: Name, k: int) {
    0 <= k < |params| && params[k] == x && forall j :: k < j < |params| ==> params[j] != x
  }

  /** A parameter is bound to its argument; of two with one name, to that of the last. */
  lemma {:induction false} ParameterBinding<T(!new)>(params: seq<Name>, values: seq<T>, x: Name)
    requires |params| == |values|
    ensures x in BindParams(params, values) <==> exists k :: LastAt(params, x, k)
    ensures forall k :: LastAt(params, x, k) ==> x in BindParams(params, values) && BindParams(params, values)[x] == values[k]
  {
    if params != [] {
      var n := |params| - 1;
      ParameterBinding(params[..n], values[..n], x);
      if x == params[n] {
        assert LastAt(params, x, n);
      } else if x in BindParams(params[..n], values[..n]) {
        var k :| LastAt(params[..n], x, k);
        assert LastAt(params, x, k);
      }
      forall k | LastAt(params, x, k) ensures x in BindParams(params, values) && BindParams(params, values)[x] == values[k] {
        if k < n { assert LastAt(params[..n], x, k); }
      }
    }
  }

  // --- names that no scope binds --------------------------------------------------------------

  datatype Denotation = Itself | Truth | Nothing | Operator(index: int) | Integer(i: int)

  predicate NamesItself(f: Function, name: Name) {
    name == f.name && name !in {"<main>", "<lambda>"}
  }

  const TRUTHS: set<Name> := {"true", "T"}
  const NOTHINGS: set<Name> := {"false", "nil", "none"}

  /** The cases, each with what has precedence over it. */
  predicate Denotes(ctx: Context, f: Function, name: Name, d: Denotation) {
    match d
    case Itself => NamesItself(f, name)
    case Truth => !NamesItself(f, name) && name in TRUTHS
    case Nothing => !NamesItself(f, name) && name in NOTHINGS
    case Operator(b) =>
      !NamesItself(f, name) && name !in TRUTHS + NOTHINGS && b >= 0 && ctx.builtinIndex(name) == b
    case Integer(i) =>
      && !NamesItself(f, name) && name !in TRUTHS + NOTHINGS && ctx.builtinIndex(name) < 0
      && ctx.parseInt(name) == Some(i) && -0x1000_0000_0000_0000 <= i < 0x1000_0000_0000_0000
  }

  /** Memory that holds nothing: what these words stand for does not depend on it. */
  const NOWHERE: Image := a => None

  /** A callable word reaches entry `index` of the function table. */
  predicate Reaches(w: Word, index: int) { w % 8 == TAG_CALLABLE && w / 8 == index }

  predicate StandsFor(fnIdx: nat, w: Word, d: Denotation) {
    match d
    case Itself => Reaches(w, NUM_BUILTINS + fnIdx)
    case Truth => Decode(NOWHERE, w) == Some(VT)
    case Nothing => Decode(NOWHERE, w) == Some(VNil)
    case Operator(b) => Reaches(w, b)
    case Integer(i) => Decode(NOWHERE, w) == Some(VInt(i))
  }

  lemma OneWord(fnIdx: nat, v: Word, w: Word, d: Denotation)
    requires StandsFor(fnIdx, v, d) && StandsFor(fnIdx, w, d)
    ensures v == w
  {
    hide DecodeText, Mapped, Number;
  }

  lemma OneDenotation(ctx: Context, f: Function, name: Name, d: Denotation, e: Denotation)
    requires Denotes(ctx, f, name, d) && Denotes(ctx, f, name, e)
    ensures d == e
  {
  }

  /** What `MAKE_FUNCTION` leaves in its register is the function itself, and a call of it
      through the register goes to its table entry. */
  lemma FunctionWord(f: Function, world: World, st: State, dst: nat, g: nat)
    requires 0 <= st.pc < |f.insts| && f.insts[st.pc] == MakeFunction(dst, g)
    ensures var o := Step(f, world, st);
            o.Running? && dst in o.st.regs && Reaches(o.st.regs[dst], NUM_BUILTINS + g)
  {
  }

  /** The emitted expression of a name that no scope binds is the constant word of what the
      name denotes; a name that denotes nothing is refused. */
  lemma UnboundName(ctx: Context, f: Function, fnIdx: nat, scopes: Chain<nat>, name: Name)
    requires Lookup(scopes, name).None?
    ensures ValueExpr(ctx, f, fnIdx, scopes, name).Success? <==> exists d :: Denotes(ctx, f, name, d)
    ensures forall d :: Denotes(ctx, f, name, d) ==>
              var e := ValueExpr(ctx, f, fnIdx, scopes, name);
              e.Success? && e.value.Const? && StandsFor(fnIdx, e.value.w, d)
  {
    hide Lookup, DecodeText, Mapped;
    var e := ValueExpr(ctx, f, fnIdx, scopes, name);
    if NamesItself(f, name) {
      assert Denotes(ctx, f, name, Itself);
    } else if name in TRUTHS {
      assert Denotes(ctx, f, name, Truth);
    } else if name in NOTHINGS {
      assert Denotes(ctx, f, name, Nothing);
    } else if ctx.builtinIndex(name) >= 0 {
      assert Denotes(ctx, f, name, Operator(ctx.builtinIndex(name)));
    } else if ctx.parseInt(name).Some? && e.Success? {
      assert Denotes(ctx, f, name, Integer(ctx.parseInt(name).value));
    }
  }

  /** The expression of a bound name reads the slot of its innermost binding. */
  lemma BoundName(ctx: Context, f: Function, fnIdx: nat, scopes: Chain<nat>, name: Name, i: int)
    requires BoundAt(scopes, name, i)
    ensures ValueExpr(ctx, f, fnIdx, scopes, name) == Success(W.Get(W.Slot(scopes[i][name])))
  {
    InnermostBinding(scopes, name);
  }
}

/**
 What has to be true of LIR for the emitter's compile-time scopes to be right: the
 dynamic scope chain must be the same along every path to an instruction, and the
 linear scan of the emitter must resolve each reached LOAD_ENV as that chain does.
 */
module Scopes {
  import opened Wrappers
  import opened ConstantPool
  import opened Lir
  import opened Emitter
  import W = Wasm

  // --- slots -------------------------------------------------------------------------

  function BindersBefore(f: Function, k: nat): nat
    requires k <= |f.insts|
  {
    if k == 0 then 0 else BindersBefore(f, k - 1) + if Binds(f.insts[k - 1]) then 1 else 0
  }

  /** The `$e` slot that instruction `k` writes if it binds. */
  function SlotOf(f: Function, k: nat): nat
    requires k <= |f.insts|
  {
    |f.params| + BindersBefore(f, k)
  }

  lemma {:induction false} LaterSlotsAreLarger(f: Function, j: nat, k: nat)
    requires j < k <= |f.insts| && Binds(f.insts[j])
    ensures SlotOf(f, j) < SlotOf(f, k)
    decreases k
  {
    if j + 1 < k {
      LaterSlotsAreLarger(f, j, k - 1);
    }
  }

  /** What instruction `k` does to a chain of slots. */
  function Transfer(f: Function, k: nat, chain: Chain<nat>): Chain<nat>
    requires k < |f.insts|
  {
    match f.insts[k]
    case EnterScope => chain + [map[]]
    case ExitScope => Leave(chain)
    case StoreLocal(name, _) => Bind(chain, name, SlotOf(f, k))
    case DefineOnce(name, _) => Bind(chain, name, SlotOf(f, k))
    case _ => chain
  }

  function Entry(f: Function): Chain<nat> { [BindParams(f.params, Positions(|f.params|))] }

  /** The chain the emitter holds before instruction `k`, having scanned the list once. */
  function Linear(f: Function, k: nat): Chain<nat>
    requires k <= |f.insts|
  {
    if k == 0 then Entry(f) else Transfer(f, k - 1, Linear(f, k - 1))
  }

  /** The emitter's state is the linear scan, and its slots are numbered in order. */
  lemma {:induction false} PrefixScans(ctx: Context, f: Function, fnIdx: nat, pool: Pool, k: nat)
    requires k <= |f.insts| && Prefix(ctx, f, fnIdx, pool, k).Success?
    ensures var s := Prefix(ctx, f, fnIdx, pool, k).value.1;
            s.scopes == Linear(f, k) && s.cursor == SlotOf(f, k)
  {
    hide Encode, ValueExpr, Bind, Lookup;
    if k > 0 {
      PrefixScans(ctx, f, fnIdx, pool, k - 1);
    }
  }

  // --- the hypothesis ------------------------------------------------------------------

  /** One chain for every reachable instruction: it agrees along every edge, never runs out of
      the instruction list, and resolves every LOAD_ENV to the slot the linear scan resolves. */
  ghost predicate Agree(f: Function, at: map<int, Chain<nat>>) {
    && 0 in at && at[0] == Entry(f)
    && forall k {:trigger k in at} :: k in at ==>
         && 0 <= k < |f.insts|
         && (forall t :: t in Successors(f, k) ==> t in at && at[t] == Transfer(f, k, at[k]))
         && (f.insts[k].LoadEnv? ==>
               Lookup(at[k], f.insts[k].name) == Lookup(Linear(f, k), f.insts[k].name))
  }

  /** The one place of a slot: the scope it was bound in and the name it was bound to. */
  ghost predicate PlaceOf(f: Function, at: map<int, Chain<nat>>, slot: nat, depth: int, name: Name) {
    || (slot < |f.params| && depth == 0 && f.params[slot] == name)
    || exists k :: k in at && 0 <= k < |f.insts| && Binds(f.insts[k]) && SlotOf(f, k) == slot
         && depth == |at[k]| - 1 && f.insts[k].name == name
  }

  ghost predicate Placed(f: Function, at: map<int, Chain<nat>>, chain: seq<map<Name, nat>>) {
    forall i, x {:trigger x in chain[i]} ::
      0 <= i < |chain| && x in chain[i] ==> PlaceOf(f, at, chain[i][x], i, x)
  }

  lemma SlotHasOnePlace(f: Function, at: map<int, Chain<nat>>, k: int, depth: int, name: Name)
    requires k in at && 0 <= k < |f.insts| && Binds(f.insts[k])
    requires PlaceOf(f, at, SlotOf(f, k), depth, name)
    ensures depth == |at[k]| - 1 && name == f.insts[k].name
  {
    var j :| j in at && 0 <= j < |f.insts| && Binds(f.insts[j]) && SlotOf(f, j) == SlotOf(f, k)
             && depth == |at[j]| - 1 && f.insts[j].name == name;
    if j < k {
      LaterSlotsAreLarger(f, j, k);
    } else if k < j {
      LaterSlotsAreLarger(f, k, j);
    }
  }

  lemma {:induction false} BoundParam(params: seq<Name>, x: Name)
    requires x in BindParams(params, Positions(|params|))
    ensures var s := BindParams(params, Positions(|params|))[x]; s < |params| && params[s] == x
  {
    var n := |params| - 1;
    if params[n] != x {
      assert Positions(|params|)[..n] == Positions(n);
      BoundParam(params[..n], x);
    }
  }

  lemma EntryPlaced(f: Function, at: map<int, Chain<nat>>)
    ensures Placed(f, at, Entry(f))
  {
    forall i, x | 0 <= i < 1 && x in Entry(f)[i] ensures PlaceOf(f, at, Entry(f)[i][x], i, x) {
      BoundParam(f.params, x);
    }
  }

  lemma TransferPlaced(f: Function, at: map<int, Chain<nat>>, k: int)
    requires k in at && 0 <= k < |f.insts| && Placed(f, at, at[k])
    ensures Placed(f, at, Transfer(f, k, at[k]))
  {
    var chain, after := at[k], Transfer(f, k, at[k]);
    forall i, x | 0 <= i < |after| && x in after[i] ensures PlaceOf(f, at, after[i][x], i, x) {
      if Binds(f.insts[k]) && i == |chain| - 1 && x == f.insts[k].name {
      } else {
        assert i < |chain| && x in chain[i] && after[i][x] == chain[i][x];
      }
    }
  }

  // --- the dynamic chain and the slots ------------------------------------------------------

  /** Every dynamic binding is the value of its slot. */
  ghost predicate Mirrors(scopes: seq<map<Name, Word>>, chain: seq<map<Name, nat>>, w: W.State) {
    && |scopes| == |chain|
    && forall i {:trigger scopes[i]} {:trigger chain[i]} :: 0 <= i < |chain| ==>
         && scopes[i].Keys == chain[i].Keys
         && forall x {:trigger x in chain[i]} ::
              x in chain[i] ==> W.Read(w, W.Slot(chain[i][x])) == scopes[i][x]
  }

  lemma {:induction false} MirrorsLookup(scopes: seq<map<Name, Word>>, chain: seq<map<Name, nat>>, w: W.State, name: Name)
    requires Mirrors(scopes, chain, w)
    ensures match Lookup(chain, name)
            case Some(slot) => Lookup(scopes, name) == Some(W.Read(w, W.Slot(slot)))
            case None => Lookup(scopes, name) == None
  {
    if |chain| > 0 {
      var n := |chain| - 1;
      assert scopes[n].Keys == chain[n].Keys;
      if name !in chain[n] {
        assert Mirrors(scopes[..n], chain[..n], w) by {
          forall i | 0 <= i < n
            ensures scopes[..n][i].Keys == chain[..n][i].Keys
            ensures forall x :: x in chain[..n][i] ==> W.Read(w, W.Slot(chain[..n][i][x])) == scopes[..n][i][x]
          {
            assert scopes[..n][i] == scopes[i] && chain[..n][i] == chain[i];
          }
        }
        MirrorsLookup(scopes[..n], chain[..n], w, name);
      }
    }
  }

  /** Only the bound name of the innermost scope reads the slot that is written. */
  lemma BoundReads(f: Function, at: map<int, Chain<nat>>, k: int, w: W.State, v: Word, i: int, x: Name)
    requires k in at && 0 <= k < |f.insts| && Binds(f.insts[k]) && Placed(f, at, at[k])
    requires 0 <= i < |at[k]| && x in at[k][i] && (i < |at[k]| - 1 || x != f.insts[k].name)
    ensures W.Read(W.Write(w, W.Slot(SlotOf(f, k)), v), W.Slot(at[k][i][x])) == W.Read(w, W.Slot(at[k][i][x]))
  {
    hide Binds, SlotOf, PlaceOf;
    if at[k][i][x] == SlotOf(f, k) {
      SlotHasOnePlace(f, at, k, i, x);
    }
  }

  /** Binding through the machine and through the slot of instruction `k` stay in step. */
  lemma MirrorsBind(f: Function, at: map<int, Chain<nat>>, k: int, scopes: Chain<Word>, w: W.State, v: Word)
    requires k in at && 0 <= k < |f.insts| && Binds(f.insts[k])
    requires Placed(f, at, at[k]) && Mirrors(scopes, at[k], w)
    ensures Mirrors(Bind(scopes, f.insts[k].name, v), Transfer(f, k, at[k]), W.Write(w, W.Slot(SlotOf(f, k)), v))
  {
    var name, slot := f.insts[k].name, SlotOf(f, k);
    var chain, chain' := at[k], Transfer(f, k, at[k]);
    var scopes', w' := Bind(scopes, name, v), W.Write(w, W.Slot(slot), v);
    var last := |chain| - 1;
    assert |chain'| == |chain| && chain'[last] == chain[last][name := slot];
    assert |scopes'| == |scopes| && scopes'[last] == scopes[last][name := v];
    assert forall i :: 0 <= i < last ==> chain'[i] == chain[i] && scopes'[i] == scopes[i];
    assert W.Read(w', W.Slot(slot)) == v;
    hide Bind, Transfer, Placed, Binds, SlotOf, W.Read, W.Write;
    forall i | 0 <= i < |chain'|
      ensures scopes'[i].Keys == chain'[i].Keys
      ensures forall x :: x in chain'[i] ==> W.Read(w', W.Slot(chain'[i][x])) == scopes'[i][x]
    {
      assert scopes[i].Keys == chain[i].Keys;
      forall x | x in chain'[i] ensures W.Read(w', W.Slot(chain'[i][x])) == scopes'[i][x] {
        if i != last || x != name {
          assert x in chain[i];
          BoundReads(f, at, k, w, v, i, x);
        }
      }
    }
  }

  lemma MirrorsSame(scopes: seq<map<Name, Word>>, chain: seq<map<Name, nat>>, w: W.State, w': W.State)
    requires Mirrors(scopes, chain, w)
    requires forall s: nat :: W.Read(w', W.Slot(s)) == W.Read(w, W.Slot(s))
    ensures Mirrors(scopes, chain, w')
  {
    forall i | 0 <= i < |chain|
      ensures scopes[i].Keys == chain[i].Keys
      ensures forall x :: x in chain[i] ==> W.Read(w', W.Slot(chain[i][x])) == scopes[i][x]
    {
      assert scopes[i].Keys == chain[i].Keys;
    }
  }

  lemma MirrorsScope(scopes: Chain<Word>, chain: Chain<nat>, w: W.State)
    requires Mirrors(scopes, chain, w)
    ensures Mirrors(scopes + [map[]], chain + [map[]], w)
    ensures Mirrors(Leave(scopes), Leave(chain), w)
  {
    forall i | 0 <= i < |chain| + 1
      ensures (scopes + [map[]])[i].Keys == (chain + [map[]])[i].Keys
      ensures forall x :: x in (chain + [map[]])[i] ==>
                W.Read(w, W.Slot((chain + [map[]])[i][x])) == (scopes + [map[]])[i][x]
    {
      if i < |chain| {
        assert scopes[i].Keys == chain[i].Keys;
      }
    }
    forall i | 0 <= i < |Leave(chain)|
      ensures Leave(scopes)[i].Keys == Leave(chain)[i].Keys
      ensures forall x :: x in Leave(chain)[i] ==> W.Read(w, W.Slot(Leave(chain)[i][x])) == Leave(scopes)[i][x]
    {
      assert scopes[i].Keys == chain[i].Keys;
    }
  }
}

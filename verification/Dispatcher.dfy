/** The emitted function simulates the LIR machine. */
module Dispatcher {
  import opened Wrappers
  import opened ByteOrder
  import opened ConstantPool
  import opened Lir
  import opened Emitter
  import opened Names
  import opened Scopes
  import W = Wasm

  // --- branches of emitted code only name $dispatch ---------------------------------------

  predicate Straight(body: seq<W.Instr>) {
    forall i :: i in body ==> StraightInstr(i)
  }

  predicate StraightInstr(i: W.Instr) {
    match i
    case Br(l) => l == W.Dispatch
    case BrTable(_, _) => false
    case Block(_, _) => false
    case Loop(_, _) => false
    case If(_, body) => forall j :: j in body ==> StraightInstr(j)
    case _ => true
  }

  lemma {:induction false} StraightJumps(host: W.Host, fuel: nat, body: seq<W.Instr>, w: W.State)
    requires Straight(body)
    ensures var o := W.ExecuteAll(host, fuel, body, w);
            o != W.OutOfFuel && (o.Jump? ==> o.tag == W.Dispatch)
    decreases body
  {
    if body != [] {
      var i := body[0];
      assert i in body && StraightInstr(i);
      if i.If? && W.Eval(i.cond, w) != 0 {
        StraightJumps(host, fuel, i.body, w);
      }
      var o := W.Execute(host, fuel, i, w);
      if o.Next? {
        assert forall j :: j in body[1..] ==> j in body;
        StraightJumps(host, fuel, body[1..], o.st);
      }
    }
  }

  lemma TranslateStraight(ctx: Context, f: Function, fnIdx: nat, s: Scan, i: Inst, k: nat)
    requires Translate(ctx, f, fnIdx, s, i).Success?
    ensures Straight(CodeAt(i, Translate(ctx, f, fnIdx, s, i).value.0, k))
  {
    hide Encode, ValueExpr, Lookup, Bind, Leave;
    assert forall t :: Straight(JumpCode(t));
  }

  lemma {:induction false} PrefixStraight(ctx: Context, f: Function, fnIdx: nat, pool: Pool, k: nat)
    requires k <= |f.insts| && Prefix(ctx, f, fnIdx, pool, k).Success?
    ensures forall j :: 0 <= j < k ==> Straight(Prefix(ctx, f, fnIdx, pool, k).value.0[j])
  {
    hide Translate, CodeAt, Straight;
    if k > 0 {
      PrefixStraight(ctx, f, fnIdx, pool, k - 1);
      TranslateStraight(ctx, f, fnIdx, Prefix(ctx, f, fnIdx, pool, k - 1).value.1, f.insts[k - 1], k - 1);
    }
  }

  // --- the dispatcher lands on code k ---------------------------------------------------------

  /** Codes `j`, `j + 1`, … up to `k`, each falling into the next. */
  function RunCodes(host: W.Host, fuel: nat, codes: seq<seq<W.Instr>>, j: nat, k: nat, w: W.State): W.Outcome
    requires j <= k <= |codes|
    decreases k - j
  {
    if j == k then W.Next(w)
    else
      match W.ExecuteAll(host, fuel, codes[j], w)
      case Next(w') => RunCodes(host, fuel, codes, j + 1, k, w')
      case o => o
  }

  lemma {:induction false} RunCodesExtend(host: W.Host, fuel: nat, codes: seq<seq<W.Instr>>, j: nat, k: nat, w: W.State)
    requires j <= k < |codes|
    ensures RunCodes(host, fuel, codes, j, k + 1, w) ==
            W.Continue(host, fuel, RunCodes(host, fuel, codes, j, k, w), codes[k])
    decreases k - j
  {
    hide W.ExecuteAll;
    if j < k {
      match W.ExecuteAll(host, fuel, codes[j], w)
      case Next(w') => RunCodesExtend(host, fuel, codes, j + 1, k, w');
      case _ =>
    }
  }

  lemma {:induction false} RunCodesJumps(host: W.Host, fuel: nat, codes: seq<seq<W.Instr>>, j: nat, k: nat, w: W.State)
    requires j <= k <= |codes| && forall i :: 0 <= i < |codes| ==> Straight(codes[i])
    ensures var o := RunCodes(host, fuel, codes, j, k, w);
            o != W.OutOfFuel && (o.Jump? ==> o.tag == W.Dispatch)
    decreases k - j
  {
    hide W.ExecuteAll, Straight;
    if j < k {
      StraightJumps(host, fuel, codes[j], w);
      match W.ExecuteAll(host, fuel, codes[j], w)
      case Next(w') => RunCodesJumps(host, fuel, codes, j + 1, k, w');
      case _ =>
    }
  }

  lemma ExecuteOne(host: W.Host, fuel: nat, i: W.Instr, rest: seq<W.Instr>, w: W.State)
    ensures W.ExecuteAll(host, fuel, [i] + rest, w) ==
            W.Continue(host, fuel, W.Execute(host, fuel, i, w), rest)
  {
    assert ([i] + rest)[0] == i && ([i] + rest)[1..] == rest;
  }

  /** Inside `k` nested blocks, `$pc = j` runs code `j` onwards, or leaves for an outer block. */
  lemma {:induction false} InsideLands(host: W.Host, fuel: nat, codes: seq<seq<W.Instr>>, k: nat, j: nat, w: W.State)
    requires k <= |codes| && j < |codes| && |codes| < W.TWO_32
    requires W.Read(w, W.Pc) == j
    requires forall i :: 0 <= i < |codes| ==> Straight(codes[i])
    ensures W.ExecuteAll(host, fuel, Inside(codes, |codes|, k), w) ==
            if j < k then RunCodes(host, fuel, codes, j, k, w) else W.Jump(W.Code(j), w)
    decreases k
  {
    hide W.ExecuteAll, RunCodes, Straight;
    if k == 0 {
      ExecuteOne(host, fuel, W.BrTable(Labels(|codes|), W.Get(W.Pc)), [], w);
      assert W.Execute(host, fuel, W.BrTable(Labels(|codes|), W.Get(W.Pc)), w) == W.Jump(W.Code(j), w);
      assert [W.BrTable(Labels(|codes|), W.Get(W.Pc))] + [] == Inside(codes, |codes|, 0);
    } else {
      var inner := Inside(codes, |codes|, k - 1);
      InsideLands(host, fuel, codes, k - 1, j, w);
      ExecuteOne(host, fuel, W.Block(W.Code(k - 1), inner), codes[k - 1], w);
      if j < k - 1 {
        RunCodesJumps(host, fuel, codes, j, k - 1, w);
        RunCodesExtend(host, fuel, codes, j, k - 1, w);
      } else if j == k - 1 {
        RunCodesExtend(host, fuel, codes, j, j, w);
        RunCodesNone(host, fuel, codes, j, w);
        assert w.(stack := w.stack) == w;
      }
    }
  }

  lemma RunCodesNone(host: W.Host, fuel: nat, codes: seq<seq<W.Instr>>, j: nat, w: W.State)
    requires j <= |codes|
    ensures RunCodes(host, fuel, codes, j, j, w) == W.Next(w)
  {
  }

  // --- one instruction -----------------------------------------------------------------------

  /** The two machines before the same instruction. `sp` is the scratch pointer at function entry. */
  ghost predicate Related(f: Function, at: map<int, Chain<nat>>, sp: int, st: State, w: W.State) {
    && st.pc in at && Placed(f, at, at[st.pc]) && Mirrors(st.scopes, at[st.pc], w)
    && (forall r :: r in st.regs ==> W.Read(w, W.Reg(r)) == st.regs[r])
    && w.sp == sp && w.stack == [] && w.events == st.events
  }

  /** Everything the theorem assumes of the function and its world. */
  ghost predicate Setup(ctx: Context, f: Function, fnIdx: nat, pool: Pool, world: World,
                        at: map<int, Chain<nat>>, sp: int) {
    && 0 < |f.insts| < W.TWO_32
    && Prefix(ctx, f, fnIdx, pool, |f.insts|).Success?
    && Agree(f, at)
    && RoomForArguments(f, sp)
    && ConstantsAreEncoded(ctx, f, fnIdx, pool, world)
    && forall name :: OuterAgrees(ctx, f, fnIdx, world, name)
  }

  ghost predicate RoomForArguments(f: Function, sp: int) {
    0 <= sp && forall k :: 0 <= k < |f.insts| ==> sp + 8 * |ArgumentsOf(f.insts[k])| <= W.MEMORY_BYTES
  }

  function ArgumentsOf(i: Inst): seq<nat> {
    match i
    case CallBuiltin(_, _, args) => args
    case Call(_, _, args) => args
    case TailCall(_, args) => args
    case _ => []
  }

  /** A LOAD_HOST loads the word the pool assigned to its constant. */
  ghost predicate ConstantsAreEncoded(ctx: Context, f: Function, fnIdx: nat, pool: Pool, world: World) {
    forall k :: 0 <= k < |f.insts| && f.insts[k].LoadHost? ==>
      && k in world.constants
      && Prefix(ctx, f, fnIdx, pool, k).Success?
      && var e := Encode(ctx.literals, Prefix(ctx, f, fnIdx, pool, k).value.1.pool, f.insts[k].value);
         e.Success? && e.value.1 == world.constants[k]
  }

  /** Outside the function, a name that denotes something has a word that stands for it. */
  ghost predicate OuterAgrees(ctx: Context, f: Function, fnIdx: nat, world: World, name: Name) {
    forall d :: Denotes(ctx, f, name, d) ==>
      world.outer(name).Some? && StandsFor(fnIdx, world.outer(name).value, d)
  }

  lemma {:induction false} PrefixCode(ctx: Context, f: Function, fnIdx: nat, pool: Pool, k: nat, n: nat)
    requires k < n <= |f.insts| && Prefix(ctx, f, fnIdx, pool, n).Success?
    ensures Prefix(ctx, f, fnIdx, pool, k).Success?
    ensures var t := Translate(ctx, f, fnIdx, Prefix(ctx, f, fnIdx, pool, k).value.1, f.insts[k]);
            t.Success? && Prefix(ctx, f, fnIdx, pool, n).value.0[k] == CodeAt(f.insts[k], t.value.0, k)
    decreases n
  {
    hide Translate, CodeAt;
    if k + 1 < n {
      PrefixCode(ctx, f, fnIdx, pool, k, n - 1);
    }
  }

  /** A return of this word after these events, whatever is in memory. */
  predicate Returns(o: W.Outcome, w: Word, events: seq<W.Event>) {
    o.Returned? && o.w == w && o.events == events
  }

  /** What a LIR step and the execution of its code have to do with each other. */
  ghost predicate Matches(f: Function, at: map<int, Chain<nat>>, sp: int, k: int, step: Outcome, o: W.Outcome) {
    match step
    case Stuck => true
    case Done(v, events) => Returns(o, v, events)
    case Running(st) =>
      || (o.Next? && st.pc == k + 1 && Related(f, at, sp, st, o.st))
      || (o.Jump? && o.tag == W.Dispatch && W.Read(o.st, W.Pc) == st.pc && Related(f, at, sp, st, o.st))
  }

  lemma RelatedPc(f: Function, at: map<int, Chain<nat>>, sp: int, st: State, w: W.State, pc: int)
    requires Related(f, at, sp, st, w)
    ensures Related(f, at, sp, st, W.Write(w, W.Pc, pc))
  {
    MirrorsSame(st.scopes, at[st.pc], w, W.Write(w, W.Pc, pc));
  }

  lemma ExecuteJump(host: W.Host, fuel: nat, target: int, w: W.State)
    ensures W.ExecuteAll(host, fuel, JumpCode(target), w) == W.Jump(W.Dispatch, W.Write(w, W.Pc, target))
  {
    ExecuteOne(host, fuel, W.Set(W.Pc, W.Const(target)), [W.Br(W.Dispatch)], w);
    ExecuteOne(host, fuel, W.Br(W.Dispatch), [], W.Write(w, W.Pc, target));
    assert [W.Br(W.Dispatch)] + [] == [W.Br(W.Dispatch)];
    assert JumpCode(target) == [W.Set(W.Pc, W.Const(target))] + [W.Br(W.Dispatch)];
  }

  /** A straight instruction is followed by a jump to the next code. */
  lemma FallThrough(host: W.Host, fuel: nat, f: Function, at: map<int, Chain<nat>>, sp: int, k: nat,
                    code: seq<W.Instr>, w: W.State, st': State)
    requires W.ExecuteAll(host, fuel, code, w).Next?
    requires st'.pc == k + 1 && Related(f, at, sp, st', W.ExecuteAll(host, fuel, code, w).st)
    ensures Matches(f, at, sp, k, Running(st'), W.ExecuteAll(host, fuel, code + JumpCode(k + 1), w))
  {
    hide W.ExecuteAll, Related;
    var w' := W.ExecuteAll(host, fuel, code, w).st;
    W.ExecuteConcat(host, fuel, code, JumpCode(k + 1), w);
    ExecuteJump(host, fuel, k + 1, w');
    RelatedPc(f, at, sp, st', w', k + 1);
  }

  lemma ExecuteSingle(host: W.Host, fuel: nat, i: W.Instr, w: W.State)
    ensures W.ExecuteAll(host, fuel, [i], w) == W.Execute(host, fuel, i, w)
  {
    ExecuteOne(host, fuel, i, [], w);
    assert [i] + [] == [i];
  }

  /** Setting a register on both sides. */
  lemma RelatedSet(f: Function, at: map<int, Chain<nat>>, sp: int, st: State, w: W.State, dst: nat, v: Word)
    requires Agree(f, at) && Related(f, at, sp, st, w)
    requires 0 <= st.pc < |f.insts| && st.pc + 1 in Successors(f, st.pc)
    requires Transfer(f, st.pc, at[st.pc]) == at[st.pc]
    ensures Related(f, at, sp, Set(st, dst, v).st, W.Write(w, W.Reg(dst), v))
  {
    MirrorsSame(st.scopes, at[st.pc], w, W.Write(w, W.Reg(dst), v));
  }

  // --- calls ------------------------------------------------------------------------------------

  /** The argument stores fill consecutive words from `$sp`. */
  lemma {:induction false} StoresRun(host: W.Host, fuel: nat, args: seq<nat>, regs: map<nat, Word>, w: W.State, n: nat)
    returns (m: W.Memory)
    requires n <= |args| && Readable(regs, args)
    requires forall r :: r in regs ==> W.Read(w, W.Reg(r)) == regs[r]
    requires 0 <= w.sp && w.sp + 8 * |args| <= W.MEMORY_BYTES
    ensures W.ExecuteAll(host, fuel, Stores(args)[..n], w) == W.Next(w.(memory := m))
    ensures forall j :: 0 <= j < n ==> w.sp + 8 * j in m && m[w.sp + 8 * j] == regs[args[j]]
    decreases n
  {
    if n == 0 {
      m := w.memory;
      assert Stores(args)[..0] == [] && w.(memory := m) == w;
    } else {
      m := StoresRun(host, fuel, args, regs, w, n - 1);
      var store := StoreArgument(args, n - 1);
      assert Stores(args)[..n] == Stores(args)[..n - 1] + [store];
      W.ExecuteConcat(host, fuel, Stores(args)[..n - 1], [store], w);
      ExecuteSingle(host, fuel, store, w.(memory := m));
      m := m[w.sp + 8 * (n - 1) := regs[args[n - 1]]];
    }
  }

  /** After the argument sequence the callee finds exactly the argument registers at `$sp_save`. */
  lemma PushRun(host: W.Host, fuel: nat, args: seq<nat>, regs: map<nat, Word>, w: W.State)
    returns (m: W.Memory)
    requires Readable(regs, args)
    requires forall r :: r in regs ==> W.Read(w, W.Reg(r)) == regs[r]
    requires 0 <= w.sp && w.sp + 8 * |args| <= W.MEMORY_BYTES
    ensures W.ExecuteAll(host, fuel, PushArguments(args), w)
         == W.Next(W.Write(w, W.SpSave, w.sp).(memory := m, sp := w.sp + 8 * |args|))
    ensures W.Arguments(m, w.sp, |args|) == ReadAll(regs, args)
  {
    hide W.ExecuteAll;
    var save, bump := W.Set(W.SpSave, W.GetSp), W.SetSp(W.Add(W.GetSp, W.Const(8 * |args|)));
    var w1 := W.Write(w, W.SpSave, w.sp);
    m := StoresRun(host, fuel, args, regs, w1, |args|);
    assert Stores(args)[..|args|] == Stores(args);
    ExecuteSingle(host, fuel, save, w);
    W.ExecuteConcat(host, fuel, [save], Stores(args), w);
    W.ExecuteConcat(host, fuel, [save] + Stores(args), [bump], w);
    ExecuteSingle(host, fuel, bump, w1.(memory := m));
    assert W.ExecuteAll(host, fuel, [save], w) == W.Next(w1);
    assert W.ExecuteAll(host, fuel, [save] + Stores(args), w) == W.Next(w1.(memory := m));
    assert W.Eval(bump.e, w1.(memory := m)) == w.sp + 8 * |args|;
    assert W.Execute(host, fuel, bump, w1.(memory := m)) == W.Next(w1.(memory := m, sp := w.sp + 8 * |args|));
  }

  /** The table index a call instruction passes on. */
  ghost predicate Calls(target: Target, regs: map<nat, Word>, index: int) {
    match target
    case Builtin(id) => index == id
    case Register(r) => r in regs && IsCallable(regs[r]) && index == regs[r] / 8
  }

  /** The call itself: one event, its result on the stack, `$sp_save` and the registers kept. */
  lemma InvokeRun(host: W.Host, fuel: nat, target: Target, args: seq<nat>, regs: map<nat, Word>, w: W.State, index: int)
    returns (w': W.State)
    requires Readable(regs, args) && Calls(target, regs, index)
    requires forall r :: r in regs ==> W.Read(w, W.Reg(r)) == regs[r]
    requires 0 <= w.sp && w.sp + 8 * |args| <= W.MEMORY_BYTES && w.stack == []
    ensures W.ExecuteAll(host, fuel, PushArguments(args) + [CallInstr(target, |args|)], w) == W.Next(w')
    ensures w'.locals == W.Write(w, W.SpSave, w.sp).locals
    ensures w'.stack == [host.result(w.events, index, ReadAll(regs, args))]
    ensures w'.events == w.events + [W.Called(index, ReadAll(regs, args))]
  {
    hide W.ExecuteAll, W.Arguments, PushArguments;
    var m := PushRun(host, fuel, args, regs, w);
    var w1 := W.Write(w, W.SpSave, w.sp).(memory := m, sp := w.sp + 8 * |args|);
    var call := CallInstr(target, |args|);
    W.ExecuteConcat(host, fuel, PushArguments(args), [call], w);
    ExecuteSingle(host, fuel, call, w1);
    w' := W.Invoke(host, w1, index, w.sp, |args|);
    if target.Register? {
      assert W.Eval(W.TableIndex(W.Get(W.Reg(target.r))), w1) == index;
    }
    assert W.Execute(host, fuel, call, w1) == W.Next(w');
    assert [] + w'.stack == w'.stack;
  }

  lemma CallRun(host: W.Host, fuel: nat, target: Target, args: seq<nat>, dst: nat, regs: map<nat, Word>, w: W.State, index: int)
    returns (w': W.State)
    requires Readable(regs, args) && Calls(target, regs, index)
    requires forall r :: r in regs ==> W.Read(w, W.Reg(r)) == regs[r]
    requires 0 <= w.sp && w.sp + 8 * |args| <= W.MEMORY_BYTES && w.stack == []
    ensures W.ExecuteAll(host, fuel, CallCode(target, args, dst), w) == W.Next(w')
    ensures w'.sp == w.sp && w'.stack == []
    ensures w'.locals == W.Write(W.Write(w, W.SpSave, w.sp), W.Reg(dst),
                                 host.result(w.events, index, ReadAll(regs, args))).locals
    ensures w'.events == w.events + [W.Called(index, ReadAll(regs, args))]
  {
    hide W.ExecuteAll, PushArguments, CallInstr;
    var w1 := InvokeRun(host, fuel, target, args, regs, w, index);
    var pop, restore := W.SetPop(W.Reg(dst)), W.SetSp(W.Get(W.SpSave));
    var w2 := W.Write(w1, W.Reg(dst), w1.stack[0]).(stack := []);
    W.ExecuteConcat(host, fuel, PushArguments(args) + [CallInstr(target, |args|)], [pop, restore], w);
    assert [pop, restore] == [pop] + [restore];
    assert w1.stack[..0] == [];
    ExecuteOne(host, fuel, pop, [restore], w1);
    ExecuteSingle(host, fuel, restore, w2);
    w' := w2.(sp := W.Read(w2, W.SpSave));
  }

  lemma TailCallRun(host: W.Host, fuel: nat, target: Target, args: seq<nat>, regs: map<nat, Word>, w: W.State, index: int)
    requires Readable(regs, args) && Calls(target, regs, index)
    requires forall r :: r in regs ==> W.Read(w, W.Reg(r)) == regs[r]
    requires 0 <= w.sp && w.sp + 8 * |args| <= W.MEMORY_BYTES && w.stack == []
    ensures Returns(W.ExecuteAll(host, fuel, TailCallCode(target, args), w),
                    host.result(w.events, index, ReadAll(regs, args)),
                    w.events + [W.Called(index, ReadAll(regs, args))])
  {
    hide W.ExecuteAll, PushArguments, CallInstr;
    var w1 := InvokeRun(host, fuel, target, args, regs, w, index);
    W.ExecuteConcat(host, fuel, PushArguments(args) + [CallInstr(target, |args|)], [W.ReturnPop], w);
    assert TailCallCode(target, args) == PushArguments(args) + [CallInstr(target, |args|)] + [W.ReturnPop];
    ExecuteSingle(host, fuel, W.ReturnPop, w1);
  }

  // --- every instruction -----------------------------------------------------------------------

  lemma CallMatches(host: W.Host, fuel: nat, f: Function, at: map<int, Chain<nat>>, sp: int, world: World,
                    st: State, w: W.State, target: Target, args: seq<nat>, dst: nat, index: int)
    requires Agree(f, at) && RoomForArguments(f, sp) && Related(f, at, sp, st, w) && world.host == host
    requires f.insts[st.pc].Call? || f.insts[st.pc].CallBuiltin?
    requires ArgumentsOf(f.insts[st.pc]) == args
    requires Readable(st.regs, args) && Calls(target, st.regs, index)
    ensures var (v, events) := Apply(world, st, index, ReadAll(st.regs, args));
            Matches(f, at, sp, st.pc, Set(st.(events := events), dst, v),
                    W.ExecuteAll(host, fuel, CallCode(target, args, dst) + JumpCode(st.pc + 1), w))
  {
    hide W.ExecuteAll, CallCode, JumpCode, Placed;
    var w' := CallRun(host, fuel, target, args, dst, st.regs, w, index);
    var (v, events) := Apply(world, st, index, ReadAll(st.regs, args));
    var st' := Set(st.(events := events), dst, v).st;
    MirrorsSame(st.scopes, at[st.pc], w, w');
    assert st.pc + 1 in Successors(f, st.pc);
    FallThrough(host, fuel, f, at, sp, st.pc, CallCode(target, args, dst), w, st');
  }

  lemma SetMatches(host: W.Host, fuel: nat, f: Function, at: map<int, Chain<nat>>, sp: int,
                   st: State, w: W.State, dst: nat, e: W.Expr, v: Word)
    requires Agree(f, at) && Related(f, at, sp, st, w) && W.Eval(e, w) == v
    requires st.pc + 1 in Successors(f, st.pc) && Transfer(f, st.pc, at[st.pc]) == at[st.pc]
    ensures Matches(f, at, sp, st.pc, Set(st, dst, v),
                    W.ExecuteAll(host, fuel, [W.Set(W.Reg(dst), e)] + JumpCode(st.pc + 1), w))
  {
    hide W.ExecuteAll, JumpCode, Placed;
    ExecuteSingle(host, fuel, W.Set(W.Reg(dst), e), w);
    RelatedSet(f, at, sp, st, w, dst, v);
    FallThrough(host, fuel, f, at, sp, st.pc, [W.Set(W.Reg(dst), e)], w, Set(st, dst, v).st);
  }

  lemma BindMatches(host: W.Host, fuel: nat, f: Function, at: map<int, Chain<nat>>, sp: int,
                    st: State, w: W.State, name: Name, src: nat)
    requires Agree(f, at) && Related(f, at, sp, st, w)
    requires Binds(f.insts[st.pc]) && f.insts[st.pc].name == name && src in st.regs
    ensures Matches(f, at, sp, st.pc,
                    Running(st.(pc := st.pc + 1, scopes := Bind(st.scopes, name, st.regs[src]))),
                    W.ExecuteAll(host, fuel, BindCode(SlotOf(f, st.pc), src) + JumpCode(st.pc + 1), w))
  {
    hide W.ExecuteAll, JumpCode, Placed, Mirrors, Bind;
    var bind := W.Set(W.Slot(SlotOf(f, st.pc)), W.Get(W.Reg(src)));
    var st' := st.(pc := st.pc + 1, scopes := Bind(st.scopes, name, st.regs[src]));
    ExecuteSingle(host, fuel, bind, w);
    MirrorsBind(f, at, st.pc, st.scopes, w, st.regs[src]);
    TransferPlaced(f, at, st.pc);
    assert st.pc + 1 in Successors(f, st.pc);
    FallThrough(host, fuel, f, at, sp, st.pc, [bind], w, st');
  }

  lemma ScopeMatches(host: W.Host, fuel: nat, f: Function, at: map<int, Chain<nat>>, sp: int,
                     st: State, w: W.State, scopes: Chain<Word>)
    requires Agree(f, at) && Related(f, at, sp, st, w)
    requires (f.insts[st.pc].EnterScope? && scopes == st.scopes + [map[]])
          || (f.insts[st.pc].ExitScope? && scopes == Leave(st.scopes))
    ensures Matches(f, at, sp, st.pc, Running(st.(pc := st.pc + 1, scopes := scopes)),
                    W.ExecuteAll(host, fuel, [] + JumpCode(st.pc + 1), w))
  {
    hide JumpCode, Placed, Mirrors, Leave;
    MirrorsScope(st.scopes, at[st.pc], w);
    TransferPlaced(f, at, st.pc);
    assert st.pc + 1 in Successors(f, st.pc);
    FallThrough(host, fuel, f, at, sp, st.pc, [], w, st.(pc := st.pc + 1, scopes := scopes));
  }

  lemma AppendMatches(host: W.Host, fuel: nat, f: Function, at: map<int, Chain<nat>>, sp: int,
                      st: State, w: W.State, src: nat)
    requires Agree(f, at) && Related(f, at, sp, st, w)
    requires f.insts[st.pc] == Inst.AppendResult(src) && src in st.regs
    ensures Matches(f, at, sp, st.pc,
                    Running(st.(pc := st.pc + 1, events := st.events + [W.Appended(st.regs[src])])),
                    W.ExecuteAll(host, fuel, [W.AppendResult(W.Get(W.Reg(src)))] + JumpCode(st.pc + 1), w))
  {
    hide W.ExecuteAll, JumpCode, Placed;
    var i := W.AppendResult(W.Get(W.Reg(src)));
    var st' := st.(pc := st.pc + 1, events := st.events + [W.Appended(st.regs[src])]);
    ExecuteSingle(host, fuel, i, w);
    MirrorsSame(st.scopes, at[st.pc], w, w.(events := st'.events));
    assert st.pc + 1 in Successors(f, st.pc);
    FallThrough(host, fuel, f, at, sp, st.pc, [i], w, st');
  }

  ghost predicate AtStep(ctx: Context, f: Function, fnIdx: nat, pool: Pool, world: World,
                         at: map<int, Chain<nat>>, sp: int, st: State, w: W.State) {
    Setup(ctx, f, fnIdx, pool, world, at, sp) && Related(f, at, sp, st, w)
  }

  function CodeOf(ctx: Context, f: Function, fnIdx: nat, pool: Pool, k: nat): seq<W.Instr>
    requires k < |f.insts| && Prefix(ctx, f, fnIdx, pool, k).Success?
    requires Translate(ctx, f, fnIdx, Prefix(ctx, f, fnIdx, pool, k).value.1, f.insts[k]).Success?
  {
    Translate(ctx, f, fnIdx, Prefix(ctx, f, fnIdx, pool, k).value.1, f.insts[k]).value.0
  }

  /** What the emitter loads for a name: its slot, or the word it has outside. */
  lemma NamedWord(ctx: Context, f: Function, fnIdx: nat, world: World, scopes: Chain<nat>, name: Name)
    requires ValueExpr(ctx, f, fnIdx, scopes, name).Success? && OuterAgrees(ctx, f, fnIdx, world, name)
    ensures var e := ValueExpr(ctx, f, fnIdx, scopes, name).value;
            if Lookup(scopes, name).Some? then e == W.Get(W.Slot(Lookup(scopes, name).value))
            else world.outer(name).Some? && e == W.Const(world.outer(name).value)
  {
    if Lookup(scopes, name).None? {
      UnboundName(ctx, f, fnIdx, scopes, name);
      hide Denotes, StandsFor;
      var d :| Denotes(ctx, f, name, d);
      OneWord(fnIdx, ValueExpr(ctx, f, fnIdx, scopes, name).value.w, world.outer(name).value, d);
    }
  }

  lemma LoadMatches(ctx: Context, f: Function, fnIdx: nat, pool: Pool, world: World, fuel: nat,
                    at: map<int, Chain<nat>>, sp: int, st: State, w: W.State)
    requires AtStep(ctx, f, fnIdx, pool, world, at, sp, st, w)
    requires f.insts[st.pc].LoadHost? || f.insts[st.pc].LoadEnv?
    requires Prefix(ctx, f, fnIdx, pool, st.pc).Success?
    requires Translate(ctx, f, fnIdx, Prefix(ctx, f, fnIdx, pool, st.pc).value.1, f.insts[st.pc]).Success?
    ensures Matches(f, at, sp, st.pc, Step(f, world, st),
              W.ExecuteAll(world.host, fuel, CodeOf(ctx, f, fnIdx, pool, st.pc) + JumpCode(st.pc + 1), w))
  {
    hide W.ExecuteAll, JumpCode, Placed, Mirrors, Encode, ValueExpr, Lookup, Prefix, RoomForArguments, Denotes, StandsFor;
    var i, scan := f.insts[st.pc], Prefix(ctx, f, fnIdx, pool, st.pc).value.1;
    PrefixScans(ctx, f, fnIdx, pool, st.pc);
    assert st.pc + 1 in Successors(f, st.pc);
    match i
    case LoadHost(dst, value) =>
      SetMatches(world.host, fuel, f, at, sp, st, w, dst, W.Const(world.constants[st.pc]), world.constants[st.pc]);
    case LoadEnv(dst, name) =>
      MirrorsLookup(st.scopes, at[st.pc], w, name);
      assert OuterAgrees(ctx, f, fnIdx, world, name);
      var e := ValueExpr(ctx, f, fnIdx, scan.scopes, name).value;
      NamedWord(ctx, f, fnIdx, world, scan.scopes, name);
      SetMatches(world.host, fuel, f, at, sp, st, w, dst, e, W.Eval(e, w));
  }

  lemma BranchMatches(ctx: Context, f: Function, fnIdx: nat, pool: Pool, world: World, fuel: nat,
                      at: map<int, Chain<nat>>, sp: int, st: State, w: W.State, c: nat, t: int)
    requires AtStep(ctx, f, fnIdx, pool, world, at, sp, st, w) && f.insts[st.pc] == JumpIfFalse(c, t)
    ensures Matches(f, at, sp, st.pc, Step(f, world, st),
              W.ExecuteAll(world.host, fuel, [W.If(W.IsTag(W.Get(W.Reg(c)), TAG_NIL), JumpCode(t))], w))
  {
    hide W.ExecuteAll, JumpCode, Placed, Mirrors, Prefix, ConstantsAreEncoded;
    var i := W.If(W.IsTag(W.Get(W.Reg(c)), TAG_NIL), JumpCode(t));
    ExecuteSingle(world.host, fuel, i, w);
    ExecuteJump(world.host, fuel, t, w);
    assert t in Successors(f, st.pc) && st.pc + 1 in Successors(f, st.pc);
    RelatedPc(f, at, sp, st.(pc := t), w, t);
    assert Related(f, at, sp, st.(pc := st.pc + 1), w);
    if c in st.regs {
      assert W.Eval(i.cond, w) == if IsNil(st.regs[c]) then 1 else 0;
    }
  }

  lemma ControlMatches(ctx: Context, f: Function, fnIdx: nat, pool: Pool, world: World, fuel: nat,
                       at: map<int, Chain<nat>>, sp: int, st: State, w: W.State)
    requires AtStep(ctx, f, fnIdx, pool, world, at, sp, st, w) && IsControl(f.insts[st.pc])
    requires Prefix(ctx, f, fnIdx, pool, st.pc).Success?
    requires Translate(ctx, f, fnIdx, Prefix(ctx, f, fnIdx, pool, st.pc).value.1, f.insts[st.pc]).Success?
    ensures Matches(f, at, sp, st.pc, Step(f, world, st),
              W.ExecuteAll(world.host, fuel, CodeOf(ctx, f, fnIdx, pool, st.pc), w))
  {
    hide W.ExecuteAll, JumpCode, TailCallCode, Placed, Mirrors, Prefix, ConstantsAreEncoded;
    match f.insts[st.pc]
    case Jump(t) =>
      ExecuteJump(world.host, fuel, t, w);
      assert t in Successors(f, st.pc);
      RelatedPc(f, at, sp, st.(pc := t), w, t);
    case JumpIfFalse(c, t) => BranchMatches(ctx, f, fnIdx, pool, world, fuel, at, sp, st, w, c, t);
    case Return(src) =>
      ExecuteSingle(world.host, fuel, W.Return(W.Get(W.Reg(src))), w);
    case TailCall(callee, args) =>
      if Readable(st.regs, args) && callee in st.regs && IsCallable(st.regs[callee]) {
        assert sp + 8 * |ArgumentsOf(f.insts[st.pc])| <= W.MEMORY_BYTES;
        TailCallRun(world.host, fuel, Register(callee), args, st.regs, w, st.regs[callee] / 8);
      }
  }

  lemma StuckMatches(f: Function, at: map<int, Chain<nat>>, sp: int, k: int)
    ensures forall o :: Matches(f, at, sp, k, Stuck, o)
  {
  }

  lemma ScopedMatches(ctx: Context, f: Function, fnIdx: nat, pool: Pool, world: World, fuel: nat,
                      at: map<int, Chain<nat>>, sp: int, st: State, w: W.State)
    requires AtStep(ctx, f, fnIdx, pool, world, at, sp, st, w) 
    requires f.insts[st.pc].EnterScope? || f.insts[st.pc].ExitScope? || Binds(f.insts[st.pc])
    requires Prefix(ctx, f, fnIdx, pool, st.pc).Success?
    requires Translate(ctx, f, fnIdx, Prefix(ctx, f, fnIdx, pool, st.pc).value.1, f.insts[st.pc]).Success?
    ensures Matches(f, at, sp, st.pc, Step(f, world, st),
              W.ExecuteAll(world.host, fuel, CodeOf(ctx, f, fnIdx, pool, st.pc) + JumpCode(st.pc + 1), w))
  {
    hide W.ExecuteAll, JumpCode, CallCode, Placed, Mirrors, Encode, ValueExpr, Lookup, Prefix, Matches,
         ConstantsAreEncoded, RoomForArguments, Bind, Leave;
    var host := world.host;
    PrefixScans(ctx, f, fnIdx, pool, st.pc);
    assert st.pc + 1 in Successors(f, st.pc);
    match f.insts[st.pc]
    case EnterScope => ScopeMatches(host, fuel, f, at, sp, st, w, st.scopes + [map[]]);
    case ExitScope => ScopeMatches(host, fuel, f, at, sp, st, w, Leave(st.scopes));
    case StoreLocal(name, src) =>
      if src in st.regs { BindMatches(host, fuel, f, at, sp, st, w, name, src); } else { StuckMatches(f, at, sp, st.pc); }
    case DefineOnce(name, src) =>
      if src in st.regs && name !in st.scopes[|st.scopes| - 1] {
        BindMatches(host, fuel, f, at, sp, st, w, name, src);
      } else { StuckMatches(f, at, sp, st.pc); }
  }

  lemma MoveMatches(ctx: Context, f: Function, fnIdx: nat, pool: Pool, world: World, fuel: nat,
                        at: map<int, Chain<nat>>, sp: int, st: State, w: W.State)
    requires AtStep(ctx, f, fnIdx, pool, world, at, sp, st, w) && !IsControl(f.insts[st.pc])
    requires var i := f.insts[st.pc]; i.Move? || i.LoadNil? || i.LoadT? || i.MakeFunction? || i.AppendResult?
    requires Prefix(ctx, f, fnIdx, pool, st.pc).Success?
    requires Translate(ctx, f, fnIdx, Prefix(ctx, f, fnIdx, pool, st.pc).value.1, f.insts[st.pc]).Success?
    ensures Matches(f, at, sp, st.pc, Step(f, world, st),
              W.ExecuteAll(world.host, fuel, CodeOf(ctx, f, fnIdx, pool, st.pc) + JumpCode(st.pc + 1), w))
  {
    hide W.ExecuteAll, JumpCode, CallCode, Placed, Mirrors, Encode, ValueExpr, Lookup, Prefix, Matches,
         ConstantsAreEncoded, RoomForArguments, Bind, Leave;
    var host := world.host;
    PrefixScans(ctx, f, fnIdx, pool, st.pc);
    assert st.pc + 1 in Successors(f, st.pc);
    match f.insts[st.pc]
    case Move(dst, src) =>
      if src in st.regs {
        SetMatches(host, fuel, f, at, sp, st, w, dst, W.Get(W.Reg(src)), st.regs[src]);
      } else { StuckMatches(f, at, sp, st.pc); }
    case LoadNil(dst) => SetMatches(host, fuel, f, at, sp, st, w, dst, W.Const(VAL_NIL), VAL_NIL);
    case LoadT(dst) => SetMatches(host, fuel, f, at, sp, st, w, dst, W.Const(VAL_T), VAL_T);
    case MakeFunction(dst, g) =>
      var v := Tagged(NUM_BUILTINS + g, TAG_CALLABLE);
      SetMatches(host, fuel, f, at, sp, st, w, dst, W.Const(v), v);
    case AppendResult(src) =>
      if src in st.regs { AppendMatches(host, fuel, f, at, sp, st, w, src); } else { StuckMatches(f, at, sp, st.pc); }
  }

  lemma AnyCallMatches(ctx: Context, f: Function, fnIdx: nat, pool: Pool, world: World, fuel: nat,
                        at: map<int, Chain<nat>>, sp: int, st: State, w: W.State)
    requires AtStep(ctx, f, fnIdx, pool, world, at, sp, st, w) && !IsControl(f.insts[st.pc])
    requires f.insts[st.pc].CallBuiltin? || f.insts[st.pc].Call?
    requires Prefix(ctx, f, fnIdx, pool, st.pc).Success?
    requires Translate(ctx, f, fnIdx, Prefix(ctx, f, fnIdx, pool, st.pc).value.1, f.insts[st.pc]).Success?
    ensures Matches(f, at, sp, st.pc, Step(f, world, st),
              W.ExecuteAll(world.host, fuel, CodeOf(ctx, f, fnIdx, pool, st.pc) + JumpCode(st.pc + 1), w))
  {
    hide W.ExecuteAll, JumpCode, CallCode, Placed, Mirrors, Encode, ValueExpr, Lookup, Prefix, Matches,
         ConstantsAreEncoded, RoomForArguments, Bind, Leave;
    var host := world.host;
    PrefixScans(ctx, f, fnIdx, pool, st.pc);
    assert st.pc + 1 in Successors(f, st.pc);
    match f.insts[st.pc]
    case CallBuiltin(dst, id, args) =>
      if Readable(st.regs, args) {
        CallMatches(host, fuel, f, at, sp, world, st, w, Builtin(id), args, dst, id);
      } else { StuckMatches(f, at, sp, st.pc); }
    case Call(dst, callee, args) =>
      if Readable(st.regs, args) && callee in st.regs && IsCallable(st.regs[callee]) {
        CallMatches(host, fuel, f, at, sp, world, st, w, Register(callee), args, dst, st.regs[callee] / 8);
      } else { StuckMatches(f, at, sp, st.pc); }
  }

  lemma StraightMatches(ctx: Context, f: Function, fnIdx: nat, pool: Pool, world: World, fuel: nat,
                        at: map<int, Chain<nat>>, sp: int, st: State, w: W.State)
    requires AtStep(ctx, f, fnIdx, pool, world, at, sp, st, w) && !IsControl(f.insts[st.pc])
    requires Prefix(ctx, f, fnIdx, pool, st.pc).Success?
    requires Translate(ctx, f, fnIdx, Prefix(ctx, f, fnIdx, pool, st.pc).value.1, f.insts[st.pc]).Success?
    ensures Matches(f, at, sp, st.pc, Step(f, world, st),
              W.ExecuteAll(world.host, fuel, CodeOf(ctx, f, fnIdx, pool, st.pc) + JumpCode(st.pc + 1), w))
  {
    var i := f.insts[st.pc];
    hide *;
    if i.Move? || i.LoadNil? || i.LoadT? || i.MakeFunction? || i.AppendResult? {
      MoveMatches(ctx, f, fnIdx, pool, world, fuel, at, sp, st, w);
    } else if i.CallBuiltin? || i.Call? {
      AnyCallMatches(ctx, f, fnIdx, pool, world, fuel, at, sp, st, w);
    } else if i.LoadHost? || i.LoadEnv? {
      LoadMatches(ctx, f, fnIdx, pool, world, fuel, at, sp, st, w);
    } else if i.Other? {
      OtherIsStuck(f, world, st);
      StuckMatches(f, at, sp, st.pc);
    } else {
      IsScoped(i);
      ScopedMatches(ctx, f, fnIdx, pool, world, fuel, at, sp, st, w);
    }
  }

  lemma OtherIsStuck(f: Function, world: World, st: State)
    requires 0 <= st.pc < |f.insts| && f.insts[st.pc].Other?
    ensures Step(f, world, st) == Stuck
  {
  }

  lemma IsScoped(i: Inst)
    requires !IsControl(i) && !i.Move? && !i.LoadNil? && !i.LoadT? && !i.MakeFunction? && !i.AppendResult?
    requires !i.CallBuiltin? && !i.Call? && !i.LoadHost? && !i.LoadEnv? && !i.Other?
    ensures i.EnterScope? || i.ExitScope? || Binds(i)
  {
  }

  /** Code `k` does what instruction `k` does. */
  lemma StepMatches(ctx: Context, f: Function, fnIdx: nat, pool: Pool, world: World, fuel: nat,
                    at: map<int, Chain<nat>>, sp: int, st: State, w: W.State)
    requires AtStep(ctx, f, fnIdx, pool, world, at, sp, st, w)
    ensures Matches(f, at, sp, st.pc, Step(f, world, st),
              W.ExecuteAll(world.host, fuel, Prefix(ctx, f, fnIdx, pool, |f.insts|).value.0[st.pc], w))
  {
    hide W.ExecuteAll, Translate, Step, JumpCode, Matches, Placed, Mirrors, Prefix;
    PrefixCode(ctx, f, fnIdx, pool, st.pc, |f.insts|);
    if IsControl(f.insts[st.pc]) {
      ControlMatches(ctx, f, fnIdx, pool, world, fuel, at, sp, st, w);
    } else {
      StraightMatches(ctx, f, fnIdx, pool, world, fuel, at, sp, st, w);
    }
  }

  // --- whole runs -----------------------------------------------------------------------------

  lemma RunStops(f: Function, world: World, st: State, a: nat, b: nat)
    requires a <= b && !Run(f, world, st, a).Running?
    ensures Run(f, world, st, b) == Run(f, world, st, a)
  {
    RunSplit(f, world, st, a, b - a);
  }

  /** One pass through the dispatcher, and the run it carries out. */
  ghost predicate OnePass(f: Function, at: map<int, Chain<nat>>, sp: int, l: Outcome, o: W.Outcome) {
    || l.Stuck?
    || (l.Done? && Returns(o, l.w, l.events))
    || (l.Running? && o.Jump? && o.tag == W.Dispatch && W.Read(o.st, W.Pc) == l.st.pc
        && Related(f, at, sp, l.st, o.st))
  }

  /** A pass executes codes until one of them jumps back or returns. */
  lemma {:induction false} PassRuns(ctx: Context, f: Function, fnIdx: nat, pool: Pool, world: World, fuel: nat,
                 at: map<int, Chain<nat>>, sp: int, st: State, w: W.State) returns (m: nat)
    requires AtStep(ctx, f, fnIdx, pool, world, at, sp, st, w)
    ensures 1 <= m <= |f.insts|
    ensures OnePass(f, at, sp, Run(f, world, st, m),
              RunCodes(world.host, fuel, Prefix(ctx, f, fnIdx, pool, |f.insts|).value.0, st.pc, |f.insts|, w))
    ensures m <= |f.insts| - st.pc
    decreases |f.insts| - st.pc
  {
    hide W.ExecuteAll, Step, Placed, Mirrors, Prefix, ConstantsAreEncoded, RoomForArguments, OuterAgrees;
    var codes := Prefix(ctx, f, fnIdx, pool, |f.insts|).value.0;
    StepMatches(ctx, f, fnIdx, pool, world, fuel, at, sp, st, w);
    var step, o := Step(f, world, st), W.ExecuteAll(world.host, fuel, codes[st.pc], w);
    m := 1;
    assert Run(f, world, st, 1) == step;
    if step.Running? && o.Next? {
      var m' := PassRuns(ctx, f, fnIdx, pool, world, fuel, at, sp, step.st, o.st);
      m := 1 + m';
    }
  }

  /** What `fuel` back jumps of the dispatcher establish about the LIR run. */
  ghost predicate Simulates(f: Function, world: World, st: State, fuel: nat, o: W.Outcome) {
    var l := Run(f, world, st, (fuel + 1) * |f.insts|);
    || l.Stuck?
    || (o.Returned? && l == Done(o.w, o.events))
    || (o.OutOfFuel? && Run(f, world, st, fuel + 1).Running?)
  }

  lemma SimulatesLonger(f: Function, world: World, st: State, st1: State, m: nat, fuel: nat, o: W.Outcome)
    requires 1 <= m <= |f.insts| && Run(f, world, st, m) == Running(st1)
    requires Simulates(f, world, st1, fuel, o)
    ensures Simulates(f, world, st, fuel + 1, o)
  {
    hide Step;
    var n := |f.insts|;
    assert (fuel + 2) * n == (fuel + 1) * n + n;
    RunSplit(f, world, st, m, (fuel + 1) * n);
    if !Run(f, world, st1, (fuel + 1) * n).Running? {
      RunStops(f, world, st, m + (fuel + 1) * n, (fuel + 2) * n);
    }
    RunSplit(f, world, st, m, fuel + 1);
    if Run(f, world, st1, fuel + 1).Running? && !Run(f, world, st, fuel + 2).Running? {
      RunStops(f, world, st, fuel + 2, m + fuel + 1);
    }
  }

  lemma SimulatesOnePass(f: Function, at: map<int, Chain<nat>>, sp: int, world: World, st: State, m: nat, fuel: nat, o: W.Outcome)
    requires 1 <= m <= |f.insts| && OnePass(f, at, sp, Run(f, world, st, m), o)
    ensures !Run(f, world, st, m).Running? ==> Simulates(f, world, st, fuel, o)
    ensures Run(f, world, st, m).Running? ==> Simulates(f, world, st, 0, W.OutOfFuel)
  {
    hide Step, Related;
    if !Run(f, world, st, m).Running? {
      assert (fuel + 1) * |f.insts| == fuel * |f.insts| + |f.insts|;
      RunStops(f, world, st, m, (fuel + 1) * |f.insts|);
    } else if !Run(f, world, st, 1).Running? {
      RunStops(f, world, st, 1, m);
    }
  }

  /** Step by step, over any number of loops: the dispatcher follows the LIR machine. */
  lemma {:induction false} DispatcherFollows(ctx: Context, f: Function, fnIdx: nat, pool: Pool, world: World, fuel: nat,
                          at: map<int, Chain<nat>>, sp: int, st: State, w: W.State)
    requires AtStep(ctx, f, fnIdx, pool, world, at, sp, st, w) && W.Read(w, W.Pc) == st.pc
    ensures Simulates(f, world, st, fuel,
              W.Execute(world.host, fuel, DispatchLoop(Prefix(ctx, f, fnIdx, pool, |f.insts|).value.0), w))
    decreases fuel
  {
    hide W.ExecuteAll, Step, Placed, Mirrors, Prefix, Inside, RunCodes, Simulates,
         ConstantsAreEncoded, RoomForArguments, OuterAgrees, Straight;
    var codes := Prefix(ctx, f, fnIdx, pool, |f.insts|).value.0;
    var o := RunCodes(world.host, fuel, codes, st.pc, |f.insts|, w);
    PrefixStraight(ctx, f, fnIdx, pool, |f.insts|);
    InsideLands(world.host, fuel, codes, |f.insts|, st.pc, w);
    var m := PassRuns(ctx, f, fnIdx, pool, world, fuel, at, sp, st, w);
    var l := Run(f, world, st, m);
    SimulatesOnePass(f, at, sp, world, st, m, fuel, o);
    if l.Stuck? {
      StuckSimulates(f, world, st, m, fuel);
    } else if l.Running? && fuel > 0 {
      assert o.st.(stack := w.stack) == o.st;
      DispatcherFollows(ctx, f, fnIdx, pool, world, fuel - 1, at, sp, l.st, o.st);
      SimulatesLonger(f, world, st, l.st, m, fuel - 1,
        W.Execute(world.host, fuel - 1, DispatchLoop(codes), o.st));
    }
  }

  lemma StuckSimulates(f: Function, world: World, st: State, m: nat, fuel: nat)
    requires m <= |f.insts| && Run(f, world, st, m).Stuck?
    ensures forall o :: Simulates(f, world, st, fuel, o)
  {
    hide Step;
    assert (fuel + 1) * |f.insts| == fuel * |f.insts| + |f.insts|;
    RunStops(f, world, st, m, (fuel + 1) * |f.insts|);
  }

  // --- function entry -----------------------------------------------------------------------------

  function EntryState(argv: int, sp: int, memory: W.Memory): W.State {
    W.State(map[W.Argv := argv], sp, memory, [], [])
  }

  /** The prologue copies the argument words into the first slots. */
  lemma {:induction false} PrologueRuns(host: W.Host, fuel: nat, argv: int, sp: int, memory: W.Memory, params: nat, n: nat)
    returns (w: W.State)
    requires n <= params && 0 <= argv && argv + 8 * params <= W.MEMORY_BYTES
    ensures W.ExecuteAll(host, fuel, LoadParams(params)[..n], EntryState(argv, sp, memory)) == W.Next(w)
    ensures w.sp == sp && w.memory == memory && w.stack == [] && w.events == []
    ensures W.Read(w, W.Argv) == argv
    ensures forall i :: 0 <= i < n ==> W.Read(w, W.Slot(i)) == W.Arguments(memory, argv, params)[i]
    ensures forall i: nat :: n <= i ==> W.Read(w, W.Slot(i)) == 0
    decreases n
  {
    var loads := LoadParams(params);
    if n == 0 {
      w := EntryState(argv, sp, memory);
      assert loads[..0] == [];
    } else {
      var w1 := PrologueRuns(host, fuel, argv, sp, memory, params, n - 1);
      var load := W.LoadTo(W.Slot(n - 1), 8 * (n - 1), W.Get(W.Argv));
      assert loads[..n] == loads[..n - 1] + [load];
      W.ExecuteConcat(host, fuel, loads[..n - 1], [load], EntryState(argv, sp, memory));
      ExecuteSingle(host, fuel, load, w1);
      w := W.Write(w1, W.Slot(n - 1), W.Arguments(memory, argv, params)[n - 1]);
    }
  }

  lemma {:induction false} ParamsMirror(params: seq<Name>, args: seq<Word>)
    requires |params| == |args|
    ensures BindParams(params, args).Keys == BindParams(params, Positions(|params|)).Keys
    ensures forall x {:trigger x in BindParams(params, args)} :: x in BindParams(params, args) ==>
              var s := BindParams(params, Positions(|params|))[x];
              s < |args| && BindParams(params, args)[x] == args[s]
  {
    if params != [] {
      var n := |params| - 1;
      assert Positions(|params|)[..n] == Positions(n);
      ParamsMirror(params[..n], args[..n]);
    }
  }

  lemma EntryRelated(f: Function, at: map<int, Chain<nat>>, sp: int, args: seq<Word>, w: W.State)
    requires Agree(f, at) && |args| == |f.params|
    requires w.sp == sp && w.stack == [] && w.events == []
    requires forall i :: 0 <= i < |args| ==> W.Read(w, W.Slot(i)) == args[i]
    ensures Related(f, at, sp, Start(f, args), w)
  {
    ParamsMirror(f.params, args);
    EntryPlaced(f, at);
  }

  /** The emitted function body; empty when the emitter refuses the function. */
  function Emitted(ctx: Context, f: Function, fnIdx: nat, pool: Pool): seq<W.Instr> {
    match Compile(ctx, f, fnIdx, pool)
    case Success((body, _)) => body
    case Failure(_) => []
  }

  /** The LIR machine on the arguments that lie at `argv`. */
  function RunOn(f: Function, world: World, memory: W.Memory, argv: int, n: nat): Outcome
    requires 0 <= argv && argv + 8 * |f.params| <= W.MEMORY_BYTES
  {
    Run(f, world, Start(f, W.Arguments(memory, argv, |f.params|)), n)
  }

  /** The emitted function, called with its arguments at `argv`, runs as the LIR function does on
      those arguments: for every bound on back jumps, the LIR run gets stuck, or both return the
      same word after the same calls, or neither has returned yet. In particular it never traps. */
  lemma EmittedFunctionSimulates(ctx: Context, f: Function, fnIdx: nat, pool: Pool, world: World,
                                 at: map<int, Chain<nat>>, sp: int, argv: int, memory: W.Memory, fuel: nat)
    requires Setup(ctx, f, fnIdx, pool, world, at, sp) && !f.variadic
    requires 0 <= argv && argv + 8 * |f.params| <= W.MEMORY_BYTES
    ensures Compile(ctx, f, fnIdx, pool).Success?
    ensures Simulates(f, world, Start(f, W.Arguments(memory, argv, |f.params|)), fuel,
              W.ExecuteAll(world.host, fuel, Emitted(ctx, f, fnIdx, pool), EntryState(argv, sp, memory)))
  {
    hide W.ExecuteAll, Prefix, Simulates, Agree, ConstantsAreEncoded, RoomForArguments, OuterAgrees, Inside;
    var n := |f.params|;
    var codes := Prefix(ctx, f, fnIdx, pool, |f.insts|).value.0;
    var loads, init := LoadParams(n), W.Set(W.Pc, W.Const(0));
    var w1 := PrologueRuns(world.host, fuel, argv, sp, memory, n, n);
    assert loads[..n] == loads;
    var w := W.Write(w1, W.Pc, 0);
    var st := Start(f, W.Arguments(memory, argv, n));
    EntryRelated(f, at, sp, W.Arguments(memory, argv, n), w);
    DispatcherFollows(ctx, f, fnIdx, pool, world, fuel, at, sp, st, w);
    var loop := DispatchLoop(codes);
    assert FunctionBody(n, codes) == loads + ([init] + ([loop] + [W.Unreachable]));
    W.ExecuteConcat(world.host, fuel, loads, [init] + ([loop] + [W.Unreachable]), EntryState(argv, sp, memory));
    ExecuteOne(world.host, fuel, init, [loop] + [W.Unreachable], w1);
    ExecuteOne(world.host, fuel, loop, [W.Unreachable], w);
    SimulatesNoNext(f, world, st, fuel, W.Execute(world.host, fuel, loop, w));
  }

  lemma SimulatesNoNext(f: Function, world: World, st: State, fuel: nat, o: W.Outcome)
    requires Simulates(f, world, st, fuel, o)
    ensures o.Next? ==> forall o' :: Simulates(f, world, st, fuel, o')
  {
  }

  lemma TimesAtLeast(a: nat, b: nat)
    requires b > 0
    ensures a * b >= a
  {
  }

  /** A LIR function that returns `v` is emitted as one that returns `v`, after the same calls. */
  lemma ResultPreserved(ctx: Context, f: Function, fnIdx: nat, pool: Pool, world: World,
                        at: map<int, Chain<nat>>, sp: int, argv: int, memory: W.Memory, n: nat)
    requires Setup(ctx, f, fnIdx, pool, world, at, sp) && !f.variadic
    requires 0 <= argv && argv + 8 * |f.params| <= W.MEMORY_BYTES
    requires RunOn(f, world, memory, argv, n).Done?
    ensures var l := RunOn(f, world, memory, argv, n);
            Returns(W.ExecuteAll(world.host, n, Emitted(ctx, f, fnIdx, pool), EntryState(argv, sp, memory)), l.w, l.events)
  {
    assert |f.insts| > 0;
    hide W.ExecuteAll, Run, Setup, Emitted, W.Arguments;
    EmittedFunctionSimulates(ctx, f, fnIdx, pool, world, at, sp, argv, memory, n);
    var st := Start(f, W.Arguments(memory, argv, |f.params|));
    RunStops(f, world, st, n, n + 1);
    TimesAtLeast(n + 1, |f.insts|);
    RunStops(f, world, st, n, (n + 1) * |f.insts|);
  }

  predicate Reflects(o: W.Outcome, l: Outcome) {
    (o.Returned? ==> l == Done(o.w, o.events) || l.Stuck?) && (o.Trap? ==> l.Stuck?)
  }

  /** What the emitted function returns, the LIR function returns, unless it has no result at all. */
  lemma ResultReflected(ctx: Context, f: Function, fnIdx: nat, pool: Pool, world: World,
                        at: map<int, Chain<nat>>, sp: int, argv: int, memory: W.Memory, fuel: nat)
    requires Setup(ctx, f, fnIdx, pool, world, at, sp) && !f.variadic
    requires 0 <= argv && argv + 8 * |f.params| <= W.MEMORY_BYTES
    ensures var o := W.ExecuteAll(world.host, fuel, Emitted(ctx, f, fnIdx, pool), EntryState(argv, sp, memory));
            Reflects(o, RunOn(f, world, memory, argv, (fuel + 1) * |f.insts|))
  {
    hide W.ExecuteAll, Step, Setup, Emitted;
    EmittedFunctionSimulates(ctx, f, fnIdx, pool, world, at, sp, argv, memory, fuel);
  }
}

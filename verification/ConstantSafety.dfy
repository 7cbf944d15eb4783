/**
 Emitted functions leave the constants alone. Their stores go through `$sp`, which starts at
 `SCRATCH_BASE` and only moves up before a call and back after it (`_call_sequence` of
 qy/backend/wasm/emit.py). So memory below the scratch stack stays as it was through every
 run, whatever the function computes, and every constant still decodes to itself when it
 returns; provided that the pool ends below the stack and callees keep to the same rule.
 */
module ConstantSafety {
  import opened Wrappers
  import opened ConstantPool
  import opened Lir
  import opened Emitter
  import opened Dispatcher
  import W = Wasm

  // --- code that keeps to the scratch stack ----------------------------------------------------

  /** What a pass over the code knows: nothing after a bad instruction, else whether
      `$sp_save` holds a saved stack pointer. */
  datatype Known = Bad | Good(saved: bool)

  function Check(i: W.Instr, saved: bool): Known
    decreases i
  {
    match i
    case Set(l, e) =>
      if l != W.SpSave then Good(saved) else if e == W.GetSp then Good(true) else Bad
    case SetPop(l) => if l != W.SpSave then Good(saved) else Bad
    case LoadTo(l, _, _) => if l != W.SpSave then Good(saved) else Bad
    case SetSp(e) =>
      if e == W.Get(W.SpSave) && saved then Good(saved)
      else if e.Add? && e.a == W.GetSp && e.b.Const? && e.b.w >= 0 then Good(saved)
      else Bad
    case Store(_, address, _) => if address == W.GetSp then Good(saved) else Bad
    case If(_, body) => if CheckAll(body, false).Good? then Good(false) else Bad
    case Block(_, body) => if CheckAll(body, false).Good? then Good(false) else Bad
    case Loop(_, body) => if CheckAll(body, false).Good? then Good(false) else Bad
    case _ => Good(saved)
  }

  function CheckAll(body: seq<W.Instr>, saved: bool): Known
    decreases body
  {
    if body == [] then Good(saved)
    else
      var first := Check(body[0], saved);
      if first.Bad? then Bad else CheckAll(body[1..], first.saved)
  }

  /** The words below `limit` are those of `m0`. */
  ghost predicate SameBelow(limit: int, m0: W.Memory, m: W.Memory) {
    forall a :: a < limit ==> (a in m <==> a in m0) && (a in m ==> m[a] == m0[a])
  }

  /** A callee returns with a stack pointer no lower than the limit and leaves the words below alone. */
  ghost predicate KeepsBelow(host: W.Host, limit: int) {
    && (forall events, m :: SameBelow(limit, m, host.memory(events, m)))
    && (forall events, sp :: sp >= limit ==> host.sp(events, sp) >= limit)
  }

  ghost predicate Safe(limit: int, m0: W.Memory, saved: bool, w: W.State) {
    && w.sp >= limit && SameBelow(limit, m0, w.memory)
    && (saved ==> W.Read(w, W.SpSave) >= limit)
  }

  ghost predicate SafeOutcome(limit: int, m0: W.Memory, saved: bool, o: W.Outcome) {
    match o
    case Next(w) => Safe(limit, m0, saved, w)
    case Jump(_, w) => Safe(limit, m0, false, w)
    case Returned(_, _, m, sp) => sp >= limit && SameBelow(limit, m0, m)
    case _ => true
  }

  lemma SimpleIsSafe(host: W.Host, fuel: nat, i: W.Instr, w: W.State, limit: int, m0: W.Memory, saved: bool)
    requires KeepsBelow(host, limit) && Safe(limit, m0, saved, w) && Check(i, saved).Good?
    requires !i.If? && !i.Block? && !i.Loop?
    ensures SafeOutcome(limit, m0, Check(i, saved).saved, W.Execute(host, fuel, i, w))
  {
    hide W.Arguments;
    match i
    case Set(l, e) => hide W.Eval;
    case SetPop(_) =>
    case LoadTo(_, _, _) => hide W.Eval;
    case SetSp(e) =>
      if e.Add? { assert W.Eval(e.a, w) == w.sp && W.Eval(e.b, w) == e.b.w; }
    case Store(_, _, e) =>
      assert W.Eval(i.address, w) == w.sp;
      hide W.Eval;
    case CallIndirect(_, _, _) => hide W.Eval;
    case CallBuiltin(_, _, _) => hide W.Eval;
    case _ => hide W.Eval;
  }

  lemma {:induction false} CheckedIsSafe(host: W.Host, fuel: nat, i: W.Instr, w: W.State, limit: int, m0: W.Memory, saved: bool)
    requires KeepsBelow(host, limit) && Safe(limit, m0, saved, w) && Check(i, saved).Good?
    ensures SafeOutcome(limit, m0, Check(i, saved).saved, W.Execute(host, fuel, i, w))
    decreases fuel, i
  {
    hide Safe, KeepsBelow, SameBelow;
    if i.If? {
      SafeUnsaved(limit, m0, saved, w);
      if W.Eval(i.cond, w) != 0 {
        AllCheckedIsSafe(host, fuel, i.body, w, limit, m0, false);
      }
    } else if i.Block? {
      SafeUnsaved(limit, m0, saved, w);
      AllCheckedIsSafe(host, fuel, i.body, w, limit, m0, false);
      var o := W.ExecuteAll(host, fuel, i.body, w);
      if o.Jump? { SafeStack(limit, m0, false, o.st, w.stack); }
    } else if i.Loop? {
      SafeUnsaved(limit, m0, saved, w);
      AllCheckedIsSafe(host, fuel, i.body, w, limit, m0, false);
      var o := W.ExecuteAll(host, fuel, i.body, w);
      if o.Jump? && o.tag == i.tag && fuel > 0 {
        SafeStack(limit, m0, false, o.st, w.stack);
        CheckedIsSafe(host, fuel - 1, i, o.st.(stack := w.stack), limit, m0, false);
      }
    } else {
      SimpleIsSafe(host, fuel, i, w, limit, m0, saved);
    }
  }

  lemma {:induction false} AllCheckedIsSafe(host: W.Host, fuel: nat, body: seq<W.Instr>, w: W.State,
                                            limit: int, m0: W.Memory, saved: bool)
    requires KeepsBelow(host, limit) && Safe(limit, m0, saved, w) && CheckAll(body, saved).Good?
    ensures SafeOutcome(limit, m0, false, W.ExecuteAll(host, fuel, body, w))
    decreases fuel, body
  {
    hide Safe, KeepsBelow, SameBelow;
    if body == [] {
      SafeUnsaved(limit, m0, saved, w);
    } else {
      CheckedIsSafe(host, fuel, body[0], w, limit, m0, saved);
      var o := W.Execute(host, fuel, body[0], w);
      if o.Next? {
        AllCheckedIsSafe(host, fuel, body[1..], o.st, limit, m0, Check(body[0], saved).saved);
      }
    }
  }

  lemma SafeUnsaved(limit: int, m0: W.Memory, saved: bool, w: W.State)
    requires Safe(limit, m0, saved, w)
    ensures Safe(limit, m0, false, w)
  {
  }

  lemma SafeStack(limit: int, m0: W.Memory, saved: bool, w: W.State, stack: seq<Word>)
    requires Safe(limit, m0, saved, w)
    ensures Safe(limit, m0, saved, w.(stack := stack))
  {
  }

  // --- emitted code is such code -------------------------------------------------------------------

  lemma {:induction false} CheckConcat(a: seq<W.Instr>, b: seq<W.Instr>, saved: bool)
    ensures CheckAll(a + b, saved) == if CheckAll(a, saved).Bad? then Bad else CheckAll(b, CheckAll(a, saved).saved)
    decreases |a|
  {
    if a == [] {
      assert a + b == b;
    } else {
      assert (a + b)[0] == a[0] && (a + b)[1..] == a[1..] + b;
      if Check(a[0], saved).Good? { CheckConcat(a[1..], b, Check(a[0], saved).saved); }
    }
  }

  lemma CheckOne(i: W.Instr, saved: bool)
    ensures CheckAll([i], saved) == Check(i, saved)
  {
    assert [i][1..] == [];
  }

  lemma CheckTwo(i: W.Instr, j: W.Instr, saved: bool)
    ensures CheckAll([i, j], saved) == if Check(i, saved).Bad? then Bad else Check(j, Check(i, saved).saved)
  {
    assert [i, j] == [i] + [j];
    CheckConcat([i], [j], saved);
    CheckOne(i, saved);
    if Check(i, saved).Good? { CheckOne(j, Check(i, saved).saved); }
  }

  lemma {:induction false} StoresCheck(args: seq<nat>, n: nat, saved: bool)
    requires n <= |args|
    ensures CheckAll(Stores(args)[..n], saved) == Good(saved)
  {
    if n > 0 {
      StoresCheck(args, n - 1, saved);
      assert Stores(args)[..n] == Stores(args)[..n - 1] + [StoreArgument(args, n - 1)];
      CheckConcat(Stores(args)[..n - 1], [StoreArgument(args, n - 1)], saved);
      CheckOne(StoreArgument(args, n - 1), saved);
    }
  }

  /** From the saved stack pointer on, a call only moves `$sp` upwards. */
  lemma PushCheck(args: seq<nat>, saved: bool)
    ensures CheckAll(PushArguments(args), saved) == Good(true)
  {
    var save, bump := W.Set(W.SpSave, W.GetSp), W.SetSp(W.Add(W.GetSp, W.Const(8 * |args|)));
    CheckConcat([save] + Stores(args), [bump], saved);
    CheckConcat([save], Stores(args), saved);
    CheckOne(save, saved);
    StoresCheck(args, |args|, true);
    assert Stores(args)[..|args|] == Stores(args);
    CheckOne(bump, true);
  }

  lemma CallCheck(target: Target, args: seq<nat>, dst: nat, saved: bool)
    ensures CheckAll(CallCode(target, args, dst), saved) == Good(true)
    ensures CheckAll(TailCallCode(target, args), saved) == Good(true)
  {
    hide PushArguments;
    var call, pop, restore := CallInstr(target, |args|), W.SetPop(W.Reg(dst)), W.SetSp(W.Get(W.SpSave));
    PushCheck(args, saved);
    CheckConcat(PushArguments(args) + [call], [pop, restore], saved);
    CheckConcat(PushArguments(args), [call], saved);
    CheckOne(call, true);
    CheckTwo(pop, restore, true);
    CheckConcat(PushArguments(args), [call, W.ReturnPop], saved);
    CheckTwo(call, W.ReturnPop, true);
  }

  lemma JumpCheck(target: int, saved: bool)
    ensures CheckAll(JumpCode(target), saved) == Good(saved)
  {
    CheckTwo(W.Set(W.Pc, W.Const(target)), W.Br(W.Dispatch), saved);
  }

  lemma TranslateCheck(ctx: Context, f: Function, fnIdx: nat, s: Scan, i: Inst)
    requires Translate(ctx, f, fnIdx, s, i).Success?
    ensures CheckAll(Translate(ctx, f, fnIdx, s, i).value.0, false).Good?
  {
    hide Encode, ValueExpr, Bind, Leave, CallCode, TailCallCode, JumpCode;
    if i.Jump? {
      JumpCheck(i.target, false);
    } else if i.JumpIfFalse? {
      JumpCheck(i.target, false);
      CheckOne(W.If(W.IsTag(W.Get(W.Reg(i.cond)), TAG_NIL), JumpCode(i.target)), false);
    } else if i.CallBuiltin? {
      CallCheck(Builtin(i.id), i.args, i.dst, false);
    } else if i.Call? {
      CallCheck(Register(i.callee), i.args, i.dst, false);
    } else if i.TailCall? {
      CallCheck(Register(i.callee), i.args, 0, false);
    } else if !i.EnterScope? && !i.ExitScope? {
      var code := Translate(ctx, f, fnIdx, s, i).value.0;
      CheckOne(code[0], false);
      assert code == [code[0]];
    }
  }

  lemma {:induction false} PrefixCheck(ctx: Context, f: Function, fnIdx: nat, pool: Pool, k: nat)
    requires k <= |f.insts| && Prefix(ctx, f, fnIdx, pool, k).Success?
    ensures forall j :: 0 <= j < k ==> CheckAll(Prefix(ctx, f, fnIdx, pool, k).value.0[j], false).Good?
  {
    hide Translate, JumpCode;
    if k > 0 {
      var s, inst := Prefix(ctx, f, fnIdx, pool, k - 1).value.1, f.insts[k - 1];
      PrefixCheck(ctx, f, fnIdx, pool, k - 1);
      TranslateCheck(ctx, f, fnIdx, s, inst);
      var code := Translate(ctx, f, fnIdx, s, inst).value.0;
      CheckConcat(code, JumpCode(k), false);
      JumpCheck(k, CheckAll(code, false).saved);
    }
  }

  lemma {:induction false} InsideCheck(codes: seq<seq<W.Instr>>, n: nat, k: nat)
    requires k <= |codes| && forall j :: 0 <= j < |codes| ==> CheckAll(codes[j], false).Good?
    ensures CheckAll(Inside(codes, n, k), false).Good?
    decreases k
  {
    hide CheckAll;
    if k == 0 {
      CheckOne(W.BrTable(Labels(n), W.Get(W.Pc)), false);
    } else {
      var block := W.Block(W.Code(k - 1), Inside(codes, n, k - 1));
      InsideCheck(codes, n, k - 1);
      CheckOne(block, false);
      CheckConcat([block], codes[k - 1], false);
    }
  }

  lemma {:induction false} LoadsCheck(params: nat, n: nat)
    requires n <= params
    ensures CheckAll(LoadParams(params)[..n], false) == Good(false)
  {
    if n > 0 {
      var load := W.LoadTo(W.Slot(n - 1), 8 * (n - 1), W.Get(W.Argv));
      LoadsCheck(params, n - 1);
      assert LoadParams(params)[..n] == LoadParams(params)[..n - 1] + [load];
      CheckConcat(LoadParams(params)[..n - 1], [load], false);
      CheckOne(load, false);
    }
  }

  lemma BodyCheck(params: nat, codes: seq<seq<W.Instr>>)
    requires forall j :: 0 <= j < |codes| ==> CheckAll(codes[j], false).Good?
    ensures CheckAll(FunctionBody(params, codes), false).Good?
  {
    assert LoadParams(params)[..params] == LoadParams(params);
    hide CheckAll, Inside, LoadParams;
    var init, loop := W.Set(W.Pc, W.Const(0)), DispatchLoop(codes);
    LoadsCheck(params, params);
    InsideCheck(codes, |codes|, |codes|);
    CheckConcat(LoadParams(params), [init, loop, W.Unreachable], false);
    assert [init, loop, W.Unreachable] == [init, loop] + [W.Unreachable];
    CheckConcat([init, loop], [W.Unreachable], false);
    CheckTwo(init, loop, false);
    CheckOne(W.Unreachable, false);
  }

  // --- constants survive -----------------------------------------------------------------------------

  /** An emitted function keeps the rule that it asks of its callees, on every path and for
      whatever LIR it was made of: it returns with the words below the limit as they were and
      the stack pointer no lower. */
  lemma EmittedKeepsBelow(ctx: Context, f: Function, fnIdx: nat, pool: Pool, host: W.Host, fuel: nat,
                          argv: int, sp: int, memory: W.Memory, limit: int)
    requires Compile(ctx, f, fnIdx, pool).Success? && KeepsBelow(host, limit) && sp >= limit
    ensures SafeOutcome(limit, memory, false,
              W.ExecuteAll(host, fuel, Emitted(ctx, f, fnIdx, pool), EntryState(argv, sp, memory)))
  {
    hide W.ExecuteAll, CheckAll, FunctionBody, KeepsBelow;
    PrefixCheck(ctx, f, fnIdx, pool, |f.insts|);
    BodyCheck(|f.params|, Prefix(ctx, f, fnIdx, pool, |f.insts|).value.0);
    AllCheckedIsSafe(host, fuel, Emitted(ctx, f, fnIdx, pool), EntryState(argv, sp, memory), limit, memory, false);
  }

  /** Bytes change only under words that change. */
  ghost predicate WrittenAs(m: W.Memory, image: Image, m': W.Memory, image': Image) {
    forall b :: (forall a :: b - 8 < a <= b ==> (a in m' <==> a in m) && (a in m ==> m'[a] == m[a])) ==>
      image'(b) == image(b)
  }

  /** Whatever a function does: when it returns, each word that stood for a constant of a pool
      below the scratch stack still stands for it. */
  lemma ConstantsSurvive(ctx: Context, f: Function, fnIdx: nat, pool: Pool, host: W.Host, fuel: nat,
                         argv: int, sp: int, memory: W.Memory, p: Pool, image': Image, w: Word)
    requires Compile(ctx, f, fnIdx, pool).Success? && BelowScratch(p)
    requires KeepsBelow(host, SCRATCH_BASE) && sp >= SCRATCH_BASE
    requires Decode(Load(p.segments), w).Some?
    ensures var o := W.ExecuteAll(host, fuel, Emitted(ctx, f, fnIdx, pool), EntryState(argv, sp, memory));
            o.Returned? && WrittenAs(memory, Load(p.segments), o.memory, image') ==>
              Decode(image', w) == Decode(Load(p.segments), w)
  {
    hide W.ExecuteAll, Compile, Decode, KeepsBelow, Load;
    EmittedKeepsBelow(ctx, f, fnIdx, pool, host, fuel, argv, sp, memory, SCRATCH_BASE);
    var o := W.ExecuteAll(host, fuel, Emitted(ctx, f, fnIdx, pool), EntryState(argv, sp, memory));
    if o.Returned? && WrittenAs(memory, Load(p.segments), o.memory, image') {
      assert SameBelowScratch(Load(p.segments), image');
      ScratchWritesSpareConstants(p);
      DecodeExtends(Load(p.segments), image', w);
    }
  }
}

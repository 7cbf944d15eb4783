/**
 A function the emitter gets wrong. Lowering leaves a tail-position scope by RETURN
 instead of EXIT_SCOPE; the emitter's linear scan still has that scope open when it
 reaches the next branch, and resolves a parameter to the inner binding.
 */
module OpenScope {
  import opened Wrappers
  import opened ConstantPool
  import opened Lir
  import opened Emitter
  import opened Scopes
  import opened Dispatcher
  import W = Wasm

  /** `(cond (nil (let ((x nil)) x)) (T x))` with parameter x: the let is in tail position, so
      its scope is left by RETURN and not by EXIT_SCOPE. */
  const OPEN_SCOPE := Function("f", ["x"], 2, [
    LoadNil(0), JumpIfFalse(0, 5), EnterScope, StoreLocal("x", 0), Inst.Return(0),
    LoadEnv(1, "x"), Inst.Return(1)], false)

  const OPEN_SCOPE_CODES := [
    SetReg(0, VAL_NIL) + JumpCode(1),
    [W.If(W.IsTag(W.Get(W.Reg(0)), TAG_NIL), JumpCode(5))],
    [] + JumpCode(3),
    BindCode(1, 0) + JumpCode(4),
    [W.Return(W.Get(W.Reg(0)))],
    [W.Set(W.Reg(1), W.Get(W.Slot(1)))] + JumpCode(6),
    [W.Return(W.Get(W.Reg(1)))]]

  lemma OpenScopePrefix(ctx: Context, pool: Pool, k: nat, s: Scan, code: seq<W.Instr>, s': Scan)
    requires k < 7 && Prefix(ctx, OPEN_SCOPE, 0, pool, k) == Success((OPEN_SCOPE_CODES[..k], s))
    requires Translate(ctx, OPEN_SCOPE, 0, s, OPEN_SCOPE.insts[k]) == Success((code, s'))
    requires CodeAt(OPEN_SCOPE.insts[k], code, k) == OPEN_SCOPE_CODES[k]
    ensures Prefix(ctx, OPEN_SCOPE, 0, pool, k + 1) == Success((OPEN_SCOPE_CODES[..k + 1], s'))
  {
    hide Translate, CodeAt;
    assert OPEN_SCOPE_CODES[..k + 1] == OPEN_SCOPE_CODES[..k] + [OPEN_SCOPE_CODES[k]];
  }

  lemma OpenScopeCodes(ctx: Context, pool: Pool)
    ensures Prefix(ctx, OPEN_SCOPE, 0, pool, 7).Success?
    ensures Prefix(ctx, OPEN_SCOPE, 0, pool, 7).value.0 == OPEN_SCOPE_CODES
  {
    hide Prefix, Encode, GlobalWord;
    var s0 := FirstScan(OPEN_SCOPE, pool);
    var s3 := s0.(scopes := s0.scopes + [map[]]);
    var s4 := s3.(scopes := Bind(s3.scopes, "x", 1), cursor := 2);
    OpenScopeStart(ctx, pool);
    OpenScopePrefix(ctx, pool, 0, s0, SetReg(0, VAL_NIL), s0);
    OpenScopePrefix(ctx, pool, 1, s0, OPEN_SCOPE_CODES[1], s0);
    OpenScopePrefix(ctx, pool, 2, s0, [], s3);
    OpenScopePrefix(ctx, pool, 3, s3, BindCode(1, 0), s4);
    OpenScopePrefix(ctx, pool, 4, s4, OPEN_SCOPE_CODES[4], s4);
    assert Lookup(s4.scopes, "x") == Some(1);
    OpenScopePrefix(ctx, pool, 5, s4, [W.Set(W.Reg(1), W.Get(W.Slot(1)))], s4);
    OpenScopePrefix(ctx, pool, 6, s4, OPEN_SCOPE_CODES[6], s4);
    assert OPEN_SCOPE_CODES[..7] == OPEN_SCOPE_CODES;
  }

  lemma OpenScopeStart(ctx: Context, pool: Pool)
    ensures Prefix(ctx, OPEN_SCOPE, 0, pool, 0) == Success((OPEN_SCOPE_CODES[..0], FirstScan(OPEN_SCOPE, pool)))
  {
    assert OPEN_SCOPE_CODES[..0] == [];
  }

  /** The LIR function returns its argument; the emitted one returns a slot nothing has written. */
  lemma OpenScopeMiscompiles(ctx: Context, pool: Pool, world: World, sp: int, argv: int, memory: W.Memory, fuel: nat)
    requires fuel >= 3 && 0 <= argv && argv + 8 <= W.MEMORY_BYTES
    ensures var args := W.Arguments(memory, argv, 1);
            Run(OPEN_SCOPE, world, Start(OPEN_SCOPE, args), 4) == Done(args[0], [])
    ensures W.ExecuteAll(world.host, fuel, Emitted(ctx, OPEN_SCOPE, 0, pool), EntryState(argv, sp, memory))
         == W.Returned(0, [], memory, sp)
    ensures forall at :: !Agree(OPEN_SCOPE, at)
  {
    hide W.ExecuteAll, W.Execute, Prefix, Agree, Run;
    var args := W.Arguments(memory, argv, 1);
    assert args == [args[0]];
    OpenScopeRun(world, args[0]);
    OpenScopeCodes(ctx, pool);
    var w1 := PrologueRuns(world.host, fuel, argv, sp, memory, 1, 1);
    var loads, init, loop := LoadParams(1), W.Set(W.Pc, W.Const(0)), DispatchLoop(OPEN_SCOPE_CODES);
    assert loads[..1] == loads;
    assert Emitted(ctx, OPEN_SCOPE, 0, pool) == loads + ([init] + ([loop] + [W.Unreachable]));
    W.ExecuteConcat(world.host, fuel, loads, [init] + ([loop] + [W.Unreachable]), EntryState(argv, sp, memory));
    ExecuteOne(world.host, fuel, init, [loop] + [W.Unreachable], w1);
    assert W.Execute(world.host, fuel, init, w1) == W.Next(W.Write(w1, W.Pc, 0)) by { ExecuteSet(world.host, fuel, w1); }
    ExecuteOne(world.host, fuel, loop, [W.Unreachable], W.Write(w1, W.Pc, 0));
    OpenScopeDispatch(world.host, W.Write(w1, W.Pc, 0), fuel);
    forall at ensures !Agree(OPEN_SCOPE, at) {
      OpenScopeDisagrees(at);
    }
  }

  lemma ExecuteSet(host: W.Host, fuel: nat, w: W.State)
    ensures W.Execute(host, fuel, W.Set(W.Pc, W.Const(0)), w) == W.Next(W.Write(w, W.Pc, 0))
  {
  }

  lemma OpenScopeRun(world: World, x: Word)
    ensures Run(OPEN_SCOPE, world, Start(OPEN_SCOPE, [x]), 4) == Done(x, [])
  {
    var f, s0 := OPEN_SCOPE, Start(OPEN_SCOPE, [x]);
    assert f.params[..0] == [] && [x][..0] == [];
    assert BindParams(f.params[..0], [x][..0]) == map[];
    assert s0.scopes == [map["x" := x]];
    var s1 := s0.(pc := 1, regs := map[0 := VAL_NIL]);
    var s2 := s1.(pc := 5);
    var s3 := s2.(pc := 6, regs := map[0 := VAL_NIL, 1 := x]);
    assert Step(f, world, s0) == Running(s1);
    assert Step(f, world, s1) == Running(s2);
    assert Lookup(s2.scopes, "x") == Some(x);
    assert Step(f, world, s2) == Running(s3);
    assert Step(f, world, s3) == Done(x, []);
    assert Run(f, world, s3, 1) == Done(x, []);
    assert Run(f, world, s2, 2) == Done(x, []);
    assert Run(f, world, s1, 3) == Done(x, []);
  }

  lemma OpenScopeFacts()
    ensures Lookup(Linear(OPEN_SCOPE, 5), "x") == Some(1)
    ensures Lookup(Entry(OPEN_SCOPE), "x") == Some(0)
    ensures 1 in Successors(OPEN_SCOPE, 0) && 5 in Successors(OPEN_SCOPE, 1)
  {
    var f := OPEN_SCOPE;
    assert f.params[..0] == [] && Positions(1)[..0] == [] && Positions(1)[0] == 0;
    assert Entry(f) == [map["x" := 0]];
    assert Linear(f, 1) == Entry(f);
    assert Linear(f, 2) == Entry(f);
    assert Linear(f, 3) == Entry(f) + [map[]];
    assert BindersBefore(f, 1) == 0;
    assert BindersBefore(f, 2) == 0;
    assert BindersBefore(f, 3) == 0;
    assert Linear(f, 4) == Bind(Entry(f) + [map[]], "x", 1);
  }

  lemma OpenScopeDisagrees(at: map<int, Chain<nat>>)
    ensures !Agree(OPEN_SCOPE, at)
  {
    hide Linear, Entry;
    OpenScopeFacts();
  }

  lemma OpenScopeStraight()
    ensures forall i :: 0 <= i < 7 ==> Straight(OPEN_SCOPE_CODES[i])
  {
  }

  lemma BackJump(host: W.Host, fuel: nat, j: nat, w: W.State, w': W.State)
    requires fuel > 0 && j < 7 && W.Read(w, W.Pc) == j && w'.stack == w.stack
    requires W.ExecuteAll(host, fuel, OPEN_SCOPE_CODES[j], w) == W.Jump(W.Dispatch, w')
    ensures W.Execute(host, fuel, DispatchLoop(OPEN_SCOPE_CODES), w)
         == W.Execute(host, fuel - 1, DispatchLoop(OPEN_SCOPE_CODES), w')
  {
    hide W.ExecuteAll, Inside, Straight;
    OpenScopeStraight();
    InsideLands(host, fuel, OPEN_SCOPE_CODES, 7, j, w);
    assert w'.(stack := w.stack) == w';
  }

  lemma SetThenJump(host: W.Host, fuel: nat, i: W.Instr, next: int, w: W.State)
    requires i.Set?
    ensures W.ExecuteAll(host, fuel, [i] + JumpCode(next), w)
         == W.Jump(W.Dispatch, W.Write(W.Write(w, i.l, W.Eval(i.e, w)), W.Pc, next))
  {
    hide W.ExecuteAll;
    ExecuteOne(host, fuel, i, JumpCode(next), w);
    ExecuteJump(host, fuel, next, W.Write(w, i.l, W.Eval(i.e, w)));
  }

  lemma OpenScopeBranch(host: W.Host, w: W.State, fuel: nat)
    requires W.Read(w, W.Reg(0)) == VAL_NIL
    ensures W.ExecuteAll(host, fuel, OPEN_SCOPE_CODES[1], w) == W.Jump(W.Dispatch, W.Write(w, W.Pc, 5))
  {
    hide W.ExecuteAll;
    ExecuteSingle(host, fuel, W.If(W.IsTag(W.Get(W.Reg(0)), TAG_NIL), JumpCode(5)), w);
    assert W.Eval(W.IsTag(W.Get(W.Reg(0)), TAG_NIL), w) == 1;
    ExecuteJump(host, fuel, 5, w);
  }

  lemma OpenScopeReturn(host: W.Host, w: W.State, fuel: nat)
    requires W.Read(w, W.Pc) == 6
    ensures W.Execute(host, fuel, DispatchLoop(OPEN_SCOPE_CODES), w) == W.Returned(W.Read(w, W.Reg(1)), w.events, w.memory, w.sp)
  {
    hide W.ExecuteAll, Inside, Straight;
    OpenScopeStraight();
    ExecuteSingle(host, fuel, W.Return(W.Get(W.Reg(1))), w);
    InsideLands(host, fuel, OPEN_SCOPE_CODES, 7, 6, w);
  }

  lemma OpenScopeDispatch(host: W.Host, w: W.State, fuel: nat)
    requires fuel >= 3 && W.Read(w, W.Pc) == 0 && W.Read(w, W.Slot(1)) == 0
    ensures W.Execute(host, fuel, DispatchLoop(OPEN_SCOPE_CODES), w) == W.Returned(0, w.events, w.memory, w.sp)
  {
    hide W.ExecuteAll, W.Execute;
    var w1 := W.Write(W.Write(w, W.Reg(0), VAL_NIL), W.Pc, 1);
    var w2 := W.Write(w1, W.Pc, 5);
    var w3 := W.Write(W.Write(w2, W.Reg(1), 0), W.Pc, 6);
    SetThenJump(host, fuel, W.Set(W.Reg(0), W.Const(VAL_NIL)), 1, w);
    BackJump(host, fuel, 0, w, w1);
    OpenScopeBranch(host, w1, fuel - 1);
    BackJump(host, fuel - 1, 1, w1, w2);
    SetThenJump(host, fuel - 2, W.Set(W.Reg(1), W.Get(W.Slot(1))), 6, w2);
    BackJump(host, fuel - 2, 5, w2, w3);
    OpenScopeReturn(host, w3, fuel - 3);
  }
}

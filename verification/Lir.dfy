/**
 Compat LIR and its machine: the instructions qy/backend/wasm/emit.py accepts,
 executed over ABI words with a dynamic chain of scopes, as the register VMs do
 (qy/vm/instance/machine.py, qy/backend/golang/pkg/vm/machine.go).
 */
module Lir {
  import opened Wrappers
  import opened ByteOrder
  import opened ConstantPool
  import Wasm

  type Name = string
  type Event = Wasm.Event

  const NUM_BUILTINS := 18

  datatype Inst =
    | Jump(target: int)
    | JumpIfFalse(cond: nat, target: int)      // also BRANCH_NIL, whose last operand is the target
    | EnterScope | ExitScope
    | StoreLocal(name: Name, src: nat) | DefineOnce(name: Name, src: nat)
    | Move(dst: nat, src: nat) | LoadNil(dst: nat) | LoadT(dst: nat)
    | LoadHost(dst: nat, value: Constant)
    | LoadEnv(dst: nat, name: Name)
    | MakeFunction(dst: nat, function_: nat)
    | AppendResult(src: nat)
    | CallBuiltin(dst: nat, id: nat, args: seq<nat>)
    | Call(dst: nat, callee: nat, args: seq<nat>)
    | TailCall(callee: nat, args: seq<nat>)
    | Return(src: nat)
    | Other(opcode: string)

  datatype Function = Function(
    name: Name, params: seq<Name>, registerCount: nat, insts: seq<Inst>, variadic: bool)

  predicate Binds(i: Inst) { i.StoreLocal? || i.DefineOnce? }

  predicate IsControl(i: Inst) {
    i.Jump? || i.JumpIfFalse? || i.Return? || i.TailCall?
  }

  /** The instruction indices that may follow instruction `k`. */
  function Successors(f: Function, k: nat): seq<int>
    requires k < |f.insts|
  {
    match f.insts[k]
    case Jump(t) => [t]
    case JumpIfFalse(_, t) => [k + 1, t]
    case Return(_) => []
    case TailCall(_, _) => []
    case _ => [k + 1]
  }

  // --- scopes --------------------------------------------------------------------

  /** A chain of scopes, outermost first; the function's own scope is always there. */
  type Chain<T> = s: seq<map<Name, T>> | |s| > 0 witness [map[]]

  function Bind<T>(chain: Chain<T>, name: Name, value: T): Chain<T> {
    chain[|chain| - 1 := chain[|chain| - 1][name := value]]
  }

  /** Leaving the outermost scope is a no-op. */
  function Leave<T>(chain: Chain<T>): Chain<T> {
    if |chain| > 1 then chain[..|chain| - 1] else chain
  }

  function Lookup<T>(chain: seq<map<Name, T>>, name: Name): Option<T> {
    if chain == [] then None
    else if name in chain[|chain| - 1] then Some(chain[|chain| - 1][name])
    else Lookup(chain[..|chain| - 1], name)
  }

  function BindParams<T>(params: seq<Name>, values: seq<T>): map<Name, T>
    requires |params| == |values|
  {
    if params == [] then map[]
    else
      var n := |params| - 1;
      BindParams(params[..n], values[..n])[params[n] := values[n]]
  }

  // --- the machine ------------------------------------------------------------------

  datatype State = State(pc: int, regs: map<nat, Word>, scopes: Chain<Word>, events: seq<Event>)

  /** `Stuck` is every run-time error: an unset register, an unbound symbol, a repeated
      DEFINE_ONCE, a callee that is not callable, running off the end. */
  datatype Outcome = Running(st: State) | Done(w: Word, events: seq<Event>) | Stuck

  /** What the machine takes as given: the words of its constants, its outer environment,
      and whatever it calls. */
  datatype World = World(constants: map<int, Word>, outer: Name -> Option<Word>, host: Wasm.Host)

  predicate IsNil(w: Word) { w % 8 == TAG_NIL }

  predicate IsCallable(w: Word) { w % 8 == TAG_CALLABLE && 0 <= w / 8 < Wasm.TWO_32 }

  predicate Readable(regs: map<nat, Word>, rs: seq<nat>) { forall r :: r in rs ==> r in regs }

  function ReadAll(regs: map<nat, Word>, rs: seq<nat>): (args: seq<Word>)
    requires Readable(regs, rs)
    ensures |args| == |rs|
  {
    seq(|rs|, i requires 0 <= i < |rs| => regs[rs[i]])
  }

  function Set(st: State, r: nat, w: Word): Outcome {
    Running(st.(pc := st.pc + 1, regs := st.regs[r := w]))
  }

  function Apply(world: World, st: State, index: int, args: seq<Word>): (Word, seq<Event>) {
    (world.host.result(st.events, index, args), st.events + [Wasm.Called(index, args)])
  }

  function Step(f: Function, world: World, st: State): Outcome
  {
    if !(0 <= st.pc < |f.insts|) then Stuck
    else
      var next := st.(pc := st.pc + 1);
      match f.insts[st.pc]
      case Jump(t) => Running(st.(pc := t))
      case JumpIfFalse(c, t) =>
        if c !in st.regs then Stuck
        else if IsNil(st.regs[c]) then Running(st.(pc := t)) else Running(next)
      case EnterScope => Running(next.(scopes := st.scopes + [map[]]))
      case ExitScope => Running(next.(scopes := Leave(st.scopes)))
      case StoreLocal(name, src) =>
        if src !in st.regs then Stuck
        else Running(next.(scopes := Bind(st.scopes, name, st.regs[src])))
      case DefineOnce(name, src) =>
        if src !in st.regs || name in st.scopes[|st.scopes| - 1] then Stuck
        else Running(next.(scopes := Bind(st.scopes, name, st.regs[src])))
      case Move(dst, src) => if src !in st.regs then Stuck else Set(st, dst, st.regs[src])
      case LoadNil(dst) => Set(st, dst, VAL_NIL)
      case LoadT(dst) => Set(st, dst, VAL_T)
      case LoadHost(dst, _) =>
        if st.pc !in world.constants then Stuck else Set(st, dst, world.constants[st.pc])
      case LoadEnv(dst, name) =>
        (match Lookup(st.scopes, name)
         case Some(w) => Set(st, dst, w)
         case None =>
           match world.outer(name)
           case Some(w) => Set(st, dst, w)
           case None => Stuck)
      case MakeFunction(dst, g) => Set(st, dst, Tagged(NUM_BUILTINS + g, TAG_CALLABLE))
      case AppendResult(src) =>
        if src !in st.regs then Stuck
        else Running(next.(events := st.events + [Wasm.Appended(st.regs[src])]))
      case CallBuiltin(dst, id, args) =>
        if !Readable(st.regs, args) then Stuck
        else
          var (w, events) := Apply(world, st, id, ReadAll(st.regs, args));
          Set(st.(events := events), dst, w)
      case Call(dst, callee, args) =>
        if !Readable(st.regs, args) || callee !in st.regs || !IsCallable(st.regs[callee]) then Stuck
        else
          var (w, events) := Apply(world, st, st.regs[callee] / 8, ReadAll(st.regs, args));
          Set(st.(events := events), dst, w)
      case TailCall(callee, args) =>
        if !Readable(st.regs, args) || callee !in st.regs || !IsCallable(st.regs[callee]) then Stuck
        else
          var (w, events) := Apply(world, st, st.regs[callee] / 8, ReadAll(st.regs, args));
          Done(w, events)
      case Return(src) => if src !in st.regs then Stuck else Done(st.regs[src], st.events)
      case Other(_) => Stuck
  }

  /** At most `n` steps; a finished run stays finished. */
  function Run(f: Function, world: World, st: State, n: nat): Outcome
    decreases n
  {
    if n == 0 then Running(st)
    else
      match Step(f, world, st)
      case Running(st') => Run(f, world, st', n - 1)
      case o => o
  }

  function Start(f: Function, args: seq<Word>): State
    requires |args| == |f.params|
  {
    State(0, map[], [BindParams(f.params, args)], [])
  }

  lemma {:induction false} RunSplit(f: Function, world: World, st: State, m: nat, n: nat)
    ensures Run(f, world, st, m + n) ==
            match Run(f, world, st, m)
            case Running(st') => Run(f, world, st', n)
            case o => o
    decreases m
  {
    if m > 0 {
      match Step(f, world, st)
      case Running(st') =>
        RunSplit(f, world, st', m - 1, n);
      case _ =>
    }
  }
}

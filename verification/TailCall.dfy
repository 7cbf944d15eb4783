/**
 qy/passes/control/tailcall.py: a block that ends in CALL d followed by RETURN d
 becomes one that ends in TAIL_CALL. Meaning is given by a machine with an explicit
 stack of suspended frames; operations, branches and builtins are uninterpreted.
 */
module TailCall {
  import opened Wrappers

  type Reg = nat
  type Val = int
  type File = Reg -> Val

  datatype Inst =
    | Call(dest: Reg, callee: Reg, args: seq<Reg>)
    | Op(op: int, dst: Option<Reg>, uses: seq<Reg>)

  datatype Term =
    | Return(value: Reg)
    | TailCall(callee: Reg, args: seq<Reg>)
    | Branch(op: int, uses: seq<Reg>)

  datatype Block = Block(id: int, insts: seq<Inst>, term: Term)
  type Function = seq<Block>
  type Program = seq<Function>

  // --- the pass -----------------------------------------------------------------------------

  /** The last instruction is a CALL whose result the block returns. */
  predicate Convertible(b: Block) {
    && b.term.Return? && b.insts != []
    && b.insts[|b.insts| - 1].Call?
    && b.insts[|b.insts| - 1].dest == b.term.value
  }

  function Convert(b: Block): Block {
    if Convertible(b) then
      var call := b.insts[|b.insts| - 1];
      Block(b.id, b.insts[..|b.insts| - 1], TailCall(call.callee, call.args))
    else b
  }

  function ConvertAll(f: Function): (g: Function)
    ensures |g| == |f| && forall i :: 0 <= i < |f| ==> g[i] == Convert(f[i])
  {
    seq(|f|, i requires 0 <= i < |f| => Convert(f[i]))
  }

  function Transform(p: Program): (q: Program)
    ensures |q| == |p| && forall i :: 0 <= i < |p| ==> q[i] == ConvertAll(p[i])
  {
    seq(|p|, i requires 0 <= i < |p| => ConvertAll(p[i]))
  }

  /** The block calls in its last instruction, behind `front`, and returns what the call gives. */
  predicate EndsInCall(b: Block, front: seq<Inst>, dest: Reg, callee: Reg, args: seq<Reg>) {
    b.insts == front + [Call(dest, callee, args)] && b.term == Return(dest)
  }

  ghost predicate CallsLast(b: Block) {
    exists front, dest, callee, args :: EndsInCall(b, front, dest, callee, args)
  }

  /** `c` is `b` with a call in its tail made a tail call; there is none left. */
  ghost predicate Converted(b: Block, c: Block) {
    && c.id == b.id && !CallsLast(c)
    && (forall front, dest, callee, args :: EndsInCall(b, front, dest, callee, args) ==>
          c.insts == front && c.term == TailCall(callee, args))
    && (!CallsLast(b) ==> c == b)
  }

  /** Block by block, and nothing else. */
  ghost predicate ConvertedAll(f: Function, g: Function) {
    |g| == |f| && forall i :: 0 <= i < |f| ==> Converted(f[i], g[i])
  }

  lemma ConvertIsConverted(b: Block)
    ensures Converted(b, Convert(b))
    ensures Convertible(b) <==> CallsLast(b)
  {
    var c := Convert(b);
    if Convertible(b) {
      var call := b.insts[|b.insts| - 1];
      assert b.insts == b.insts[..|b.insts| - 1] + [call];
      assert EndsInCall(b, b.insts[..|b.insts| - 1], call.dest, call.callee, call.args);
    }
    forall front, dest, callee, args | EndsInCall(b, front, dest, callee, args)
      ensures Convertible(b) && c.insts == front && c.term == TailCall(callee, args)
    {
      assert b.insts[|b.insts| - 1] == Call(dest, callee, args);
      assert b.insts[..|b.insts| - 1] == front;
    }
  }

  /** `_optimize_function`; an unchanged function is returned as it was. */
  method OptimizeFunction(f: Function) returns (g: Function)
    ensures g == ConvertAll(f) && ConvertedAll(f, g)
  {
    var blocks: seq<Block> := [];
    var changed := false;
    for i := 0 to |f|
      invariant |blocks| == i
      invariant forall j :: 0 <= j < i ==> blocks[j] == Convert(f[j])
      invariant !changed ==> blocks == f[..i]
    {
      var block := f[i];
      if block.term.Return? && block.insts != [] && block.insts[|block.insts| - 1].Call? {
        var call := block.insts[|block.insts| - 1];
        if call.dest == block.term.value {
          blocks := blocks + [Block(block.id, block.insts[..|block.insts| - 1], TailCall(call.callee, call.args))];
          changed := true;
          continue;
        }
      }
      blocks := blocks + [block];
    }
    forall i | 0 <= i < |f| ensures Converted(f[i], Convert(f[i])) {
      ConvertIsConverted(f[i]);
    }
    if !changed {
      return f;
    }
    return blocks;
  }

  /** `run`: every function of the program. */
  method RunPass(p: Program) returns (q: Program)
    ensures q == Transform(p)
    ensures |q| == |p| && forall i :: 0 <= i < |p| ==> ConvertedAll(p[i], q[i])
  {
    hide ConvertedAll;
    q := [];
    for i := 0 to |p|
      invariant |q| == i && forall j :: 0 <= j < i ==> q[j] == ConvertAll(p[j]) && ConvertedAll(p[j], q[j])
    {
      var g := OptimizeFunction(p[i]);
      q := q + [g];
    }
  }

  // --- the machine ------------------------------------------------------------------------------

  datatype Event = Called(callee: Val, args: seq<Val>) | Did(op: int, args: seq<Val>)

  datatype Callee = User(f: nat) | Builtin | NotCallable

  /** Everything the pass knows nothing about. */
  datatype Machine = Machine(
    op: (int, seq<Val>, seq<Event>) -> Val,
    next: (int, seq<Val>, seq<Event>) -> nat,      // the block a BRANCH goes to
    classify: Val -> Callee,
    builtin: (Val, seq<Val>, seq<Event>) -> Val,
    enter: (nat, seq<Val>) -> File)                // the registers of a fresh frame

  datatype Frame = Frame(f: nat, b: nat, i: nat, regs: File)

  /** A frame that waits for a result, and the register the result goes to. */
  datatype Suspended = Suspended(frame: Frame, dest: Reg)

  datatype Config =
    | Running(top: Frame, stack: seq<Suspended>, events: seq<Event>)
    | Halted(v: Val, events: seq<Event>)
    | Stuck(events: seq<Event>)

  function Read(regs: File, rs: seq<Reg>): seq<Val> { seq(|rs|, i requires 0 <= i < |rs| => regs(rs[i])) }

  function Put(regs: File, r: Reg, v: Val): File { (x: Reg) => if x == r then v else regs(x) }

  function Resume(s: Suspended, v: Val): Frame { s.frame.(regs := Put(s.frame.regs, s.dest, v)) }

  /** Returning `v` to the innermost waiting frame. */
  function Deliver(v: Val, stack: seq<Suspended>, events: seq<Event>): Config {
    if stack == [] then Halted(v, events)
    else Running(Resume(stack[|stack| - 1], v), stack[..|stack| - 1], events)
  }

  predicate InCode(p: Program, t: Frame) {
    t.f < |p| && t.b < |p[t.f]| && t.i <= |p[t.f][t.b].insts|
  }

  function BlockOf(p: Program, t: Frame): Block
    requires InCode(p, t)
  {
    p[t.f][t.b]
  }

  function Step(p: Program, m: Machine, c: Config): Config {
    if !c.Running? then c
    else if !InCode(p, c.top) then Stuck(c.events)
    else
      var t, b := c.top, BlockOf(p, c.top);
      if t.i < |b.insts| then
        match b.insts[t.i]
        case Op(op, dst, uses) =>
          var args := Read(t.regs, uses);
          var v := m.op(op, args, c.events);
          var regs := (match dst case Some(r) => Put(t.regs, r, v) case None => t.regs);
          Running(Frame(t.f, t.b, t.i + 1, regs), c.stack, c.events + [Did(op, args)])
        case Call(dest, callee, args) =>
          Invoke(m, t.regs(callee), Read(t.regs, args), c.events,
                 c.stack + [Suspended(Frame(t.f, t.b, t.i + 1, t.regs), dest)])
      else
        match b.term
        case Return(r) => Deliver(t.regs(r), c.stack, c.events)
        case TailCall(callee, args) => Invoke(m, t.regs(callee), Read(t.regs, args), c.events, c.stack)
        case Branch(op, uses) =>
          var args := Read(t.regs, uses);
          Running(Frame(t.f, m.next(op, args, c.events), 0, t.regs), c.stack, c.events + [Did(op, args)])
  }

  /** Calling with `stack` waiting for the result; a builtin answers at once. */
  function Invoke(m: Machine, callee: Val, args: seq<Val>, events: seq<Event>, stack: seq<Suspended>): Config {
    var after := events + [Called(callee, args)];
    match m.classify(callee)
    case User(g) => Running(Frame(g, 0, 0, m.enter(g, args)), stack, after)
    case Builtin => Deliver(m.builtin(callee, args, events), stack, after)
    case NotCallable => Stuck(after)
  }

  function Run(p: Program, m: Machine, c: Config, n: nat): Config
    decreases n
  {
    if n == 0 then c else Run(p, m, Step(p, m, c), n - 1)
  }

  // --- eliding frames that only return --------------------------------------------------------------

  /** The frame stands before the RETURN of a converted block: all it does is pass its value on. */
  predicate OnlyReturns(p: Program, t: Frame) {
    InCode(p, t) && Convertible(BlockOf(p, t)) && t.i == |BlockOf(p, t).insts|
  }

  function Elide(p: Program, stack: seq<Suspended>): (s: seq<Suspended>)
    ensures |s| <= |stack|
  {
    if stack == [] then []
    else
      var n := |stack| - 1;
      if OnlyReturns(p, stack[n].frame) then Elide(p, stack[..n])
      else Elide(p, stack[..n]) + [stack[n]]
  }

  /** Let a frame that only returns do so, and the frames below it that only return as well. */
  function Settle(p: Program, c: Config): Config
    decreases if c.Running? then |c.stack| + 1 else 0
  {
    if c.Running? && OnlyReturns(p, c.top) then
      Settle(p, Deliver(c.top.regs(BlockOf(p, c.top).term.value), c.stack, c.events))
    else c
  }

  /** The configuration of the converted program that matches `c`. */
  function Match(p: Program, c: Config): Config {
    var s := Settle(p, c);
    if s.Running? then s.(stack := Elide(p, s.stack)) else s
  }

  /** Every waiting frame stands just after the CALL whose register it waits for. */
  ghost predicate Valid(p: Program, c: Config) {
    c.Running? ==> forall k :: 0 <= k < |c.stack| ==> WaitsAtCall(p, c.stack[k])
  }

  predicate WaitsAtCall(p: Program, s: Suspended) {
    && InCode(p, s.frame) && 0 < s.frame.i
    && var call := BlockOf(p, s.frame).insts[s.frame.i - 1];
       call.Call? && call.dest == s.dest
  }

  lemma StepKeepsValid(p: Program, m: Machine, c: Config)
    requires Valid(p, c)
    ensures Valid(p, Step(p, m, c))
  {
    if c.Running? && InCode(p, c.top) && c.top.i < |BlockOf(p, c.top).insts| {
      var i := BlockOf(p, c.top).insts[c.top.i];
      if i.Call? {
        assert WaitsAtCall(p, Suspended(Frame(c.top.f, c.top.b, c.top.i + 1, c.top.regs), i.dest));
      }
    }
  }

  /** Delivering a value and eliding frames commute: frames that only return pass it through. */
  lemma {:induction false} DeliverMatches(p: Program, v: Val, stack: seq<Suspended>, events: seq<Event>)
    requires forall k :: 0 <= k < |stack| ==> WaitsAtCall(p, stack[k])
    ensures Match(p, Deliver(v, stack, events)) == Deliver(v, Elide(p, stack), events)
    decreases |stack|
  {
    if stack != [] {
      var n := |stack| - 1;
      var s := stack[n];
      if OnlyReturns(p, s.frame) {
        assert WaitsAtCall(p, s);
        assert Resume(s, v).regs(BlockOf(p, s.frame).term.value) == v;
        DeliverMatches(p, v, stack[..n], events);
      }
    }
  }

  lemma ElidePush(p: Program, stack: seq<Suspended>, s: Suspended)
    ensures Elide(p, stack + [s]) == if OnlyReturns(p, s.frame) then Elide(p, stack) else Elide(p, stack) + [s]
  {
    assert (stack + [s])[..|stack|] == stack;
  }

  /** A call made with a matching stack leads to matching configurations. */
  lemma InvokeMatches(p: Program, m: Machine, callee: Val, args: seq<Val>, events: seq<Event>, stack: seq<Suspended>)
    requires forall k :: 0 <= k < |stack| ==> WaitsAtCall(p, stack[k])
    ensures Match(p, Invoke(m, callee, args, events, stack)) == Invoke(m, callee, args, events, Elide(p, stack))
  {
    var after := events + [Called(callee, args)];
    match m.classify(callee)
    case Builtin => DeliverMatches(p, m.builtin(callee, args, events), stack, after);
    case _ =>
  }

  lemma CodeStays(p: Program, t: Frame)
    ensures InCode(Transform(p), t) <==> InCode(p, t) && t.i <= |Convert(BlockOf(p, t)).insts|
    ensures InCode(Transform(p), t) ==> BlockOf(Transform(p), t) == Convert(BlockOf(p, t))
  {
  }

  /** A frame that does more than return has the same code in front of it, or a tail call. */
  lemma WorkStays(p: Program, t: Frame)
    requires InCode(p, t) && !OnlyReturns(p, t)
    ensures InCode(Transform(p), t)
    ensures var b, c := BlockOf(p, t), BlockOf(Transform(p), t);
            && t.i <= |c.insts|
            && (t.i < |c.insts| ==> t.i < |b.insts| && c.insts[t.i] == b.insts[t.i])
            && (t.i == |c.insts| && t.i == |b.insts| ==> c.term == b.term)
            && (t.i == |c.insts| && t.i < |b.insts| ==>
                  var call := b.insts[t.i];
                  call.Call? && c.term == TailCall(call.callee, call.args) && t.i + 1 == |b.insts| && Convertible(b))
            && (t.i < |c.insts| ==> !(Convertible(b) && t.i + 1 == |b.insts|))
  {
    CodeStays(p, t);
  }

  /** The frame that a call leaves waiting. */
  function WaitAt(p: Program, t: Frame): Suspended
    requires InCode(p, t) && t.i < |BlockOf(p, t).insts| && BlockOf(p, t).insts[t.i].Call?
  {
    Suspended(Frame(t.f, t.b, t.i + 1, t.regs), BlockOf(p, t).insts[t.i].dest)
  }

  lemma StepAtCall(p: Program, m: Machine, c: Config)
    requires c.Running? && InCode(p, c.top)
    requires c.top.i < |BlockOf(p, c.top).insts| && BlockOf(p, c.top).insts[c.top.i].Call?
    ensures var t, call := c.top, BlockOf(p, c.top).insts[c.top.i];
            Step(p, m, c) == Invoke(m, t.regs(call.callee), Read(t.regs, call.args), c.events, c.stack + [WaitAt(p, t)])
  {
    hide Invoke, Read;
  }

  lemma StepAtTailCall(p: Program, m: Machine, c: Config)
    requires c.Running? && InCode(p, c.top)
    requires c.top.i == |BlockOf(p, c.top).insts| && BlockOf(p, c.top).term.TailCall?
    ensures var t, term := c.top, BlockOf(p, c.top).term;
            Step(p, m, c) == Invoke(m, t.regs(term.callee), Read(t.regs, term.args), c.events, c.stack)
  {
    hide Invoke, Read;
  }

  lemma CallWaits(p: Program, c: Config)
    requires Valid(p, c) && c.Running? && InCode(p, c.top)
    requires c.top.i < |BlockOf(p, c.top).insts| && BlockOf(p, c.top).insts[c.top.i].Call?
    ensures var wait, b := WaitAt(p, c.top), BlockOf(p, c.top);
            && (forall k :: 0 <= k < |c.stack + [wait]| ==> WaitsAtCall(p, (c.stack + [wait])[k]))
            && (OnlyReturns(p, wait.frame) <==> Convertible(b) && c.top.i + 1 == |b.insts|)
  {
    assert WaitsAtCall(p, WaitAt(p, c.top));
  }

  lemma MatchRuns(p: Program, c: Config)
    requires c.Running? && !OnlyReturns(p, c.top)
    ensures Match(p, c) == c.(stack := Elide(p, c.stack))
  {
  }

  lemma CallStepMatches(p: Program, m: Machine, c: Config)
    requires Valid(p, c) && c.Running? && InCode(p, c.top) && !OnlyReturns(p, c.top)
    requires c.top.i < |BlockOf(p, c.top).insts| && BlockOf(p, c.top).insts[c.top.i].Call?
    ensures Match(p, Step(p, m, c)) == Step(Transform(p), m, Match(p, c))
  {
    hide *;
    var t, call := c.top, BlockOf(p, c.top).insts[c.top.i];
    var wait := WaitAt(p, t);
    WorkStays(p, t);
    CallWaits(p, c);
    ElidePush(p, c.stack, wait);
    InvokeMatches(p, m, t.regs(call.callee), Read(t.regs, call.args), c.events, c.stack + [wait]);
    StepAtCall(p, m, c);
    var d := c.(stack := Elide(p, c.stack));
    MatchRuns(p, c);
    if t.i < |BlockOf(Transform(p), t).insts| {
      SameWait(p, t);
      StepAtCall(Transform(p), m, d);
    } else {
      StepAtTailCall(Transform(p), m, d);
    }
  }

  lemma SameWait(p: Program, t: Frame)
    requires InCode(p, t) && t.i < |BlockOf(p, t).insts| && BlockOf(p, t).insts[t.i].Call?
    requires InCode(Transform(p), t) && t.i < |BlockOf(Transform(p), t).insts|
    requires BlockOf(Transform(p), t).insts[t.i] == BlockOf(p, t).insts[t.i]
    ensures WaitAt(Transform(p), t) == WaitAt(p, t)
  {
    hide Transform, BlockOf, InCode;
  }

  lemma TermStepMatches(p: Program, m: Machine, c: Config)
    requires Valid(p, c) && c.Running? && InCode(p, c.top) && !OnlyReturns(p, c.top)
    requires c.top.i == |BlockOf(p, c.top).insts|
    ensures Match(p, Step(p, m, c)) == Step(Transform(p), m, Match(p, c))
  {
    WorkStays(p, c.top);
    var t := c.top;
    match BlockOf(p, t).term {
      case Return(r) => DeliverMatches(p, t.regs(r), c.stack, c.events);
      case TailCall(callee, args) => InvokeMatches(p, m, t.regs(callee), Read(t.regs, args), c.events, c.stack);
      case Branch(_, _) =>
        assert !OnlyReturns(p, Step(p, m, c).top) by { FreshFrameWorks(p, m, c); }
    }
    hide Transform, Invoke, Deliver, Elide, Convertible;
  }

  /** A frame at the start of a block has a call before it if the block ends in one. */
  lemma FreshFrameWorks(p: Program, m: Machine, c: Config)
    requires c.Running? && Step(p, m, c).Running? && Step(p, m, c).top.i == 0
    ensures !OnlyReturns(p, Step(p, m, c).top)
  {
    hide Step;
  }

  lemma OpStepMatches(p: Program, m: Machine, c: Config)
    requires c.Running? && InCode(p, c.top) && !OnlyReturns(p, c.top)
    requires c.top.i < |BlockOf(p, c.top).insts| && BlockOf(p, c.top).insts[c.top.i].Op?
    ensures Match(p, Step(p, m, c)) == Step(Transform(p), m, Match(p, c))
  {
    WorkStays(p, c.top);
    assert !OnlyReturns(p, Step(p, m, c).top);
    hide Transform, Elide, Convertible, Read;
  }

  /** One step of the original is one step of the converted program, or none at all. */
  lemma StepMatches(p: Program, m: Machine, c: Config)
    requires Valid(p, c)
    ensures Match(p, Step(p, m, c)) ==
            if c.Running? && OnlyReturns(p, c.top) then Match(p, c)
            else Step(Transform(p), m, Match(p, c))
  {
    if c.Running? && !OnlyReturns(p, c.top) {
      if !InCode(p, c.top) {
        CodeStays(p, c.top);
      } else if c.top.i == |BlockOf(p, c.top).insts| {
        TermStepMatches(p, m, c);
      } else if BlockOf(p, c.top).insts[c.top.i].Call? {
        CallStepMatches(p, m, c);
      } else {
        OpStepMatches(p, m, c);
      }
    }
  }

  // --- whole runs ------------------------------------------------------------------------------------

  /** The matching configuration never has a taller stack. */
  lemma {:induction false} StackNeverTaller(p: Program, c: Config)
    requires c.Running? && Match(p, c).Running?
    ensures |Match(p, c).stack| <= |c.stack|
    decreases if c.Running? then |c.stack| + 1 else 0
  {
    if OnlyReturns(p, c.top) {
      var c' := Deliver(c.top.regs(BlockOf(p, c.top).term.value), c.stack, c.events);
      assert Settle(p, c) == Settle(p, c');
      StackNeverTaller(p, c');
    }
  }

  /** Every run of the original is matched, in at most as many steps. */
  lemma {:induction false} ConvertedFollows(p: Program, m: Machine, c: Config, n: nat) returns (k: nat)
    requires Valid(p, c)
    ensures k <= n && Run(Transform(p), m, Match(p, c), k) == Match(p, Run(p, m, c, n))
    decreases n
  {
    if n == 0 {
      k := 0;
    } else {
      StepKeepsValid(p, m, c);
      StepMatches(p, m, c);
      k := ConvertedFollows(p, m, Step(p, m, c), n - 1);
      if !(c.Running? && OnlyReturns(p, c.top)) {
        k := k + 1;
      }
    }
  }

  /** Settling takes at most one step for each waiting frame. */
  lemma {:induction false} SettleRuns(p: Program, m: Machine, c: Config) returns (n: nat)
    requires Valid(p, c)
    ensures Run(p, m, c, n) == Settle(p, c) && Valid(p, Settle(p, c))
    decreases if c.Running? then |c.stack| + 1 else 0
  {
    if c.Running? && OnlyReturns(p, c.top) {
      StepKeepsValid(p, m, c);
      n := SettleRuns(p, m, Step(p, m, c));
      n := n + 1;
    } else {
      n := 0;
    }
  }

  lemma {:induction false} RunSplit(p: Program, m: Machine, c: Config, a: nat, b: nat)
    ensures Run(p, m, c, a + b) == Run(p, m, Run(p, m, c, a), b)
    decreases a
  {
    if a > 0 {
      RunSplit(p, m, Step(p, m, c), a - 1, b);
    }
  }

  lemma SettleIdempotent(p: Program, c: Config)
    ensures Settle(p, Settle(p, c)) == Settle(p, c)
    decreases if c.Running? then |c.stack| + 1 else 0
  {
    if c.Running? && OnlyReturns(p, c.top) {
      SettleIdempotent(p, Deliver(c.top.regs(BlockOf(p, c.top).term.value), c.stack, c.events));
    }
  }

  lemma {:induction false} SettledIsQuiet(p: Program, c: Config)
    ensures var s := Settle(p, c); !(s.Running? && OnlyReturns(p, s.top))
    decreases if c.Running? then |c.stack| + 1 else 0
  {
    if c.Running? && OnlyReturns(p, c.top) {
      SettledIsQuiet(p, Deliver(c.top.regs(BlockOf(p, c.top).term.value), c.stack, c.events));
    }
  }

  /** Every run of the converted program matches a run of the original. */
  lemma {:induction false} OriginalFollows(p: Program, m: Machine, c: Config, k: nat) returns (n: nat)
    requires Valid(p, c)
    ensures Match(p, Run(p, m, c, n)) == Run(Transform(p), m, Match(p, c), k)
    decreases k
  {
    var settled := SettleRuns(p, m, c);
    if k == 0 {
      n := 0;
    } else {
      var s := Settle(p, c);
      SettleIdempotent(p, c);
      SettledIsQuiet(p, c);
      StepKeepsValid(p, m, s);
      StepMatches(p, m, s);
      var rest := OriginalFollows(p, m, Step(p, m, s), k - 1);
      RunSplit(p, m, c, settled, 1 + rest);
      n := settled + (1 + rest);
    }
  }

  function Start(f: nat, regs: File): Config { Running(Frame(f, 0, 0, regs), [], []) }

  /** A program and its converted form return the same value after the same calls and operations. */
  lemma SameResult(p: Program, m: Machine, f: nat, regs: File, v: Val, events: seq<Event>)
    ensures (exists n: nat :: Run(p, m, Start(f, regs), n) == Halted(v, events)) <==>
            (exists k: nat :: Run(Transform(p), m, Start(f, regs), k) == Halted(v, events))
  {
    var c := Start(f, regs);
    assert Match(p, c) == c;
    if n: nat :| Run(p, m, c, n) == Halted(v, events) {
      var k := ConvertedFollows(p, m, c, n);
    }
    if k: nat :| Run(Transform(p), m, c, k) == Halted(v, events) {
      var n := OriginalFollows(p, m, c, k);
      var settled := SettleRuns(p, m, Run(p, m, c, n)) by { RunKeepsValid(p, m, c, n); }
      RunSplit(p, m, c, n, settled);
    }
  }

  lemma {:induction false} RunKeepsValid(p: Program, m: Machine, c: Config, n: nat)
    requires Valid(p, c)
    ensures Valid(p, Run(p, m, c, n))
    decreases n
  {
    if n > 0 {
      StepKeepsValid(p, m, c);
      RunKeepsValid(p, m, Step(p, m, c), n - 1);
    }
  }

  // --- what the conversion is for --------------------------------------------------------------------

  /** The frame waits for a value just to return it. */
  ghost predicate IdleFrame(p: Program, s: Suspended) {
    InCode(p, s.frame) && s.frame.i == |BlockOf(p, s.frame).insts| && BlockOf(p, s.frame).term == Return(s.dest)
  }

  lemma WaitingIsNotIdle(p: Program, s: Suspended)
    requires WaitsAtCall(Transform(p), s)
    ensures !IdleFrame(Transform(p), s)
  {
    var t := s.frame;
    var b, c := p[t.f][t.b], BlockOf(Transform(p), t);
    ConvertIsConverted(b);
    hide Convert, Convertible;
    if t.i == |c.insts| {
      var call := c.insts[t.i - 1];
      assert c.insts == c.insts[..t.i - 1] + [Call(s.dest, call.callee, call.args)];
      assert !EndsInCall(c, c.insts[..t.i - 1], s.dest, call.callee, call.args);
    }
  }

  /** No frame of a converted program ever waits for a value just to return it. */
  lemma NoIdleFrames(p: Program, m: Machine, f: nat, regs: File, n: nat)
    ensures var c := Run(Transform(p), m, Start(f, regs), n);
            c.Running? ==> forall k :: 0 <= k < |c.stack| ==> !IdleFrame(Transform(p), c.stack[k])
  {
    RunKeepsValid(Transform(p), m, Start(f, regs), n);
    var c := Run(Transform(p), m, Start(f, regs), n);
    if c.Running? {
      forall k | 0 <= k < |c.stack| ensures !IdleFrame(Transform(p), c.stack[k]) {
        WaitingIsNotIdle(p, c.stack[k]);
      }
    }
  }
}

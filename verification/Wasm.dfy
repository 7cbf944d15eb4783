/**
 The fragment of WebAssembly that qy/backend/wasm/emit.py produces, with the
 meaning section 4.4.5 (Control Instructions) of the WebAssembly Core
 Specification 1.0 gives to blocks, loops and branches.

 Folded operands are expressions. `i64.and e 7` and `i32.wrap_i64 (i64.shr_u e 3)`
 are the only bit operations and have expression forms of their own. Calls are
 answered by a `Host`, which sees everything that was called before.
 */
module Wasm {
  type Word = int
  type Memory = map<int, Word>

  const MEMORY_BYTES: int := 64 * 65536
  const TWO_64: int := 0x1_0000_0000_0000_0000
  const TWO_32: int := 0x1_0000_0000

  datatype Local = Pc | SpSave | Argv | Reg(n: nat) | Slot(n: nat)

  /** `$dispatch` and `$b0`, `$b1`, … */
  datatype Label = Dispatch | Code(n: nat)

  datatype Expr =
    | Const(w: Word) | Get(l: Local) | GetSp | Add(a: Expr, b: Expr)
    | IsTag(e: Expr, low: Word)         // (i64.eq (i64.and e 7) low)
    | TableIndex(e: Expr)               // (i32.wrap_i64 (i64.shr_u e 3))

  datatype Instr =
    | Set(l: Local, e: Expr)
    | SetPop(l: Local)                  // local.set whose operand is on the stack
    | SetSp(e: Expr)
    | LoadTo(l: Local, offset: nat, address: Expr)
    | Store(offset: nat, address: Expr, e: Expr)
    | CallIndirect(argc: nat, argv: Expr, index: Expr)
    | CallBuiltin(id: int, argc: nat, argv: Expr)
    | AppendResult(e: Expr)
    | Drop | ReturnPop | Return(e: Expr)
    | Br(tag: Label)
    | BrTable(labels: seq<Label>, e: Expr)
    | If(cond: Expr, body: seq<Instr>)
    | Block(tag: Label, body: seq<Instr>)
    | Loop(tag: Label, body: seq<Instr>)
    | Unreachable

  /** What a function does that its environment can see. */
  datatype Event = Called(index: int, args: seq<Word>) | Appended(w: Word)

  /** The rest of the world: results, and the memory and stack pointer callees leave behind. */
  datatype Host = Host(
    result: (seq<Event>, int, seq<Word>) -> Word,
    memory: (seq<Event>, Memory) -> Memory,
    sp: (seq<Event>, int) -> int)

  datatype State = State(locals: map<Local, Word>, sp: int, memory: Memory, stack: seq<Word>, events: seq<Event>)

  datatype Outcome =
    | Next(st: State) | Jump(tag: Label, st: State)
    | Returned(w: Word, events: seq<Event>, memory: Memory, sp: int) | Trap | OutOfFuel

  /** Locals that were never set hold zero. */
  function Read(st: State, l: Local): Word {
    if l in st.locals then st.locals[l] else 0
  }

  function Write(st: State, l: Local, w: Word): State { st.(locals := st.locals[l := w]) }

  function Eval(e: Expr, st: State): Word {
    match e
    case Const(w) => w
    case Get(l) => Read(st, l)
    case GetSp => st.sp
    case Add(a, b) => Eval(a, st) + Eval(b, st)
    case IsTag(a, low) => if Eval(a, st) % 8 == low then 1 else 0
    case TableIndex(a) => Eval(a, st) % TWO_64 / 8 % TWO_32
  }

  predicate InMemory(address: int) { 0 <= address && address + 8 <= MEMORY_BYTES }

  /** `argc` consecutive 64-bit words from `argv`. */
  function Arguments(memory: Memory, argv: int, argc: nat): (args: seq<Word>)
    ensures |args| == argc
  {
    seq(argc, i => if argv + 8 * i in memory then memory[argv + 8 * i] else 0)
  }

  function Invoke(host: Host, st: State, index: int, argv: int, argc: nat): State {
    var args := Arguments(st.memory, argv, argc);
    var events := st.events + [Called(index, args)];
    State(st.locals, host.sp(events, st.sp), host.memory(events, st.memory),
          st.stack + [host.result(st.events, index, args)], events)
  }

  function Execute(host: Host, fuel: nat, i: Instr, st: State): Outcome
    decreases fuel, i
  {
    match i
    case Set(l, e) => Next(Write(st, l, Eval(e, st)))
    case SetPop(l) =>
      if st.stack == [] then Trap
      else Next(Write(st, l, st.stack[|st.stack| - 1]).(stack := st.stack[..|st.stack| - 1]))
    case SetSp(e) => Next(st.(sp := Eval(e, st)))
    case LoadTo(l, offset, address) =>
      var a := Eval(address, st) + offset;
      if !InMemory(a) then Trap
      else Next(Write(st, l, if a in st.memory then st.memory[a] else 0))
    case Store(offset, address, e) =>
      var a := Eval(address, st) + offset;
      if !InMemory(a) then Trap else Next(st.(memory := st.memory[a := Eval(e, st)]))
    case CallIndirect(argc, argv, index) =>
      Next(Invoke(host, st, Eval(index, st), Eval(argv, st), argc))
    case CallBuiltin(id, argc, argv) => Next(Invoke(host, st, id, Eval(argv, st), argc))
    case AppendResult(e) => Next(st.(events := st.events + [Appended(Eval(e, st))]))
    case Drop => if st.stack == [] then Trap else Next(st.(stack := st.stack[..|st.stack| - 1]))
    case ReturnPop =>
      if st.stack == [] then Trap else Returned(st.stack[|st.stack| - 1], st.events, st.memory, st.sp)
    case Return(e) => Returned(Eval(e, st), st.events, st.memory, st.sp)
    case Br(l) => Jump(l, st)
    case BrTable(labels, e) =>
      // The last label is the default target.
      if labels == [] then Trap
      else
        var n := Eval(e, st) % TWO_32;
        Jump(labels[if n < |labels| then n else |labels| - 1], st)
    case If(cond, body) => if Eval(cond, st) != 0 then ExecuteAll(host, fuel, body, st) else Next(st)
    case Block(tag, body) =>
      (match ExecuteAll(host, fuel, body, st)
       case Jump(l, st') => if l == tag then Next(st'.(stack := st.stack)) else Jump(l, st')
       case o => o)
    case Loop(tag, body) =>
      (match ExecuteAll(host, fuel, body, st)
       case Jump(l, st') =>
         if l != tag then Jump(l, st')
         else if fuel == 0 then OutOfFuel
         else Execute(host, fuel - 1, i, st'.(stack := st.stack))
       case o => o)
    case Unreachable => Trap
  }

  function ExecuteAll(host: Host, fuel: nat, body: seq<Instr>, st: State): Outcome
    decreases fuel, body
  {
    if body == [] then Next(st)
    else
      match Execute(host, fuel, body[0], st)
      case Next(st') => ExecuteAll(host, fuel, body[1..], st')
      case o => o
  }

  /** Carrying on with `rest` after an outcome. */
  function Continue(host: Host, fuel: nat, o: Outcome, rest: seq<Instr>): Outcome {
    if o.Next? then ExecuteAll(host, fuel, rest, o.st) else o
  }

  lemma {:induction false} ExecuteConcat(host: Host, fuel: nat, a: seq<Instr>, b: seq<Instr>, st: State)
    ensures ExecuteAll(host, fuel, a + b, st) == Continue(host, fuel, ExecuteAll(host, fuel, a, st), b)
    decreases |a|
  {
    if a == [] {
      assert a + b == b;
    } else {
      assert (a + b)[0] == a[0] && (a + b)[1..] == a[1..] + b;
      match Execute(host, fuel, a[0], st)
      case Next(st') => ExecuteConcat(host, fuel, a[1..], b, st');
      case _ =>
    }
  }

  // --- WAT text: the emitter writes one flat stream of lines -----------------------

  /** One emitted line: a complete instruction, or an opening or closing parenthesis. */
  datatype Line = Plain(i: Instr) | OpenBlock(tag: Label) | OpenLoop(tag: Label) | Close

  function Lines(body: seq<Instr>): seq<Line> {
    if body == [] then [] else LinesOf(body[0]) + Lines(body[1..])
  }

  function LinesOf(i: Instr): seq<Line> {
    match i
    case Block(tag, body) => [OpenBlock(tag)] + Lines(body) + [Close]
    case Loop(tag, body) => [OpenLoop(tag)] + Lines(body) + [Close]
    case _ => [Plain(i)]
  }

  lemma LinesOne(i: Instr)
    ensures Lines([i]) == LinesOf(i)
  {
    assert Lines([i]) == LinesOf(i) + Lines([i][1..]);
  }

  lemma {:induction false} LinesConcat(a: seq<Instr>, b: seq<Instr>)
    ensures Lines(a + b) == Lines(a) + Lines(b)
  {
    if a == [] {
      assert a + b == b;
    } else {
      assert (a + b)[0] == a[0] && (a + b)[1..] == a[1..] + b;
      LinesConcat(a[1..], b);
    }
  }

  function Nested(open: Line, body: seq<Instr>): Instr
    requires open.OpenBlock? || open.OpenLoop?
  {
    if open.OpenBlock? then Block(open.tag, body) else Loop(open.tag, body)
  }

  /** Reading a line stream back: the instructions up to the first unmatched `Close`. */
  function Parse(lines: seq<Line>): (r: (seq<Instr>, seq<Line>))
    ensures |r.1| <= |lines|
    decreases |lines|
  {
    if lines == [] || lines[0].Close? then ([], lines)
    else if lines[0].Plain? then
      var (rest, left) := Parse(lines[1..]);
      ([lines[0].i] + rest, left)
    else
      var (body, after) := Parse(lines[1..]);
      if after == [] then ([], lines)
      else
        var (rest, left) := Parse(after[1..]);
        ([Nested(lines[0], body)] + rest, left)
  }

  lemma ParseOpening(lines: seq<Line>, body: seq<Instr>, after: seq<Line>)
    requires lines != [] && (lines[0].OpenBlock? || lines[0].OpenLoop?)
    requires Parse(lines[1..]) == (body, after) && after != []
    ensures Parse(lines) == ([Nested(lines[0], body)] + Parse(after[1..]).0, Parse(after[1..]).1)
  {
  }

  lemma ParseNested(open: Line, inner: seq<Line>, body: seq<Instr>, tail: seq<Line>)
    requires open.OpenBlock? || open.OpenLoop?
    requires Parse(inner + ([Close] + tail)) == (body, [Close] + tail)
    ensures Parse([open] + inner + [Close] + tail)
            == ([Nested(open, body)] + Parse(tail).0, Parse(tail).1)
  {
    hide Parse;
    var after := [Close] + tail;
    var all := [open] + inner + [Close] + tail;
    assert all[1..] == inner + after;
    assert after[1..] == tail;
    ParseOpening(all, body, after);
  }

  lemma ParsePlain(i: Instr, tail: seq<Line>)
    ensures Parse([Plain(i)] + tail) == ([i] + Parse(tail).0, Parse(tail).1)
  {
    assert ([Plain(i)] + tail)[1..] == tail;
  }

  /** The line stream of a body reads back as that body, so the nesting it denotes is unique. */
  lemma {:induction false} ParseLines(body: seq<Instr>, rest: seq<Line>)
    requires rest == [] || rest[0].Close?
    ensures Parse(Lines(body) + rest) == (body, rest)
    decreases body
  {
    if body == [] {
      assert Lines(body) + rest == rest;
    } else {
      var i, tail := body[0], Lines(body[1..]) + rest;
      ParseLines(body[1..], rest);
      match i {
        case Block(_, inner) =>
          ParseLines(inner, [Close] + tail);
          ParseNested(OpenBlock(i.tag), Lines(inner), inner, tail);
        case Loop(_, inner) =>
          ParseLines(inner, [Close] + tail);
          ParseNested(OpenLoop(i.tag), Lines(inner), inner, tail);
        case _ =>
          ParsePlain(i, tail);
      }
      assert Lines(body) + rest == LinesOf(i) + tail;
      assert [i] + body[1..] == body;
    }
  }
}

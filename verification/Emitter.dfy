/**
 The LIR to WebAssembly emitter of qy/backend/wasm/emit.py. The first part is the
 translation as a function of the instruction list; the second part is
 `_StringPool` and `_FunctionEmitter` as they are written, each method proved to
 leave the state that the function describes.
 */
module Emitter {
  import opened Wrappers
  import opened ByteOrder
  import opened ConstantPool
  import opened Lir
  import W = Wasm

  /** What the emitter is given: name tables it did not define itself. */
  datatype Context = Context(
    builtinIndex: Name -> int,           // -1 when the name is no builtin
    parseInt: Name -> Option<int>,       // Python's int(), None for ValueError
    literals: Literals)

  /** The emitter's own state before an instruction. */
  datatype Scan = Scan(scopes: Chain<nat>, cursor: nat, pool: Pool)

  // --- the translation ---------------------------------------------------------------

  function Positions(n: nat): seq<nat> { seq(n, (i: nat) => i) }

  function FirstScan(f: Function, pool: Pool): Scan {
    Scan([BindParams(f.params, Positions(|f.params|))], |f.params|, pool)
  }

  /** The fixed meaning of a name that no scope binds; `Failure` for an int that does not fit. */
  function GlobalWord(ctx: Context, f: Function, fnIdx: nat, name: Name): Result<Option<Word>, Error> {
    if name == f.name && name != "<main>" && name != "<lambda>" then
      Success(Some(Tagged(NUM_BUILTINS + fnIdx, TAG_CALLABLE)))
    else if name == "true" || name == "T" then Success(Some(VAL_T))
    else if name == "false" || name == "nil" || name == "none" then Success(Some(VAL_NIL))
    else if ctx.builtinIndex(name) >= 0 then
      Success(Some(Tagged(ctx.builtinIndex(name), TAG_CALLABLE)))
    else
      match ctx.parseInt(name)
      case None => Success(None)
      case Some(i) =>
        if INT_MIN <= i <= INT_MAX then Success(Some(Tagged(i, TAG_INT))) else Failure(Unsupported)
  }

  function ValueExpr(ctx: Context, f: Function, fnIdx: nat, scopes: Chain<nat>, name: Name)
    : Result<W.Expr, Error>
  {
    match Lookup(scopes, name)
    case Some(slot) => Success(W.Get(W.Slot(slot)))
    case None =>
      var global :- GlobalWord(ctx, f, fnIdx, name);
      match global
      case Some(w) => Success(W.Const(w))
      case None => Failure(Unsupported)
  }

  function StoreArgument(args: seq<nat>, i: nat): W.Instr
    requires i < |args|
  {
    W.Store(8 * i, W.GetSp, W.Get(W.Reg(args[i])))
  }

  function Stores(args: seq<nat>): seq<W.Instr> {
    seq(|args|, i requires 0 <= i < |args| => StoreArgument(args, i))
  }

  datatype Target = Builtin(id: nat) | Register(r: nat)

  function CallInstr(target: Target, argc: nat): W.Instr {
    match target
    case Builtin(id) => W.CallBuiltin(id, argc, W.Get(W.SpSave))
    case Register(r) => W.CallIndirect(argc, W.Get(W.SpSave), W.TableIndex(W.Get(W.Reg(r))))
  }

  function PushArguments(args: seq<nat>): seq<W.Instr> {
    [W.Set(W.SpSave, W.GetSp)] + Stores(args)
    + [W.SetSp(W.Add(W.GetSp, W.Const(8 * |args|)))]
  }

  function CallCode(target: Target, args: seq<nat>, dst: nat): seq<W.Instr> {
    PushArguments(args) + [CallInstr(target, |args|)]
    + [W.SetPop(W.Reg(dst)), W.SetSp(W.Get(W.SpSave))]
  }

  function TailCallCode(target: Target, args: seq<nat>): seq<W.Instr> {
    PushArguments(args) + [CallInstr(target, |args|), W.ReturnPop]
  }

  function SetReg(dst: nat, w: Word): seq<W.Instr> { [W.Set(W.Reg(dst), W.Const(w))] }

  function BindCode(slot: nat, src: nat): seq<W.Instr> {
    [W.Set(W.Slot(slot), W.Get(W.Reg(src)))]
  }

  function JumpCode(target: int): seq<W.Instr> {
    [W.Set(W.Pc, W.Const(target)), W.Br(W.Dispatch)]
  }

  /** One instruction's code and the emitter state after it. */
  function Translate(ctx: Context, f: Function, fnIdx: nat, s: Scan, i: Inst)
    : Result<(seq<W.Instr>, Scan), Error>
  {
    match i
    case Jump(t) => Success((JumpCode(t), s))
    case JumpIfFalse(c, t) =>
      Success(([W.If(W.IsTag(W.Get(W.Reg(c)), TAG_NIL), JumpCode(t))], s))
    case EnterScope => Success(([], s.(scopes := s.scopes + [map[]])))
    case ExitScope => Success(([], s.(scopes := Leave(s.scopes))))
    case StoreLocal(name, src) =>
      Success((BindCode(s.cursor, src), s.(scopes := Bind(s.scopes, name, s.cursor), cursor := s.cursor + 1)))
    case DefineOnce(name, src) =>
      Success((BindCode(s.cursor, src), s.(scopes := Bind(s.scopes, name, s.cursor), cursor := s.cursor + 1)))
    case Move(dst, src) => Success(([W.Set(W.Reg(dst), W.Get(W.Reg(src)))], s))
    case LoadNil(dst) => Success((SetReg(dst, VAL_NIL), s))
    case LoadT(dst) => Success((SetReg(dst, VAL_T), s))
    case LoadHost(dst, value) =>
      var (pool, w) :- Encode(ctx.literals, s.pool, value);
      Success((SetReg(dst, w), s.(pool := pool)))
    case LoadEnv(dst, name) =>
      var e :- ValueExpr(ctx, f, fnIdx, s.scopes, name);
      Success(([W.Set(W.Reg(dst), e)], s))
    case MakeFunction(dst, g) => Success((SetReg(dst, Tagged(NUM_BUILTINS + g, TAG_CALLABLE)), s))
    case AppendResult(src) => Success(([W.AppendResult(W.Get(W.Reg(src)))], s))
    case CallBuiltin(dst, id, args) => Success((CallCode(Builtin(id), args, dst), s))
    case Call(dst, callee, args) => Success((CallCode(Register(callee), args, dst), s))
    case TailCall(callee, args) => Success((TailCallCode(Register(callee), args), s))
    case Return(src) => Success(([W.Return(W.Get(W.Reg(src)))], s))
    case Other(_) => Failure(Unsupported)
  }

  /** Code `k` of the dispatcher: the instruction, then a jump back unless it is a control one. */
  function CodeAt(i: Inst, code: seq<W.Instr>, k: nat): seq<W.Instr> {
    if IsControl(i) then code else code + JumpCode(k + 1)
  }

  /** The codes of the first `k` instructions and the linear-scan state after them. */
  function Prefix(ctx: Context, f: Function, fnIdx: nat, pool: Pool, k: nat)
    : (r: Result<(seq<seq<W.Instr>>, Scan), Error>)
    requires k <= |f.insts|
    ensures r.Success? ==> |r.value.0| == k
  {
    if k == 0 then Success(([], FirstScan(f, pool)))
    else
      var (codes, s) :- Prefix(ctx, f, fnIdx, pool, k - 1);
      var (code, s') :- Translate(ctx, f, fnIdx, s, f.insts[k - 1]);
      Success((codes + [CodeAt(f.insts[k - 1], code, k - 1)], s'))
  }

  function Labels(n: nat): seq<W.Label> { seq(n, i requires 0 <= i => W.Code(i)) }

  /** The inside of `$b{k}` (of `$dispatch` for the last `k`) in a dispatcher with `n` labels. */
  function Inside(codes: seq<seq<W.Instr>>, n: nat, k: nat): seq<W.Instr>
    requires k <= |codes|
  {
    if k == 0 then [W.BrTable(Labels(n), W.Get(W.Pc))]
    else [W.Block(W.Code(k - 1), Inside(codes, n, k - 1))] + codes[k - 1]
  }

  function LoadParams(n: nat): seq<W.Instr> {
    seq(n, i requires 0 <= i => W.LoadTo(W.Slot(i), 8 * i, W.Get(W.Argv)))
  }

  function DispatchLoop(codes: seq<seq<W.Instr>>): W.Instr {
    W.Loop(W.Dispatch, Inside(codes, |codes|, |codes|))
  }

  function FunctionBody(params: nat, codes: seq<seq<W.Instr>>): seq<W.Instr> {
    LoadParams(params) + [W.Set(W.Pc, W.Const(0)), DispatchLoop(codes), W.Unreachable]
  }

  function Compile(ctx: Context, f: Function, fnIdx: nat, pool: Pool): Result<(seq<W.Instr>, Pool), Error> {
    if f.variadic then Failure(Unsupported)
    else
      var (codes, s) :- Prefix(ctx, f, fnIdx, pool, |f.insts|);
      Success((FunctionBody(|f.params|, codes), s.pool))
  }

  // --- the emitter as written -----------------------------------------------------------

  /** `_StringPool`: both fields only ever grow. */
  class StringPool {
    var offset: nat
    var segments: seq<Segment>

    constructor ()
      ensures Contents() == EMPTY
    {
      offset, segments := STRING_BASE, [];
    }

    function Contents(): Pool
      reads this
    {
      Pool(offset, segments)
    }

    method InternBytes(payload: seq<Byte>) returns (address: nat)
      modifies this
      ensures address == old(offset)
      ensures Contents() == ConstantPool.InternBytes(old(Contents()), payload)
    {
      address := offset;
      segments := segments + [Segment(address, payload)];
      offset := AlignUp(address + |payload|);
    }

    method Intern(text: Text) returns (r: Result<nat, Error>)
      modifies this
      ensures match ConstantPool.Intern(old(Contents()), text)
              case Success(q) => r == Success(old(offset)) && Contents() == q
              case Failure(e) => r == Failure(e)
    {
      if |text| >= TWO_32 {
        return Failure(Overflow);
      }
      var address := offset;
      segments := segments + [Segment(address, LittleEndian(|text|, 4) + text)];
      offset := AlignUp(address + 4 + |text|);
      return Success(address);
    }

    method InternSymbol(name: Text) returns (r: Result<nat, Error>)
      modifies this
      ensures match ConstantPool.InternSymbol(old(Contents()), name)
              case Success((q, a)) => r == Success(a) && Contents() == q
              case Failure(e) => r == Failure(e)
    {
      var text :- Intern(name);
      if text >= TWO_32 {
        return Failure(Overflow);
      }
      var address := InternBytes(LittleEndian(HEAP_SYMBOL, 4) + LittleEndian(text, 4));
      return Success(address);
    }

    method InternCons(car: Word, cdr: Word) returns (address: nat)
      modifies this
      ensures address == old(offset)
      ensures Contents() == ConstantPool.InternBytes(old(Contents()), ConsCell(car, cdr))
    {
      address := InternBytes(ConsCell(car, cdr));
    }
  }

  // A chain of cells, seen from its front as the loops of `_encode_chain` see it.

  function Size(c: Constant): nat { if c.Cons? then 1 + Size(c.head) + Size(c.tail) else 0 }

  function Drop(c: Constant, k: nat): Constant {
    if k == 0 || !c.Cons? then c else Drop(c.tail, k - 1)
  }

  lemma {:induction false} DropOneMore(c: Constant, k: nat)
    requires Drop(c, k).Cons?
    ensures Drop(c, k + 1) == Drop(c, k).tail
    ensures Size(Drop(c, k)) <= Size(c)
  {
    if k > 0 {
      DropOneMore(c.tail, k - 1);
    }
  }

  lemma {:induction false} EncodeFailsFromTail(literals: Literals, p: Pool, c: Constant, k: nat)
    requires Encode(literals, p, Drop(c, k)).Failure?
    ensures Encode(literals, p, c) == Encode(literals, p, Drop(c, k))
    decreases k
  {
    if k > 0 && c.Cons? {
      EncodeFailsFromTail(literals, p, c.tail, k - 1);
    }
  }

  /** A pair behind its tail: the head, then the cell. */
  lemma EncodePair(literals: Literals, p: Pool, c: Constant, mid: Pool, cdr: Word)
    requires c.Cons? && Encode(literals, p, c.tail) == Success((mid, cdr))
    ensures Encode(literals, mid, c.head).Failure? ==> Encode(literals, p, c) == Encode(literals, mid, c.head)
    ensures Encode(literals, mid, c.head).Success? ==>
            var (last, car) := Encode(literals, mid, c.head).value;
            Encode(literals, p, c) == Success((InternBytes(last, ConsCell(car, cdr)), Tagged(last.offset, TAG_HEAP)))
  {
  }

  // The flat line stream of the dispatcher.

  function Openings(k: nat): seq<W.Line> {
    if k == 0 then [] else [W.OpenBlock(W.Code(k - 1))] + Openings(k - 1)
  }

  function ClosedCodes(codes: seq<seq<W.Instr>>): seq<W.Line> {
    if codes == [] then []
    else
      var n := |codes| - 1;
      ClosedCodes(codes[..n]) + [W.Close] + W.Lines(codes[n])
  }

  lemma {:induction false} InsideLines(codes: seq<seq<W.Instr>>, n: nat, k: nat)
    requires k <= |codes|
    ensures W.Lines(Inside(codes, n, k))
         == Openings(k) + [W.Plain(W.BrTable(Labels(n), W.Get(W.Pc)))] + ClosedCodes(codes[..k])
  {
    if k > 0 {
      InsideLines(codes, n, k - 1);
      assert codes[..k][..k - 1] == codes[..k - 1];
      var block := W.Block(W.Code(k - 1), Inside(codes, n, k - 1));
      W.LinesConcat([block], codes[k - 1]);
      W.LinesOne(block);
    } else {
      assert codes[..k] == [];
      var table := W.BrTable(Labels(n), W.Get(W.Pc));
      W.LinesOne(table);
    }
  }

  lemma {:induction false} PrefixFails(ctx: Context, f: Function, fnIdx: nat, pool: Pool, k: nat, n: nat)
    requires k <= n <= |f.insts| && Prefix(ctx, f, fnIdx, pool, k).Failure?
    ensures Prefix(ctx, f, fnIdx, pool, n) == Prefix(ctx, f, fnIdx, pool, k)
    decreases n
  {
    if k < n {
      PrefixFails(ctx, f, fnIdx, pool, k, n - 1);
    }
  }

  lemma FunctionLines(params: nat, codes: seq<seq<W.Instr>>)
    ensures W.Lines(FunctionBody(params, codes))
         == W.Lines(LoadParams(params))
            + (W.Lines([W.Set(W.Pc, W.Const(0))]) + (W.LinesOf(DispatchLoop(codes)) + W.Lines([W.Unreachable])))
  {
    hide W.Lines, W.LinesOf, Inside, LoadParams;
    var start, loop, end := [W.Set(W.Pc, W.Const(0))], [DispatchLoop(codes)], [W.Unreachable];
    assert [start[0], loop[0], end[0]] == start + (loop + end);
    W.LinesConcat(LoadParams(params), start + (loop + end));
    W.LinesConcat(start, loop + end);
    W.LinesConcat(loop, end);
    W.LinesOne(DispatchLoop(codes));
  }

  lemma Regroup<T>(a: seq<T>, b: seq<T>, open: seq<T>, p: seq<T>, t: seq<T>, c: seq<T>, close: seq<T>, d: seq<T>)
    ensures a + b + open + p + t + c + close + d == a + (b + ((open + (p + t + c) + close) + d))
  {
  }

  /** `_FunctionEmitter`. */
  class FunctionEmitter {
    const ctx: Context
    const function_: Function
    const fnIdx: nat
    const pool: StringPool
    var lines: seq<W.Line>
    var envCursor: nat
    var scopes: Chain<nat>

    constructor (ctx: Context, function_: Function, fnIdx: nat, pool: StringPool)
      ensures this.ctx == ctx && this.function_ == function_ && this.fnIdx == fnIdx && this.pool == pool
      ensures lines == [] && State() == FirstScan(function_, pool.Contents())
    {
      this.ctx, this.function_, this.fnIdx, this.pool := ctx, function_, fnIdx, pool;
      lines := [];
      envCursor := |function_.params|;
      scopes := [BindParams(function_.params, Positions(|function_.params|))];
    }

    function State(): Scan
      reads this, pool
    {
      Scan(scopes, envCursor, pool.Contents())
    }

    method Out(i: W.Instr)
      modifies this`lines
      ensures lines == old(lines) + W.Lines([i])
    {
      lines := lines + W.LinesOf(i);
      W.LinesOne(i);
    }

    method OutTwo(i: W.Instr, j: W.Instr)
      modifies this`lines
      ensures lines == old(lines) + W.Lines([i, j])
    {
      Out(i);
      Out(j);
      W.LinesConcat([i], [j]);
    }

    method OutJump(target: int)
      modifies this`lines
      ensures lines == old(lines) + W.Lines(JumpCode(target))
    {
      OutTwo(W.Set(W.Pc, W.Const(target)), W.Br(W.Dispatch));
    }

    method BindName(name: Name, src: nat)
      modifies this
      ensures lines == old(lines) + W.Lines(BindCode(old(envCursor), src))
      ensures envCursor == old(envCursor) + 1 && scopes == Bind(old(scopes), name, old(envCursor))
    {
      var slot := envCursor;
      envCursor := envCursor + 1;
      scopes := scopes[|scopes| - 1 := scopes[|scopes| - 1][name := slot]];
      Out(W.Set(W.Slot(slot), W.Get(W.Reg(src))));
    }

    /** Innermost scope first. */
    method Resolve(name: Name) returns (r: Result<W.Expr, Error>)
      ensures r == ValueExpr(ctx, function_, fnIdx, scopes, name)
    {
      var i := |scopes|;
      assert scopes[..i] == scopes;
      while i > 0
        invariant 0 <= i <= |scopes|
        invariant Lookup(scopes[..i], name) == Lookup(scopes, name)
      {
        assert scopes[..i][..i - 1] == scopes[..i - 1];
        i := i - 1;
        if name in scopes[i] {
          return Success(W.Get(W.Slot(scopes[i][name])));
        }
      }
      var global :- GlobalWord(ctx, function_, fnIdx, name);
      match global
      case Some(w) => return Success(W.Const(w));
      case None => return Failure(Unsupported);
    }

    method PushArgs(args: seq<nat>)
      modifies this`lines
      ensures lines == old(lines) + W.Lines(PushArguments(args))
    {
      Out(W.Set(W.SpSave, W.GetSp));
      var stores := Stores(args);
      for position := 0 to |args|
        invariant lines == old(lines) + W.Lines([W.Set(W.SpSave, W.GetSp)] + stores[..position])
      {
        W.LinesConcat([W.Set(W.SpSave, W.GetSp)] + stores[..position], [stores[position]]);
        assert [W.Set(W.SpSave, W.GetSp)] + stores[..position + 1]
            == [W.Set(W.SpSave, W.GetSp)] + stores[..position] + [stores[position]];
        Out(W.Store(8 * position, W.GetSp, W.Get(W.Reg(args[position]))));
      }
      assert stores[..|args|] == stores;
      W.LinesConcat([W.Set(W.SpSave, W.GetSp)] + stores, [W.SetSp(W.Add(W.GetSp, W.Const(8 * |args|)))]);
      Out(W.SetSp(W.Add(W.GetSp, W.Const(8 * |args|))));
    }

    /** `_call_sequence`; a tail call has no destination. */
    method CallSequence(target: Target, args: seq<nat>, dst: Option<nat>)
      modifies this`lines
      ensures lines == old(lines) + W.Lines(
                match dst
                case Some(d) => CallCode(target, args, d)
                case None => TailCallCode(target, args))
    {
      hide W.Lines, W.LinesOf, PushArguments, CallInstr;
      PushArgs(args);
      var call := CallInstr(target, |args|);
      match dst {
        case None =>
          OutTwo(call, W.ReturnPop);
          W.LinesConcat(PushArguments(args), [call, W.ReturnPop]);
        case Some(d) =>
          Out(call);
          OutTwo(W.SetPop(W.Reg(d)), W.SetSp(W.Get(W.SpSave)));
          var after := [W.SetPop(W.Reg(d)), W.SetSp(W.Get(W.SpSave))];
          W.LinesConcat(PushArguments(args) + [call], after);
          W.LinesConcat(PushArguments(args), [call]);
      }
    }

    method EncodeScalarValue(s: Scalar) returns (r: Result<Word, Error>)
      modifies pool
      ensures match EncodeScalar(old(pool.Contents()), s)
              case Success((q, w)) => r == Success(w) && pool.Contents() == q
              case Failure(e) => r == Failure(e)
    {
      match s {
        case Nil => return Success(VAL_NIL);
        case NoneValue => return Success(VAL_NIL);
        case True => return Success(VAL_T);
        case Bool(b) => return Success(if b then VAL_T else VAL_NIL);
        case Int(i) =>
          if INT_MIN <= i <= INT_MAX {
            return Success(Tagged(i, TAG_INT));
          }
          return Failure(Unsupported);
        case Char(c) => return Success(Tagged(c, TAG_CHAR));
        case Str(t) =>
          var a :- pool.Intern(t);
          return Success(Tagged(a, TAG_STRING));
        case Float(bits) =>
          var a := pool.InternBytes(bits);
          return Success(Tagged(a, TAG_FLOAT));
      }
    }

    method EncodeValue(value: Constant) returns (r: Result<Word, Error>)
      modifies pool
      ensures match Encode(ctx.literals, old(pool.Contents()), value)
              case Success((q, w)) => r == Success(w) && pool.Contents() == q
              case Failure(e) => r == Failure(e)
      decreases Size(value), 1
    {
      match value {
        case Atom(s) => r := EncodeScalarValue(s);
        case Symbol(name) =>
          match ctx.literals(name) {
            case Some(s) => r := EncodeScalarValue(s);
            case None =>
              var a :- pool.InternSymbol(name);
              return Success(Tagged(a, TAG_HEAP));
          }
        case Cons(_, _) => r := EncodeChain(value);
        case Host => return Failure(Unsupported);
      }
    }

    /** The heads of a chain in order, and what follows the last of them. */
    method ChainItems(chain: Constant) returns (items: seq<Constant>, rest: Constant)
      requires chain.Cons?
      ensures items != [] && rest == Drop(chain, |items|) && !rest.Cons? && Size(rest) < Size(chain)
      ensures forall i :: 0 <= i < |items| ==>
        Drop(chain, i).Cons? && Drop(chain, i).head == items[i] && Size(items[i]) < Size(chain)
    {
      items := [];
      rest := chain;
      while rest.Cons?
        invariant rest == Drop(chain, |items|)
        invariant Size(rest) <= Size(chain) && (items != [] ==> Size(rest) < Size(chain))
        invariant items == [] ==> rest == chain
        invariant forall i :: 0 <= i < |items| ==>
          Drop(chain, i).Cons? && Drop(chain, i).head == items[i] && Size(items[i]) < Size(chain)
        decreases rest
      {
        DropOneMore(chain, |items|);
        items := items + [rest.head];
        rest := rest.tail;
      }
    }

    method EncodeChain(chain: Constant) returns (r: Result<Word, Error>)
      requires chain.Cons?
      modifies pool
      ensures match Encode(ctx.literals, old(pool.Contents()), chain)
              case Success((q, w)) => r == Success(w) && pool.Contents() == q
              case Failure(e) => r == Failure(e)
      decreases Size(chain), 0
    {
      ghost var before := pool.Contents();
      var items, current := ChainItems(chain);
      assert current == Atom(Nil) ==> Encode(ctx.literals, before, current) == Success((before, VAL_NIL));
      hide Encode;
      var result := VAL_NIL;
      if current != Atom(Nil) {
        var tail := EncodeValue(current);
        if tail.Failure? {
          EncodeFailsFromTail(ctx.literals, before, chain, |items|);
          return tail;
        }
        result := tail.value;
      }
      var i := |items|;
      while i > 0
        invariant 0 <= i <= |items|
        invariant Encode(ctx.literals, before, Drop(chain, i)) == Success((pool.Contents(), result))
      {
        i := i - 1;
        DropOneMore(chain, i);
        EncodePair(ctx.literals, before, Drop(chain, i), pool.Contents(), result);
        var head := EncodeValue(items[i]);
        if head.Failure? {
          EncodeFailsFromTail(ctx.literals, before, chain, i);
          return head;
        }
        var cell := pool.InternCons(head.value, result);
        result := Tagged(cell, TAG_HEAP);
      }
      return Success(result);
    }

    /** The loads, whose words may need the pool or the scopes. */
    method EmitLoad(inst: Inst) returns (r: Result<(), Error>)
      requires inst.LoadHost? || inst.LoadEnv?
      modifies this, pool
      ensures match Translate(ctx, function_, fnIdx, old(State()), inst)
              case Success((code, after)) =>
                r == Success(()) && State() == after && lines == old(lines) + W.Lines(code)
              case Failure(e) => r == Failure(e)
    {
      hide W.Lines, Encode, ValueExpr;
      match inst {
        case LoadHost(dst, value) =>
          var w :- EncodeValue(value);
          Out(W.Set(W.Reg(dst), W.Const(w)));
        case LoadEnv(dst, name) =>
          var e :- Resolve(name);
          Out(W.Set(W.Reg(dst), e));
      }
      r := Success(());
    }

    /** Control transfers and calls: no emitter state but the lines. */
    method EmitTransfer(inst: Inst)
      requires IsControl(inst) || inst.CallBuiltin? || inst.Call?
      modifies this`lines
      ensures Translate(ctx, function_, fnIdx, State(), inst).Success?
      ensures lines == old(lines) + W.Lines(Translate(ctx, function_, fnIdx, State(), inst).value.0)
    {
      hide W.Lines, JumpCode, CallCode, TailCallCode;
      match inst {
        case Jump(t) => OutJump(t);
        case JumpIfFalse(c, t) => Out(W.If(W.IsTag(W.Get(W.Reg(c)), TAG_NIL), JumpCode(t)));
        case CallBuiltin(dst, id, args) => CallSequence(Builtin(id), args, Some(dst));
        case Call(dst, callee, args) => CallSequence(Register(callee), args, Some(dst));
        case TailCall(callee, args) => CallSequence(Register(callee), args, None);
        case Return(src) => Out(W.Return(W.Get(W.Reg(src))));
      }
    }

    /** Instructions that only move a word. */
    method EmitRegister(inst: Inst)
      requires inst.Move? || inst.LoadNil? || inst.LoadT? || inst.MakeFunction? || inst.AppendResult?
      modifies this`lines
      ensures Translate(ctx, function_, fnIdx, State(), inst).Success?
      ensures lines == old(lines) + W.Lines(Translate(ctx, function_, fnIdx, State(), inst).value.0)
    {
      hide W.Lines, W.LinesOf;
      match inst {
        case Move(dst, src) => Out(W.Set(W.Reg(dst), W.Get(W.Reg(src))));
        case LoadNil(dst) => Out(W.Set(W.Reg(dst), W.Const(VAL_NIL)));
        case LoadT(dst) => Out(W.Set(W.Reg(dst), W.Const(VAL_T)));
        case MakeFunction(dst, g) =>
          Out(W.Set(W.Reg(dst), W.Const(Tagged(NUM_BUILTINS + g, TAG_CALLABLE))));
        case AppendResult(src) => Out(W.AppendResult(W.Get(W.Reg(src))));
      }
    }

    /** `emit_instruction`. */
    method EmitInstruction(inst: Inst) returns (r: Result<(), Error>)
      modifies this, pool
      ensures match Translate(ctx, function_, fnIdx, old(State()), inst)
              case Success((code, after)) =>
                r == Success(()) && State() == after && lines == old(lines) + W.Lines(code)
              case Failure(e) => r == Failure(e)
    {
      assert W.Lines([]) == [];
      hide W.Lines, Encode, ValueExpr, JumpCode, CallCode, TailCallCode, Bind;
      r := Success(());
      match inst {
        case EnterScope => scopes := scopes + [map[]];
        case ExitScope =>
          if |scopes| > 1 {
            scopes := scopes[..|scopes| - 1];
          }
        case StoreLocal(name, src) => BindName(name, src);
        case DefineOnce(name, src) => BindName(name, src);
        case LoadHost(_, _) => r := EmitLoad(inst);
        case LoadEnv(_, _) => r := EmitLoad(inst);
        case Other(_) => return Failure(Unsupported);
        case Move(_, _) => EmitRegister(inst);
        case LoadNil(_) => EmitRegister(inst);
        case LoadT(_) => EmitRegister(inst);
        case MakeFunction(_, _) => EmitRegister(inst);
        case AppendResult(_) => EmitRegister(inst);
        case _ => EmitTransfer(inst);
      }
    }

    method EmitParams()
      modifies this`lines
      ensures lines == old(lines) + W.Lines(LoadParams(|function_.params|))
    {
      var loads := LoadParams(|function_.params|);
      for index := 0 to |function_.params|
        invariant lines == old(lines) + W.Lines(loads[..index])
      {
        W.LinesConcat(loads[..index], [loads[index]]);
        assert loads[..index + 1] == loads[..index] + [loads[index]];
        Out(W.LoadTo(W.Slot(index), 8 * index, W.Get(W.Argv)));
      }
      assert loads[..|function_.params|] == loads;
    }

    method OpenBlocks(count: nat)
      modifies this`lines
      ensures lines == old(lines) + Openings(count)
    {
      for pc := count downto 0
        invariant lines + Openings(pc) == old(lines) + Openings(count)
      {
        lines := lines + [W.OpenBlock(W.Code(pc))];
      }
    }

    /** One instruction's code, preceded by the end of its block. */
    method EmitCode(pc: nat) returns (r: Result<(), Error>)
      requires pc < |function_.insts|
      modifies this, pool
      ensures match Translate(ctx, function_, fnIdx, old(State()), function_.insts[pc])
              case Success((code, after)) =>
                && r == Success(()) && State() == after
                && lines == old(lines) + [W.Close] + W.Lines(CodeAt(function_.insts[pc], code, pc))
              case Failure(e) => r == Failure(e)
    {
      hide W.Lines, Translate;
      ghost var t := Translate(ctx, function_, fnIdx, State(), function_.insts[pc]);
      lines := lines + [W.Close];
      var _ :- EmitInstruction(function_.insts[pc]);
      if !IsControl(function_.insts[pc]) {
        OutJump(pc + 1);
        W.LinesConcat(t.value.0, JumpCode(pc + 1));
      }
      r := Success(());
    }

    method EmitCodes() returns (r: Result<(), Error>, ghost codes: seq<seq<W.Instr>>)
      requires State() == FirstScan(function_, pool.Contents())
      modifies this, pool
      ensures match Prefix(ctx, function_, fnIdx, old(pool.Contents()), |function_.insts|)
              case Success((all, after)) =>
                r == Success(()) && codes == all && State() == after && lines == old(lines) + ClosedCodes(codes)
              case Failure(e) => r == Failure(e)
    {
      hide W.Lines, Translate;
      ghost var before := pool.Contents();
      codes := [];
      for pc := 0 to |function_.insts|
        invariant Prefix(ctx, function_, fnIdx, before, pc) == Success((codes, State()))
        invariant lines == old(lines) + ClosedCodes(codes)
      {
        ghost var t := Translate(ctx, function_, fnIdx, State(), function_.insts[pc]);
        r := EmitCode(pc);
        if r.Failure? {
          PrefixFails(ctx, function_, fnIdx, before, pc + 1, |function_.insts|);
          return;
        }
        ghost var code := CodeAt(function_.insts[pc], t.value.0, pc);
        assert (codes + [code])[..pc] == codes;
        codes := codes + [code];
      }
      r := Success(());
    }

    /** `emit`: a variadic function is refused, everything else becomes a dispatcher. */
    method Emit() returns (r: Result<seq<W.Line>, Error>)
      requires lines == [] && State() == FirstScan(function_, pool.Contents())
      modifies this, pool
      ensures match Compile(ctx, function_, fnIdx, old(pool.Contents()))
              case Success((body, q)) => r == Success(W.Lines(body)) && pool.Contents() == q
              case Failure(e) => r == Failure(e)
    {
      hide W.Lines, Prefix, Inside, LoadParams, Openings, ClosedCodes;
      if function_.variadic {
        return Failure(Unsupported);
      }
      var count := |function_.insts|;
      EmitParams();
      Out(W.Set(W.Pc, W.Const(0)));
      lines := lines + [W.OpenLoop(W.Dispatch)];
      OpenBlocks(count);
      var table := W.BrTable(Labels(count), W.Get(W.Pc));
      lines := lines + [W.Plain(table)];
      var done, codes := EmitCodes();
      var _ :- done;
      lines := lines + [W.Close];
      Out(W.Unreachable);
      InsideLines(codes, count, count);
      assert codes[..count] == codes;
      FunctionLines(|function_.params|, codes);
      assert [] + W.Lines(LoadParams(|function_.params|)) == W.Lines(LoadParams(|function_.params|));
      assert W.LinesOf(DispatchLoop(codes))
          == [W.OpenLoop(W.Dispatch)] + W.Lines(Inside(codes, count, count)) + [W.Close];
      Regroup(W.Lines(LoadParams(|function_.params|)), W.Lines([W.Set(W.Pc, W.Const(0))]),
              [W.OpenLoop(W.Dispatch)], Openings(count), [W.Plain(table)], ClosedCodes(codes),
              [W.Close], W.Lines([W.Unreachable]));
      return Success(lines);
    }
  }
}

/**
 The formats that other programs read, in numbers: the words and cells of the WebAssembly
 backend (qy/backend/wasm/abi.py), the binary bytecode and the keys of its JSON interchange
 (qy/backend/vm/bytecode.py).
 */
module Layouts {
  import opened Wrappers
  import opened ByteOrder
  import P = ConstantPool
  import B = BytecodeBinary
  import J = Interchange
  import JP = InterchangeProgram

  // --- words and cells ----------------------------------------------------------------------

  function LE4(n: nat): seq<Byte> { LittleEndian(n, 4) }

  /** The words that need no memory. */
  lemma ImmediateWords(literals: P.Literals, p: P.Pool)
    ensures P.Encode(literals, p, P.Atom(P.Nil)) == Success((p, 1))
    ensures P.Encode(literals, p, P.Atom(P.NoneValue)) == Success((p, 1))
    ensures P.Encode(literals, p, P.Atom(P.Bool(false))) == Success((p, 1))
    ensures P.Encode(literals, p, P.Atom(P.True)) == Success((p, 2))
    ensures P.Encode(literals, p, P.Atom(P.Bool(true))) == Success((p, 2))
    ensures forall i :: P.Encode(literals, p, P.Atom(P.Int(i))) ==
              if -0x1000_0000_0000_0000 <= i < 0x1000_0000_0000_0000 then Success((p, 8 * i)) else Failure(P.Unsupported)
    ensures forall c :: P.Encode(literals, p, P.Atom(P.Char(c))) == Success((p, 8 * c + 3))
    ensures forall f :: P.Tagged(f, P.TAG_CALLABLE) == 8 * f + 4
  {
  }

  /** The words that point into memory, and what stands there. The pool begins at 1024, the
      stack of call arguments at one MiB. */
  lemma StringLayout(literals: P.Literals, p: P.Pool, text: P.Text)
    requires P.Valid(p) && |text| < TWO_32
    ensures P.EMPTY.offset == 1024 && P.SCRATCH_BASE == 0x10_0000
    ensures var r := P.Encode(literals, p, P.Atom(P.Str(text)));
            && r.Success? && r.value.1 == 8 * p.offset + 5
            && P.Holds(P.Load(r.value.0.segments), p.offset, LE4(|text|) + text)
  {
    P.InternExtends(p, LE4(|text|) + text);
  }

  lemma FloatLayout(literals: P.Literals, p: P.Pool, bits: P.Double)
    requires P.Valid(p)
    ensures var r := P.Encode(literals, p, P.Atom(P.Float(bits)));
            && r.Success? && r.value.1 == 8 * p.offset + 6
            && P.Holds(P.Load(r.value.0.segments), p.offset, bits)
  {
    P.InternExtends(p, bits);
  }

  lemma HoldsStill(m: P.Image, n: P.Image, address: int, payload: seq<Byte>)
    requires P.Extends(m, n) && P.Holds(m, address, payload)
    ensures P.Holds(n, address, payload)
  {
    forall i | 0 <= i < |payload| ensures n(address + i) == Some(payload[i]) {
      assert m(address + i) == Some(payload[i]);
    }
  }

  /** The pool after a name and its cell. */
  function NameThenCell(p: P.Pool, name: P.Text): P.Pool {
    P.InternBytes(P.InternBytes(p, LE4(|name|) + name), LE4(1) + LE4(p.offset))
  }

  lemma SymbolEncoded(literals: P.Literals, p: P.Pool, name: P.Text)
    requires literals(name).None? && P.Encode(literals, p, P.Symbol(name)).Success?
    ensures var r := P.Encode(literals, p, P.Symbol(name)).value;
            && r.0 == NameThenCell(p, name)
            && r.1 % 8 == 7 && r.1 / 8 == P.InternBytes(p, LE4(|name|) + name).offset
  {
    hide LittleEndian, P.AlignUp;
  }

  lemma NameAndCell(p: P.Pool, name: P.Text)
    requires P.Valid(p)
    ensures var m := P.Load(NameThenCell(p, name).segments);
            && P.Holds(m, P.InternBytes(p, LE4(|name|) + name).offset, [1, 0, 0, 0] + LE4(p.offset))
            && P.Holds(m, p.offset, LE4(|name|) + name)
  {
    hide P.InternBytes, P.Holds, P.Load, LE4, P.Valid;
    SmallNumbers();
    InternTwice(p, LE4(|name|) + name, LE4(1) + LE4(p.offset));
  }

  lemma SymbolLayout(literals: P.Literals, p: P.Pool, name: P.Text)
    requires P.Valid(p) && literals(name).None? && P.Encode(literals, p, P.Symbol(name)).Success?
    ensures var r := P.Encode(literals, p, P.Symbol(name)).value;
            var m, a := P.Load(r.0.segments), r.1 / 8;
            && r.1 % 8 == 7 && P.Holds(m, a, [1, 0, 0, 0] + LE4(p.offset))
            && P.Holds(m, p.offset, LE4(|name|) + name)
  {
    hide P.Encode, P.InternBytes, NameThenCell, P.Holds, P.Load, LE4, P.Valid;
    SymbolEncoded(literals, p, name);
    NameAndCell(p, name);
  }

  lemma InternTwice(p: P.Pool, a: seq<Byte>, b: seq<Byte>)
    requires P.Valid(p)
    ensures var q := P.InternBytes(p, a);
            var m := P.Load(P.InternBytes(q, b).segments);
            P.Holds(m, p.offset, a) && P.Holds(m, q.offset, b)
  {
    var q := P.InternBytes(p, a);
    P.InternExtends(p, a);
    P.InternExtends(q, b);
    hide *;
    HoldsStill(P.Load(q.segments), P.Load(P.InternBytes(q, b).segments), p.offset, a);
  }

  lemma SmallNumbers()
    ensures LE4(0) == [0, 0, 0, 0] && LE4(1) == [1, 0, 0, 0] && LE4(2) == [2, 0, 0, 0]
  {
    assert LittleEndian(0, 1) == [0] && LittleEndian(0, 2) == [0, 0] && LittleEndian(0, 3) == [0, 0, 0];
  }

  /** The tail's data come first, then the head's, then the cell with both words. */
  lemma ConsLayout(literals: P.Literals, p: P.Pool, head: P.Constant, tail: P.Constant)
    requires P.Valid(p) && P.Encode(literals, p, P.Cons(head, tail)).Success?
    ensures var rest := P.Encode(literals, p, tail);
            && rest.Success?
            && var first := P.Encode(literals, rest.value.0, head);
            && first.Success?
            && var r := P.Encode(literals, p, P.Cons(head, tail)).value;
            && r.1 % 8 == 7
            && P.Valid(first.value.0) ==>
                 P.Holds(P.Load(r.0.segments), r.1 / 8,
                         [2, 0, 0, 0, 0, 0, 0, 0] + LittleEndian(first.value.1 % TWO_64, 8) + LittleEndian(rest.value.1 % TWO_64, 8))
  {
    hide LittleEndian, P.AlignUp, P.Holds, P.Load, P.Valid, P.ConsCell, P.InternBytes;
    var rest := P.Encode(literals, p, tail).value;
    var first := P.Encode(literals, rest.0, head).value;
    CellBytes(first.1, rest.1);
    if P.Valid(first.0) { P.InternExtends(first.0, P.ConsCell(first.1, rest.1)); }
  }

  lemma CellBytes(car: P.Word, cdr: P.Word)
    ensures P.ConsCell(car, cdr) ==
            [2, 0, 0, 0, 0, 0, 0, 0] + LittleEndian(car % TWO_64, 8) + LittleEndian(cdr % TWO_64, 8)
  {
    hide LittleEndian;
    SmallNumbers();
    assert [2, 0, 0, 0] + [0, 0, 0, 0] == [2, 0, 0, 0, 0, 0, 0, 0];
  }

  // --- the binary format ----------------------------------------------------------------------

  /** A program `f` of one instruction with one operand and one diagnostic, byte by byte. */
  lemma BinaryLayout(codec: B.Codec, main: nat, registers: nat, operand: int, span: Option<int>)
    requires main < TWO_32 && registers < TWO_32 && |codec.dumps(operand)| < TWO_32
    ensures var code := B.Instruction([0x52], [operand], span);
            var f := B.Function([0x66], [[0x78]], registers, [code], 0, None);
            B.ProgramBytes(codec, B.Program([f], main, [B.Diagnostic([0x6d], [0x65])], 0)) ==
              [0x51, 0x59, 0, 1] + [1, 0] + LE4(main) + [1, 0, 0, 0] + [1, 0, 0, 0]
              + ([1, 0, 0, 0] + [0x66] + [1, 0, 0, 0] + [1, 0, 0, 0] + [0x78] + LE4(registers) + [1, 0, 0, 0]
                 + ([1, 0, 0, 0] + [0x52] + [1, 0, 0, 0] + LE4(|codec.dumps(operand)|) + codec.dumps(operand)))
              + ([1, 0, 0, 0] + [0x65] + [1, 0, 0, 0] + [0x6d])
  {
    hide LittleEndian;
    SmallNumbers();
    VersionBytes();
    var code := B.Instruction([0x52], [operand], span);
    var f := B.Function([0x66], [[0x78]], registers, [code], 0, None);
    var d := B.Diagnostic([0x6d], [0x65]);
    ConcatOne(operand, B.OperandWriter(codec));
    ConcatOne([0x78], B.Sized);
    ConcatOne(code, B.InstructionWriter(codec));
    ConcatOne(f, B.FunctionWriter(codec));
    ConcatOne(d, B.DiagnosticBytes);
  }

  lemma ConcatOne<T>(item: T, write: T -> B.Bytes)
    ensures B.Concat([item], write) == write(item)
  {
    assert [item][..0] == [];
    assert B.Concat([], write) + write(item) == write(item);
  }

  lemma VersionBytes()
    ensures LittleEndian(B.VERSION, 2) == [1, 0]
  {
    assert LittleEndian(0, 1) == [0];
  }

  // --- the JSON interchange ---------------------------------------------------------------------

  function Entry(key: string, json: J.Json): J.Field { J.Field(key, json) }

  function Typed(kind: string, json: J.Json): J.Json { J.Object([Entry("type", J.Text(kind)), Entry("value", json)]) }

  /** The keys and type names of values. */
  lemma ValueKeys(n: int, name: string, b: bool)
    ensures J.Encode(J.Nil) == J.Object([Entry("type", J.Text("nil"))])
    ensures J.Encode(J.T) == J.Object([Entry("type", J.Text("t"))])
    ensures J.Encode(J.NoneObject) == J.Object([Entry("type", J.Text("none"))])
    ensures J.Encode(J.Flag(b)) == Typed("bool", J.Bool(b)) && J.Encode(J.Int(n)) == Typed("int", J.Number(n))
    ensures J.Encode(J.Float(n)) == Typed("float", J.Real(n)) && J.Encode(J.Str(name)) == Typed("string", J.Text(name))
    ensures J.Encode(J.Symbol(name)) == Typed("symbol", J.Text(name))
  {
  }

  lemma CompoundKeys(name: string, b: bool, doc: string, space: int, slot: int, head: J.Value, tail: J.Value)
    requires !tail.Nil? && !tail.Chain?
    ensures J.Encode(J.Chain(head, J.Nil)) == Typed("chain", J.Object([Entry("head", J.Encode(head)), Entry("tail", J.Null)]))
    ensures J.Encode(J.Chain(head, tail)) ==
            Typed("chain", J.Object([Entry("head", J.Encode(head)), Entry("tail", J.Encode(tail))]))
    ensures J.Encode(J.Effect(name, b, doc)) ==
            Typed("effect_def", J.Object([Entry("name", J.Text(name)), Entry("resumable", J.Bool(b))]))
    ensures J.Encode(J.Address(space, slot)) ==
            Typed("binding_addr", J.Object([Entry("space", J.Number(space)), Entry("slot", J.Number(slot))]))
  {
    assert J.EncodeChain(J.Nil) == J.Null;
    assert J.EncodeChain(tail) == J.Encode(tail);
    assert J.EncodeNode(J.Chain(head, tail)) == J.Object([Entry("head", J.Encode(head)), Entry("tail", J.Encode(tail))]);
  }

  lemma SequenceKeys(item: J.Value)
    ensures J.Encode(J.List([item])) == Typed("list", J.Array([J.Encode(item)]))
    ensures J.Encode(J.Tuple([item])) == Typed("tuple", J.Array([J.Encode(item)]))
  {
    var items := [item];
    assert items[1..] == [];
    assert J.EncodeAll(items[1..]) == [];
    assert J.EncodeAll(items) == [J.Encode(item)];
  }

  /** The keys of instructions: a register, and the registers of a call. */
  lemma InstructionKeys(t: JP.Tables, r: int, span: Option<int>)
    requires t.isRegister("CALL", 1)
    ensures JP.EncodeInstruction(t, JP.Instruction("CALL", [J.T, J.Int(r), J.Tuple([J.Int(r)])], span)) ==
            Success(J.Object([
              Entry("opcode", J.Text("CALL")),
              Entry("operands", J.Array([
                J.Object([Entry("type", J.Text("t"))]), Typed("reg", J.Number(r)),
                Typed("reg_tuple", J.Array([J.Number(r)]))]))]))
  {
    var items := [J.Int(r)];
    var operands := [J.T, J.Int(r), J.Tuple(items)];
    assert JP.RawAll(items[1..]) == Success([]);
    assert [J.Number(r)] + [] == [J.Number(r)];
    assert JP.RawAll(items) == Success([J.Number(r)]);
    var third := Typed("reg_tuple", J.Array([J.Number(r)]));
    assert JP.EncodeOperand(t, "CALL", 2, operands[2]) == Success(third);
    assert JP.EncodeOperands(t, "CALL", operands, 3) == Success([]);
    assert [third] + [] == [third];
    assert JP.EncodeOperands(t, "CALL", operands, 2) == Success([third]);
    var second := Typed("reg", J.Number(r));
    assert JP.EncodeOperands(t, "CALL", operands, 1) == Success([second, third]) by {
      assert JP.EncodeOperand(t, "CALL", 1, operands[1]) == Success(second);
      assert [second] + [third] == [second, third];
    }
    var first := J.Object([Entry("type", J.Text("t"))]);
    assert JP.EncodeOperands(t, "CALL", operands, 0) == Success([first, second, third]) by {
      assert JP.EncodeOperand(t, "CALL", 0, operands[0]) == Success(first);
      assert [first] + [second, third] == [first, second, third];
    }
  }

  /** The keys of functions, layouts and programs. */
  lemma ProgramKeys(t: JP.Tables, main: int, registers: int, name: string, rest: string)
    ensures var f := JP.Function(name, [], registers, [], [], Some(rest));
            JP.EncodeFunction(t, f) == Success(J.Object([
              Entry("name", J.Text(name)), Entry("params", J.Array([])), Entry("register_count", J.Number(registers)),
              Entry("instructions", J.Array([])), Entry("rest", J.Text(rest))]))
    ensures JP.EncodeLayout(JP.Layout(main, name, None, [])) == J.Object([
              Entry("id", J.Number(main)), Entry("name", J.Text(name)), Entry("parent", J.Null), Entry("slots", J.Array([]))])
    ensures JP.EncodeSlot(JP.Slot(name, main, rest)) == J.Object([
              Entry("symbol", J.Text(name)), Entry("index", J.Number(main)), Entry("source", J.Text(rest))])
    ensures JP.Serialize(t, JP.Program([], main, [], [], [])) == Success(J.Object([
              Entry("version", J.Number(1)), Entry("main", J.Number(main)), Entry("functions", J.Array([]))]))
  {
    var f := JP.Function(name, [], registers, [], [], Some(rest));
    assert JP.Collect(f.instructions, JP.InstructionEncoder(t)) == Success([]);
    var front := [Entry("name", J.Text(name)), Entry("params", J.Array([])), Entry("register_count", J.Number(registers)),
                  Entry("instructions", J.Array([]))];
    assert JP.FunctionFields(f, []) == front + [Entry("rest", J.Text(rest))];
    assert JP.EncodeFunction(t, f) == Success(J.Object(JP.FunctionFields(f, [])));
    assert front + [Entry("rest", J.Text(rest))] == [front[0], front[1], front[2], front[3], Entry("rest", J.Text(rest))];
    var p := JP.Program([], main, [], [], []);
    assert JP.Collect(p.functions, JP.FunctionEncoder(t)) == Success([]);
    var fields := [Entry("version", J.Number(1)), Entry("main", J.Number(main)), Entry("functions", J.Array([]))];
    assert fields + [] == fields;
  }
}

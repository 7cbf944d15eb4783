/** Operands, functions and programs in the JSON interchange format (qy/backend/vm/bytecode.py). */
module InterchangeProgram {
  import opened Wrappers
  import opened Interchange

  // --- operands --------------------------------------------------------------------------

  /** How a tuple operand is written, by opcode and position. */
  datatype Shape = Registers | Handlers | Imports | Symbols | General

  function ShapeOf(opcode: string, index: nat): Shape {
    if (opcode == "CALL" && index == 2) || (opcode == "TAIL_CALL" && index == 1) then Registers
    else if opcode == "HANDLE" && index == 2 then Handlers
    else if opcode == "FROM_IMPORT" && index == 1 then Imports
    else if opcode == "DEFINE_MODULE" && index == 3 then Symbols
    else General
  }

  /** The opcode table's register positions, and Python's `str`. */
  datatype Tables = Tables(isRegister: (string, nat) -> bool, str: Value -> string)

  /** A Python value that is handed to the JSON writer as it is. */
  function Raw(v: Value): Result<Json, Error>
    decreases v, 1
  {
    match v
    case Nil => Success(Null)
    case Flag(b) => Success(Bool(b))
    case Int(n) => Success(Number(n))
    case Float(f) => Success(Real(f))
    case Str(s) => Success(Text(s))
    case List(items) => var js :- RawAll(items); Success(Array(js))
    case Tuple(items) => var js :- RawAll(items); Success(Array(js))
    case _ => Failure(Unserializable)
  }

  function RawAll(items: seq<Value>): (r: Result<seq<Json>, Error>)
    ensures r.Success? ==> |r.value| == |items|
    ensures r.Success? ==> forall k :: 0 <= k < |items| ==> Raw(items[k]) == Success(r.value[k])
    ensures r.Failure? ==> exists k :: 0 <= k < |items| && Raw(items[k]).Failure?
    decreases items, 0
  {
    if items == [] then Success([])
    else
      var first := Raw(items[0]);
      if first.Failure? then Failure(first.error)
      else
        var others := RawAll(items[1..]);
        if others.Failure? then
          assert forall k :: 0 <= k < |items| - 1 ==> items[1..][k] == items[k + 1];
          Failure(others.error)
        else Success([first.value] + others.value)
  }

  function NameOf(t: Tables, v: Value): string { if v.Symbol? then v.name else t.str(v) }

  function Spec(a: string, x: Json, b: string, y: Json): Json { Object([Field(a, x), Field(b, y)]) }

  /** Only pairs are written; anything else in the tuple is dropped. */
  function HandlerSpecs(t: Tables, items: seq<Value>): Result<seq<Json>, Error> {
    if items == [] then Success([])
    else if items[0].Tuple? && |items[0].items| == 2 then
      var handler :- Raw(items[0].items[1]);
      var others :- HandlerSpecs(t, items[1..]);
      Success([Spec("effect", Text(NameOf(t, items[0].items[0])), "handler_fn", handler)] + others)
    else HandlerSpecs(t, items[1..])
  }

  function ImportSpecs(t: Tables, items: seq<Value>): seq<Json> {
    if items == [] then []
    else
      (if items[0].Import? then [Spec("name", Text(items[0].name), "alias", Text(items[0].aka))]
       else if items[0].Tuple? && |items[0].items| == 2 then
         [Spec("name", Text(NameOf(t, items[0].items[0])), "alias", Text(NameOf(t, items[0].items[1])))]
       else [])
      + ImportSpecs(t, items[1..])
  }

  function EncodeTuple(t: Tables, opcode: string, index: nat, items: seq<Value>): Result<Json, Error> {
    match ShapeOf(opcode, index)
    case Registers => var js :- RawAll(items); Success(Tagged("reg_tuple", Array(js)))
    case Handlers => var js :- HandlerSpecs(t, items); Success(Tagged("handler_specs", Array(js)))
    case Imports => Success(Tagged("import_specs", Array(ImportSpecs(t, items))))
    case Symbols => Success(Tagged("symbol_tuple", Array(Each(items, v => Text(NameOf(t, v))))))
    case General => Success(Tagged("tuple", Array(EncodeAll(items))))
  }

  /** `encode_operand`. */
  function EncodeOperand(t: Tables, opcode: string, index: nat, v: Value): Result<Json, Error> {
    match v
    case Tuple(items) => EncodeTuple(t, opcode, index, items)
    case Int(n) => Success(Tagged(if t.isRegister(opcode, index) then "reg" else "int", Number(n)))
    case _ => Success(Encode(v))
  }

  /** `decode_operand`. */
  function DecodeOperand(host: Host, j: Json): Result<Value, Error> {
    if j.Object? && Get(j, "type") == Text("reg") then
      var raw := Get(j, "value");
      Success(if raw.Real? || raw.Bool? then Int(AsInt(host, raw, 0)) else FromRaw(raw))
    else Decode(host, j)
  }

  /** An operand that the format can carry, in its position. */
  predicate Exchangeable(host: Host, opcode: string, index: nat, v: Value) {
    match v
    case Tuple(items) =>
      (match ShapeOf(opcode, index)
       case Registers => forall k :: 0 <= k < |items| ==> items[k].Int?
       case Handlers => forall k :: 0 <= k < |items| ==> IsHandler(items[k])
       case Imports => forall k :: 0 <= k < |items| ==> items[k].Import?
       case Symbols => forall k :: 0 <= k < |items| ==> items[k].Symbol?
       case General => AllEncodable(host, items))
    case Semantic(_, kind, _, _) => kind != "reg" && Encodable(host, v)
    case _ => Encodable(host, v)
  }

  predicate IsHandler(v: Value) {
    v.Tuple? && |v.items| == 2 && v.items[0].Symbol? && v.items[1].Int?
  }

  ghost predicate OperandComesBack(host: Host, t: Tables, opcode: string, index: nat, v: Value) {
    var j := EncodeOperand(t, opcode, index, v);
    j.Success? && DecodeOperand(host, j.value) == Success(v)
  }

  lemma SameItems(a: seq<Value>, b: seq<Value>)
    ensures a == b <==> |a| == |b| && forall k :: 0 <= k < |a| ==> a[k] == b[k]
  {
  }

  lemma NotARegister(kind: string, value: Json)
    requires kind != "reg"
    ensures var j := Tagged(kind, value);
            forall host: Host :: DecodeOperand(host, j) == Decode(host, j)
  {
    TaggedFields(kind, value);
    hide Decode, Get, Has;
  }

  lemma RawInt(host: Host, v: Value)
    ensures Raw(v).Failure? ==> !v.Int?
    ensures Raw(v).Success? ==> (Int(AsInt(host, Raw(v).value, 0)) == v <==> v.Int?)
  {
  }

  lemma AllInts(host: Host, items: seq<Value>)
    ensures forall k :: 0 <= k < |items| ==>
              && (Raw(items[k]).Failure? ==> !items[k].Int?)
              && (Raw(items[k]).Success? ==> (Int(AsInt(host, Raw(items[k]).value, 0)) == items[k] <==> items[k].Int?))
  {
    forall k | 0 <= k < |items|
      ensures Raw(items[k]).Failure? ==> !items[k].Int?
      ensures Raw(items[k]).Success? ==> (Int(AsInt(host, Raw(items[k]).value, 0)) == items[k] <==> items[k].Int?)
    {
      RawInt(host, items[k]);
    }
  }

  /** Numbers written raw come back as what they were exactly when they were integers. */
  lemma RegistersDecode(host: Host, items: seq<Value>, js: seq<Json>)
    requires RawAll(items) == Success(js)
    ensures DecodeOperand(host, Tagged("reg_tuple", Array(js))) == Success(Tuple(items))
       <==> forall k :: 0 <= k < |items| ==> items[k].Int?
  {
    hide *;
    var j := Tagged("reg_tuple", Array(js));
    NotARegister("reg_tuple", Array(js));
    RegistersRead(host, js);
    var out := Decode(host, j).value.items;
    SameItems(out, items);
    forall k | 0 <= k < |items| ensures out[k] == items[k] <==> items[k].Int? { RawInt(host, items[k]); }
  }

  lemma RegistersRead(host: Host, js: seq<Json>)
    ensures var r := Decode(host, Tagged("reg_tuple", Array(js)));
            && r.Success? && r.value.Tuple? && |r.value.items| == |js|
            && forall k :: 0 <= k < |js| ==> r.value.items[k] == Int(AsInt(host, js[k], 0))
  {
    TaggedFields("reg_tuple", Array(js));
    DecodeTuples(host, Tagged("reg_tuple", Array(js)));
    hide Decode, AsInt, Get;
  }

  lemma RegistersComeBack(host: Host, t: Tables, opcode: string, index: nat, items: seq<Value>)
    requires ShapeOf(opcode, index) == Registers
    ensures OperandComesBack(host, t, opcode, index, Tuple(items)) <==> forall k :: 0 <= k < |items| ==> items[k].Int?
  {
    AllInts(host, items);
    var js := RawAll(items);
    if js.Success? {
      RegistersDecode(host, items, js.value);
    }
    hide Decode, DecodeOperand, Raw, RawAll, AsInt, Tagged, Each, EncodeAll, HandlerSpecs, ImportSpecs, ShapeOf;
  }

  lemma SymbolsComeBack(host: Host, t: Tables, opcode: string, index: nat, items: seq<Value>)
    requires ShapeOf(opcode, index) == Symbols
    ensures OperandComesBack(host, t, opcode, index, Tuple(items)) <==> forall k :: 0 <= k < |items| ==> items[k].Symbol?
  {
    var j := EncodeOperand(t, opcode, index, Tuple(items)).value;
    var raws := Get(j, "value");
    TaggedFields("symbol_tuple", j.fields[1].json);
    NotARegister("symbol_tuple", j.fields[1].json);
    DecodeTuples(host, j);
    assert raws.Array? && |raws.items| == |items|;
    assert forall k :: 0 <= k < |items| ==> raws.items[k] == Text(NameOf(t, items[k]));
    hide Decode, DecodeOperand, Get, Has, Tagged, EncodeOperand;
    SameItems(Decode(host, j).value.items, items);
  }

  lemma GeneralComesBack(host: Host, t: Tables, opcode: string, index: nat, items: seq<Value>)
    requires Registered(host) && ShapeOf(opcode, index) == General
    ensures OperandComesBack(host, t, opcode, index, Tuple(items)) <==> AllEncodable(host, items)
  {
    NotARegister("tuple", Array(EncodeAll(items)));
    AllRoundTrip(host, items);
    CollectionCase(host, Tuple(items), items);
    hide Decode, DecodeOperand, EncodeAll;
  }

  // --- specifications of handlers and imports ------------------------------------------------

  lemma SpecFields(a: string, x: Json, b: string, y: Json)
    requires a != b
    ensures var j := Spec(a, x, b, y); Has(j, a) && Has(j, b) && Get(j, a) == x && Get(j, b) == y
  {
    PairField(Field(a, x), Field(b, y), a);
    PairField(Field(a, x), Field(b, y), b);
  }

  lemma SpecKeys()
    ensures "effect" != "handler_fn" && "name" != "alias"
  {
    assert |"effect"| == 6 && |"handler_fn"| == 10 && |"name"| == 4 && |"alias"| == 5;
  }

  lemma {:induction false} AllObjects(js: seq<Json>)
    requires forall k :: 0 <= k < |js| ==> js[k].Object?
    ensures Objects(js) == js
  {
    if js != [] {
      AllObjects(js[1..]);
      assert js == [js[0]] + js[1..];
    }
  }

  /** The handlers come back when there is nothing else in the tuple, and some are lost or
      changed otherwise. */
  lemma {:induction false} HandlersDecode(host: Host, t: Tables, items: seq<Value>)
    ensures var js := HandlerSpecs(t, items);
            && (js.Success? ==> |js.value| <= |items| && forall k :: 0 <= k < |js.value| ==> js.value[k].Object?)
            && ((js.Success? && |js.value| == |items|
                 && forall k :: 0 <= k < |items| ==> Handler(host, js.value[k]) == items[k])
                <==> forall k :: 0 <= k < |items| ==> IsHandler(items[k]))
  {
    hide Raw, Handler, IsHandler, Spec, NameOf;
    if items != [] {
      HandlersDecode(host, t, items[1..]);
      assert forall k :: 0 <= k < |items| - 1 ==> items[k + 1] == items[1..][k];
      var first, rest := items[0], HandlerSpecs(t, items[1..]);
      FirstHandler(host, t, first);
      if first.Tuple? && |first.items| == 2 && Raw(first.items[1]).Success? && rest.Success? {
        var spec := Spec("effect", Text(NameOf(t, first.items[0])), "handler_fn", Raw(first.items[1]).value);
        assert HandlerSpecs(t, items) == Success([spec] + rest.value);
      }
    }
  }

  lemma FirstHandler(host: Host, t: Tables, v: Value)
    ensures v.Tuple? && |v.items| == 2 ==>
              && (Raw(v.items[1]).Success? ==>
                    var spec := Spec("effect", Text(NameOf(t, v.items[0])), "handler_fn", Raw(v.items[1]).value);
                    spec.Object? && (Handler(host, spec) == v <==> IsHandler(v)))
              && (Raw(v.items[1]).Failure? ==> !IsHandler(v))
    ensures !(v.Tuple? && |v.items| == 2) ==> !IsHandler(v)
  {
    if v.Tuple? && |v.items| == 2 && Raw(v.items[1]).Success? {
      HandlerOf(host, t, v, Raw(v.items[1]).value);
    }
  }

  lemma HandlerOf(host: Host, t: Tables, v: Value, handler: Json)
    requires v.Tuple? && |v.items| == 2 && Raw(v.items[1]) == Success(handler)
    ensures Handler(host, Spec("effect", Text(NameOf(t, v.items[0])), "handler_fn", handler)) == v <==> IsHandler(v)
  {
    SpecKeys();
    SpecFields("effect", Text(NameOf(t, v.items[0])), "handler_fn", handler);
    var back := Handler(host, Spec("effect", Text(NameOf(t, v.items[0])), "handler_fn", handler));
    assert v.items == [v.items[0], v.items[1]];
    assert back == v <==> back.items[0] == v.items[0] && back.items[1] == v.items[1];
  }

  lemma HandlersComeBack(host: Host, t: Tables, opcode: string, index: nat, items: seq<Value>)
    requires ShapeOf(opcode, index) == Handlers
    ensures OperandComesBack(host, t, opcode, index, Tuple(items)) <==> forall k :: 0 <= k < |items| ==> IsHandler(items[k])
  {
    HandlersDecode(host, t, items);
    var js := HandlerSpecs(t, items);
    if js.Success? {
      SpecsDecode(host, "handler_specs", js.value, items);
    }
    hide Decode, DecodeOperand, HandlerSpecs, Handler, Tagged, IsHandler, Each, EncodeAll, RawAll, ImportSpecs, ShapeOf;
  }

  /** What the two kinds of specification lists decode to. */
  lemma SpecsDecode(host: Host, kind: string, js: seq<Json>, items: seq<Value>)
    requires forall k :: 0 <= k < |js| ==> js[k].Object?
    ensures kind == "handler_specs" ==>
              (DecodeOperand(host, Tagged(kind, Array(js))) == Success(Tuple(items)) <==>
               |js| == |items| && forall k :: 0 <= k < |items| ==> Handler(host, js[k]) == items[k])
    ensures kind == "import_specs" ==>
              (DecodeOperand(host, Tagged(kind, Array(js))) == Success(Tuple(items)) <==>
               |js| == |items| && forall k :: 0 <= k < |items| ==> ImportOf(host, js[k]) == items[k])
  {
    if kind == "handler_specs" || kind == "import_specs" {
      var j := Tagged(kind, Array(js));
      assert kind != "reg" by { assert |kind| > 3; }
      NotARegister(kind, Array(js));
      TaggedFields(kind, Array(js));
      DecodeTuples(host, j);
      AllObjects(js);
      assert ItemsOf(Array(js)) == js;
      hide *;
      SameItems(Decode(host, j).value.items, items);
    }
  }

  lemma {:induction false} ImportsDecode(host: Host, t: Tables, items: seq<Value>)
    ensures var js := ImportSpecs(t, items);
            && |js| <= |items| && (forall k :: 0 <= k < |js| ==> js[k].Object?)
            && ((|js| == |items| && forall k :: 0 <= k < |items| ==> ImportOf(host, js[k]) == items[k])
                <==> forall k :: 0 <= k < |items| ==> items[k].Import?)
  {
    if items != [] {
      ImportsDecode(host, t, items[1..]);
      assert forall k :: 0 <= k < |items| - 1 ==> items[k + 1] == items[1..][k];
      var first, rest := items[0], ImportSpecs(t, items[1..]);
      SpecKeys();
      if first.Import? {
        SpecFields("name", Text(first.name), "alias", Text(first.aka));
        var spec := Spec("name", Text(first.name), "alias", Text(first.aka));
        assert ImportSpecs(t, items) == [spec] + rest;
        assert ImportOf(host, spec) == first;
      }
    }
  }

  lemma ImportsComeBack(host: Host, t: Tables, opcode: string, index: nat, items: seq<Value>)
    requires ShapeOf(opcode, index) == Imports
    ensures OperandComesBack(host, t, opcode, index, Tuple(items)) <==> forall k :: 0 <= k < |items| ==> items[k].Import?
  {
    ImportsDecode(host, t, items);
    SpecsDecode(host, "import_specs", ImportSpecs(t, items), items);
    hide Decode, DecodeOperand, ImportSpecs, ImportOf, Tagged, Each, EncodeAll, RawAll, HandlerSpecs, ShapeOf;
  }

  lemma PlainComesBack(host: Host, t: Tables, opcode: string, index: nat, v: Value)
    requires Registered(host) && !v.Tuple? && !v.Int?
    ensures OperandComesBack(host, t, opcode, index, v) <==> Exchangeable(host, opcode, index, v)
  {
    ValuesRoundTrip(host, v);
    KindOf(v);
    hide Decode, Encode, Encodable, Get, FromRaw;
    if v.Semantic? && v.kind == "reg" {
      SemanticFields(v.cls, v.kind, Object(EncodeFields(v.names, v.fields)));
      RawIsNoSemantic(Get(Encode(v), "value"));
    }
  }

  lemma RawIsNoSemantic(j: Json)
    ensures !FromRaw(j).Semantic?
  {
  }

  /** Only a semantic value of that very type name could be taken for a register. */
  lemma KindOf(v: Value)
    ensures Encode(v).Object?
    ensures Get(Encode(v), "type") == Text("reg") <==> v.Semantic? && v.kind == "reg"
  {
    match v
    case Semantic(cls, kind, names, fields) =>
      SemanticFields(cls, kind, Object(EncodeFields(names, fields)));
    case _ =>
      KindIsNotReg(v);
  }

  lemma KindIsNotReg(v: Value)
    requires !v.Semantic?
    ensures Get(Encode(v), "type") != Text("reg")
  {
    hide EncodeNode, EncodeAll;
    assert |"nil"| == 3 && "nil"[0] != "reg"[0] && "int"[0] != "reg"[0];
    assert Encode(v).fields[0].name == "type";
  }

  lemma IntComesBack(host: Host, t: Tables, opcode: string, index: nat, n: int)
    ensures OperandComesBack(host, t, opcode, index, Int(n))
  {
    if t.isRegister(opcode, index) {
      TaggedFields("reg", Number(n));
    } else {
      assert "int"[0] != "reg"[0];
      NotARegister("int", Number(n));
      ScalarCase(host, Int(n));
    }
    hide Decode, Get, Tagged;
  }

  /** An operand comes back from its JSON tree exactly when its position can carry it. */
  lemma OperandsExactly(host: Host, t: Tables, opcode: string, index: nat, v: Value)
    requires Registered(host)
    ensures OperandComesBack(host, t, opcode, index, v) <==> Exchangeable(host, opcode, index, v)
  {
    hide OperandComesBack, Encodable, AllEncodable, IsHandler;
    if v.Tuple? {
      match ShapeOf(opcode, index)
      case Registers => RegistersComeBack(host, t, opcode, index, v.items);
      case Handlers => HandlersComeBack(host, t, opcode, index, v.items);
      case Imports => ImportsComeBack(host, t, opcode, index, v.items);
      case Symbols => SymbolsComeBack(host, t, opcode, index, v.items);
      case General => GeneralComesBack(host, t, opcode, index, v.items);
    } else if v.Int? {
      IntComesBack(host, t, opcode, index, v.n);
      assert Encodable(host, v) by { IntIsEncodable(host, v.n); }
    } else {
      PlainComesBack(host, t, opcode, index, v);
    }
  }

  lemma IntIsEncodable(host: Host, n: int)
    ensures Encodable(host, Int(n))
  {
  }

  // --- functions and programs -----------------------------------------------------------------

  datatype Instruction = Instruction(opcode: string, operands: seq<Value>, span: Option<int>)
  datatype Slot = Slot(symbol: string, index: int, source: string)
  datatype Layout = Layout(id: int, name: string, parent: Option<int>, slots: seq<Slot>)
  datatype Function = Function(
    name: string, params: seq<string>, registerCount: int, instructions: seq<Instruction>,
    layout: seq<Layout>, restParam: Option<string>)
  datatype Program = Program(
    functions: seq<Function>, main: int, layout: seq<Layout>,
    diagnostics: seq<string>, hygiene: seq<(string, string)>)

  /** Every item through a partial function, or the first error. */
  function Collect<A, B>(items: seq<A>, f: A -> Result<B, Error>): Result<seq<B>, Error> {
    if items == [] then Success([])
    else
      var first :- f(items[0]);
      var others :- Collect(items[1..], f);
      Success([first] + others)
  }

  function EncodeOperands(t: Tables, opcode: string, operands: seq<Value>, k: nat): Result<seq<Json>, Error>
    requires k <= |operands|
    decreases |operands| - k
  {
    if k == |operands| then Success([])
    else
      var first :- EncodeOperand(t, opcode, k, operands[k]);
      var others :- EncodeOperands(t, opcode, operands, k + 1);
      Success([first] + others)
  }

  function OperandDecoder(host: Host): Json -> Result<Value, Error> { j => DecodeOperand(host, j) }

  function EncodeInstruction(t: Tables, i: Instruction): Result<Json, Error> {
    var operands :- EncodeOperands(t, i.opcode, i.operands, 0);
    Success(Object([Field("opcode", Text(i.opcode)), Field("operands", Array(operands))]))
  }

  function DecodeInstruction(host: Host, j: Json): Result<Instruction, Error> {
    var operands :- Collect(ItemsOf(Get(j, "operands")), OperandDecoder(host));
    Success(Instruction(TextField(host, j, "opcode", ""), operands, None))
  }

  function InstructionEncoder(t: Tables): Instruction -> Result<Json, Error> { i => EncodeInstruction(t, i) }

  function InstructionDecoder(host: Host): Json -> Result<Instruction, Error> { j => DecodeInstruction(host, j) }

  function RestField(rest: Option<string>): seq<Field> {
    if rest.Some? then [Field("rest", Text(rest.value))] else []
  }

  function FunctionFields(f: Function, instructions: seq<Json>): seq<Field> {
    [Field("name", Text(f.name)), Field("params", Array(Each(f.params, p => Text(p)))),
     Field("register_count", Number(f.registerCount)), Field("instructions", Array(instructions))]
    + RestField(f.restParam)
  }

  function EncodeFunction(t: Tables, f: Function): Result<Json, Error> {
    var instructions :- Collect(f.instructions, InstructionEncoder(t));
    Success(Object(FunctionFields(f, instructions)))
  }

  /** Every function gets the layout of the program. */
  function DecodeFunction(host: Host, layout: seq<Layout>, j: Json): Result<Function, Error> {
    var instructions :- Collect(ItemsOf(Get(j, "instructions")), InstructionDecoder(host));
    var rest := Get(j, "rest");
    Success(Function(TextField(host, j, "name", ""), Each(ItemsOf(Get(j, "params")), p => AsText(host, p)),
                     AsInt(host, Get(j, "register_count"), 0), instructions, layout,
                     if rest.Text? && rest.s != "" then Some(rest.s) else None))
  }

  function FunctionEncoder(t: Tables): Function -> Result<Json, Error> { f => EncodeFunction(t, f) }

  function FunctionDecoder(host: Host, layout: seq<Layout>): Json -> Result<Function, Error> {
    j => DecodeFunction(host, layout, j)
  }

  function EncodeSlot(s: Slot): Json {
    Object([Field("symbol", Text(s.symbol)), Field("index", Number(s.index)), Field("source", Text(s.source))])
  }

  function DecodeSlot(host: Host, j: Json): Slot {
    Slot(TextField(host, j, "symbol", ""), AsInt(host, Get(j, "index"), 0), TextField(host, j, "source", "define"))
  }

  function EncodeLayout(l: Layout): Json {
    Object([Field("id", Number(l.id)), Field("name", Text(l.name)),
            Field("parent", if l.parent.Some? then Number(l.parent.value) else Null),
            Field("slots", Array(Each(l.slots, EncodeSlot)))])
  }

  function DecodeLayout(host: Host, j: Json): Layout {
    var parent := Get(j, "parent");
    Layout(AsInt(host, Get(j, "id"), 0), TextField(host, j, "name", ""),
           if parent.Number? then Some(parent.n) else None,
           Each(ItemsOf(Get(j, "slots")), s => DecodeSlot(host, s)))
  }

  /** `serialize_bytecode_json` without an environment. */
  function Serialize(t: Tables, p: Program): Result<Json, Error> {
    var functions :- Collect(p.functions, FunctionEncoder(t));
    Success(Object(
      [Field("version", Number(1)), Field("main", Number(p.main)), Field("functions", Array(functions))]
      + if p.layout == [] then [] else [Field("symbol_spaces", Array(Each(p.layout, EncodeLayout)))]))
  }

  /** `load_bytecode_json`. */
  function Load(host: Host, j: Json): Result<Program, Error> {
    if Get(j, "version") != Number(1) then Failure(UnsupportedVersion)
    else
      var layout := Each(ItemsOf(Get(j, "symbol_spaces")), l => DecodeLayout(host, l));
      var functions :- Collect(ItemsOf(Get(j, "functions")), FunctionDecoder(host, layout));
      Success(Program(functions, AsInt(host, Get(j, "main"), 0), layout, [], []))
  }

  // --- what comes back ------------------------------------------------------------------------

  function NormalInstruction(i: Instruction): Instruction { i.(span := None) }

  function NormalFunction(layout: seq<Layout>): Function -> Function {
    (f: Function) => f.(instructions := Each(f.instructions, NormalInstruction), layout := layout)
  }

  /** The program, less its spans and diagnostics, with its layout in every function. */
  function Normal(p: Program): Program {
    p.(functions := Each(p.functions, NormalFunction(p.layout)), diagnostics := [], hygiene := [])
  }

  predicate GoodInstruction(host: Host, i: Instruction) {
    forall k :: 0 <= k < |i.operands| ==> Exchangeable(host, i.opcode, k, i.operands[k])
  }

  /** A rest parameter has a name. */
  predicate GoodFunction(host: Host, f: Function) {
    f.restParam != Some("") && forall k :: 0 <= k < |f.instructions| ==> GoodInstruction(host, f.instructions[k])
  }

  /** Encoding and decoding one item gives its normal form back. */
  ghost predicate ComesBack<A(!new)>(x: A, encode: A -> Result<Json, Error>, decode: Json -> Result<A, Error>, normal: A -> A) {
    encode(x).Success? && decode(encode(x).value) == Success(normal(x))
  }

  /** A list comes back exactly when its items do. */
  lemma {:induction false} ListComesBack<A(!new)>(items: seq<A>, encode: A -> Result<Json, Error>,
      decode: Json -> Result<A, Error>, normal: A -> A)
    ensures (Collect(items, encode).Success? && Collect(Collect(items, encode).value, decode) == Success(Each(items, normal)))
       <==> forall k :: 0 <= k < |items| ==> ComesBack(items[k], encode, decode, normal)
  {
    if items != [] {
      var first, others := encode(items[0]), Collect(items[1..], encode);
      ListComesBack(items[1..], encode, decode, normal);
      assert forall k :: 0 <= k < |items| - 1 ==> items[1..][k] == items[k + 1];
      assert Each(items, normal) == [normal(items[0])] + Each(items[1..], normal);
      if first.Success? && others.Success? {
        var all := [first.value] + others.value;
        assert all[0] == first.value && all[1..] == others.value;
        var back, rest := decode(first.value), Collect(others.value, decode);
        if back.Success? && rest.Success? {
          SameSequence(back.value, rest.value, normal(items[0]), Each(items[1..], normal));
        }
      }
    }
  }

  lemma SameSequence<A>(a: A, s: seq<A>, b: A, t: seq<A>)
    ensures [a] + s == [b] + t <==> a == b && s == t
  {
    assert ([a] + s)[0] == a && ([a] + s)[1..] == s;
    assert ([b] + t)[0] == b && ([b] + t)[1..] == t;
  }

  predicate DistinctFields(fields: seq<Field>) {
    forall i, j :: 0 <= i < j < |fields| ==> fields[i].name != fields[j].name
  }

  lemma {:induction false} FieldIn(fields: seq<Field>, i: nat)
    requires i < |fields| && DistinctFields(fields)
    ensures GetField(fields, fields[i].name) == fields[i].json && Has(Object(fields), fields[i].name)
  {
    if i > 0 {
      FieldIn(fields[1..], i - 1);
      assert fields[i].name != fields[0].name;
    }
  }

  lemma {:induction false} FieldMissing(fields: seq<Field>, key: string)
    requires forall k :: 0 <= k < |fields| ==> fields[k].name != key
    ensures GetField(fields, key) == Null && !Has(Object(fields), key)
  {
    if fields != [] {
      FieldMissing(fields[1..], key);
    }
  }

  // --- instructions -----------------------------------------------------------------------------

  lemma {:induction false} OperandsComeBack(host: Host, t: Tables, opcode: string, operands: seq<Value>, k: nat)
    requires Registered(host) && k <= |operands|
    ensures var js := EncodeOperands(t, opcode, operands, k);
            (js.Success? && Collect(js.value, OperandDecoder(host)) == Success(operands[k..]))
            == forall i :: k <= i < |operands| ==> Exchangeable(host, opcode, i, operands[i])
    decreases |operands| - k
  {
    hide Exchangeable, EncodeOperand, DecodeOperand;
    if k == |operands| {
      assert operands[k..] == [];
    } else {
      OperandsExactly(host, t, opcode, k, operands[k]);
      OperandsComeBack(host, t, opcode, operands, k + 1);
      var first, others := EncodeOperand(t, opcode, k, operands[k]), EncodeOperands(t, opcode, operands, k + 1);
      assert operands[k..] == [operands[k]] + operands[k + 1..];
      assert (forall i :: k <= i < |operands| ==> Exchangeable(host, opcode, i, operands[i])) <==>
             Exchangeable(host, opcode, k, operands[k]) &&
             forall i :: k + 1 <= i < |operands| ==> Exchangeable(host, opcode, i, operands[i]);
      if first.Success? && others.Success? {
        var all := [first.value] + others.value;
        assert all[0] == first.value && all[1..] == others.value;
        var back, rest := DecodeOperand(host, first.value), Collect(others.value, OperandDecoder(host));
        assert OperandDecoder(host)(first.value) == back;
        if back.Success? && rest.Success? {
          SameSequence(back.value, rest.value, operands[k], operands[k + 1..]);
        }
      }
    }
  }

  lemma InstructionComesBack(host: Host, t: Tables, i: Instruction)
    requires Registered(host)
    ensures ComesBack(i, InstructionEncoder(t), InstructionDecoder(host), NormalInstruction) <==> GoodInstruction(host, i)
  {
    OperandsComeBack(host, t, i.opcode, i.operands, 0);
    assert i.operands[0..] == i.operands;
    var js := EncodeOperands(t, i.opcode, i.operands, 0);
    if js.Success? {
      assert |"opcode"| != |"operands"|;
      var a, b := Field("opcode", Text(i.opcode)), Field("operands", Array(js.value));
      PairField(a, b, "opcode");
      PairField(a, b, "operands");
    }
    hide Exchangeable, EncodeOperands, Collect, Has, GetField;
  }

  // --- functions ----------------------------------------------------------------------------------

  lemma FunctionKeys()
    ensures "name" != "params" && "name" != "register_count" && "name" != "instructions" && "name" != "rest"
    ensures "params" != "register_count" && "params" != "instructions" && "params" != "rest"
    ensures "register_count" != "instructions" && "register_count" != "rest" && "instructions" != "rest"
  {
    assert |"name"| == 4 && |"params"| == 6 && |"register_count"| == 14 && |"instructions"| == 12 && |"rest"| == 4;
    assert "name"[0] == 'n' && "rest"[0] == 'r';
  }

  lemma FunctionFieldsRead(f: Function, js: seq<Json>)
    ensures var j := Object(FunctionFields(f, js));
            && Has(j, "name") && Get(j, "name") == Text(f.name)
            && Get(j, "params") == Array(Each(f.params, p => Text(p)))
            && Get(j, "register_count") == Number(f.registerCount)
            && Get(j, "instructions") == Array(js)
            && Get(j, "rest") == if f.restParam.Some? then Text(f.restParam.value) else Null
  {
    FunctionKeys();
    var fields := FunctionFields(f, js);
    assert fields[0].name == "name" && fields[1].name == "params" && fields[2].name == "register_count";
    assert fields[3].name == "instructions" && (f.restParam.Some? ==> fields[4].name == "rest");
    FieldIn(fields, 0);
    FieldIn(fields, 1);
    FieldIn(fields, 2);
    FieldIn(fields, 3);
    if f.restParam.Some? { FieldIn(fields, 4); } else { FieldMissing(fields, "rest"); }
  }

  /** Decoding the fields of a function loses only an empty rest parameter. */
  lemma FunctionDecodes(host: Host, layout: seq<Layout>, f: Function, js: seq<Json>)
    ensures var r, back := DecodeFunction(host, layout, Object(FunctionFields(f, js))), Collect(js, InstructionDecoder(host));
            && (r.Success? <==> back.Success?)
            && (r.Success? ==> r.value == f.(instructions := back.value, layout := layout,
                                            restParam := if f.restParam == Some("") then None else f.restParam))
  {
    FunctionFieldsRead(f, js);
    var j := Object(FunctionFields(f, js));
    hide FunctionFields, Get, Has, Collect, InstructionDecoder;
    assert Each(ItemsOf(Get(j, "params")), p => AsText(host, p)) == f.params;
  }

  lemma FunctionComesBack(host: Host, t: Tables, layout: seq<Layout>, f: Function)
    requires Registered(host)
    ensures ComesBack(f, FunctionEncoder(t), FunctionDecoder(host, layout), NormalFunction(layout)) <==> GoodFunction(host, f)
  {
    forall k | 0 <= k < |f.instructions|
      ensures ComesBack(f.instructions[k], InstructionEncoder(t), InstructionDecoder(host), NormalInstruction)
         <==> GoodInstruction(host, f.instructions[k])
    {
      InstructionComesBack(host, t, f.instructions[k]);
    }
    ListComesBack(f.instructions, InstructionEncoder(t), InstructionDecoder(host), NormalInstruction);
    hide GoodInstruction, InstructionEncoder, InstructionDecoder, Collect, NormalInstruction, FunctionFields, DecodeFunction;
    var js := Collect(f.instructions, InstructionEncoder(t));
    if js.Success? {
      FunctionDecodes(host, layout, f, js.value);
      var j := Object(FunctionFields(f, js.value));
      assert FunctionDecoder(host, layout)(j) == DecodeFunction(host, layout, j);
    }
  }

  // --- programs ----------------------------------------------------------------------------------

  lemma SlotReads(host: Host, s: Slot)
    ensures DecodeSlot(host, EncodeSlot(s)) == s
  {
    assert |"symbol"| == 6 && |"index"| == 5 && |"source"| == 6 && "symbol"[1] == 'y' && "source"[1] == 'o';
    var fields := EncodeSlot(s).fields;
    FieldIn(fields, 0);
    FieldIn(fields, 1);
    FieldIn(fields, 2);
  }

  lemma LayoutFieldsRead(l: Layout)
    ensures var j := EncodeLayout(l);
            && Get(j, "id") == Number(l.id) && Has(j, "name") && Get(j, "name") == Text(l.name)
            && Get(j, "parent") == (if l.parent.Some? then Number(l.parent.value) else Null)
            && Get(j, "slots") == Array(Each(l.slots, EncodeSlot))
  {
    hide EncodeSlot;
    assert |"id"| == 2 && |"name"| == 4 && |"parent"| == 6 && |"slots"| == 5;
    var fields := EncodeLayout(l).fields;
    assert fields[0].name == "id" && fields[1].name == "name" && fields[2].name == "parent" && fields[3].name == "slots";
    FieldIn(fields, 0);
    FieldIn(fields, 1);
    FieldIn(fields, 2);
    FieldIn(fields, 3);
  }

  lemma LayoutReads(host: Host, l: Layout)
    ensures DecodeLayout(host, EncodeLayout(l)) == l
  {
    LayoutFieldsRead(l);
    forall k | 0 <= k < |l.slots| ensures DecodeSlot(host, EncodeSlot(l.slots[k])) == l.slots[k] {
      SlotReads(host, l.slots[k]);
    }
    hide DecodeSlot, EncodeSlot, EncodeLayout, Get, Has;
    assert DecodeLayout(host, EncodeLayout(l)).slots == l.slots;
  }

  lemma ProgramKeys()
    ensures "version" != "main" && "version" != "functions" && "version" != "symbol_spaces"
    ensures "main" != "functions" && "main" != "symbol_spaces" && "functions" != "symbol_spaces"
  {
    assert |"version"| == 7 && |"main"| == 4 && |"functions"| == 9 && |"symbol_spaces"| == 13;
  }

  lemma ProgramFieldsRead(t: Tables, p: Program)
    requires Serialize(t, p).Success?
    ensures var j := Serialize(t, p).value;
            && Get(j, "version") == Number(1) && Get(j, "main") == Number(p.main)
            && Get(j, "functions") == Array(Collect(p.functions, FunctionEncoder(t)).value)
            && ItemsOf(Get(j, "symbol_spaces")) == Each(p.layout, EncodeLayout)
  {
    hide Collect, FunctionEncoder, EncodeLayout;
    ProgramKeys();
    var fields := Serialize(t, p).value.fields;
    assert fields[0].name == "version" && fields[1].name == "main" && fields[2].name == "functions";
    FieldIn(fields, 0);
    FieldIn(fields, 1);
    FieldIn(fields, 2);
    if p.layout == [] {
      FieldMissing(fields, "symbol_spaces");
      assert Each(p.layout, EncodeLayout) == [];
    } else {
      assert fields[3].name == "symbol_spaces";
      FieldIn(fields, 3);
    }
  }

  predicate Good(host: Host, p: Program) {
    forall k :: 0 <= k < |p.functions| ==> GoodFunction(host, p.functions[k])
  }

  /** A program comes back from its JSON tree, in its normal form, exactly when every operand
      can be carried where it stands and no rest parameter is nameless. */
  lemma ProgramsExactly(host: Host, t: Tables, p: Program)
    requires Registered(host)
    ensures (Serialize(t, p).Success? && Load(host, Serialize(t, p).value) == Success(Normal(p))) <==> Good(host, p)
  {
    forall k | 0 <= k < |p.functions|
      ensures ComesBack(p.functions[k], FunctionEncoder(t), FunctionDecoder(host, p.layout), NormalFunction(p.layout))
         <==> GoodFunction(host, p.functions[k])
    {
      FunctionComesBack(host, t, p.layout, p.functions[k]);
    }
    ListComesBack(p.functions, FunctionEncoder(t), FunctionDecoder(host, p.layout), NormalFunction(p.layout));
    if Serialize(t, p).Success? {
      ProgramFieldsRead(t, p);
      LayoutsRead(host, Get(Serialize(t, p).value, "symbol_spaces"), p.layout);
    }
    hide GoodFunction, FunctionEncoder, FunctionDecoder, Collect, NormalFunction, Get, ItemsOf, DecodeLayout, ComesBack;
  }

  lemma LayoutsRead(host: Host, j: Json, layout: seq<Layout>)
    requires ItemsOf(j) == Each(layout, EncodeLayout)
    ensures Each(ItemsOf(j), l => DecodeLayout(host, l)) == layout
  {
    hide DecodeLayout, EncodeLayout;
    forall k | 0 <= k < |layout| ensures DecodeLayout(host, EncodeLayout(layout[k])) == layout[k] {
      LayoutReads(host, layout[k]);
    }
  }
}

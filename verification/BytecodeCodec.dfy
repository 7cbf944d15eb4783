/** `serialize_bytecode` and `deserialize_bytecode` as they run (qy/backend/vm/bytecode.py). */
module BytecodeCodec {
  import opened ByteOrder
  import opened Wrappers
  import opened BytecodeBinary

  // --- writing ---------------------------------------------------------------------------

  /** The list of parts; packing fails where `struct.pack` raises. */
  class Writer {
    const codec: Codec
    var parts: seq<Bytes>

    constructor (codec: Codec)
      ensures this.codec == codec && Text() == []
    {
      this.codec := codec;
      parts := [];
    }

    function Text(): Bytes
      reads this
    {
      Concat(parts, Same)
    }

    method Append(b: Bytes)
      modifies this
      ensures Text() == old(Text()) + b
    {
      parts := parts + [b];
      assert parts[..|parts| - 1] == old(parts);
    }

    method PutU32(n: int) returns (ok: bool)
      modifies this
      ensures ok == FitsU32(n) && Text() == if ok then old(Text()) + U32(n) else old(Text())
    {
      ok := 0 <= n < TWO_32;
      if ok {
        Append(LittleEndian(n, 4));
      }
    }

    method PutSized(b: Bytes) returns (ok: bool)
      modifies this
      ensures ok == FitsU32(|b|) && Text() == if ok then old(Text()) + Sized(b) else old(Text())
    {
      hide U32;
      ghost var before := Text();
      ok := PutU32(|b|);
      if ok {
        Append(b);
        Regroup(before, U32(|b|), b);
      }
    }

    method PutInstruction(i: Instruction) returns (ok: bool)
      modifies this
      ensures ok == FitsInstruction(codec, i)
      ensures ok ==> Text() == old(Text()) + InstructionBytes(codec, i)
    {
      hide Sized, U32, Concat, OperandWriter, Text;
      ghost var before := Text();
      ok := PutSized(i.opcode);
      if !ok { return; }
      ok := PutU32(|i.operands|);
      if !ok { return; }
      Regroup(before, Sized(i.opcode), U32(|i.operands|));
      ok := PutOperands(i.operands);
      Regroup(before, Sized(i.opcode) + U32(|i.operands|), Concat(i.operands, OperandWriter(codec)));
    }

    method PutOperands(operands: seq<int>) returns (ok: bool)
      modifies this
      ensures ok == forall k :: 0 <= k < |operands| ==> FitsOperand(codec, operands[k])
      ensures ok ==> Text() == old(Text()) + Concat(operands, OperandWriter(codec))
    {
      hide *;
      ghost var before := Text();
      NothingYet(before, OperandWriter(codec));
      for k := 0 to |operands|
        invariant Text() == before + Concat(operands[..k], OperandWriter(codec))
        invariant forall j :: 0 <= j < k ==> FitsOperand(codec, operands[j])
      {
        WriterAt(codec, operands[k]);
        ok := PutSized(codec.dumps(operands[k]));
        if !ok {
          assert !FitsOperand(codec, operands[k]);
          return;
        }
        OneMore(before, operands, k, OperandWriter(codec));
      }
      WholeList(operands);
      ok := true;
    }

    method PutFunction(f: Function) returns (ok: bool)
      modifies this
      ensures ok == FitsFunction(codec, f)
      ensures ok ==> Text() == old(Text()) + FunctionBytes(codec, f)
    {
      hide Sized, U32, Concat, InstructionWriter, Text, FitsInstruction, FunctionHead;
      ghost var before := Text();
      ok := PutFunctionHead(f);
      if !ok { return; }
      NothingYet(before + FunctionHead(f), InstructionWriter(codec));
      for k := 0 to |f.instructions|
        invariant Text() == before + FunctionHead(f) + Concat(f.instructions[..k], InstructionWriter(codec))
        invariant forall j :: 0 <= j < k ==> FitsInstruction(codec, f.instructions[j])
      {
        ok := PutInstruction(f.instructions[k]);
        if !ok { return; }
        InstructionAt(codec, f.instructions[k]);
        OneMore(before + FunctionHead(f), f.instructions, k, InstructionWriter(codec));
      }
      WholeList(f.instructions);
      Regroup(before, FunctionHead(f), Concat(f.instructions, InstructionWriter(codec)));
      ok := true;
    }

    method PutFunctionHead(f: Function) returns (ok: bool)
      modifies this
      ensures ok == (FitsU32(|f.name|) && FitsU32(|f.params|) && FitsU32(f.registerCount) && FitsU32(|f.instructions|)
                     && forall k :: 0 <= k < |f.params| ==> FitsU32(|f.params[k]|))
      ensures ok ==> Text() == old(Text()) + FunctionHead(f)
    {
      hide Sized, U32, Concat, Text;
      ghost var before := Text();
      ok := PutSized(f.name);
      if !ok { return; }
      ok := PutU32(|f.params|);
      if !ok { return; }
      ghost var start := Sized(f.name) + U32(|f.params|);
      Regroup(before, Sized(f.name), U32(|f.params|));
      NothingYet(before + start, Sized);
      for k := 0 to |f.params|
        invariant Text() == before + start + Concat(f.params[..k], Sized)
        invariant forall j :: 0 <= j < k ==> FitsU32(|f.params[j]|)
      {
        ok := PutSized(f.params[k]);
        if !ok { return; }
        OneMore(before + start, f.params, k, Sized);
      }
      WholeList(f.params);
      var okRegisters := PutU32(f.registerCount);
      if !okRegisters { return false; }
      var okCount := PutU32(|f.instructions|);
      if !okCount { return false; }
      HeadRegrouped(before, start, Concat(f.params, Sized), U32(f.registerCount), U32(|f.instructions|));
      ok := true;
    }

    method PutDiagnostic(d: Diagnostic) returns (ok: bool)
      modifies this
      ensures ok == FitsDiagnostic(d) && (ok ==> Text() == old(Text()) + DiagnosticBytes(d))
    {
      hide Sized, Text;
      ghost var before := Text();
      ok := PutSized(d.severity);
      if !ok { return; }
      ok := PutSized(d.message);
      Regroup(before, Sized(d.severity), Sized(d.message));
    }

    method PutHeader(p: Program) returns (ok: bool)
      requires Text() == []
      modifies this
      ensures ok == (FitsU32(p.main) && FitsU32(|p.functions|) && FitsU32(|p.diagnostics|))
      ensures ok ==> Text() == Header(p)
    {
      hide U32, Text;
      Append(MAGIC);
      Append(LittleEndian(VERSION, 2));
      ok := PutU32(p.main);
      if !ok { return; }
      ok := PutU32(|p.functions|);
      if !ok { return; }
      ok := PutU32(|p.diagnostics|);
      assert [] + MAGIC == MAGIC;
    }

    method PutProgram(p: Program) returns (ok: bool)
      requires Text() == []
      modifies this
      ensures ok == Fits(codec, p) && (ok ==> Text() == ProgramBytes(codec, p))
    {
      hide Header, Text, Concat, FunctionWriter, FitsFunction, FitsDiagnostic, DiagnosticBytes;
      ok := PutHeader(p);
      if !ok { return; }
      NothingYet(Header(p), FunctionWriter(codec));
      for k := 0 to |p.functions|
        invariant Text() == Header(p) + Concat(p.functions[..k], FunctionWriter(codec))
        invariant forall j :: 0 <= j < k ==> FitsFunction(codec, p.functions[j])
      {
        ok := PutFunction(p.functions[k]);
        if !ok { return; }
        FunctionAt(codec, p.functions[k]);
        OneMore(Header(p), p.functions, k, FunctionWriter(codec));
      }
      WholeList(p.functions);
      ghost var before := Text();
      NothingYet(before, DiagnosticBytes);
      for k := 0 to |p.diagnostics|
        invariant Text() == before + Concat(p.diagnostics[..k], DiagnosticBytes)
        invariant forall j :: 0 <= j < k ==> FitsDiagnostic(p.diagnostics[j])
      {
        ok := PutDiagnostic(p.diagnostics[k]);
        if !ok { return; }
        OneMore(before, p.diagnostics, k, DiagnosticBytes);
      }
      WholeList(p.diagnostics);
      ok := true;
    }
  }

  lemma NothingYet<T>(before: Bytes, write: T -> Bytes)
    ensures forall s: seq<T> :: before + Concat(s[..0], write) == before
  {
  }

  lemma OneMore<T>(before: Bytes, items: seq<T>, k: nat, write: T -> Bytes)
    requires k < |items|
    ensures before + Concat(items[..k + 1], write) == before + Concat(items[..k], write) + write(items[k])
  {
    assert items[..k + 1][..k] == items[..k];
    Regroup(before, Concat(items[..k], write), write(items[k]));
  }

  lemma WholeList<T>(items: seq<T>)
    ensures items[..|items|] == items
  {
  }

  lemma WriterAt(codec: Codec, x: int)
    ensures OperandWriter(codec)(x) == Sized(codec.dumps(x))
    ensures FitsOperand(codec, x) <==> FitsU32(|codec.dumps(x)|)
  {
  }

  lemma InstructionAt(codec: Codec, i: Instruction)
    ensures InstructionWriter(codec)(i) == InstructionBytes(codec, i)
  {
  }

  lemma FunctionAt(codec: Codec, f: Function)
    ensures FunctionWriter(codec)(f) == FunctionBytes(codec, f)
  {
  }

  lemma HeadRegrouped(before: Bytes, start: Bytes, params: Bytes, registers: Bytes, count: Bytes)
    ensures before + start + params + registers + count == before + (start + params + registers + count)
  {
    Regroup(before, start, params);
    Regroup(before, start + params, registers);
    Regroup(before, start + params + registers, count);
  }

  method SerializeBytecode(codec: Codec, p: Program) returns (data: Result<Bytes, Error>)
    ensures data == if Fits(codec, p) then Success(ProgramBytes(codec, p)) else Failure(OutOfRange)
  {
    var w := new Writer(codec);
    var ok := w.PutProgram(p);
    data := if ok then Success(w.Text()) else Failure(OutOfRange);
  }

  // --- reading ------------------------------------------------------------------------------

  class Reader {
    const codec: Codec
    const data: Bytes
    var offset: nat

    ghost predicate Valid()
      reads this
    {
      offset <= |data|
    }

    constructor (codec: Codec, data: Bytes)
      ensures this.codec == codec && this.data == data && offset == 0
    {
      this.codec := codec;
      this.data := data;
      offset := 0;
    }

    /** What was read, with the cursor behind it. */
    ghost predicate Agrees<T>(r: Result<T, Error>, spec: Result<Got<T>, Error>)
      reads this
    {
      match spec
      case Success(got) => r == Success(got.value) && offset <= |data| && data[offset..] == got.rest
      case Failure(e) => r == Failure(e)
    }

    method ReadBytes(n: nat) returns (r: Result<Bytes, Error>)
      requires Valid()
      modifies this
      ensures Valid() && Agrees(r, Take(data[old(offset)..], n))
    {
      if |data| - offset < n { return Failure(UnexpectedEnd); }
      ghost var rest := data[offset..];
      r := Success(data[offset..offset + n]);
      assert data[offset..offset + n] == rest[..n] && data[offset + n..] == rest[n..];
      offset := offset + n;
    }

    method ReadU32() returns (r: Result<nat, Error>)
      requires Valid()
      modifies this
      ensures Valid() && Agrees(r, TakeU32(data[old(offset)..]))
    {
      hide Take;
      var bytes :- ReadBytes(4);
      return Success(FromLittleEndian(bytes));
    }

    method ReadString() returns (r: Result<Bytes, Error>)
      requires Valid()
      modifies this
      ensures Valid() && Agrees(r, TakeSized(data[old(offset)..]))
    {
      hide Take, TakeU32;
      var length :- ReadU32();
      r := ReadBytes(length);
    }

    method ReadOperands(count: nat) returns (r: Result<seq<int>, Error>)
      requires Valid()
      modifies this
      ensures Valid() && Agrees(r, Many(count, OperandReader(codec), data[old(offset)..]))
    {
      hide TakeSized, Many;
      ghost var read := OperandReader(codec);
      var operands: seq<int> := [];
      ManyStart(count, read, data[offset..]);
      for k := 0 to count
        invariant Valid()
        invariant Many(count, read, data[old(offset)..]) == After(operands, Many(count - k, read, data[offset..]))
      {
        ManyNext(operands, count - k, read, data[offset..]);
        var bytes :- ReadString();
        var x := codec.loads(bytes);
        if x.None? { return Failure(InvalidOperand); }
        operands := operands + [x.value];
      }
      ManyDone(operands, read, data[offset..]);
      return Success(operands);
    }

    method ReadInstruction() returns (r: Result<Instruction, Error>)
      requires Valid()
      modifies this
      ensures Valid() && Agrees(r, TakeInstruction(codec, data[old(offset)..]))
    {
      hide TakeSized, TakeU32, Many, OperandReader;
      var opcode :- ReadString();
      var count :- ReadU32();
      var operands :- ReadOperands(count);
      return Success(Instruction(opcode, operands, None));
    }

    method ReadParams(count: nat) returns (r: Result<seq<Bytes>, Error>)
      requires Valid()
      modifies this
      ensures Valid() && Agrees(r, Many(count, TakeSized, data[old(offset)..]))
    {
      hide TakeSized, Many;
      var params: seq<Bytes> := [];
      ManyStart(count, TakeSized, data[offset..]);
      for k := 0 to count
        invariant Valid()
        invariant Many(count, TakeSized, data[old(offset)..]) == After(params, Many(count - k, TakeSized, data[offset..]))
      {
        ManyNext(params, count - k, TakeSized, data[offset..]);
        var param :- ReadString();
        params := params + [param];
      }
      ManyDone(params, TakeSized, data[offset..]);
      return Success(params);
    }

    method ReadFunction() returns (r: Result<Function, Error>)
      requires Valid()
      modifies this
      ensures Valid() && Agrees(r, TakeFunction(codec, data[old(offset)..]))
    {
      hide TakeSized, TakeU32, Many, InstructionReader, TakeInstruction;
      ghost var read := InstructionReader(codec);
      var name :- ReadString();
      var paramCount :- ReadU32();
      var params :- ReadParams(paramCount);
      var registerCount :- ReadU32();
      var count :- ReadU32();
      ghost var start := offset;
      var instructions: seq<Instruction> := [];
      ManyStart(count, read, data[offset..]);
      for k := 0 to count
        invariant Valid()
        invariant Many(count, read, data[start..]) == After(instructions, Many(count - k, read, data[offset..]))
      {
        ManyNext(instructions, count - k, read, data[offset..]);
        ReaderAt(codec, data[offset..]);
        var instruction :- ReadInstruction();
        instructions := instructions + [instruction];
      }
      ManyDone(instructions, read, data[offset..]);
      return Success(Function(name, params, registerCount, instructions, NO_LAYOUT, None));
    }

    method ReadDiagnostic() returns (r: Result<Diagnostic, Error>)
      requires Valid()
      modifies this
      ensures Valid() && Agrees(r, TakeDiagnostic(data[old(offset)..]))
    {
      hide TakeSized;
      var severity :- ReadString();
      var message :- ReadString();
      return Success(Diagnostic(message, severity));
    }

    method ReadHeader() returns (r: Result<Counts, Error>)
      requires Valid()
      modifies this
      ensures Valid() && Agrees(r, TakeHeader(data[old(offset)..]))
    {
      hide Take, TakeU32, FromLittleEndian;
      var magic :- ReadBytes(4);
      if magic != MAGIC { return Failure(InvalidMagic); }
      var version :- ReadBytes(2);
      if FromLittleEndian(version) != VERSION { return Failure(UnsupportedVersion); }
      var main :- ReadU32();
      var functionCount :- ReadU32();
      var diagnosticCount :- ReadU32();
      return Success(Counts(main, functionCount, diagnosticCount));
    }

    method ReadProgram() returns (r: Result<Program, Error>)
      requires Valid()
      modifies this
      ensures Valid() && Agrees(r, TakeProgram(codec, data[old(offset)..]))
    {
      hide TakeHeader, Many, FunctionReader, TakeFunction, TakeDiagnostic;
      ghost var read := FunctionReader(codec);
      var header :- ReadHeader();
      ghost var start := offset;
      var functions: seq<Function> := [];
      ManyStart(header.functions, read, data[offset..]);
      for k := 0 to header.functions
        invariant Valid()
        invariant Many(header.functions, read, data[start..])
               == After(functions, Many(header.functions - k, read, data[offset..]))
      {
        ManyNext(functions, header.functions - k, read, data[offset..]);
        FunctionReaderAt(codec, data[offset..]);
        var fn :- ReadFunction();
        functions := functions + [fn];
      }
      ManyDone(functions, read, data[offset..]);
      start := offset;
      var diagnostics: seq<Diagnostic> := [];
      ManyStart(header.diagnostics, TakeDiagnostic, data[offset..]);
      for k := 0 to header.diagnostics
        invariant Valid()
        invariant Many(header.diagnostics, TakeDiagnostic, data[start..])
               == After(diagnostics, Many(header.diagnostics - k, TakeDiagnostic, data[offset..]))
      {
        ManyNext(diagnostics, header.diagnostics - k, TakeDiagnostic, data[offset..]);
        var diagnostic :- ReadDiagnostic();
        diagnostics := diagnostics + [diagnostic];
      }
      ManyDone(diagnostics, TakeDiagnostic, data[offset..]);
      return Success(Program(functions, header.main, diagnostics, NO_LAYOUT));
    }
  }

  /** The items read so far in front of those that are still to come. */
  function After<T>(items: seq<T>, rest: Result<Got<seq<T>>, Error>): Result<Got<seq<T>>, Error> {
    match rest
    case Success(got) => Success(Got(items + got.value, got.rest))
    case Failure(e) => Failure(e)
  }

  lemma ManyStart<T>(n: nat, read: Bytes -> Result<Got<T>, Error>, b: Bytes)
    ensures Many(n, read, b) == After([], Many(n, read, b))
  {
    var all := Many(n, read, b);
    if all.Success? { assert [] + all.value.value == all.value.value; }
  }

  lemma ManyNext<T>(items: seq<T>, n: nat, read: Bytes -> Result<Got<T>, Error>, b: Bytes)
    requires n > 0
    ensures read(b).Failure? ==> After(items, Many(n, read, b)) == Failure(read(b).error)
    ensures read(b).Success? ==>
              After(items, Many(n, read, b)) == After(items + [read(b).value.value], Many(n - 1, read, read(b).value.rest))
  {
    if read(b).Success? {
      var others := Many(n - 1, read, read(b).value.rest);
      if others.Success? {
        assert items + ([read(b).value.value] + others.value.value) == items + [read(b).value.value] + others.value.value;
      }
    }
  }

  lemma ManyDone<T>(items: seq<T>, read: Bytes -> Result<Got<T>, Error>, b: Bytes)
    ensures After(items, Many(0, read, b)) == Success(Got(items, b))
  {
    assert items + [] == items;
  }

  lemma ReaderAt(codec: Codec, b: Bytes)
    ensures InstructionReader(codec)(b) == TakeInstruction(codec, b)
  {
  }

  lemma FunctionReaderAt(codec: Codec, b: Bytes)
    ensures FunctionReader(codec)(b) == TakeFunction(codec, b)
  {
  }

  method DeserializeBytecode(codec: Codec, data: Bytes) returns (p: Result<Program, Error>, consumed: nat)
    ensures consumed <= |data|
    ensures var spec := TakeProgram(codec, data);
            p == if spec.Success? then Success(spec.value.value) else Failure(spec.error)
    ensures p.Success? ==> data[consumed..] == TakeProgram(codec, data).value.rest
  {
    var r := new Reader(codec, data);
    assert data[0..] == data;
    p := r.ReadProgram();
    consumed := r.offset;
  }

  /** There and back, as the two run: the program, less what the format does not carry, or the
      error of a number that cannot be packed; trailing bytes are left alone. */
  method RoundTrip(codec: Codec, p: Program, trailing: Bytes) returns (r: Result<Program, Error>)
    requires Inverse(codec)
    ensures r == if Fits(codec, p) then Success(Erased(p)) else Failure(OutOfRange)
  {
    var data :- SerializeBytecode(codec, p);
    ProgramReadsBack(codec, p, trailing);
    var consumed;
    r, consumed := DeserializeBytecode(codec, data + trailing);
  }
}

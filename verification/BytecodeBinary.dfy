/**
 The binary bytecode format (qy/backend/vm/bytecode.py): counts and lengths in front of what
 they count. Names are given by their UTF-8 bytes, operands by an abstract pair of functions
 in place of the pickle module.
 */
module BytecodeBinary {
  import opened ByteOrder
  import opened Wrappers

  type Bytes = seq<Byte>

  datatype Instruction = Instruction(opcode: Bytes, operands: seq<int>, span: Option<int>)
  datatype Function = Function(
    name: Bytes, params: seq<Bytes>, registerCount: int, instructions: seq<Instruction>,
    layout: int, restParam: Option<Bytes>)
  datatype Diagnostic = Diagnostic(message: Bytes, severity: Bytes)
  datatype Program = Program(functions: seq<Function>, main: int, diagnostics: seq<Diagnostic>, layout: int)

  /** No symbol-space layout. */
  const NO_LAYOUT := 0

  datatype Error = OutOfRange | UnexpectedEnd | InvalidMagic | UnsupportedVersion | InvalidOperand

  /** An operand's bytes, and the operand that bytes stand for. */
  datatype Codec = Codec(dumps: int -> Bytes, loads: Bytes -> Option<int>)

  ghost predicate Inverse(codec: Codec) {
    forall x :: codec.loads(codec.dumps(x)) == Some(x)
  }

  // --- what the format does not carry -------------------------------------------------------

  function ErasedInstruction(i: Instruction): Instruction { i.(span := None) }

  function Each<S, T>(items: seq<S>, f: S -> T): (r: seq<T>)
    ensures |r| == |items| && forall k :: 0 <= k < |items| ==> r[k] == f(items[k])
  {
    seq(|items|, k requires 0 <= k < |items| => f(items[k]))
  }

  function ErasedFunction(f: Function): Function {
    f.(instructions := Each(f.instructions, ErasedInstruction), layout := NO_LAYOUT, restParam := None)
  }

  function Erased(p: Program): Program {
    p.(functions := Each(p.functions, ErasedFunction), layout := NO_LAYOUT)
  }

  // --- writing --------------------------------------------------------------------------------

  predicate FitsU32(n: int) { 0 <= n < TWO_32 }

  function U32(n: int): Bytes { if n < 0 then [] else LittleEndian(n, 4) }

  function Sized(b: Bytes): Bytes { U32(|b|) + b }

  function Concat<T>(items: seq<T>, write: T -> Bytes): Bytes {
    if items == [] then [] else Concat(items[..|items| - 1], write) + write(items[|items| - 1])
  }

  function OperandWriter(codec: Codec): int -> Bytes { x => Sized(codec.dumps(x)) }

  function InstructionBytes(codec: Codec, i: Instruction): Bytes {
    Sized(i.opcode) + U32(|i.operands|) + Concat(i.operands, OperandWriter(codec))
  }

  function InstructionWriter(codec: Codec): Instruction -> Bytes { i => InstructionBytes(codec, i) }

  function FunctionHead(f: Function): Bytes {
    Sized(f.name) + U32(|f.params|) + Concat(f.params, Sized) + U32(f.registerCount) + U32(|f.instructions|)
  }

  function FunctionBytes(codec: Codec, f: Function): Bytes {
    FunctionHead(f) + Concat(f.instructions, InstructionWriter(codec))
  }

  function FunctionWriter(codec: Codec): Function -> Bytes { f => FunctionBytes(codec, f) }

  function DiagnosticBytes(d: Diagnostic): Bytes { Sized(d.severity) + Sized(d.message) }

  const MAGIC: Bytes := [0x51, 0x59, 0, 1]
  const VERSION := 1

  function Header(p: Program): Bytes {
    MAGIC + LittleEndian(VERSION, 2) + U32(p.main) + U32(|p.functions|) + U32(|p.diagnostics|)
  }

  function ProgramBytes(codec: Codec, p: Program): Bytes {
    Header(p) + Concat(p.functions, FunctionWriter(codec)) + Concat(p.diagnostics, DiagnosticBytes)
  }

  /** Every count and length can be packed. */
  predicate FitsInstruction(codec: Codec, i: Instruction) {
    && FitsU32(|i.opcode|) && FitsU32(|i.operands|)
    && forall k :: 0 <= k < |i.operands| ==> FitsOperand(codec, i.operands[k])
  }

  predicate FitsOperand(codec: Codec, x: int) { FitsU32(|codec.dumps(x)|) }

  predicate FitsFunction(codec: Codec, f: Function) {
    && FitsU32(|f.name|) && FitsU32(|f.params|) && FitsU32(f.registerCount) && FitsU32(|f.instructions|)
    && (forall k :: 0 <= k < |f.params| ==> FitsU32(|f.params[k]|))
    && forall k :: 0 <= k < |f.instructions| ==> FitsInstruction(codec, f.instructions[k])
  }

  predicate FitsDiagnostic(d: Diagnostic) { FitsU32(|d.severity|) && FitsU32(|d.message|) }

  predicate Fits(codec: Codec, p: Program) {
    && FitsU32(p.main) && FitsU32(|p.functions|) && FitsU32(|p.diagnostics|)
    && (forall k :: 0 <= k < |p.functions| ==> FitsFunction(codec, p.functions[k]))
    && forall k :: 0 <= k < |p.diagnostics| ==> FitsDiagnostic(p.diagnostics[k])
  }

  // --- reading ----------------------------------------------------------------------------------

  datatype Got<+T> = Got(value: T, rest: Bytes)

  function Take(b: Bytes, n: nat): Result<Got<Bytes>, Error> {
    if |b| < n then Failure(UnexpectedEnd) else Success(Got(b[..n], b[n..]))
  }

  function TakeU32(b: Bytes): Result<Got<nat>, Error> {
    var got :- Take(b, 4);
    Success(Got(FromLittleEndian(got.value), got.rest))
  }

  function TakeSized(b: Bytes): Result<Got<Bytes>, Error> {
    var length :- TakeU32(b);
    Take(length.rest, length.value)
  }

  function Many<T>(n: nat, read: Bytes -> Result<Got<T>, Error>, b: Bytes): Result<Got<seq<T>>, Error> {
    if n == 0 then Success(Got([], b))
    else
      var first :- read(b);
      var others :- Many(n - 1, read, first.rest);
      Success(Got([first.value] + others.value, others.rest))
  }

  function TakeOperand(codec: Codec, b: Bytes): Result<Got<int>, Error> {
    var got :- TakeSized(b);
    var x := codec.loads(got.value);
    if x.None? then Failure(InvalidOperand) else Success(Got(x.value, got.rest))
  }

  function OperandReader(codec: Codec): Bytes -> Result<Got<int>, Error> {
    b => TakeOperand(codec, b)
  }

  function TakeInstruction(codec: Codec, b: Bytes): Result<Got<Instruction>, Error> {
    var opcode :- TakeSized(b);
    var count :- TakeU32(opcode.rest);
    var operands :- Many(count.value, OperandReader(codec), count.rest);
    Success(Got(Instruction(opcode.value, operands.value, None), operands.rest))
  }

  function InstructionReader(codec: Codec): Bytes -> Result<Got<Instruction>, Error> {
    b => TakeInstruction(codec, b)
  }

  datatype Head = Head(name: Bytes, params: seq<Bytes>, registerCount: nat, count: nat)

  function TakeHead(b: Bytes): Result<Got<Head>, Error> {
    var name :- TakeSized(b);
    var paramCount :- TakeU32(name.rest);
    var params :- Many(paramCount.value, TakeSized, paramCount.rest);
    var registerCount :- TakeU32(params.rest);
    var count :- TakeU32(registerCount.rest);
    Success(Got(Head(name.value, params.value, registerCount.value, count.value), count.rest))
  }

  function TakeFunction(codec: Codec, b: Bytes): Result<Got<Function>, Error> {
    var head :- TakeHead(b);
    var instructions :- Many(head.value.count, InstructionReader(codec), head.rest);
    Success(Got(Function(head.value.name, head.value.params, head.value.registerCount, instructions.value, NO_LAYOUT, None),
                instructions.rest))
  }

  function FunctionReader(codec: Codec): Bytes -> Result<Got<Function>, Error> {
    b => TakeFunction(codec, b)
  }

  function TakeDiagnostic(b: Bytes): Result<Got<Diagnostic>, Error> {
    var severity :- TakeSized(b);
    var message :- TakeSized(severity.rest);
    Success(Got(Diagnostic(message.value, severity.value), message.rest))
  }

  datatype Counts = Counts(main: nat, functions: nat, diagnostics: nat)

  function TakeHeader(b: Bytes): Result<Got<Counts>, Error> {
    var magic :- Take(b, 4);
    if magic.value != MAGIC then Failure(InvalidMagic)
    else
      var version :- Take(magic.rest, 2);
      if FromLittleEndian(version.value) != VERSION then Failure(UnsupportedVersion)
      else
        var main :- TakeU32(version.rest);
        var functions :- TakeU32(main.rest);
        var diagnostics :- TakeU32(functions.rest);
        Success(Got(Counts(main.value, functions.value, diagnostics.value), diagnostics.rest))
  }

  function TakeProgram(codec: Codec, b: Bytes): Result<Got<Program>, Error> {
    var header :- TakeHeader(b);
    var functions :- Many(header.value.functions, FunctionReader(codec), header.rest);
    var diagnostics :- Many(header.value.diagnostics, TakeDiagnostic, functions.rest);
    Success(Got(Program(functions.value, header.value.main, diagnostics.value, NO_LAYOUT), diagnostics.rest))
  }

  // --- reading what was written ------------------------------------------------------------------

  lemma Regroup(a: Bytes, b: Bytes, c: Bytes)
    ensures a + b + c == a + (b + c)
  {
  }

  lemma Regroup4(a: Bytes, b: Bytes, c: Bytes, d: Bytes)
    ensures a + b + c + d == a + (b + (c + d))
  {
    Regroup(a, b, c);
    Regroup(a, b + c, d);
    Regroup(b, c, d);
  }

  lemma Regroup6(a: Bytes, b: Bytes, c: Bytes, d: Bytes, e: Bytes, f: Bytes)
    ensures a + b + c + d + e + f == a + (b + (c + (d + (e + f))))
  {
    Regroup4(a, b, c, d);
    Regroup(a + b + c + d, e, f);
    Regroup4(a, b, c + d, e + f);
    Regroup(c, d, e + f);
    Regroup4(a, b, c, d);
    Regroup4(a, b, c, d + (e + f));
    Regroup(a + b + c, d, e + f);
  }

  lemma TakeFirst(b: Bytes, rest: Bytes)
    ensures Take(b + rest, |b|) == Success(Got(b, rest))
  {
    assert (b + rest)[..|b|] == b && (b + rest)[|b|..] == rest;
  }

  lemma U32ReadsBack(n: int, rest: Bytes)
    requires FitsU32(n)
    ensures TakeU32(U32(n) + rest) == Success(Got(n, rest))
  {
    hide LittleEndian, FromLittleEndian, Pow256;
    WordWidths();
    LittleEndianRoundTrip(n, 4);
    TakeFirst(U32(n), rest);
  }

  lemma SizedReadsBack(b: Bytes, rest: Bytes)
    requires FitsU32(|b|)
    ensures TakeSized(Sized(b) + rest) == Success(Got(b, rest))
  {
    hide U32, TakeU32;
    assert Sized(b) + rest == U32(|b|) + (b + rest);
    U32ReadsBack(|b|, b + rest);
    TakeFirst(b, rest);
  }

  /** A list reads back when its items do, each up to `erase`. */
  ghost predicate ReadsBack<T(!new)>(x: T, write: T -> Bytes, read: Bytes -> Result<Got<T>, Error>, erase: T -> T) {
    forall rest :: read(write(x) + rest) == Success(Got(erase(x), rest))
  }

  lemma ReadsBackNow<T(!new)>(x: T, write: T -> Bytes, read: Bytes -> Result<Got<T>, Error>, erase: T -> T, rest: Bytes)
    requires ReadsBack(x, write, read, erase)
    ensures read(write(x) + rest) == Success(Got(erase(x), rest))
  {
  }

  lemma {:induction false} ManyReadBack<T(!new)>(items: seq<T>, write: T -> Bytes,
      read: Bytes -> Result<Got<T>, Error>, erase: T -> T, rest: Bytes)
    requires forall k :: 0 <= k < |items| ==> ReadsBack(items[k], write, read, erase)
    ensures Many(|items|, read, Concat(items, write) + rest) == Success(Got(Each(items, erase), rest))
  {
    hide ReadsBack;
    if items == [] {
      assert Concat(items, write) + rest == rest;
    } else {
      var first, others := items[0], items[1..];
      ConcatFirst(items, write);
      assert Concat(items, write) + rest == write(first) + (Concat(others, write) + rest);
      ReadsBackNow(first, write, read, erase, Concat(others, write) + rest);
      forall k | 0 <= k < |others| ensures ReadsBack(others[k], write, read, erase) {
        assert ReadsBack(items[k + 1], write, read, erase);
      }
      ManyReadBack(others, write, read, erase, rest);
      assert [erase(first)] + Each(others, erase) == Each(items, erase);
    }
  }

  lemma {:induction false} ConcatFirst<T(!new)>(items: seq<T>, write: T -> Bytes)
    requires items != []
    ensures Concat(items, write) == write(items[0]) + Concat(items[1..], write)
  {
    var front, last := items[..|items| - 1], items[|items| - 1];
    if front == [] {
      assert Concat(front, write) == [] && items[1..] == [];
    } else {
      ConcatFirst(front, write);
      assert front[1..] == items[1..][..|items| - 2];
      assert write(items[0]) + Concat(front[1..], write) + write(last)
          == write(items[0]) + (Concat(front[1..], write) + write(last));
    }
  }

  function Same<T>(x: T): T { x }

  lemma EachSame<T>(items: seq<T>)
    ensures Each(items, Same) == items
  {
  }

  lemma OperandReadsBack(codec: Codec, x: int)
    requires Inverse(codec) && FitsOperand(codec, x)
    ensures ReadsBack(x, OperandWriter(codec), OperandReader(codec), Same)
  {
    hide TakeSized, Sized;
    forall rest: Bytes ensures OperandReader(codec)(OperandWriter(codec)(x) + rest) == Success(Got(Same(x), rest)) {
      SizedReadsBack(codec.dumps(x), rest);
    }
  }

  lemma InstructionReadsBack(codec: Codec, i: Instruction, rest: Bytes)
    requires Inverse(codec) && FitsInstruction(codec, i)
    ensures TakeInstruction(codec, InstructionBytes(codec, i) + rest) == Success(Got(ErasedInstruction(i), rest))
  {
    forall k | 0 <= k < |i.operands|
      ensures ReadsBack(i.operands[k], OperandWriter(codec), OperandReader(codec), Same)
    {
      OperandReadsBack(codec, i.operands[k]);
    }
    hide TakeSized, TakeU32, Sized, U32, Many, Concat, OperandWriter, OperandReader, ReadsBack;
    var operands := Concat(i.operands, OperandWriter(codec));
    var count := U32(|i.operands|) + (operands + rest);
    assert InstructionBytes(codec, i) + rest == Sized(i.opcode) + count;
    SizedReadsBack(i.opcode, count);
    U32ReadsBack(|i.operands|, operands + rest);
    ManyReadBack(i.operands, OperandWriter(codec), OperandReader(codec), Same, rest);
    EachSame(i.operands);
  }

  lemma InstructionsReadBack(codec: Codec, f: Function)
    requires Inverse(codec) && FitsFunction(codec, f)
    ensures forall k :: 0 <= k < |f.instructions| ==>
              ReadsBack(f.instructions[k], InstructionWriter(codec), InstructionReader(codec), ErasedInstruction)
  {
    hide TakeInstruction, InstructionBytes, FitsInstruction;
    forall k, rest: Bytes | 0 <= k < |f.instructions|
      ensures InstructionReader(codec)(InstructionWriter(codec)(f.instructions[k]) + rest)
           == Success(Got(ErasedInstruction(f.instructions[k]), rest))
    {
      InstructionReadsBack(codec, f.instructions[k], rest);
    }
  }

  lemma ParamsReadBack(f: Function, rest: Bytes)
    requires forall k :: 0 <= k < |f.params| ==> FitsU32(|f.params[k]|)
    ensures Many(|f.params|, TakeSized, Concat(f.params, Sized) + rest) == Success(Got(f.params, rest))
  {
    forall k | 0 <= k < |f.params| ensures ReadsBack(f.params[k], Sized, TakeSized, Same) {
      forall rest: Bytes ensures TakeSized(Sized(f.params[k]) + rest) == Success(Got(Same(f.params[k]), rest)) {
        SizedReadsBack(f.params[k], rest);
      }
    }
    ManyReadBack(f.params, Sized, TakeSized, Same, rest);
    EachSame(f.params);
  }

  lemma HeadReadsBack(f: Function, rest: Bytes)
    requires FitsU32(|f.name|) && FitsU32(|f.params|) && FitsU32(f.registerCount) && FitsU32(|f.instructions|)
    requires forall k :: 0 <= k < |f.params| ==> FitsU32(|f.params[k]|)
    ensures TakeHead(FunctionHead(f) + rest)
         == Success(Got(Head(f.name, f.params, f.registerCount, |f.instructions|), rest))
  {
    var count := U32(|f.instructions|) + rest;
    var registers := U32(f.registerCount) + count;
    ParamsReadBack(f, registers);
    hide TakeSized, TakeU32, Sized, U32, Many, Concat;
    var params := Concat(f.params, Sized) + registers;
    var paramCount := U32(|f.params|) + params;
    Regroup6(Sized(f.name), U32(|f.params|), Concat(f.params, Sized), U32(f.registerCount), U32(|f.instructions|), rest);
    SizedReadsBack(f.name, paramCount);
    U32ReadsBack(|f.params|, params);
    U32ReadsBack(f.registerCount, count);
    U32ReadsBack(|f.instructions|, rest);
  }

  lemma FunctionReadsBack(codec: Codec, f: Function, rest: Bytes)
    requires Inverse(codec) && FitsFunction(codec, f)
    ensures TakeFunction(codec, FunctionBytes(codec, f) + rest) == Success(Got(ErasedFunction(f), rest))
  {
    InstructionsReadBack(codec, f);
    hide TakeHead, FunctionHead, Many, Concat, InstructionWriter, InstructionReader, ReadsBack, FitsInstruction;
    var instructions := Concat(f.instructions, InstructionWriter(codec)) + rest;
    assert FunctionBytes(codec, f) + rest == FunctionHead(f) + instructions;
    HeadReadsBack(f, instructions);
    ManyReadBack(f.instructions, InstructionWriter(codec), InstructionReader(codec), ErasedInstruction, rest);
  }

  lemma DiagnosticReadsBack(d: Diagnostic, rest: Bytes)
    requires FitsDiagnostic(d)
    ensures TakeDiagnostic(DiagnosticBytes(d) + rest) == Success(Got(d, rest))
  {
    hide TakeSized, Sized;
    assert DiagnosticBytes(d) + rest == Sized(d.severity) + (Sized(d.message) + rest);
    SizedReadsBack(d.severity, Sized(d.message) + rest);
    SizedReadsBack(d.message, rest);
  }

  lemma PartsReadBack(codec: Codec, p: Program)
    requires Inverse(codec) && Fits(codec, p)
    ensures forall k :: 0 <= k < |p.functions| ==>
              ReadsBack(p.functions[k], FunctionWriter(codec), FunctionReader(codec), ErasedFunction)
    ensures forall k :: 0 <= k < |p.diagnostics| ==>
              ReadsBack(p.diagnostics[k], DiagnosticBytes, TakeDiagnostic, Same)
  {
    hide TakeFunction, FunctionBytes, FitsFunction, ErasedFunction, TakeDiagnostic, DiagnosticBytes, FitsDiagnostic;
    forall k, rest: Bytes | 0 <= k < |p.functions|
      ensures FunctionReader(codec)(FunctionWriter(codec)(p.functions[k]) + rest)
           == Success(Got(ErasedFunction(p.functions[k]), rest))
    {
      FunctionReadsBack(codec, p.functions[k], rest);
    }
    forall k, rest: Bytes | 0 <= k < |p.diagnostics|
      ensures TakeDiagnostic(DiagnosticBytes(p.diagnostics[k]) + rest) == Success(Got(Same(p.diagnostics[k]), rest))
    {
      DiagnosticReadsBack(p.diagnostics[k], rest);
    }
  }

  lemma HeaderReadsBack(p: Program, rest: Bytes)
    requires FitsU32(p.main) && FitsU32(|p.functions|) && FitsU32(|p.diagnostics|)
    ensures TakeHeader(Header(p) + rest) == Success(Got(Counts(p.main, |p.functions|, |p.diagnostics|), rest))
  {
    assert VERSION < Pow256(2);
    hide LittleEndian, FromLittleEndian, TakeU32, U32, Pow256;
    LittleEndianRoundTrip(VERSION, 2);
    var diagnosticCount := U32(|p.diagnostics|) + rest;
    var functionCount := U32(|p.functions|) + diagnosticCount;
    var main := U32(p.main) + functionCount;
    var version := LittleEndian(VERSION, 2) + main;
    Regroup6(MAGIC, LittleEndian(VERSION, 2), U32(p.main), U32(|p.functions|), U32(|p.diagnostics|), rest);
    TakeFirst(MAGIC, version);
    TakeFirst(LittleEndian(VERSION, 2), main);
    U32ReadsBack(p.main, functionCount);
    U32ReadsBack(|p.functions|, diagnosticCount);
    U32ReadsBack(|p.diagnostics|, rest);
  }

  /** Reading back what was written gives the program, less what the format does not carry, and
      stops exactly behind it. */
  lemma ProgramReadsBack(codec: Codec, p: Program, rest: Bytes)
    requires Inverse(codec) && Fits(codec, p)
    ensures TakeProgram(codec, ProgramBytes(codec, p) + rest) == Success(Got(Erased(p), rest))
  {
    PartsReadBack(codec, p);
    hide TakeHeader, Many, Concat, FunctionWriter, FunctionReader, DiagnosticBytes, TakeDiagnostic,
      ReadsBack, FitsFunction, FitsDiagnostic, ErasedFunction, Header;
    var diagnostics := Concat(p.diagnostics, DiagnosticBytes) + rest;
    var functions := Concat(p.functions, FunctionWriter(codec)) + diagnostics;
    Regroup4(Header(p), Concat(p.functions, FunctionWriter(codec)), Concat(p.diagnostics, DiagnosticBytes), rest);
    HeaderReadsBack(p, functions);
    ManyReadBack(p.functions, FunctionWriter(codec), FunctionReader(codec), ErasedFunction, diagnostics);
    ManyReadBack(p.diagnostics, DiagnosticBytes, TakeDiagnostic, Same, rest);
    EachSame(p.diagnostics);
  }

  // --- reading does not look ahead ---------------------------------------------------------------

  /** What was read stays the same when more bytes follow. */
  predicate Extends<T(==)>(a: Result<Got<T>, Error>, b: Result<Got<T>, Error>, more: Bytes) {
    a.Success? ==> b == Success(Got(a.value.value, a.value.rest + more))
  }

  lemma TakeExtends(b: Bytes, n: nat, more: Bytes)
    ensures Extends(Take(b, n), Take(b + more, n), more)
  {
    if n <= |b| {
      assert (b + more)[..n] == b[..n] && (b + more)[n..] == b[n..] + more;
    }
  }

  lemma U32Extends(b: Bytes, more: Bytes)
    ensures Extends(TakeU32(b), TakeU32(b + more), more)
  {
    TakeExtends(b, 4, more);
  }

  lemma SizedExtends(b: Bytes, more: Bytes)
    ensures Extends(TakeSized(b), TakeSized(b + more), more)
  {
    U32Extends(b, more);
    hide TakeU32, Take;
    var length := TakeU32(b);
    if length.Success? {
      TakeExtends(length.value.rest, length.value.value, more);
    }
  }

  lemma {:induction false} ManyExtend<T(!new)>(n: nat, read: Bytes -> Result<Got<T>, Error>, b: Bytes, more: Bytes)
    requires forall c: Bytes, m: Bytes :: Extends(read(c), read(c + m), m)
    ensures Extends(Many(n, read, b), Many(n, read, b + more), more)
  {
    if n > 0 {
      assert Extends(read(b), read(b + more), more);
      if read(b).Success? {
        ManyExtend(n - 1, read, read(b).value.rest, more);
      }
    }
  }

  lemma OperandExtends(codec: Codec, b: Bytes, more: Bytes)
    ensures Extends(TakeOperand(codec, b), TakeOperand(codec, b + more), more)
  {
    hide TakeSized;
    SizedExtends(b, more);
  }

  lemma OperandsExtend(codec: Codec)
    ensures forall c: Bytes, m: Bytes :: Extends(OperandReader(codec)(c), OperandReader(codec)(c + m), m)
  {
    hide TakeOperand, Extends;
    forall c: Bytes, m: Bytes ensures Extends(OperandReader(codec)(c), OperandReader(codec)(c + m), m) {
      OperandExtends(codec, c, m);
    }
  }

  lemma InstructionExtends(codec: Codec, b: Bytes, more: Bytes)
    ensures Extends(TakeInstruction(codec, b), TakeInstruction(codec, b + more), more)
  {
    OperandsExtend(codec);
    hide TakeSized, TakeU32, Many, OperandReader;
    SizedExtends(b, more);
    var opcode := TakeSized(b);
    if opcode.Success? {
      U32Extends(opcode.value.rest, more);
      var count := TakeU32(opcode.value.rest);
      if count.Success? {
        ManyExtend(count.value.value, OperandReader(codec), count.value.rest, more);
      }
    }
  }

  lemma InstructionsExtend(codec: Codec)
    ensures forall c: Bytes, m: Bytes :: Extends(InstructionReader(codec)(c), InstructionReader(codec)(c + m), m)
  {
    hide TakeInstruction, Extends;
    forall c: Bytes, m: Bytes ensures Extends(InstructionReader(codec)(c), InstructionReader(codec)(c + m), m) {
      InstructionExtends(codec, c, m);
    }
  }

  lemma ParamsExtend(n: nat, b: Bytes, more: Bytes)
    ensures Extends(Many(n, TakeSized, b), Many(n, TakeSized, b + more), more)
  {
    hide TakeSized, Extends;
    forall c: Bytes, m: Bytes ensures Extends(TakeSized(c), TakeSized(c + m), m) {
      SizedExtends(c, m);
    }
    ManyExtend(n, TakeSized, b, more);
  }

  lemma HeadExtends(b: Bytes, more: Bytes)
    ensures Extends(TakeHead(b), TakeHead(b + more), more)
  {
    hide TakeSized, TakeU32, Many;
    SizedExtends(b, more);
    var name := TakeSized(b);
    if name.Success? {
      U32Extends(name.value.rest, more);
      var paramCount := TakeU32(name.value.rest);
      if paramCount.Success? {
        ParamsExtend(paramCount.value.value, paramCount.value.rest, more);
        var params := Many(paramCount.value.value, TakeSized, paramCount.value.rest);
        if params.Success? {
          U32Extends(params.value.rest, more);
          var registers := TakeU32(params.value.rest);
          if registers.Success? { U32Extends(registers.value.rest, more); }
        }
      }
    }
  }

  lemma FunctionExtends(codec: Codec, b: Bytes, more: Bytes)
    ensures Extends(TakeFunction(codec, b), TakeFunction(codec, b + more), more)
  {
    InstructionsExtend(codec);
    hide TakeHead, Many, InstructionReader;
    HeadExtends(b, more);
    var head := TakeHead(b);
    if head.Success? {
      ManyExtend(head.value.value.count, InstructionReader(codec), head.value.rest, more);
    }
  }

  lemma FunctionsExtend(codec: Codec)
    ensures forall c: Bytes, m: Bytes :: Extends(FunctionReader(codec)(c), FunctionReader(codec)(c + m), m)
  {
    hide TakeFunction, Extends;
    forall c: Bytes, m: Bytes ensures Extends(FunctionReader(codec)(c), FunctionReader(codec)(c + m), m) {
      FunctionExtends(codec, c, m);
    }
  }

  lemma DiagnosticsExtend(n: nat, b: Bytes, more: Bytes)
    ensures Extends(Many(n, TakeDiagnostic, b), Many(n, TakeDiagnostic, b + more), more)
  {
    hide TakeSized;
    forall c: Bytes, m: Bytes ensures Extends(TakeDiagnostic(c), TakeDiagnostic(c + m), m) {
      SizedExtends(c, m);
      if TakeSized(c).Success? { SizedExtends(TakeSized(c).value.rest, m); }
    }
    ManyExtend(n, TakeDiagnostic, b, more);
  }

  lemma HeaderExtends(b: Bytes, more: Bytes)
    ensures Extends(TakeHeader(b), TakeHeader(b + more), more)
  {
    hide Take, TakeU32, FromLittleEndian;
    TakeExtends(b, 4, more);
    var magic := Take(b, 4);
    if magic.Success? {
      TakeExtends(magic.value.rest, 2, more);
      var version := Take(magic.value.rest, 2);
      if version.Success? {
        U32Extends(version.value.rest, more);
        var main := TakeU32(version.value.rest);
        if main.Success? {
          U32Extends(main.value.rest, more);
          var functions := TakeU32(main.value.rest);
          if functions.Success? { U32Extends(functions.value.rest, more); }
        }
      }
    }
  }

  lemma ProgramExtends(codec: Codec, b: Bytes, more: Bytes)
    ensures Extends(TakeProgram(codec, b), TakeProgram(codec, b + more), more)
  {
    FunctionsExtend(codec);
    hide TakeHeader, Many, FunctionReader, TakeDiagnostic;
    HeaderExtends(b, more);
    var header := TakeHeader(b);
    if header.Success? {
      ManyExtend(header.value.value.functions, FunctionReader(codec), header.value.rest, more);
      var functions := Many(header.value.value.functions, FunctionReader(codec), header.value.rest);
      if functions.Success? {
        DiagnosticsExtend(header.value.value.diagnostics, functions.value.rest, more);
      }
    }
  }

  /** No proper prefix of a serialized program is accepted. */
  lemma TruncatedIsRefused(codec: Codec, p: Program, n: nat)
    requires Inverse(codec) && Fits(codec, p) && n < |ProgramBytes(codec, p)|
    ensures TakeProgram(codec, ProgramBytes(codec, p)[..n]).Failure?
  {
    var all := ProgramBytes(codec, p);
    var cut := TakeProgram(codec, all[..n]);
    ProgramReadsBack(codec, p, []);
    ProgramExtends(codec, all[..n], all[n..]);
    hide *;
    CutAndRest(all, n);
  }

  lemma CutAndRest(all: Bytes, n: nat)
    requires n < |all|
    ensures all[..n] + all[n..] == all && all + [] == all && forall r: Bytes :: r + all[n..] != []
  {
    forall r: Bytes ensures r + all[n..] != [] {
      assert |r + all[n..]| == |r| + |all| - n;
    }
  }
}

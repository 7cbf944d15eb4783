/**
 The constant pool of the WebAssembly backend: tagged 64-bit words, and the
 strings, floats, symbols and cons cells that the emitter lays out in linear
 memory (`_StringPool` and `_encode_value` of qy/backend/wasm/emit.py, with the
 tags of qy/backend/wasm/abi.py).

 A word is a mathematical integer in the signed 64-bit range; its low three bits
 are `w % 8` (Dafny's `%` is never negative) and `w / 8` is the arithmetic shift.
 A text is the sequence of its UTF-8 bytes.
 */
module ConstantPool {
  import opened Wrappers
  import opened ByteOrder

  type Text = seq<Byte>
  type Word = int
  /** Linear memory: the byte at each address that has been written. */
  type Image = int -> Option<Byte>

  // --- ABI constants ---------------------------------------------------------

  const TAG_INT := 0
  const TAG_NIL := 1
  const TAG_T := 2
  const TAG_CHAR := 3
  const TAG_CALLABLE := 4
  const TAG_STRING := 5
  const TAG_FLOAT := 6
  const TAG_HEAP := 7
  const HEAP_SYMBOL := 1
  const HEAP_CONS := 2
  const VAL_NIL: Word := 1
  const VAL_T: Word := 2
  const INT_MIN := -0x1000_0000_0000_0000
  const INT_MAX := 0xFFF_FFFF_FFFF_FFFF
  const STRING_BASE: nat := 1024
  const SCRATCH_BASE: nat := 0x10_0000
  const TWO_63: int := 0x8000_0000_0000_0000

  function Tagged(payload: int, tag: int): Word { payload * 8 + tag }

  // --- words as bytes ---------------------------------------------------------

  /** The unsigned reading of a signed 64-bit word, and back. */
  function Unsigned(w: Word): nat { w % TWO_64 }

  function Signed(n: nat): Word { if n < TWO_63 then n else n - TWO_64 }

  // --- constants and the values they denote -----------------------------------

  /** The eight IEEE bytes of a float. */
  type Double = s: seq<Byte> | |s| == 8 witness [0, 0, 0, 0, 0, 0, 0, 0]

  /** A constant that is not a symbol or a chain, as `classify_constant` sees it. */
  datatype Scalar =
    | Nil | NoneValue | True | Bool(b: bool) | Int(i: int)
    | Char(codepoint: nat) | Str(text: Text) | Float(bits: Double)

  datatype Constant =
    | Atom(scalar: Scalar) | Symbol(name: Text) | Cons(head: Constant, tail: Constant) | Host

  /** What a word stands for: nil, none and false share one word, and so do T and true. */
  datatype Value =
    | VNil | VT | VInt(i: int) | VChar(codepoint: int) | VString(text: Text)
    | VFloat(bits: seq<Byte>) | VSymbol(name: Text) | VCons(head: Value, tail: Value)

  datatype Error = Unsupported | Overflow

  /** The instance literal rule: the scalar a symbol spells, if it spells one. */
  type Literals = Text -> Option<Scalar>

  function ScalarValue(s: Scalar): Value {
    match s
    case Nil => VNil
    case NoneValue => VNil
    case True => VT
    case Bool(b) => if b then VT else VNil
    case Int(i) => VInt(i)
    case Char(c) => VChar(c)
    case Str(t) => VString(t)
    case Float(bits) => VFloat(bits)
  }

  /** The value a constant denotes, independent of any encoding. */
  function Meaning(literals: Literals, c: Constant): Value {
    match c
    case Atom(s) => ScalarValue(s)
    case Symbol(name) =>
      (match literals(name)
       case Some(s) => ScalarValue(s)
       case None => VSymbol(name))
    case Cons(h, t) => VCons(Meaning(literals, h), Meaning(literals, t))
    case Host => VNil
  }

  // --- the pool ----------------------------------------------------------------

  datatype Segment = Segment(address: nat, payload: seq<Byte>)

  datatype Pool = Pool(offset: nat, segments: seq<Segment>)

  const EMPTY := Pool(STRING_BASE, [])

  function AlignUp(n: nat): (r: nat)
    ensures n <= r < n + 8 && r % 8 == 0
  {
    (n + 7) / 8 * 8
  }

  function InternBytes(p: Pool, payload: seq<Byte>): Pool {
    Pool(AlignUp(p.offset + |payload|), p.segments + [Segment(p.offset, payload)])
  }

  /** Segments are 8-aligned, in address order, pairwise disjoint and below the offset. */
  ghost predicate Valid(p: Pool) {
    && p.offset % 8 == 0 && STRING_BASE <= p.offset
    && (forall i :: 0 <= i < |p.segments| ==>
          && p.segments[i].address % 8 == 0
          && STRING_BASE <= p.segments[i].address
          && p.segments[i].address + |p.segments[i].payload| <= p.offset)
    && (forall i, j :: 0 <= i < j < |p.segments| ==>
          p.segments[i].address + |p.segments[i].payload| <= p.segments[j].address)
  }

  predicate Covers(s: Segment, a: int) { s.address <= a < s.address + |s.payload| }

  function ByteAt(segments: seq<Segment>, a: int): Option<Byte> {
    if segments == [] then None
    else
      var s := segments[|segments| - 1];
      if Covers(s, a) then Some(s.payload[a - s.address])
      else ByteAt(segments[..|segments| - 1], a)
  }

  /** Linear memory after the data segments have been written in order. */
  function Load(segments: seq<Segment>): Image { a => ByteAt(segments, a) }

  ghost predicate Extends(m: Image, m': Image) {
    forall a :: m(a).Some? ==> m'(a) == m(a)
  }

  ghost predicate Holds(m: Image, address: int, payload: seq<Byte>) {
    forall i {:trigger payload[i]} ::
      0 <= i < |payload| ==> m(address + i) == Some(payload[i])
  }

  lemma {:induction false} LoadBelow(p: Pool, a: int)
    requires Valid(p) && ByteAt(p.segments, a).Some?
    ensures STRING_BASE <= a < p.offset
    decreases |p.segments|
  {
    var n := |p.segments| - 1;
    var s := p.segments[n];
    if !Covers(s, a) {
      LoadBelow(Pool(p.offset, p.segments[..n]), a);
    }
  }

  /** Interning keeps the layout, every earlier byte, and stores the payload at the old offset. */
  lemma InternExtends(p: Pool, payload: seq<Byte>)
    requires Valid(p)
    ensures var p' := InternBytes(p, payload);
            && Valid(p') && Extends(Load(p.segments), Load(p'.segments))
            && Holds(Load(p'.segments), p.offset, payload)
            && p.offset <= p'.offset
  {
    var p' := InternBytes(p, payload);
    assert p'.segments[..|p.segments|] == p.segments;
    forall a | ByteAt(p.segments, a).Some?
      ensures ByteAt(p'.segments, a) == ByteAt(p.segments, a)
    {
      LoadBelow(p, a);
    }
    forall i | 0 <= i < |payload|
      ensures Load(p'.segments)(p.offset + i) == Some(payload[i])
    {
    }
  }

  // --- encoding: the functional form of the methods below ------------------------

  function Sized(text: Text): Result<seq<Byte>, Error> {
    if |text| < TWO_32 then Success(LittleEndian(|text|, 4) + text) else Failure(Overflow)
  }

  function Intern(p: Pool, text: Text): Result<Pool, Error> {
    var payload :- Sized(text);
    Success(InternBytes(p, payload))
  }

  function InternSymbol(p: Pool, name: Text): Result<(Pool, nat), Error> {
    var q :- Intern(p, name);
    if p.offset >= TWO_32 then Failure(Overflow)
    else Success((InternBytes(q, LittleEndian(HEAP_SYMBOL, 4) + LittleEndian(p.offset, 4)), q.offset))
  }

  function ConsCell(car: Word, cdr: Word): seq<Byte> {
    LittleEndian(HEAP_CONS, 4) + LittleEndian(0, 4)
    + LittleEndian(Unsigned(car), 8) + LittleEndian(Unsigned(cdr), 8)
  }

  function EncodeScalar(p: Pool, s: Scalar): Result<(Pool, Word), Error> {
    match s
    case Nil => Success((p, VAL_NIL))
    case NoneValue => Success((p, VAL_NIL))
    case True => Success((p, VAL_T))
    case Bool(b) => Success((p, if b then VAL_T else VAL_NIL))
    case Int(i) =>
      if INT_MIN <= i <= INT_MAX then Success((p, Tagged(i, TAG_INT))) else Failure(Unsupported)
    case Char(c) => Success((p, Tagged(c, TAG_CHAR)))
    case Str(t) =>
      var q :- Intern(p, t);
      Success((q, Tagged(p.offset, TAG_STRING)))
    case Float(bits) => Success((InternBytes(p, bits), Tagged(p.offset, TAG_FLOAT)))
  }

  /** A chain is laid out from its tail backwards: the rest, then the head, then the cell. */
  function Encode(literals: Literals, p: Pool, c: Constant): Result<(Pool, Word), Error>
    decreases c
  {
    match c
    case Atom(s) => EncodeScalar(p, s)
    case Symbol(name) =>
      (match literals(name)
       case Some(s) => EncodeScalar(p, s)
       case None =>
         var (q, address) :- InternSymbol(p, name);
         Success((q, Tagged(address, TAG_HEAP))))
    case Cons(h, t) =>
      var (p1, cdr) :- Encode(literals, p, t);
      var (p2, car) :- Encode(literals, p1, h);
      Success((InternBytes(p2, ConsCell(car, cdr)), Tagged(p2.offset, TAG_HEAP)))
    case Host => Failure(Unsupported)
  }

  // --- decoding a word against memory --------------------------------------------

  predicate Mapped(m: Image, a: int, n: nat) {
    forall i :: a <= i < a + n ==> m(i).Some?
  }

  function Bytes(m: Image, a: int, n: nat): seq<Byte>
    requires Mapped(m, a, n)
  {
    seq(n, i requires 0 <= i < n => m(a + i).value)
  }

  function Number(m: Image, a: int, n: nat): nat
    requires Mapped(m, a, n)
  {
    FromLittleEndian(Bytes(m, a, n))
  }

  function DecodeText(m: Image, a: int): Option<Text> {
    if !Mapped(m, a, 4) then None
    else
      var n := Number(m, a, 4);
      if Mapped(m, a + 4, n) then Some(Bytes(m, a + 4, n)) else None
  }

  /** A heap word ranks by its address, so a well-formed cell only refers downwards. */
  function Rank(w: Word): nat { if w % 8 == TAG_HEAP && w >= 0 then w / 8 + 1 else 0 }

  function Decode(m: Image, w: Word): Option<Value>
    decreases Rank(w)
  {
    var a := w / 8;
    if w % 8 == TAG_INT then Some(VInt(a))
    else if w == VAL_NIL then Some(VNil)
    else if w == VAL_T then Some(VT)
    else if w % 8 == TAG_CHAR then Some(VChar(a))
    else if w % 8 == TAG_STRING then
      (match DecodeText(m, a) case Some(t) => Some(VString(t)) case None => None)
    else if w % 8 == TAG_FLOAT then
      if Mapped(m, a, 8) then Some(VFloat(Bytes(m, a, 8))) else None
    else if w % 8 == TAG_HEAP && w >= 0 && Mapped(m, a, 8) then
      if Number(m, a, 4) == HEAP_SYMBOL then
        (match DecodeText(m, Number(m, a + 4, 4)) case Some(t) => Some(VSymbol(t)) case None => None)
      else if Number(m, a, 4) == HEAP_CONS && Mapped(m, a + 8, 16) then
        var car, cdr := Signed(Number(m, a + 8, 8)), Signed(Number(m, a + 16, 8));
        if Rank(car) < Rank(w) && Rank(cdr) < Rank(w) then
          match (Decode(m, car), Decode(m, cdr))
          case (Some(h), Some(t)) => Some(VCons(h, t))
          case _ => None
        else None
      else None
    else None
  }

  // --- decoding undoes encoding ----------------------------------------------------

  lemma BytesExtend(m: Image, m': Image, a: int, n: nat)
    requires Extends(m, m') && Mapped(m, a, n)
    ensures Mapped(m', a, n) && Bytes(m', a, n) == Bytes(m, a, n)
  {
  }

  lemma TextExtends(m: Image, m': Image, a: int)
    requires Extends(m, m') && DecodeText(m, a).Some?
    ensures DecodeText(m', a) == DecodeText(m, a)
  {
    BytesExtend(m, m', a, 4);
    BytesExtend(m, m', a + 4, Number(m, a, 4));
  }

  lemma MappedPart(m: Image, a: int, n: nat, b: int, k: nat)
    requires Mapped(m, a, n) && a <= b && b + k <= a + n
    ensures Mapped(m, b, k)
  {
  }

  lemma SymbolCell(m: Image, w: Word)
    requires w % 8 == TAG_HEAP && w >= 0 && Mapped(m, w / 8, 8) && Mapped(m, w / 8, 4) && Mapped(m, w / 8 + 4, 4)
    requires Number(m, w / 8, 4) == HEAP_SYMBOL
    ensures Decode(m, w).Some? <==> DecodeText(m, Number(m, w / 8 + 4, 4)).Some?
    ensures Decode(m, w).Some? ==> Decode(m, w).value == VSymbol(DecodeText(m, Number(m, w / 8 + 4, 4)).value)
  {
    hide Mapped, Number, DecodeText;
  }

  /** A heap word whose cell holds a pair. */
  ghost predicate PairAt(m: Image, w: Word) {
    && w % 8 == TAG_HEAP && w >= 0 && Mapped(m, w / 8, 8) && Mapped(m, w / 8, 4) && Number(m, w / 8, 4) == HEAP_CONS
    && Mapped(m, w / 8 + 8, 16) && Mapped(m, w / 8 + 8, 8) && Mapped(m, w / 8 + 16, 8)
  }

  ghost function Car(m: Image, w: Word): Word
    requires PairAt(m, w)
  {
    Signed(Number(m, w / 8 + 8, 8))
  }

  ghost function Cdr(m: Image, w: Word): Word
    requires PairAt(m, w)
  {
    Signed(Number(m, w / 8 + 16, 8))
  }

  lemma PairCell(m: Image, w: Word)
    requires PairAt(m, w)
    ensures Decode(m, w).Some? <==>
            && Rank(Car(m, w)) < Rank(w) && Rank(Cdr(m, w)) < Rank(w)
            && Decode(m, Car(m, w)).Some? && Decode(m, Cdr(m, w)).Some?
    ensures Decode(m, w).Some? ==>
            Decode(m, w).value == VCons(Decode(m, Car(m, w)).value, Decode(m, Cdr(m, w)).value)
  {
    hide Mapped, Number, DecodeText, Rank, Signed;
  }

  lemma HeapDecodes(m: Image, w: Word)
    requires w % 8 == TAG_HEAP && Decode(m, w).Some?
    ensures w >= 0 && Mapped(m, w / 8, 8) && Mapped(m, w / 8, 4) && Mapped(m, w / 8 + 4, 4)
    ensures Number(m, w / 8, 4) == HEAP_SYMBOL || PairAt(m, w)
  {
    hide Mapped, Number, DecodeText, Rank, Signed;
    MappedPart(m, w / 8, 8, w / 8, 4);
    MappedPart(m, w / 8, 8, w / 8 + 4, 4);
    if Mapped(m, w / 8 + 8, 16) {
      MappedPart(m, w / 8 + 8, 16, w / 8 + 8, 8);
      MappedPart(m, w / 8 + 8, 16, w / 8 + 16, 8);
    }
  }

  lemma SymbolExtends(m: Image, m': Image, w: Word)
    requires Extends(m, m') && w % 8 == TAG_HEAP && Decode(m, w).Some? && !PairAt(m, w)
    ensures Decode(m', w) == Decode(m, w)
  {
    hide Mapped, Bytes, FromLittleEndian, Decode, DecodeText, Extends, PairAt;
    HeapDecodes(m, w);
    BytesExtend(m, m', w / 8, 8);
    BytesExtend(m, m', w / 8, 4);
    BytesExtend(m, m', w / 8 + 4, 4);
    SymbolCell(m, w);
    TextExtends(m, m', Number(m, w / 8 + 4, 4));
    SymbolCell(m', w);
  }

  lemma PairExtends(m: Image, m': Image, w: Word)
    requires Extends(m, m') && PairAt(m, w)
    ensures PairAt(m', w) && Car(m', w) == Car(m, w) && Cdr(m', w) == Cdr(m, w)
  {
    hide Mapped, Bytes, FromLittleEndian, Extends, Signed;
    BytesExtend(m, m', w / 8, 8);
    BytesExtend(m, m', w / 8, 4);
    BytesExtend(m, m', w / 8 + 8, 16);
    BytesExtend(m, m', w / 8 + 8, 8);
    BytesExtend(m, m', w / 8 + 16, 8);
  }

  lemma LeafExtends(m: Image, m': Image, w: Word)
    requires Extends(m, m') && Decode(m, w).Some? && w % 8 != TAG_HEAP
    ensures Decode(m', w) == Decode(m, w)
  {
    hide Mapped, Bytes, DecodeText, Extends;
    if w % 8 == TAG_STRING {
      TextExtends(m, m', w / 8);
    } else if w % 8 == TAG_FLOAT {
      BytesExtend(m, m', w / 8, 8);
    }
  }

  /** Memory that only grows never changes what a word decodes to. */
  lemma {:induction false} DecodeExtends(m: Image, m': Image, w: Word)
    requires Extends(m, m') && Decode(m, w).Some?
    ensures Decode(m', w) == Decode(m, w)
    decreases Rank(w)
  {
    hide Decode, Extends, PairAt, Car, Cdr, Rank;
    if w % 8 != TAG_HEAP {
      LeafExtends(m, m', w);
    } else if !PairAt(m, w) {
      SymbolExtends(m, m', w);
    } else {
      PairExtends(m, m', w);
      PairCell(m, w);
      PairCell(m', w);
      DecodeExtends(m, m', Car(m, w));
      DecodeExtends(m, m', Cdr(m, w));
    }
  }

  lemma HoldsSlice(m: Image, a: int, payload: seq<Byte>, i: nat, j: nat)
    requires Holds(m, a, payload) && i <= j <= |payload|
    ensures Mapped(m, a + i, j - i) && Bytes(m, a + i, j - i) == payload[i..j]
  {
    forall k | a + i <= k < a + j ensures m(k).Some? {
      assert m(k) == Some(payload[k - a]);
    }
    forall k | 0 <= k < j - i ensures Bytes(m, a + i, j - i)[k] == payload[i..j][k] {
      assert payload[i..j][k] == payload[i + k];
    }
  }

  lemma HeldText(m: Image, a: int, text: Text)
    requires |text| < TWO_32 && Holds(m, a, LittleEndian(|text|, 4) + text)
    ensures DecodeText(m, a) == Some(text)
  {
    hide LittleEndian, FromLittleEndian, Pow256, Holds, Mapped, Bytes, Number;
    var payload := LittleEndian(|text|, 4) + text;
    assert Mapped(m, a, 4) && Number(m, a, 4) == |text| by {
      assert payload[0..0 + 4] == LittleEndian(|text|, 4);
      WordWidths();
      HeldNumber(m, a, payload, 0, |text|, 4);
    }
    assert Mapped(m, a + 4, |text|) && Bytes(m, a + 4, |text|) == text by {
      HoldsSlice(m, a, payload, 4, |payload|);
      assert payload[4..] == text;
    }
  }

  lemma HeldNumber(m: Image, a: int, payload: seq<Byte>, i: nat, n: nat, k: nat)
    requires Holds(m, a, payload) && i + k <= |payload|
    requires payload[i..i + k] == LittleEndian(n, k) && n < Pow256(k)
    ensures Mapped(m, a + i, k) && Number(m, a + i, k) == n
  {
    HoldsSlice(m, a, payload, i, i + k);
    LittleEndianRoundTrip(n, k);
  }

  /** Words that fit the tagged ABI, with heap pointers below `limit`. */
  ghost predicate Fits(w: Word, limit: nat) {
    -TWO_63 <= w < TWO_63 && Rank(w) <= limit
  }

  lemma SignedUnsigned(w: Word)
    requires -TWO_63 <= w < TWO_63
    ensures Unsigned(w) < TWO_64 && Signed(Unsigned(w)) == w
  {
  }

  /** The relation every encoding step establishes between its pools and its word. */
  ghost predicate Encoded(p: Pool, q: Pool, w: Word, v: Value) {
    && Valid(q) && p.offset <= q.offset
    && Extends(Load(p.segments), Load(q.segments))
    && Fits(w, q.offset)
    && Decode(Load(q.segments), w) == Some(v)
  }

  /** Python's `ord` never leaves the Unicode range. */
  predicate UnicodeScalar(s: Scalar) { s.Char? ==> s.codepoint < 0x11_0000 }

  lemma EncodeStringCorrect(p: Pool, t: Text)
    requires Valid(p) && Intern(p, t).Success? && Intern(p, t).value.offset <= TWO_32
    ensures Encoded(p, Intern(p, t).value, Tagged(p.offset, TAG_STRING), VString(t))
  {
    hide LittleEndian, FromLittleEndian, Pow256, Holds;
    InternExtends(p, LittleEndian(|t|, 4) + t);
    HeldText(Load(Intern(p, t).value.segments), p.offset, t);
  }

  lemma EncodeFloatCorrect(p: Pool, bits: Double)
    requires Valid(p) && InternBytes(p, bits).offset <= TWO_32
    ensures Encoded(p, InternBytes(p, bits), Tagged(p.offset, TAG_FLOAT), VFloat(bits))
  {
    hide FromLittleEndian, Holds;
    InternExtends(p, bits);
    HoldsSlice(Load(InternBytes(p, bits).segments), p.offset, bits, 0, 8);
    assert bits[0..8] == bits;
  }

  lemma EncodeScalarCorrect(p: Pool, s: Scalar)
    requires Valid(p) && UnicodeScalar(s) && EncodeScalar(p, s).Success?
    requires EncodeScalar(p, s).value.0.offset <= TWO_32
    ensures var (q, w) := EncodeScalar(p, s).value; Encoded(p, q, w, ScalarValue(s))
  {
    hide LittleEndian, FromLittleEndian, Pow256, Holds;
    match s
    case Str(t) => EncodeStringCorrect(p, t);
    case Float(bits) => EncodeFloatCorrect(p, bits);
    case _ =>
  }

  /** The heap word of an address. */
  lemma HeapWord(n: nat, limit: nat)
    requires n < limit <= TWO_32
    ensures var w := Tagged(n, TAG_HEAP);
            w % 8 == TAG_HEAP && w / 8 == n && w >= 0 && Rank(w) == n + 1 && Fits(w, limit)
  {
  }

  lemma InternGrows(p: Pool, payload: seq<Byte>)
    ensures InternBytes(p, payload).offset >= p.offset + |payload|
  {
  }

  lemma ExtendsThrough(a: Image, b: Image, c: Image)
    requires Extends(a, b) && Extends(b, c)
    ensures Extends(a, c)
  {
  }

  /** A symbol cell refers to the text stored at `n`. */
  lemma SymbolCellHeld(m: Image, a: int, n: nat)
    requires Holds(m, a, LittleEndian(HEAP_SYMBOL, 4) + LittleEndian(n, 4)) && n < TWO_32
    ensures Mapped(m, a, 8) && Mapped(m, a, 4) && Mapped(m, a + 4, 4)
    ensures Number(m, a, 4) == HEAP_SYMBOL && Number(m, a + 4, 4) == n
  {
    hide LittleEndian, FromLittleEndian, Pow256, Mapped, Bytes, Number, Holds;
    var cell := LittleEndian(HEAP_SYMBOL, 4) + LittleEndian(n, 4);
    WordWidths();
    assert cell[0..0 + 4] == LittleEndian(HEAP_SYMBOL, 4);
    assert cell[4..4 + 4] == LittleEndian(n, 4);
    HeldNumber(m, a, cell, 0, HEAP_SYMBOL, 4);
    HeldNumber(m, a, cell, 4, n, 4);
    HoldsSlice(m, a, cell, 0, 8);
  }

  lemma EncodeSymbolCorrect(p: Pool, name: Text)
    requires Valid(p) && InternSymbol(p, name).Success?
    requires InternSymbol(p, name).value.0.offset <= TWO_32
    ensures var (q, a) := InternSymbol(p, name).value;
            Encoded(p, q, Tagged(a, TAG_HEAP), VSymbol(name))
  {
    hide Mapped, Bytes, Number, DecodeText, Decode, Holds, Load, Extends, Valid, Fits, Rank, Tagged, AlignUp;
    var text, cell := LittleEndian(|name|, 4) + name, LittleEndian(HEAP_SYMBOL, 4) + LittleEndian(p.offset, 4);
    hide LittleEndian, FromLittleEndian, Pow256;
    var mid := InternBytes(p, text);
    var q := InternBytes(mid, cell);
    InternExtends(p, text);
    InternExtends(mid, cell);
    InternGrows(mid, cell);
    assert |cell| == 8;
    hide InternBytes;
    HeapWord(mid.offset, q.offset);
    ExtendsThrough(Load(p.segments), Load(mid.segments), Load(q.segments));
    SymbolCellHeld(Load(q.segments), mid.offset, p.offset);
    HeldText(Load(mid.segments), p.offset, name);
    TextExtends(Load(mid.segments), Load(q.segments), p.offset);
    SymbolCell(Load(q.segments), Tagged(mid.offset, TAG_HEAP));
  }

  lemma ConsCellParts(car: Word, cdr: Word)
    ensures var cell := ConsCell(car, cdr);
            && |cell| == 24 && cell[0..4] == LittleEndian(HEAP_CONS, 4)
            && cell[8..16] == LittleEndian(Unsigned(car), 8) && cell[16..24] == LittleEndian(Unsigned(cdr), 8)
  {
    hide LittleEndian, Unsigned;
  }

  /** A stored cons cell is a pair of the two words. */
  lemma ConsCellHeld(m: Image, w: Word, car: Word, cdr: Word)
    requires w >= 0 && w % 8 == TAG_HEAP && Holds(m, w / 8, ConsCell(car, cdr))
    requires -TWO_63 <= car < TWO_63 && -TWO_63 <= cdr < TWO_63
    ensures PairAt(m, w) && Car(m, w) == car && Cdr(m, w) == cdr
  {
    hide LittleEndian, FromLittleEndian, Pow256, Mapped, Bytes, Number, Holds, ConsCell, Signed, Unsigned;
    var cell, a := ConsCell(car, cdr), w / 8;
    WordWidths();
    SignedUnsigned(car);
    SignedUnsigned(cdr);
    ConsCellParts(car, cdr);
    HeldNumber(m, a, cell, 0, HEAP_CONS, 4);
    HeldNumber(m, a, cell, 8, Unsigned(car), 8);
    HeldNumber(m, a, cell, 16, Unsigned(cdr), 8);
    HoldsSlice(m, a, cell, 0, 8);
    HoldsSlice(m, a, cell, 8, 24);
  }

  lemma ConsCellDecodes(p: Pool, car: Word, cdr: Word, h: Value, t: Value)
    requires Valid(p) && Fits(car, p.offset) && Fits(cdr, p.offset)
    requires Decode(Load(p.segments), car) == Some(h) && Decode(Load(p.segments), cdr) == Some(t)
    requires InternBytes(p, ConsCell(car, cdr)).offset <= TWO_32
    ensures Encoded(p, InternBytes(p, ConsCell(car, cdr)), Tagged(p.offset, TAG_HEAP), VCons(h, t))
  {
    hide ConsCell, Holds, Load, Decode, Extends, PairAt, Car, Cdr, Valid, Tagged, AlignUp, Rank;
    var cell, w := ConsCell(car, cdr), Tagged(p.offset, TAG_HEAP);
    var q := InternBytes(p, cell);
    var m := Load(q.segments);
    InternExtends(p, cell);
    InternGrows(p, cell);
    ConsCellParts(car, cdr);
    HeapWord(p.offset, q.offset);
    ConsCellHeld(m, w, car, cdr);
    DecodeExtends(Load(p.segments), m, car);
    DecodeExtends(Load(p.segments), m, cdr);
    PairCell(m, w);
  }

  predicate UnicodeConstant(c: Constant) {
    match c
    case Atom(s) => UnicodeScalar(s)
    case Cons(h, t) => UnicodeConstant(h) && UnicodeConstant(t)
    case _ => true
  }

  lemma {:induction false} PoolGrows(literals: Literals, p: Pool, c: Constant)
    requires Encode(literals, p, c).Success?
    ensures p.offset <= Encode(literals, p, c).value.0.offset
    decreases c
  {
    match c
    case Cons(h, t) =>
      PoolGrows(literals, p, t);
      PoolGrows(literals, Encode(literals, p, t).value.0, h);
    case _ =>
  }

  /** Decoding a word that `Encode` returned gives back the constant, whatever is interned later. */
  lemma {:induction false} EncodeCorrect(literals: Literals, p: Pool, c: Constant)
    requires Valid(p) && UnicodeConstant(c)
    requires forall name :: literals(name).Some? ==> UnicodeScalar(literals(name).value)
    requires Encode(literals, p, c).Success?
    requires Encode(literals, p, c).value.0.offset <= TWO_32
    ensures var (q, w) := Encode(literals, p, c).value; Encoded(p, q, w, Meaning(literals, c))
    decreases c
  {
    match c
    case Atom(s) => EncodeScalarCorrect(p, s);
    case Symbol(name) =>
      match literals(name) {
        case Some(s) => EncodeScalarCorrect(p, s);
        case None => EncodeSymbolCorrect(p, name);
      }
    case Cons(h, t) =>
      var (p1, cdr) := Encode(literals, p, t).value;
      var (p2, car) := Encode(literals, p1, h).value;
      PoolGrows(literals, p1, h);
      EncodeCorrect(literals, p, t);
      EncodeCorrect(literals, p1, h);
      DecodeExtends(Load(p1.segments), Load(p2.segments), cdr);
      ConsCellDecodes(p2, car, cdr, Meaning(literals, h), Meaning(literals, t));
  }

  // --- the pool and the scratch stack -------------------------------------------------

  /** No constant reaches the scratch stack, which starts at `SCRATCH_BASE` and grows upwards. */
  ghost predicate BelowScratch(p: Pool) {
    forall i :: 0 <= i < |p.segments| && p.segments[i].payload != [] ==>
      p.segments[i].address + |p.segments[i].payload| <= SCRATCH_BASE
  }

  ghost predicate SameBelowScratch(m: Image, m': Image) {
    forall a :: a < SCRATCH_BASE ==> m'(a) == m(a)
  }

  lemma {:induction false} LoadedByteBelowScratch(p: Pool, a: int)
    requires BelowScratch(p) && ByteAt(p.segments, a).Some?
    ensures a < SCRATCH_BASE
    decreases |p.segments|
  {
    var n := |p.segments| - 1;
    if !Covers(p.segments[n], a) {
      LoadedByteBelowScratch(Pool(p.offset, p.segments[..n]), a);
    }
  }

  lemma {:induction false} PayloadIsLoaded(p: Pool, i: nat, a: int)
    requires i < |p.segments| && Covers(p.segments[i], a)
    ensures ByteAt(p.segments, a).Some?
    decreases |p.segments|
  {
    var n := |p.segments| - 1;
    if i < n {
      PayloadIsLoaded(Pool(p.offset, p.segments[..n]), i, a);
    }
  }

  /** The emitter never compares the pool's size with `SCRATCH_BASE`. Arbitrary writes to the
      scratch stack leave every constant byte alone exactly when the pool stays below it. */
  lemma ScratchWritesSpareConstants(p: Pool)
    ensures BelowScratch(p) <==>
            forall m': Image :: SameBelowScratch(Load(p.segments), m') ==> Extends(Load(p.segments), m')
  {
    var m := Load(p.segments);
    if BelowScratch(p) {
      forall m': Image | SameBelowScratch(m, m') ensures Extends(m, m') {
        forall a | m(a).Some? ensures m'(a) == m(a) {
          LoadedByteBelowScratch(p, a);
        }
      }
    } else {
      var i :| 0 <= i < |p.segments| && p.segments[i].payload != []
               && p.segments[i].address + |p.segments[i].payload| > SCRATCH_BASE;
      var a := p.segments[i].address + |p.segments[i].payload| - 1;
      PayloadIsLoaded(p, i, a);
      var wiped: Image := b => if b < SCRATCH_BASE then m(b) else None;
      assert SameBelowScratch(m, wiped);
      assert m(a).Some? && wiped(a) != m(a);
    }
  }

  /** A one-mebibyte string already breaks it. */
  lemma LargeStringReachesScratch(text: Text)
    requires |text| == SCRATCH_BASE
    ensures Intern(EMPTY, text).Success? && !BelowScratch(Intern(EMPTY, text).value)
  {
    hide LittleEndian;
    var q := Intern(EMPTY, text).value;
    assert q.segments[0].address + |q.segments[0].payload| > SCRATCH_BASE;
  }
}

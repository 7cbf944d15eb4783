/**
 Which functions the WebAssembly backend accepts (qy/backend/wasm/emit.py). As long as the
 constants have room below 4 GiB, it refuses just variadic functions, instructions that have
 no translation, names that denote nothing, and constants that have no word.
 */
module Acceptance {
  import opened Wrappers
  import opened ByteOrder
  import opened ConstantPool
  import opened Lir
  import opened Emitter
  import opened Scopes
  import opened Names

  // --- constants -----------------------------------------------------------------------------

  predicate ScalarHasWord(s: Scalar) {
    && (s.Int? ==> -0x1000_0000_0000_0000 <= s.i < 0x1000_0000_0000_0000)
    && (s.Str? ==> |s.text| < 0x1_0000_0000)
  }

  /** A constant with no host object, no integer beyond 61 bits and no endless text in it. */
  predicate HasWord(literals: Literals, c: Constant) {
    match c
    case Atom(s) => ScalarHasWord(s)
    case Symbol(name) =>
      if literals(name).Some? then ScalarHasWord(literals(name).value) else |name| < 0x1_0000_0000
    case Cons(h, t) => HasWord(literals, h) && HasWord(literals, t)
    case Host => false
  }

  function ScalarRoom(s: Scalar): nat { if s.Str? then |s.text| + 11 else if s.Float? then 15 else 0 }

  /** What a constant takes of the pool at most. */
  function Room(literals: Literals, c: Constant): nat {
    match c
    case Atom(s) => ScalarRoom(s)
    case Symbol(name) =>
      if literals(name).Some? then ScalarRoom(literals(name).value) else |name| + 26
    case Cons(h, t) => Room(literals, t) + Room(literals, h) + 31
    case Host => 0
  }

  lemma ScalarAccepted(p: Pool, s: Scalar)
    ensures EncodeScalar(p, s).Success? <==> ScalarHasWord(s)
    ensures EncodeScalar(p, s).Success? ==> EncodeScalar(p, s).value.0.offset <= p.offset + ScalarRoom(s)
  {
    hide LittleEndian;
  }

  lemma SymbolAccepted(p: Pool, name: Text)
    requires p.offset + |name| + 26 <= TWO_32
    ensures InternSymbol(p, name).Success? && InternSymbol(p, name).value.0.offset <= p.offset + |name| + 26
  {
    hide LittleEndian;
  }

  /** With room left, encoding succeeds exactly for the constants that have a word. */
  lemma {:induction false} EncodeAccepts(literals: Literals, p: Pool, c: Constant)
    requires p.offset + Room(literals, c) <= TWO_32
    ensures Encode(literals, p, c).Success? <==> HasWord(literals, c)
    ensures Encode(literals, p, c).Success? ==> Encode(literals, p, c).value.0.offset <= p.offset + Room(literals, c)
    decreases c
  {
    match c
    case Atom(s) => ScalarAccepted(p, s);
    case Symbol(name) =>
      if literals(name).Some? {
        ScalarAccepted(p, literals(name).value);
      } else {
        SymbolAccepted(p, name);
      }
    case Cons(h, t) =>
      EncodeAccepts(literals, p, t);
      if Encode(literals, p, t).Success? {
        EncodeAccepts(literals, Encode(literals, p, t).value.0, h);
        if Encode(literals, p, c).Success? { CellRoom(literals, p, h, t); }
      }
    case Host =>
  }

  lemma CellRoom(literals: Literals, p: Pool, h: Constant, t: Constant)
    requires Encode(literals, p, Cons(h, t)).Success?
    ensures Encode(literals, p, t).Success?
    ensures var mid := Encode(literals, p, t).value.0;
            && Encode(literals, mid, h).Success?
            && Encode(literals, p, Cons(h, t)).value.0.offset <= Encode(literals, mid, h).value.0.offset + 31
  {
    var mid := Encode(literals, p, t).value.0;
    var (last, car) := Encode(literals, mid, h).value;
    ConsCellParts(car, Encode(literals, p, t).value.1);
    hide LittleEndian;
  }

  // --- functions -------------------------------------------------------------------------------

  /** A name of instruction `k` is bound by a scope that the scan holds there, or denotes something. */
  ghost predicate Resolvable(ctx: Context, f: Function, k: nat, name: Name)
    requires k <= |f.insts|
  {
    (exists i :: BoundAt(Linear(f, k), name, i)) || exists d :: Denotes(ctx, f, name, d)
  }

  ghost predicate Supported(ctx: Context, f: Function, k: nat)
    requires k < |f.insts|
  {
    match f.insts[k]
    case LoadHost(_, value) => HasWord(ctx.literals, value)
    case LoadEnv(_, name) => Resolvable(ctx, f, k, name)
    case Other(_) => false
    case _ => true
  }

  function RoomUpTo(ctx: Context, f: Function, k: nat): nat
    requires k <= |f.insts|
  {
    if k == 0 then 0
    else RoomUpTo(ctx, f, k - 1) + if f.insts[k - 1].LoadHost? then Room(ctx.literals, f.insts[k - 1].value) else 0
  }

  lemma NameAccepted(ctx: Context, f: Function, fnIdx: nat, k: nat, name: Name)
    requires k <= |f.insts|
    ensures ValueExpr(ctx, f, fnIdx, Linear(f, k), name).Success? <==> Resolvable(ctx, f, k, name)
  {
    hide Denotes, StandsFor, Linear;
    var scopes := Linear(f, k);
    InnermostBinding(scopes, name);
    if Lookup(scopes, name).Some? {
      var i :| BoundAt(scopes, name, i);
      BoundName(ctx, f, fnIdx, scopes, name, i);
    } else {
      UnboundName(ctx, f, fnIdx, scopes, name);
      assert forall i :: !BoundAt(scopes, name, i);
    }
  }

  lemma InstructionAccepted(ctx: Context, f: Function, fnIdx: nat, s: Scan, k: nat)
    requires k < |f.insts| && s.scopes == Linear(f, k)
    requires f.insts[k].LoadHost? ==> s.pool.offset + Room(ctx.literals, f.insts[k].value) <= TWO_32
    ensures Translate(ctx, f, fnIdx, s, f.insts[k]).Success? <==> Supported(ctx, f, k)
    ensures var t := Translate(ctx, f, fnIdx, s, f.insts[k]);
            t.Success? ==>
              t.value.1.pool.offset <= s.pool.offset + (if f.insts[k].LoadHost? then Room(ctx.literals, f.insts[k].value) else 0)
  {
    hide Encode, ValueExpr, Linear, Resolvable, Bind, Leave, CallCode, TailCallCode;
    match f.insts[k]
    case LoadHost(_, value) => EncodeAccepts(ctx.literals, s.pool, value);
    case LoadEnv(_, name) => NameAccepted(ctx, f, fnIdx, k, name);
    case _ =>
  }

  lemma {:induction false} RoomGrows(ctx: Context, f: Function, k: nat, n: nat)
    requires k <= n <= |f.insts|
    ensures RoomUpTo(ctx, f, k) <= RoomUpTo(ctx, f, n)
    decreases n
  {
    if k < n { RoomGrows(ctx, f, k, n - 1); }
  }

  lemma {:induction false} PrefixAccepted(ctx: Context, f: Function, fnIdx: nat, pool: Pool, n: nat)
    requires n <= |f.insts| && pool.offset + RoomUpTo(ctx, f, n) <= TWO_32
    ensures Prefix(ctx, f, fnIdx, pool, n).Success? <==> forall k :: 0 <= k < n ==> Supported(ctx, f, k)
    ensures Prefix(ctx, f, fnIdx, pool, n).Success? ==>
              Prefix(ctx, f, fnIdx, pool, n).value.1.pool.offset <= pool.offset + RoomUpTo(ctx, f, n)
  {
    hide Translate, Supported;
    if n > 0 {
      PrefixAccepted(ctx, f, fnIdx, pool, n - 1);
      if Prefix(ctx, f, fnIdx, pool, n - 1).Success? {
        PrefixScans(ctx, f, fnIdx, pool, n - 1);
        InstructionAccepted(ctx, f, fnIdx, Prefix(ctx, f, fnIdx, pool, n - 1).value.1, n - 1);
      }
    }
  }

  /** With room for its constants, a function is accepted exactly when it is not variadic and
      each of its instructions is supported. */
  lemma CompileAccepts(ctx: Context, f: Function, fnIdx: nat, pool: Pool)
    requires pool.offset + RoomUpTo(ctx, f, |f.insts|) <= TWO_32
    ensures Compile(ctx, f, fnIdx, pool).Success? <==>
            !f.variadic && forall k :: 0 <= k < |f.insts| ==> Supported(ctx, f, k)
  {
    hide Prefix, Supported;
    PrefixAccepted(ctx, f, fnIdx, pool, |f.insts|);
  }
}

/**
 MIR control-flow graphs, as qy/analysis/liveness.py sees them: an instruction is
 the set of registers it reads, the register it writes, and an operation that
 nobody interprets. The terminator of a block is an instruction too, so a block
 with n instructions has n + 1 points.
 */
module Cfg {
  import opened Wrappers

  type Reg = nat
  type BlockId = int

  datatype Inst = Inst(uses: set<Reg>, def: Option<Reg>, op: int)

  datatype Block = Block(id: BlockId, insts: seq<Inst>, term: Inst, targets: seq<BlockId>)

  type Function = seq<Block>

  /** Point `i` of block number `b` (a position in the block list); the terminator comes last. */
  datatype Point = Point(b: nat, i: nat)

  ghost predicate UniqueIds(f: Function) {
    forall j, k :: 0 <= j < k < |f| ==> f[j].id != f[k].id
  }

  predicate IsPoint(f: Function, p: Point) { p.b < |f| && p.i <= |f[p.b].insts| }

  function InstAt(f: Function, p: Point): Inst
    requires IsPoint(f, p)
  {
    if p.i < |f[p.b].insts| then f[p.b].insts[p.i] else f[p.b].term
  }

  predicate Edge(f: Function, p: Point, q: Point) {
    && IsPoint(f, p) && IsPoint(f, q)
    && if p.i < |f[p.b].insts| then q == Point(p.b, p.i + 1)
       else q.i == 0 && f[q.b].id in f[p.b].targets
  }

  predicate Defines(i: Inst, r: Reg) { i.def == Some(r) }

  /** A walk that ends by reading `r` and does not write it on the way. */
  ghost predicate LivePath(f: Function, path: seq<Point>, r: Reg) {
    && path != []
    && (forall j :: 0 <= j < |path| ==> IsPoint(f, path[j]))
    && (forall j :: 0 <= j < |path| - 1 ==> Edge(f, path[j], path[j + 1]))
    && (forall j :: 0 <= j < |path| - 1 ==> !Defines(InstAt(f, path[j]), r))
    && r in InstAt(f, path[|path| - 1]).uses
  }

  /** `r` is live before `p`: some walk from `p` reads it before any write. */
  ghost predicate Live(f: Function, p: Point, r: Reg) {
    exists path :: LivePath(f, path, r) && path[0] == p
  }

  lemma LiveUse(f: Function, p: Point, r: Reg)
    requires IsPoint(f, p) && r in InstAt(f, p).uses
    ensures Live(f, p, r)
  {
    assert LivePath(f, [p], r);
  }

  lemma LiveBack(f: Function, p: Point, q: Point, r: Reg)
    requires Edge(f, p, q) && Live(f, q, r) && !Defines(InstAt(f, p), r)
    ensures Live(f, p, r)
  {
    var path :| LivePath(f, path, r) && path[0] == q;
    var longer := [p] + path;
    forall j | 0 <= j < |longer| - 1
      ensures Edge(f, longer[j], longer[j + 1]) && !Defines(InstAt(f, longer[j]), r)
    {
      if j > 0 {
        assert longer[j] == path[j - 1] && longer[j + 1] == path[j];
      }
    }
    assert longer[|longer| - 1] == path[|path| - 1];
    assert LivePath(f, longer, r);
  }

  /** The local equation that liveness satisfies. */
  lemma LiveUnfolds(f: Function, p: Point, r: Reg)
    requires Live(f, p, r)
    ensures IsPoint(f, p)
    ensures r in InstAt(f, p).uses ||
            (!Defines(InstAt(f, p), r) && exists q :: Edge(f, p, q) && Live(f, q, r))
  {
    var path :| LivePath(f, path, r) && path[0] == p;
    if |path| > 1 {
      var rest := path[1..];
      assert rest[|rest| - 1] == path[|path| - 1];
      forall j | 0 <= j < |rest| - 1
        ensures Edge(f, rest[j], rest[j + 1]) && !Defines(InstAt(f, rest[j]), r)
      {
        assert rest[j] == path[j + 1] && rest[j + 1] == path[j + 2];
      }
      assert LivePath(f, rest, r) && rest[0] == path[1];
      assert Edge(f, p, path[1]);
    }
  }

  // --- execution ------------------------------------------------------------------------

  // Values and events are numbers that stand for anything: no operation is interpreted.
  type Val = int
  type Event = int
  type File = Reg -> Val

  /** What an operation does with the values it reads and everything that happened before:
      a value for its register, an event, and for a terminator the block to go to. */
  datatype Machine = Machine(
    value: (Inst, map<Reg, Val>, seq<Event>) -> Val,
    event: (Inst, map<Reg, Val>, seq<Event>) -> Event,
    next: (Inst, map<Reg, Val>, seq<Event>) -> Option<nat>)

  function Reads(regs: File, uses: set<Reg>): map<Reg, Val> { map r | r in uses :: regs(r) }

  function Written(i: Inst, regs: File, v: Val): File {
    match i.def
    case None => regs
    case Some(r) => (x: Reg) => if x == r then v else regs(x)
  }

  /** The events of at most `n` steps from `p`. */
  function Observe(f: Function, m: Machine, p: Point, regs: File, events: seq<Event>, n: nat): seq<Event>
    decreases n
  {
    if n == 0 || !IsPoint(f, p) then events
    else
      var i := InstAt(f, p);
      var args := Reads(regs, i.uses);
      var regs' := Written(i, regs, m.value(i, args, events));
      var events' := events + [m.event(i, args, events)];
      if p.i < |f[p.b].insts| then Observe(f, m, Point(p.b, p.i + 1), regs', events', n - 1)
      else
        match m.next(i, args, events)
        case Some(b) =>
          if Edge(f, p, Point(b, 0)) then Observe(f, m, Point(b, 0), regs', events', n - 1) else events'
        case None => events'
  }

  ghost predicate SameOnLive(f: Function, p: Point, regs: File, regs': File) {
    forall r :: Live(f, p, r) ==> regs(r) == regs'(r)
  }

  /** Registers that are not live cannot be observed, over any number of steps and loops. */
  lemma {:induction false} DeadRegistersAreInvisible(
    f: Function, m: Machine, p: Point, regs: File, regs': File, events: seq<Event>, n: nat)
    requires SameOnLive(f, p, regs, regs')
    ensures Observe(f, m, p, regs, events, n) == Observe(f, m, p, regs', events, n)
    decreases n
  {
    if n > 0 && IsPoint(f, p) {
      var i := InstAt(f, p);
      forall r | r in i.uses ensures regs(r) == regs'(r) {
        LiveUse(f, p, r);
      }
      assert Reads(regs, i.uses) == Reads(regs', i.uses);
      var args := Reads(regs, i.uses);
      var v, events' := m.value(i, args, events), events + [m.event(i, args, events)];
      var s, s' := Written(i, regs, v), Written(i, regs', v);
      forall q | Edge(f, p, q)
        ensures Observe(f, m, q, s, events', n - 1) == Observe(f, m, q, s', events', n - 1)
      {
        forall r | Live(f, q, r) ensures s(r) == s'(r) {
          if !Defines(i, r) {
            LiveBack(f, p, q, r);
          }
        }
        DeadRegistersAreInvisible(f, m, q, s, s', events', n - 1);
      }
      if p.i < |f[p.b].insts| {
        assert Edge(f, p, Point(p.b, p.i + 1));
      }
    }
  }
}

/**
 qy/analysis/liveness.py: the fixpoint loop over live-in and live-out sets, and the
 live intervals that register allocation uses. Liveness is specified by walks
 (`Cfg.Live`), never by the equations that the loop iterates.
 */
module Liveness {
  import opened Wrappers
  import opened Cfg

  type Sets = map<BlockId, set<Reg>>

  // --- one block ------------------------------------------------------------------------

  function DefSet(i: Inst): set<Reg> { match i.def case None => {} case Some(r) => {r} }

  /** Registers read at or after point `i` of the block before the block writes them. */
  function GenFrom(b: Block, i: nat): set<Reg>
    requires i <= |b.insts|
    decreases |b.insts| - i
  {
    if i == |b.insts| then b.term.uses
    else b.insts[i].uses + (GenFrom(b, i + 1) - DefSet(b.insts[i]))
  }

  /** Registers that the block writes at or after point `i`. */
  function KillFrom(b: Block, i: nat): set<Reg>
    requires i <= |b.insts|
    decreases |b.insts| - i
  {
    if i == |b.insts| then DefSet(b.term)
    else DefSet(b.insts[i]) + KillFrom(b, i + 1)
  }

  /** `_compute_gen_kill`, for one block. */
  method GenKill(b: Block) returns (gen: set<Reg>, kill: set<Reg>)
    ensures gen == GenFrom(b, 0) && kill == KillFrom(b, 0)
  {
    gen, kill := {}, {};
    for i := 0 to |b.insts|
      invariant GenFrom(b, 0) == gen + (GenFrom(b, i) - kill)
      invariant KillFrom(b, 0) == kill + KillFrom(b, i)
    {
      gen := gen + (b.insts[i].uses - kill);
      kill := kill + DefSet(b.insts[i]);
    }
    gen := gen + (b.term.uses - kill);
    kill := kill + DefSet(b.term);
  }

  // --- the equations ----------------------------------------------------------------------

  function Get(live: Sets, id: BlockId): set<Reg> { if id in live then live[id] else {} }

  function Union(live: Sets, ids: seq<BlockId>): set<Reg> {
    if ids == [] then {} else Union(live, ids[..|ids| - 1]) + Get(live, ids[|ids| - 1])
  }

  function OutOf(b: Block, live: Sets): set<Reg> { b.term.uses + Union(live, b.targets) }

  function InOf(b: Block, out: set<Reg>): set<Reg> { GenFrom(b, 0) + (out - KillFrom(b, 0)) }

  lemma {:induction false} InUnion(live: Sets, ids: seq<BlockId>, r: Reg)
    ensures r in Union(live, ids) <==> exists id :: id in ids && r in Get(live, id)
  {
    if ids != [] {
      var n := |ids| - 1;
      InUnion(live, ids[..n], r);
      assert ids == ids[..n] + [ids[n]];
    }
  }

  lemma {:induction false} UnionGrows(live: Sets, live': Sets, ids: seq<BlockId>)
    requires forall id :: Get(live, id) <= Get(live', id)
    ensures Union(live, ids) <= Union(live', ids)
  {
    if ids != [] {
      UnionGrows(live, live', ids[..|ids| - 1]);
    }
  }

  ghost predicate Complete(f: Function, live: Sets) { forall j :: 0 <= j < |f| ==> f[j].id in live }

  /** Block `j` satisfies both equations. */
  ghost predicate Solved(f: Function, j: nat, liveIn: Sets, liveOut: Sets)
    requires j < |f| && Complete(f, liveIn) && Complete(f, liveOut)
  {
    liveOut[f[j].id] == OutOf(f[j], liveIn) && liveIn[f[j].id] == InOf(f[j], liveOut[f[j].id])
  }

  /** Block `j` has not gone past its equations, so another visit can only add registers. */
  ghost predicate Growing(f: Function, j: nat, liveIn: Sets, liveOut: Sets)
    requires j < |f| && Complete(f, liveIn) && Complete(f, liveOut)
  {
    liveOut[f[j].id] <= OutOf(f[j], liveIn) && liveIn[f[j].id] <= InOf(f[j], liveOut[f[j].id])
  }

  // --- the equations against walks ---------------------------------------------------------

  /** `r` is live where block `b` ends: its terminator reads it, or a successor needs it. */
  ghost predicate LiveAtEnd(f: Function, b: nat, r: Reg)
    requires b < |f|
  {
    || r in f[b].term.uses
    || exists c :: 0 <= c < |f| && f[c].id in f[b].targets && Live(f, Point(c, 0), r)
  }

  /** Every register in the sets is live: the loop only adds registers with a walk. */
  ghost predicate Sound(f: Function, liveIn: Sets, liveOut: Sets)
    requires Complete(f, liveIn) && Complete(f, liveOut)
  {
    forall b {:trigger f[b]} :: 0 <= b < |f| ==>
      && (forall r :: r in liveIn[f[b].id] ==> Live(f, Point(b, 0), r))
      && (forall r :: r in liveOut[f[b].id] ==> LiveAtEnd(f, b, r))
  }

  lemma {:induction false} GenIsLive(f: Function, b: nat, i: nat, r: Reg)
    requires b < |f| && i <= |f[b].insts| && r in GenFrom(f[b], i)
    ensures Live(f, Point(b, i), r)
    decreases |f[b].insts| - i
  {
    if r in InstAt(f, Point(b, i)).uses {
      LiveUse(f, Point(b, i), r);
    } else {
      GenIsLive(f, b, i + 1, r);
      LiveBack(f, Point(b, i), Point(b, i + 1), r);
    }
  }

  lemma {:induction false} PassedThroughIsLive(f: Function, b: nat, i: nat, r: Reg)
    requires b < |f| && i <= |f[b].insts| && r !in KillFrom(f[b], i) && LiveAtEnd(f, b, r)
    ensures Live(f, Point(b, i), r)
    decreases |f[b].insts| - i
  {
    if i < |f[b].insts| {
      PassedThroughIsLive(f, b, i + 1, r);
      LiveBack(f, Point(b, i), Point(b, i + 1), r);
    } else if r in f[b].term.uses {
      LiveUse(f, Point(b, i), r);
    } else {
      var c :| 0 <= c < |f| && f[c].id in f[b].targets && Live(f, Point(c, 0), r);
      LiveBack(f, Point(b, i), Point(c, 0), r);
    }
  }

  lemma SoundOut(f: Function, b: nat, liveIn: Sets, liveOut: Sets, r: Reg)
    requires Complete(f, liveIn) && Complete(f, liveOut) && Sound(f, liveIn, liveOut)
    requires b < |f| && r in OutOf(f[b], liveIn)
    requires forall id :: id in liveIn ==> exists c :: 0 <= c < |f| && f[c].id == id
    ensures LiveAtEnd(f, b, r)
  {
    InUnion(liveIn, f[b].targets, r);
    if r !in f[b].term.uses {
      var id :| id in f[b].targets && r in Get(liveIn, id);
      var c :| 0 <= c < |f| && f[c].id == id;
      assert Live(f, Point(c, 0), r);
    }
  }

  lemma SoundIn(f: Function, b: nat, out: set<Reg>, r: Reg)
    requires b < |f| && r in InOf(f[b], out)
    requires forall x :: x in out ==> LiveAtEnd(f, b, x)
    ensures Live(f, Point(b, 0), r)
  {
    if r in GenFrom(f[b], 0) {
      GenIsLive(f, b, 0, r);
    } else {
      PassedThroughIsLive(f, b, 0, r);
    }
  }

  /** In a solution, a walk of any length ends up in the sets. */
  lemma {:induction false} WalkIsFound(f: Function, liveIn: Sets, liveOut: Sets, path: seq<Point>, r: Reg)
    requires Complete(f, liveIn) && Complete(f, liveOut)
    requires forall j :: 0 <= j < |f| ==> Solved(f, j, liveIn, liveOut)
    requires LivePath(f, path, r)
    ensures var p := path[0];
            r in GenFrom(f[p.b], p.i) + (liveOut[f[p.b].id] - KillFrom(f[p.b], p.i))
    decreases |path|
  {
    var p := path[0];
    if |path| > 1 {
      var q, rest := path[1], path[1..];
      assert rest[|rest| - 1] == path[|path| - 1];
      assert LivePath(f, rest, r) by {
        forall j | 0 <= j < |rest| - 1
          ensures Edge(f, rest[j], rest[j + 1]) && !Defines(InstAt(f, rest[j]), r)
        {
          assert rest[j] == path[j + 1] && rest[j + 1] == path[j + 2];
        }
      }
      WalkIsFound(f, liveIn, liveOut, rest, r);
      assert Edge(f, p, q) && !Defines(InstAt(f, p), r);
      if p.i == |f[p.b].insts| {
        assert Solved(f, q.b, liveIn, liveOut) && Solved(f, p.b, liveIn, liveOut);
        assert r in Get(liveIn, f[q.b].id);
        InUnion(liveIn, f[p.b].targets, r);
      }
    } else {
      assert Solved(f, p.b, liveIn, liveOut);
      assert r in InstAt(f, p).uses;
    }
  }

  /** The result: exactly the live registers, at the start and at the end of every block. */
  ghost predicate Exact(f: Function, liveIn: Sets, liveOut: Sets)
    requires Complete(f, liveIn) && Complete(f, liveOut)
  {
    forall b {:trigger f[b]} :: 0 <= b < |f| ==>
      && (forall r :: r in liveIn[f[b].id] <==> Live(f, Point(b, 0), r))
      && (forall r :: r in liveOut[f[b].id] <==> LiveAtEnd(f, b, r))
  }

  lemma SolutionIsExact(f: Function, liveIn: Sets, liveOut: Sets)
    requires Complete(f, liveIn) && Complete(f, liveOut) && Sound(f, liveIn, liveOut)
    requires forall j :: 0 <= j < |f| ==> Solved(f, j, liveIn, liveOut)
    ensures Exact(f, liveIn, liveOut)
  {
    forall b, r | 0 <= b < |f| && Live(f, Point(b, 0), r) ensures r in liveIn[f[b].id] {
      var path :| LivePath(f, path, r) && path[0] == Point(b, 0);
      WalkIsFound(f, liveIn, liveOut, path, r);
      assert Solved(f, b, liveIn, liveOut);
    }
    forall b, r | 0 <= b < |f| && LiveAtEnd(f, b, r) ensures r in liveOut[f[b].id] {
      assert Solved(f, b, liveIn, liveOut);
      InUnion(liveIn, f[b].targets, r);
      if r !in f[b].term.uses {
        var c :| 0 <= c < |f| && f[c].id in f[b].targets && Live(f, Point(c, 0), r);
        assert r in Get(liveIn, f[c].id);
      }
    }
  }

  // --- the loop --------------------------------------------------------------------------------

  function Ids(f: Function): set<BlockId> { set j | 0 <= j < |f| :: f[j].id }

  /** Every register that some instruction of the function reads. */
  function UsedBy(insts: seq<Inst>): set<Reg> {
    if insts == [] then {} else UsedBy(insts[..|insts| - 1]) + insts[|insts| - 1].uses
  }

  function Used(f: Function): set<Reg> {
    if f == [] then {}
    else
      var b := f[|f| - 1];
      Used(f[..|f| - 1]) + UsedBy(b.insts) + b.term.uses
  }

  lemma {:induction false} InUsedBy(insts: seq<Inst>, i: nat)
    requires i < |insts|
    ensures insts[i].uses <= UsedBy(insts)
  {
    if i < |insts| - 1 {
      InUsedBy(insts[..|insts| - 1], i);
    }
  }

  lemma {:induction false} InUsed(f: Function, p: Point)
    requires IsPoint(f, p)
    ensures InstAt(f, p).uses <= Used(f)
  {
    if p.b < |f| - 1 {
      InUsed(f[..|f| - 1], p);
    } else if p.i < |f[p.b].insts| {
      InUsedBy(f[p.b].insts, p.i);
    }
  }

  lemma LiveIsUsed(f: Function, p: Point, r: Reg)
    requires Live(f, p, r)
    ensures r in Used(f)
  {
    var path :| LivePath(f, path, r) && path[0] == p;
    InUsed(f, path[|path| - 1]);
  }

  /** What the sets still lack: it shrinks whenever a visit changes a block. */
  function Missing(f: Function, liveIn: Sets, liveOut: Sets): set<(BlockId, Reg, bool)> {
    (set id, r | id in Ids(f) && r in Used(f) && r !in Get(liveIn, id) :: (id, r, true))
    + (set id, r | id in Ids(f) && r in Used(f) && r !in Get(liveOut, id) :: (id, r, false))
  }

  method UnionOf(live: Sets, ids: seq<BlockId>, start: set<Reg>) returns (out: set<Reg>)
    ensures out == start + Union(live, ids)
  {
    out := start;
    for k := 0 to |ids|
      invariant out == start + Union(live, ids[..k])
    {
      assert ids[..k + 1][..k] == ids[..k];
      out := out + Get(live, ids[k]);
    }
    assert ids[..|ids|] == ids;
  }

  /** What the loop keeps true of its two dictionaries. */
  ghost predicate LoopState(f: Function, liveIn: Sets, liveOut: Sets) {
    && liveIn.Keys == Ids(f) && liveOut.Keys == Ids(f)
    && Complete(f, liveIn) && Complete(f, liveOut)
    && Sound(f, liveIn, liveOut)
    && forall j :: 0 <= j < |f| ==> Growing(f, j, liveIn, liveOut)
  }

  /** One visit of block `b` that changes something keeps the state and adds a register. */
  lemma VisitKeepsState(f: Function, b: nat, liveIn: Sets, liveOut: Sets)
    requires UniqueIds(f) && b < |f| && LoopState(f, liveIn, liveOut)
    ensures var out := OutOf(f[b], liveIn);
            var liveIn', liveOut' := liveIn[f[b].id := InOf(f[b], out)], liveOut[f[b].id := out];
            && LoopState(f, liveIn', liveOut')
            && (!Solved(f, b, liveIn, liveOut) ==> Missing(f, liveIn', liveOut') < Missing(f, liveIn, liveOut))
  {
    var id := f[b].id;
    var out := OutOf(f[b], liveIn);
    var liveIn', liveOut' := liveIn[id := InOf(f[b], out)], liveOut[id := out];
    assert Growing(f, b, liveIn, liveOut);
    forall x ensures Get(liveIn, x) <= Get(liveIn', x) {}
    forall r | r in out ensures LiveAtEnd(f, b, r) { SoundOut(f, b, liveIn, liveOut, r); }
    forall r | r in InOf(f[b], out) ensures Live(f, Point(b, 0), r) { SoundIn(f, b, out, r); }
    assert LoopState(f, liveIn', liveOut') by {
      forall j | 0 <= j < |f| ensures Growing(f, j, liveIn', liveOut') {
        assert Growing(f, j, liveIn, liveOut);
        UnionGrows(liveIn, liveIn', f[j].targets);
      }
      assert Sound(f, liveIn', liveOut');
    }
    if !Solved(f, b, liveIn, liveOut) {
      MissingShrinks(f, b, liveIn, liveOut, InOf(f[b], out), out);
    }
  }

  lemma MissingShrinks(f: Function, b: nat, liveIn: Sets, liveOut: Sets, in_: set<Reg>, out: set<Reg>)
    requires b < |f| && Complete(f, liveIn) && Complete(f, liveOut)
    requires liveIn[f[b].id] <= in_ && liveOut[f[b].id] <= out
    requires liveIn[f[b].id] != in_ || liveOut[f[b].id] != out
    requires forall r :: r in in_ ==> Live(f, Point(b, 0), r)
    requires forall r :: r in out ==> LiveAtEnd(f, b, r)
    ensures Missing(f, liveIn[f[b].id := in_], liveOut[f[b].id := out]) < Missing(f, liveIn, liveOut)
  {
    var id := f[b].id;
    var before, after := Missing(f, liveIn, liveOut), Missing(f, liveIn[id := in_], liveOut[id := out]);
    assert after <= before;
    if liveIn[id] != in_ {
      var r :| r in in_ && r !in liveIn[id];
      LiveIsUsed(f, Point(b, 0), r);
      assert (id, r, true) in before && (id, r, true) !in after;
    } else {
      var r :| r in out && r !in liveOut[id];
      LiveAtEndIsUsed(f, b, r);
      assert (id, r, false) in before && (id, r, false) !in after;
    }
  }

  lemma LiveAtEndIsUsed(f: Function, b: nat, r: Reg)
    requires b < |f| && LiveAtEnd(f, b, r)
    ensures r in Used(f)
  {
    if r in f[b].term.uses {
      InUsed(f, Point(b, |f[b].insts|));
    } else {
      var c :| 0 <= c < |f| && f[c].id in f[b].targets && Live(f, Point(c, 0), r);
      LiveIsUsed(f, Point(c, 0), r);
    }
  }

  lemma EmptySetsAreAState(f: Function)
    requires UniqueIds(f)
    ensures var none := map id | id in Ids(f) :: {}; LoopState(f, none, none)
  {
  }

  /** The first `n` blocks satisfy their equations. */
  ghost predicate SolvedUpTo(f: Function, n: nat, liveIn: Sets, liveOut: Sets)
    requires n <= |f| && Complete(f, liveIn) && Complete(f, liveOut)
  {
    forall j :: 0 <= j < n ==> Solved(f, j, liveIn, liveOut)
  }

  ghost predicate HasGenKill(f: Function, n: nat, gen: Sets, kill: Sets)
    requires n <= |f|
  {
    forall j :: 0 <= j < n ==>
      f[j].id in gen && gen[f[j].id] == GenFrom(f[j], 0) && f[j].id in kill && kill[f[j].id] == KillFrom(f[j], 0)
  }

  method ComputeGenKill(f: Function) returns (gen: Sets, kill: Sets)
    requires UniqueIds(f)
    ensures HasGenKill(f, |f|, gen, kill)
  {
    gen, kill := map[], map[];
    for b := 0 to |f|
      invariant HasGenKill(f, b, gen, kill)
    {
      var g, k := GenKill(f[b]);
      gen, kill := gen[f[b].id := g], kill[f[b].id := k];
    }
  }

  /** One visit of the loop body. */
  method Visit(f: Function, b: nat, gen: Sets, kill: Sets, liveIn: Sets, liveOut: Sets)
    returns (changed: bool, liveIn': Sets, liveOut': Sets)
    requires UniqueIds(f) && b < |f| && HasGenKill(f, |f|, gen, kill) && LoopState(f, liveIn, liveOut)
    ensures LoopState(f, liveIn', liveOut')
    ensures changed ==> Missing(f, liveIn', liveOut') < Missing(f, liveIn, liveOut)
    ensures !changed ==> liveIn' == liveIn && liveOut' == liveOut && Solved(f, b, liveIn, liveOut)
  {
    hide Missing, Sound;
    var id := f[b].id;
    var newOut := UnionOf(liveIn, f[b].targets, f[b].term.uses);
    var newIn := gen[id] + (newOut - kill[id]);
    VisitKeepsState(f, b, liveIn, liveOut);
    changed, liveIn', liveOut' := false, liveIn, liveOut;
    if newIn != liveIn[id] || newOut != liveOut[id] {
      changed := true;
      liveIn' := liveIn[id := newIn];
      liveOut' := liveOut[id := newOut];
    }
  }

  /** `compute_liveness`: iterate until a whole pass changes nothing. It always stops. */
  method ComputeLiveness(f: Function) returns (liveIn: Sets, liveOut: Sets)
    requires UniqueIds(f)
    ensures liveIn.Keys == Ids(f) && liveOut.Keys == Ids(f)
    ensures Complete(f, liveIn) && Complete(f, liveOut) && Exact(f, liveIn, liveOut)
  {
    hide Missing, Sound, HasGenKill, Growing, Solved;
    var gen, kill := ComputeGenKill(f);
    liveIn, liveOut := map id | id in Ids(f) :: {}, map id | id in Ids(f) :: {};
    EmptySetsAreAState(f);
    var changed := true;
    while changed
      invariant LoopState(f, liveIn, liveOut)
      invariant !changed ==> SolvedUpTo(f, |f|, liveIn, liveOut)
      decreases Missing(f, liveIn, liveOut), changed
    {
      ghost var before := Missing(f, liveIn, liveOut);
      changed := false;
      for b := 0 to |f|
        invariant LoopState(f, liveIn, liveOut)
        invariant if changed then Missing(f, liveIn, liveOut) < before else Missing(f, liveIn, liveOut) == before
        invariant !changed ==> SolvedUpTo(f, b, liveIn, liveOut)
      {
        var c;
        c, liveIn, liveOut := Visit(f, b, gen, kill, liveIn, liveOut);
        changed := changed || c;
      }
    }
    SolutionIsExact(f, liveIn, liveOut);
  }

  /** Together: two register files that agree on `live_in` of a block run alike from it. */
  lemma LiveInDeterminesRun(f: Function, liveIn: Sets, liveOut: Sets, b: nat, m: Machine, regs: File, regs': File,
                            events: seq<Event>, n: nat)
    requires b < |f| && Complete(f, liveIn) && Complete(f, liveOut) && Exact(f, liveIn, liveOut)
    requires forall r :: r in liveIn[f[b].id] ==> regs(r) == regs'(r)
    ensures Observe(f, m, Point(b, 0), regs, events, n) == Observe(f, m, Point(b, 0), regs', events, n)
  {
    assert forall r :: r in liveIn[f[b].id] <==> Live(f, Point(b, 0), r);
    DeadRegistersAreInvisible(f, m, Point(b, 0), regs, regs', events, n);
  }
}

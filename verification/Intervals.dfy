/**
 `_compute_intervals` of qy/analysis/liveness.py: one interval of flat positions per
 register, and what register allocation may conclude from it.
 */
module Intervals {
  import opened Wrappers
  import opened Cfg
  import opened Liveness

  type Spans = map<Reg, (int, int)>

  // --- flat positions -----------------------------------------------------------------------

  /** The flat position of the first point of block `b`. */
  function Start(f: Function, b: nat): nat
    requires b <= |f|
  {
    if b == 0 then 0 else Start(f, b - 1) + |f[b - 1].insts| + 1
  }

  function Flat(f: Function, p: Point): nat
    requires IsPoint(f, p)
  {
    Start(f, p.b) + p.i
  }

  /** Positions count the points in layout order: 0 at the first, one more at each next. */
  lemma FlatCounts(f: Function, b: nat, i: nat)
    requires IsPoint(f, Point(b, i))
    ensures b == 0 && i == 0 ==> Flat(f, Point(b, i)) == 0
    ensures i < |f[b].insts| ==> Flat(f, Point(b, i + 1)) == Flat(f, Point(b, i)) + 1
    ensures i == |f[b].insts| && b + 1 < |f| ==> Flat(f, Point(b + 1, 0)) == Flat(f, Point(b, i)) + 1
  {
  }

  predicate Before(p: Point, b: nat, i: nat) { p.b < b || (p.b == b && p.i < i) }

  lemma {:induction false} FlatOrder(f: Function, p: Point, b: nat, i: nat)
    requires IsPoint(f, p) && b <= |f| && Before(p, b, i)
    ensures Flat(f, p) < Start(f, b) + i
    decreases b
  {
    if p.b < b - 1 {
      FlatOrder(f, p, b - 1, 0);
    }
  }

  // --- what opens and what closes an interval -------------------------------------------------

  /** At `p` the register is live into its block, or an instruction writes it. */
  ghost predicate Opens(f: Function, liveIn: Sets, p: Point, r: Reg) {
    IsPoint(f, p) &&
    ((p.i == 0 && r in Get(liveIn, f[p.b].id))
     || (p.i < |f[p.b].insts| && Defines(InstAt(f, p), r)))
  }

  /** At `p` an instruction reads the register, or it is live out of the block. */
  ghost predicate Closes(f: Function, liveOut: Sets, p: Point, r: Reg) {
    IsPoint(f, p) &&
    if p.i < |f[p.b].insts| then r in InstAt(f, p).uses else r in Get(liveOut, f[p.b].id)
  }

  /** `Opens`, seen by a scan that has merged `m` live-in sets and reached instruction (b, i). */
  ghost predicate Opened(f: Function, liveIn: Sets, m: nat, b: nat, i: nat, p: Point, r: Reg) {
    IsPoint(f, p) &&
    ((p.i == 0 && p.b < m && r in Get(liveIn, f[p.b].id))
     || (p.i < |f[p.b].insts| && Before(p, b, i) && Defines(InstAt(f, p), r)))
  }

  ghost predicate Closed(f: Function, liveOut: Sets, b: nat, i: nat, p: Point, r: Reg) {
    Closes(f, liveOut, p, r) && Before(p, b, i)
  }

  ghost predicate OpenedAt(f: Function, liveIn: Sets, m: nat, b: nat, i: nat, p: Point, r: Reg, at: int) {
    Opened(f, liveIn, m, b, i, p, r) && Flat(f, p) == at
  }

  ghost predicate ClosedAt(f: Function, liveOut: Sets, b: nat, i: nat, p: Point, r: Reg, at: int) {
    Closed(f, liveOut, b, i, p, r) && Flat(f, p) == at
  }

  ghost predicate OpenedSomewhere(f: Function, liveIn: Sets, m: nat, b: nat, i: nat, r: Reg, at: int) {
    exists p :: OpenedAt(f, liveIn, m, b, i, p, r, at)
  }

  ghost predicate ClosedSomewhere(f: Function, liveOut: Sets, b: nat, i: nat, r: Reg, at: int) {
    exists p :: ClosedAt(f, liveOut, b, i, p, r, at)
  }

  ghost predicate FirstOk(f: Function, liveIn: Sets, m: nat, b: nat, i: nat, first: map<Reg, int>) {
    && (forall r :: r in first ==> OpenedSomewhere(f, liveIn, m, b, i, r, first[r]))
    && (forall p, r :: Opened(f, liveIn, m, b, i, p, r) ==> r in first && first[r] <= Flat(f, p))
  }

  ghost predicate LastOk(f: Function, liveOut: Sets, b: nat, i: nat, last: map<Reg, int>) {
    && (forall r :: r in last ==> ClosedSomewhere(f, liveOut, b, i, r, last[r]))
    && (forall p, r :: Closed(f, liveOut, b, i, p, r) ==> r in last && Flat(f, p) <= last[r])
  }

  // --- the scan -----------------------------------------------------------------------------------

  /** `if reg not in first_def: first_def[reg] = at`, for each register of a set. */
  function AddMissing(first: map<Reg, int>, regs: set<Reg>, at: int): map<Reg, int> {
    first + map r | r in regs && r !in first :: at
  }

  /** `last_use[reg] = at`, for each register of a set. */
  function SetAll(last: map<Reg, int>, regs: set<Reg>, at: int): map<Reg, int> {
    last + map r | r in regs :: at
  }

  /** Extending the scan: what was found stays found, and new points come later. */
  lemma FirstStep(f: Function, liveIn: Sets, m: nat, b: nat, i: nat, first: map<Reg, int>,
                  m': nat, b': nat, i': nat, here: Point, regs: set<Reg>)
    requires b < |f| && IsPoint(f, here) && FirstOk(f, liveIn, m, b, i, first)
    requires forall p, r :: Opened(f, liveIn, m', b', i', p, r) <==>
               Opened(f, liveIn, m, b, i, p, r) || (p == here && r in regs)
    requires forall p, r :: Opened(f, liveIn, m, b, i, p, r) ==> Flat(f, p) <= Flat(f, here)
    ensures FirstOk(f, liveIn, m', b', i', AddMissing(first, regs, Flat(f, here)))
  {
    hide Flat;
    var next := AddMissing(first, regs, Flat(f, here));
    forall r | r in next ensures OpenedSomewhere(f, liveIn, m', b', i', r, next[r]) {
      if r in first {
        var p :| OpenedAt(f, liveIn, m, b, i, p, r, first[r]);
        assert OpenedAt(f, liveIn, m', b', i', p, r, next[r]);
      } else {
        assert OpenedAt(f, liveIn, m', b', i', here, r, next[r]);
      }
    }
    forall p, r | Opened(f, liveIn, m', b', i', p, r) ensures r in next && next[r] <= Flat(f, p) {
      if r in first {
        var q :| OpenedAt(f, liveIn, m, b, i, q, r, first[r]);
      }
    }
  }

  lemma FirstLiveIn(f: Function, liveIn: Sets, b: nat, first: map<Reg, int>)
    requires b < |f| && FirstOk(f, liveIn, b, b, 0, first)
    ensures FirstOk(f, liveIn, b + 1, b, 0, AddMissing(first, Get(liveIn, f[b].id), Start(f, b)))
  {
    hide FirstOk;
    forall p: Point, r: Reg | Opened(f, liveIn, b, b, 0, p, r) ensures Flat(f, p) <= Start(f, b) {
      FlatOrder(f, p, b, 0);
    }
    FirstStep(f, liveIn, b, b, 0, first, b + 1, b, 0, Point(b, 0), Get(liveIn, f[b].id));
  }

  lemma FirstDef(f: Function, liveIn: Sets, b: nat, i: nat, first: map<Reg, int>)
    requires b < |f| && i < |f[b].insts| && FirstOk(f, liveIn, b + 1, b, i, first)
    ensures FirstOk(f, liveIn, b + 1, b, i + 1, AddMissing(first, DefSet(f[b].insts[i]), Start(f, b) + i))
  {
    hide FirstOk;
    var m := b + 1;
    forall p: Point, r: Reg | Opened(f, liveIn, m, b, i, p, r) ensures Flat(f, p) <= Start(f, b) + i {
      if p != Point(b, 0) { FlatOrder(f, p, b, i); }
    }
    FirstStep(f, liveIn, m, b, i, first, m, b, i + 1, Point(b, i), DefSet(f[b].insts[i]));
  }

  lemma FirstNextBlock(f: Function, liveIn: Sets, b: nat, first: map<Reg, int>)
    requires b < |f| && FirstOk(f, liveIn, b + 1, b, |f[b].insts|, first)
    ensures FirstOk(f, liveIn, b + 1, b + 1, 0, first)
  {
    var m, n := b + 1, |f[b].insts|;
    forall r | r in first ensures OpenedSomewhere(f, liveIn, m, m, 0, r, first[r]) {
      var p :| OpenedAt(f, liveIn, m, b, n, p, r, first[r]);
      assert OpenedAt(f, liveIn, m, m, 0, p, r, first[r]);
    }
    forall p: Point, r: Reg | Opened(f, liveIn, m, m, 0, p, r) ensures r in first && first[r] <= Flat(f, p) {
      assert Opened(f, liveIn, m, b, n, p, r);
    }
  }

  lemma LastStep(f: Function, liveOut: Sets, b: nat, i: nat, last: map<Reg, int>,
                 b': nat, i': nat, here: Point, regs: set<Reg>)
    requires IsPoint(f, here) && LastOk(f, liveOut, b, i, last)
    requires forall p, r :: Closed(f, liveOut, b', i', p, r) <==>
               Closed(f, liveOut, b, i, p, r) || (p == here && r in regs)
    requires forall p, r :: Closed(f, liveOut, b, i, p, r) ==> Flat(f, p) <= Flat(f, here)
    ensures LastOk(f, liveOut, b', i', SetAll(last, regs, Flat(f, here)))
  {
    hide Flat;
    var next := SetAll(last, regs, Flat(f, here));
    forall r | r in next ensures ClosedSomewhere(f, liveOut, b', i', r, next[r]) {
      if r in regs {
        assert ClosedAt(f, liveOut, b', i', here, r, next[r]);
      } else {
        var p :| ClosedAt(f, liveOut, b, i, p, r, last[r]);
        assert ClosedAt(f, liveOut, b', i', p, r, next[r]);
      }
    }
  }

  lemma ClosedNext(f: Function, liveOut: Sets, b: nat, i: nat, j: nat, regs: set<Reg>)
    requires b < |f| && i <= |f[b].insts| && j == i + 1
    requires forall r :: r in regs <==> Closes(f, liveOut, Point(b, i), r)
    ensures forall p, r :: Closed(f, liveOut, b, j, p, r) <==>
              Closed(f, liveOut, b, i, p, r) || (p == Point(b, i) && r in regs)
  {
    hide Closes;
  }

  lemma LastUse(f: Function, liveOut: Sets, b: nat, i: nat, last: map<Reg, int>, regs: set<Reg>)
    requires b < |f| && i <= |f[b].insts| && LastOk(f, liveOut, b, i, last)
    requires forall r :: r in regs <==> Closes(f, liveOut, Point(b, i), r)
    ensures LastOk(f, liveOut, b, i + 1, SetAll(last, regs, Start(f, b) + i))
  {
    hide LastOk, Start;
    forall p: Point, r: Reg | Closed(f, liveOut, b, i, p, r) ensures Flat(f, p) <= Start(f, b) + i {
      FlatOrder(f, p, b, i);
    }
    var j := i + 1;
    ClosedNext(f, liveOut, b, i, j, regs);
    LastStep(f, liveOut, b, i, last, b, j, Point(b, i), regs);
  }

  lemma LastNextBlock(f: Function, liveOut: Sets, b: nat, last: map<Reg, int>)
    requires b < |f| && LastOk(f, liveOut, b, |f[b].insts| + 1, last)
    ensures LastOk(f, liveOut, b + 1, 0, last)
  {
    var m, n := b + 1, |f[b].insts| + 1;
    forall r | r in last ensures ClosedSomewhere(f, liveOut, m, 0, r, last[r]) {
      var p :| ClosedAt(f, liveOut, b, n, p, r, last[r]);
      assert ClosedAt(f, liveOut, m, 0, p, r, last[r]);
    }
    forall p: Point, r: Reg | Closed(f, liveOut, m, 0, p, r) ensures r in last && Flat(f, p) <= last[r] {
      assert Closed(f, liveOut, b, n, p, r);
    }
  }

  ghost predicate OpensAt(f: Function, liveIn: Sets, p: Point, r: Reg, at: int) {
    Opens(f, liveIn, p, r) && Flat(f, p) == at
  }

  ghost predicate ClosesAt(f: Function, liveOut: Sets, p: Point, r: Reg, at: int) {
    Closes(f, liveOut, p, r) && Flat(f, p) == at
  }

  /** The interval of a register: from its first opening to its last closing position. */
  ghost predicate Spanned(f: Function, liveIn: Sets, liveOut: Sets, spans: Spans) {
    && (forall p, r :: Opens(f, liveIn, p, r) ==> r in spans && spans[r].0 <= Flat(f, p))
    && (forall p, r :: Closes(f, liveOut, p, r) ==> r in spans && Flat(f, p) <= spans[r].1)
    && (forall r :: r in spans ==>
          || (exists p :: OpensAt(f, liveIn, p, r, spans[r].0))
          || (spans[r].0 == 0 && forall p :: !Opens(f, liveIn, p, r)))
    && (forall r :: r in spans ==>
          || (exists p :: ClosesAt(f, liveOut, p, r, spans[r].1))
          || (spans[r].1 == spans[r].0 && forall p :: !Closes(f, liveOut, p, r)))
  }

  function SpansOf(first: map<Reg, int>, last: map<Reg, int>): Spans {
    map r | r in first.Keys + last.Keys ::
      var d := if r in first then first[r] else 0;
      (d, if r in last then last[r] else d)
  }

  lemma ScanSpans(f: Function, liveIn: Sets, liveOut: Sets, first: map<Reg, int>, last: map<Reg, int>)
    requires FirstOk(f, liveIn, |f|, |f|, 0, first) && LastOk(f, liveOut, |f|, 0, last)
    ensures Spanned(f, liveIn, liveOut, SpansOf(first, last))
  {
    var spans := SpansOf(first, last);
    forall p: Point, r: Reg | Opens(f, liveIn, p, r) ensures r in spans && spans[r].0 <= Flat(f, p) {
      assert Opened(f, liveIn, |f|, |f|, 0, p, r);
    }
    forall p: Point, r: Reg | Closes(f, liveOut, p, r) ensures r in spans && Flat(f, p) <= spans[r].1 {
      assert Closed(f, liveOut, |f|, 0, p, r);
    }
    forall r | r in spans
      ensures (exists p :: OpensAt(f, liveIn, p, r, spans[r].0))
           || (spans[r].0 == 0 && forall p :: !Opens(f, liveIn, p, r))
    {
      if r in first {
        var p :| OpenedAt(f, liveIn, |f|, |f|, 0, p, r, first[r]);
        assert OpensAt(f, liveIn, p, r, spans[r].0);
      } else {
        forall p ensures !Opens(f, liveIn, p, r) {
          assert !Opened(f, liveIn, |f|, |f|, 0, p, r);
        }
      }
    }
    forall r | r in spans
      ensures (exists p :: ClosesAt(f, liveOut, p, r, spans[r].1))
           || (spans[r].1 == spans[r].0 && forall p :: !Closes(f, liveOut, p, r))
    {
      if r in last {
        var p :| ClosedAt(f, liveOut, |f|, 0, p, r, last[r]);
        assert ClosesAt(f, liveOut, p, r, spans[r].1);
      } else {
        forall p ensures !Closes(f, liveOut, p, r) {
          assert !Closed(f, liveOut, |f|, 0, p, r);
        }
      }
    }
  }

  method ComputeIntervals(f: Function, liveIn: Sets, liveOut: Sets) returns (spans: Spans)
    ensures Spanned(f, liveIn, liveOut, spans)
  {
    hide FirstOk, LastOk, Spanned;
    var first, last: map<Reg, int> := map[], map[];
    var flat := 0;
    assert FirstOk(f, liveIn, 0, 0, 0, first) && LastOk(f, liveOut, 0, 0, last) by { NothingScanned(f, liveIn, liveOut); }
    for b := 0 to |f|
      invariant flat == Start(f, b)
      invariant FirstOk(f, liveIn, b, b, 0, first) && LastOk(f, liveOut, b, 0, last)
    {
      FirstLiveIn(f, liveIn, b, first);
      first := AddMissing(first, Get(liveIn, f[b].id), flat);
      for i := 0 to |f[b].insts|
        invariant flat == Start(f, b) + i
        invariant FirstOk(f, liveIn, b + 1, b, i, first) && LastOk(f, liveOut, b, i, last)
      {
        var inst := f[b].insts[i];
        FirstDef(f, liveIn, b, i, first);
        first := AddMissing(first, DefSet(inst), flat);
        LastUse(f, liveOut, b, i, last, inst.uses);
        last := SetAll(last, inst.uses, flat);
        flat := flat + 1;
      }
      FirstNextBlock(f, liveIn, b, first);
      LastUse(f, liveOut, b, |f[b].insts|, last, Get(liveOut, f[b].id));
      last := SetAll(last, Get(liveOut, f[b].id), flat);
      LastNextBlock(f, liveOut, b, last);
      flat := flat + 1;
    }
    ScanSpans(f, liveIn, liveOut, first, last);
    spans := SpansOf(first, last);
  }

  lemma NothingScanned(f: Function, liveIn: Sets, liveOut: Sets)
    ensures FirstOk(f, liveIn, 0, 0, 0, map[]) && LastOk(f, liveOut, 0, 0, map[])
  {
  }

  // --- soundness of the intervals ---------------------------------------------------------------------

  /** Walking back inside the block: the register was written there, or it came in live. */
  lemma {:induction false} LiveWasOpened(f: Function, p: Point, r: Reg) returns (j: nat)
    requires Live(f, p, r) && IsPoint(f, p)
    ensures j <= p.i
    ensures (j == 0 && Live(f, Point(p.b, 0), r)) || (j < p.i && Defines(InstAt(f, Point(p.b, j)), r))
    decreases p.i
  {
    if p.i == 0 {
      j := 0;
    } else if Defines(InstAt(f, Point(p.b, p.i - 1)), r) {
      j := p.i - 1;
    } else {
      LiveBack(f, Point(p.b, p.i - 1), p, r);
      j := LiveWasOpened(f, Point(p.b, p.i - 1), r);
    }
  }

  /** Walking on inside the block: the register is read there, or it goes out live. */
  lemma {:induction false} LiveIsClosed(f: Function, p: Point, r: Reg) returns (j: nat)
    requires Live(f, p, r) && IsPoint(f, p)
    ensures p.i <= j <= |f[p.b].insts|
    ensures if j < |f[p.b].insts| then r in InstAt(f, Point(p.b, j)).uses else LiveAtEnd(f, p.b, r)
    decreases |f[p.b].insts| - p.i
  {
    LiveUnfolds(f, p, r);
    if p.i == |f[p.b].insts| || r in InstAt(f, p).uses {
      j := p.i;
      if r !in InstAt(f, p).uses {
        var q :| Edge(f, p, q) && Live(f, q, r);
        assert q == Point(q.b, 0);
      }
    } else {
      j := LiveIsClosed(f, Point(p.b, p.i + 1), r);
    }
  }

  /** A register that is live before a position has an interval that contains the position,
      for every layout of the blocks and every back edge. */
  lemma LiveInsideInterval(f: Function, liveIn: Sets, liveOut: Sets, spans: Spans, p: Point, r: Reg)
    requires Complete(f, liveIn) && Complete(f, liveOut) && Exact(f, liveIn, liveOut)
    requires Spanned(f, liveIn, liveOut, spans) && IsPoint(f, p) && Live(f, p, r)
    ensures r in spans && spans[r].0 <= Flat(f, p) <= spans[r].1
  {
    var j := LiveWasOpened(f, p, r);
    assert j == 0 && Live(f, Point(p.b, 0), r) ==> r in liveIn[f[p.b].id];
    assert Opens(f, liveIn, Point(p.b, j), r);
    var k := LiveIsClosed(f, p, r);
    assert LiveAtEnd(f, p.b, r) ==> r in liveOut[f[p.b].id];
    assert Closes(f, liveOut, Point(p.b, k), r);
  }

  predicate Overlap(a: (int, int), b: (int, int)) { a.0 <= b.1 && b.0 <= a.1 }

  /** A colouring that separates overlapping intervals separates registers live at the same time. */
  lemma ColouringSeparatesLive(f: Function, liveIn: Sets, liveOut: Sets, spans: Spans, colour: Reg -> int,
                               p: Point, r: Reg, s: Reg)
    requires Complete(f, liveIn) && Complete(f, liveOut) && Exact(f, liveIn, liveOut)
    requires Spanned(f, liveIn, liveOut, spans) && IsPoint(f, p)
    requires forall x, y :: x in spans && y in spans && x != y && Overlap(spans[x], spans[y]) ==> colour(x) != colour(y)
    requires r != s && Live(f, p, r) && Live(f, p, s)
    ensures colour(r) != colour(s)
  {
    LiveInsideInterval(f, liveIn, liveOut, spans, p, r);
    LiveInsideInterval(f, liveIn, liveOut, spans, p, s);
  }

  // --- writes that nobody reads ---------------------------------------------------------------------------

  /** The register is live at the entry of the block that starts at `q`, or written at `q`. */
  ghost predicate Starts(f: Function, q: Point, r: Reg) {
    IsPoint(f, q) &&
    ((q.i == 0 && Live(f, q, r)) || (q.i < |f[q.b].insts| && Defines(InstAt(f, q), r)))
  }

  /** The register is read at `q`, or live at the end of the block that ends at `q`. */
  ghost predicate Ends(f: Function, q: Point, r: Reg) {
    IsPoint(f, q) &&
    if q.i < |f[q.b].insts| then r in InstAt(f, q).uses else LiveAtEnd(f, q.b, r)
  }

  lemma PositionsOfFunction(f: Function, liveIn: Sets, liveOut: Sets, q: Point, r: Reg)
    requires Complete(f, liveIn) && Complete(f, liveOut) && Exact(f, liveIn, liveOut)
    ensures Opens(f, liveIn, q, r) <==> Starts(f, q, r)
    ensures Closes(f, liveOut, q, r) <==> Ends(f, q, r)
  {
    hide Live, LiveAtEnd, Defines;
  }

  /** A write is never before the interval of its register. It is inside exactly when the
      register is read or live at a block's end somewhere at or behind it, or is so nowhere and
      starts nowhere in front of it. */
  lemma WriteInsideInterval(f: Function, liveIn: Sets, liveOut: Sets, spans: Spans, p: Point, r: Reg)
    requires Complete(f, liveIn) && Complete(f, liveOut) && Exact(f, liveIn, liveOut)
    requires Spanned(f, liveIn, liveOut, spans)
    requires IsPoint(f, p) && p.i < |f[p.b].insts| && Defines(InstAt(f, p), r)
    ensures r in spans && spans[r].0 <= Flat(f, p)
    ensures Flat(f, p) <= spans[r].1 <==>
              || (exists q :: Ends(f, q, r) && Flat(f, p) <= Flat(f, q))
              || ((forall q :: !Ends(f, q, r)) && forall q :: Starts(f, q, r) ==> Flat(f, p) <= Flat(f, q))
  {
    forall q ensures (Opens(f, liveIn, q, r) <==> Starts(f, q, r)) && (Closes(f, liveOut, q, r) <==> Ends(f, q, r)) {
      PositionsOfFunction(f, liveIn, liveOut, q, r);
    }
    assert Starts(f, p, r) && Opens(f, liveIn, p, r);
    hide Opens, Closes, Starts, Ends, Flat, Exact, Complete;
    if q :| ClosesAt(f, liveOut, q, r, spans[r].1) {
      assert Ends(f, q, r);
    } else {
      var o :| OpensAt(f, liveIn, o, r, spans[r].0);
      assert Starts(f, o, r);
    }
  }

  /** A write whose value is wanted just after it is inside the interval. */
  lemma LiveWriteInside(f: Function, liveIn: Sets, liveOut: Sets, spans: Spans, p: Point, r: Reg)
    requires Complete(f, liveIn) && Complete(f, liveOut) && Exact(f, liveIn, liveOut)
    requires Spanned(f, liveIn, liveOut, spans)
    requires IsPoint(f, p) && p.i < |f[p.b].insts| && Defines(InstAt(f, p), r) && Live(f, Point(p.b, p.i + 1), r)
    ensures r in spans && spans[r].0 <= Flat(f, p) < spans[r].1
  {
    LiveInsideInterval(f, liveIn, liveOut, spans, Point(p.b, p.i + 1), r);
    assert Opens(f, liveIn, p, r);
  }

  const DEAD_WRITE: Function := [Block(0, [
    Inst({}, Some(0), 0), Inst({0}, None, 1), Inst({}, Some(0), 2)], Inst({}, None, 3), [])]

  lemma OnlyCloseIsEnd(f: Function, liveIn: Sets, liveOut: Sets, spans: Spans, p: Point, r: Reg)
    requires Spanned(f, liveIn, liveOut, spans) && Closes(f, liveOut, p, r)
    requires forall q :: Closes(f, liveOut, q, r) ==> q == p
    ensures r in spans && spans[r].1 == Flat(f, p)
  {
    hide Closes, Opens, Flat;
  }

  lemma DeadWriteCloses(liveOut: Sets, q: Point)
    requires 0 in liveOut && 0 !in liveOut[0]
    ensures Closes(DEAD_WRITE, liveOut, q, 0) <==> q == Point(0, 1)
    ensures Flat(DEAD_WRITE, Point(0, 1)) == 1 && Flat(DEAD_WRITE, Point(0, 2)) == 2
  {
    assert DEAD_WRITE[0].id == 0 && Start(DEAD_WRITE, 0) == 0;
  }

  /** Write, read, dead write: the last write is outside the interval, so two registers with
      disjoint intervals may still overwrite each other. */
  lemma DeadWriteOutsideInterval(liveIn: Sets, liveOut: Sets, spans: Spans)
    requires Complete(DEAD_WRITE, liveIn) && Complete(DEAD_WRITE, liveOut) && Exact(DEAD_WRITE, liveIn, liveOut)
    requires Spanned(DEAD_WRITE, liveIn, liveOut, spans)
    ensures 0 in spans && spans[0].1 == 1 < Flat(DEAD_WRITE, Point(0, 2))
    ensures Defines(InstAt(DEAD_WRITE, Point(0, 2)), 0)
  {
    var f := DEAD_WRITE;
    NothingLiveOut();
    assert f[0].id == 0 && 0 !in liveOut[0];
    hide Closes, Flat, Exact, Spanned, Complete, LiveAtEnd;
    forall q ensures Closes(f, liveOut, q, 0) <==> q == Point(0, 1) {
      DeadWriteCloses(liveOut, q);
    }
    DeadWriteCloses(liveOut, Point(0, 1));
    OnlyCloseIsEnd(f, liveIn, liveOut, spans, Point(0, 1), 0);
  }

  lemma NothingLiveOut()
    ensures forall r :: !LiveAtEnd(DEAD_WRITE, 0, r)
  {
  }
}

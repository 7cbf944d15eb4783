/**
 The push/pop nesting check over a LIR control-flow graph (qy/ir/lir/predicates.py): a
 worklist that keeps the first depth seen at each instruction.
 */
module Nesting {
  import opened Wrappers

  /** An operand is `None` when it is no integer. */
  datatype Inst = Inst(opcode: string, operands: seq<Option<int>>)
  type Code = seq<Inst>

  datatype Diagnostic = Underflow(at: nat) | Unclosed(at: nat, depth: nat)

  /** The pair of opcodes that are checked against each other. */
  datatype Pair = Pair(push: string, pop: string)

  // --- the graph ---------------------------------------------------------------------------

  function Target(code: Code, operand: Option<int>): seq<nat> {
    if operand.Some? && 0 <= operand.value < |code| then [operand.value] else []
  }

  function LastOperand(inst: Inst): Option<int> {
    if inst.operands == [] then None else inst.operands[|inst.operands| - 1]
  }

  predicate IsTerminator(opcode: string) {
    opcode == "RETURN" || opcode == "TAIL_CALL" || opcode == "RAISE_EFFECT" || opcode == "EFFECT_UNWIND"
  }

  function FallThrough(code: Code, i: nat): seq<nat> { if i + 1 < |code| then [i + 1] else [] }

  /** `_cfg_successors`. */
  function Successors(code: Code, i: nat): (s: seq<nat>)
    requires i < |code|
    ensures forall j :: j in s ==> j < |code|
  {
    var inst := code[i];
    if inst.opcode == "JUMP" then Target(code, LastOperand(inst))
    else if inst.opcode == "JUMP_IF_FALSE" || inst.opcode == "BRANCH_NIL" then
      FallThrough(code, i) + Target(code, LastOperand(inst))
    else if IsTerminator(inst.opcode) then []
    else FallThrough(code, i)
  }

  /** A pop at depth 0 is reported and leaves the depth alone. */
  function NextDepth(p: Pair, inst: Inst, depth: nat): nat {
    if inst.opcode == p.push then depth + 1
    else if inst.opcode == p.pop && depth > 0 then depth - 1
    else depth
  }

  function PushTarget(code: Code, p: Pair, i: nat): (s: seq<nat>)
    requires i < |code|
    ensures forall j :: j in s ==> j < |code|
  {
    if code[i].opcode == p.push && |code[i].operands| >= 2 then Target(code, code[i].operands[1]) else []
  }

  predicate Jumps(opcode: string) { opcode in ["JUMP", "JUMP_IF_FALSE", "BRANCH_NIL"] }

  predicate GoesOn(opcode: string) {
    opcode !in ["JUMP", "RETURN", "TAIL_CALL", "RAISE_EFFECT", "EFFECT_UNWIND"]
  }

  /** The edges of the graph: to the next instruction, from a jump to its last operand, and from
      a push to the handler in its second; none leaves the code. */
  lemma EdgesExactly(code: Code, p: Pair, i: nat, j: nat)
    requires i < |code|
    ensures j in Successors(code, i) <==>
              j < |code| && ((GoesOn(code[i].opcode) && j == i + 1) ||
                             (Jumps(code[i].opcode) && LastOperand(code[i]) == Some(j)))
    ensures j in PushTarget(code, p, i) <==>
              j < |code| && code[i].opcode == p.push && |code[i].operands| >= 2 && code[i].operands[1] == Some(j)
  {
    assert |"JUMP"| == 4 && |"JUMP_IF_FALSE"| == 13 && |"BRANCH_NIL"| == 10 && |"RETURN"| == 6;
    assert |"TAIL_CALL"| == 9 && |"RAISE_EFFECT"| == 12 && |"EFFECT_UNWIND"| == 13;
    assert "JUMP_IF_FALSE"[0] == 'J' && "EFFECT_UNWIND"[0] == 'E';
  }

  /** One step of a path: to a successor, or from a push to the handler it names. */
  predicate Step(code: Code, p: Pair, a: (nat, nat), b: (nat, nat)) {
    a.0 < |code| &&
    ((b.0 in PushTarget(code, p, a.0) && b.1 == a.1 + 1) ||
     (b.0 in Successors(code, a.0) && b.1 == NextDepth(p, code[a.0], a.1)))
  }

  /** Instructions and depths along a path from the entry. */
  predicate Walk(code: Code, p: Pair, path: seq<(nat, nat)>) {
    && path != [] && path[0] == (0, 0)
    && forall k :: 0 <= k < |path| - 1 ==> Step(code, p, path[k], path[k + 1])
  }

  ghost predicate Reaches(code: Code, p: Pair, at: (nat, nat)) {
    exists path :: Walk(code, p, path) && path[|path| - 1] == at
  }

  lemma ReachesStep(code: Code, p: Pair, a: (nat, nat), b: (nat, nat))
    requires Reaches(code, p, a) && Step(code, p, a, b)
    ensures Reaches(code, p, b)
  {
    var path: seq<(nat, nat)> :| Walk(code, p, path) && path[|path| - 1] == a;
    var longer := path + [b];
    assert Walk(code, p, longer) && longer[|longer| - 1] == b;
  }

  lemma ReachesEntry(code: Code, p: Pair)
    ensures Reaches(code, p, (0, 0))
  {
    assert Walk(code, p, [(0, 0)]) && [(0, 0)][|[(0, 0)]| - 1] == (0, 0);
  }

  // --- the worklist -----------------------------------------------------------------------------

  /** `popped` lists the instructions in the order in which they left the worklist. */
  datatype State = State(depthAt: map<nat, nat>, work: seq<nat>, out: seq<Diagnostic>, popped: seq<nat>)

  const START := State(map[0 := 0], [0], [], [])

  /** `_relax_depth`. */
  function Relax(st: State, node: nat, depth: nat): State {
    if node in st.depthAt then st
    else st.(depthAt := st.depthAt[node := depth], work := st.work + [node])
  }

  function RelaxAll(st: State, nodes: seq<nat>, depth: nat): State
    decreases |nodes|
  {
    if nodes == [] then st else RelaxAll(Relax(st, nodes[0], depth), nodes[1..], depth)
  }

  predicate InRange(code: Code, st: State) {
    (forall k :: k in st.depthAt ==> k < |code|) && forall k :: k in st.work ==> k in st.depthAt
  }

  predicate Pops(p: Pair, inst: Inst) { inst.opcode != p.push && inst.opcode == p.pop }

  /** The instruction on top of the worklist leaves it. */
  function Popped(code: Code, p: Pair, st: State): State
    requires InRange(code, st) && st.work != []
  {
    var i := st.work[|st.work| - 1];
    assert i in st.work;
    st.(work := st.work[..|st.work| - 1],
        out := if Pops(p, code[i]) && st.depthAt[i] == 0 then st.out + [Underflow(i)] else st.out,
        popped := st.popped + [i])
  }

  function Visit(code: Code, p: Pair, st: State): State
    requires InRange(code, st) && st.work != []
  {
    var i := st.work[|st.work| - 1];
    assert i in st.work;
    var depth := st.depthAt[i];
    RelaxAll(RelaxAll(Popped(code, p, st), PushTarget(code, p, i), depth + 1),
             Successors(code, i), NextDepth(p, code[i], depth))
  }

  predicate NoRepeats(s: seq<nat>) {
    forall i, j :: 0 <= i < j < |s| ==> s[i] != s[j]
  }

  lemma NoRepeatsConcat(a: seq<nat>, b: seq<nat>)
    requires NoRepeats(a) && NoRepeats(b) && forall k :: k in b ==> k !in a
    ensures NoRepeats(a + b)
  {
    forall i, j | 0 <= i < j < |a + b| ensures (a + b)[i] != (a + b)[j] {
      if i < |a| <= j {
        assert a[i] in a && b[j - |a|] in b;
      }
    }
  }

  /** What relaxing does to a state, in one go; `added` is new on the worklist. */
  ghost predicate Relaxed(st: State, nodes: seq<nat>, depth: nat, r: State, added: seq<nat>) {
    && r.out == st.out && r.popped == st.popped && r.work == st.work + added
    && NoRepeats(added) && (forall k :: k in added <==> k in nodes && k !in st.depthAt)
    && (forall k :: k in r.depthAt <==> k in st.depthAt || k in nodes)
    && (forall k :: k in st.depthAt ==> r.depthAt[k] == st.depthAt[k])
    && (forall k :: k in r.depthAt && k !in st.depthAt ==> r.depthAt[k] == depth)
  }

  lemma {:induction false} RelaxAllRelaxes(st: State, nodes: seq<nat>, depth: nat) returns (added: seq<nat>)
    ensures Relaxed(st, nodes, depth, RelaxAll(st, nodes, depth), added)
    decreases |nodes|
  {
    if nodes == [] {
      added := [];
      assert st.work + [] == st.work;
    } else {
      var one := Relax(st, nodes[0], depth);
      var later := RelaxAllRelaxes(one, nodes[1..], depth);
      var now := if nodes[0] in st.depthAt then [] else [nodes[0]];
      added := now + later;
      assert st.work + added == one.work + later;
      NoRepeatsConcat(now, later);
      assert forall k :: k in nodes <==> k == nodes[0] || k in nodes[1..];
    }
  }

  /** One visit: what it sees for the first time, and that it takes one instruction off. */
  ghost predicate Visited(code: Code, p: Pair, st: State, r: State, added: seq<nat>)
    requires InRange(code, st) && st.work != []
  {
    var i := st.work[|st.work| - 1];
    && i in st.depthAt
    && r.out == Popped(code, p, st).out && r.popped == st.popped + [i]
    && r.work == st.work[..|st.work| - 1] + added && NoRepeats(added)
    && (forall k :: k in added <==> k in r.depthAt && k !in st.depthAt)
    && (forall k :: k in r.depthAt <==> k in st.depthAt || k in PushTarget(code, p, i) || k in Successors(code, i))
    && (forall k :: k in st.depthAt ==> r.depthAt[k] == st.depthAt[k])
    && (forall k :: k in r.depthAt && k !in st.depthAt ==> Step(code, p, (i, st.depthAt[i]), (k, r.depthAt[k])))
  }

  lemma RelaxedTwice(st: State, a: seq<nat>, da: nat, st1: State, x: seq<nat>, b: seq<nat>, db: nat, r: State, y: seq<nat>)
    requires Relaxed(st, a, da, st1, x) && Relaxed(st1, b, db, r, y)
    ensures r.out == st.out && r.popped == st.popped && r.work == st.work + (x + y) && NoRepeats(x + y)
    ensures forall k :: k in x + y <==> k in r.depthAt && k !in st.depthAt
    ensures forall k :: k in r.depthAt <==> k in st.depthAt || k in a || k in b
    ensures forall k :: k in st.depthAt ==> r.depthAt[k] == st.depthAt[k]
    ensures forall k :: k in r.depthAt && k !in st.depthAt ==>
              (k in a && r.depthAt[k] == da) || (k in b && r.depthAt[k] == db)
  {
    NoRepeatsConcat(x, y);
    hide NoRepeats;
    assert st.work + x + y == st.work + (x + y);
  }

  lemma VisitVisits(code: Code, p: Pair, st: State) returns (added: seq<nat>)
    requires InRange(code, st) && st.work != []
    ensures Visited(code, p, st, Visit(code, p, st), added)
  {
    var i := st.work[|st.work| - 1];
    assert i in st.work;
    var depth := st.depthAt[i];
    var next := NextDepth(p, code[i], depth);
    var a, b := PushTarget(code, p, i), Successors(code, i);
    var st0 := Popped(code, p, st);
    var st1 := RelaxAll(st0, a, depth + 1);
    var r := RelaxAll(st1, b, next);
    assert r == Visit(code, p, st);
    hide RelaxAll, NextDepth, PushTarget, Successors, Relaxed, NoRepeats, Popped, Visit;
    var x := RelaxAllRelaxes(st0, a, depth + 1);
    var y := RelaxAllRelaxes(st1, b, next);
    added := x + y;
    RelaxedTwice(st0, a, depth + 1, st1, x, b, next, r, y);
    PoppedParts(code, p, st);
    forall k | k in r.depthAt && k !in st.depthAt ensures Step(code, p, (i, depth), (k, r.depthAt[k])) {
      IsStep(code, p, i, depth, k, r.depthAt[k]);
    }
  }

  lemma PoppedParts(code: Code, p: Pair, st: State)
    requires InRange(code, st) && st.work != []
    ensures var i, r := st.work[|st.work| - 1], Popped(code, p, st);
            r.work == st.work[..|st.work| - 1] && r.popped == st.popped + [i] && r.depthAt == st.depthAt
  {
  }

  lemma IsStep(code: Code, p: Pair, i: nat, depth: nat, k: nat, d: nat)
    requires i < |code|
    requires (k in PushTarget(code, p, i) && d == depth + 1) || (k in Successors(code, i) && d == NextDepth(p, code[i], depth))
    ensures Step(code, p, (i, depth), (k, d))
  {
  }

  /** Nothing is lost, nothing comes back: every instruction seen is either waiting or done. */
  ghost predicate Partition(code: Code, st: State) {
    && InRange(code, st)
    && (forall k :: k in st.depthAt <==> k in st.work || k in st.popped)
    && NoRepeats(st.popped + st.work)
  }

  ghost predicate AllReached(code: Code, p: Pair, st: State) {
    forall k :: k in st.depthAt ==> Reaches(code, p, (k, st.depthAt[k]))
  }

  /** Where a done instruction leads has been seen. */
  ghost predicate StepsSeen(code: Code, p: Pair, st: State)
    requires forall k :: k in st.popped ==> k in st.depthAt
  {
    forall i, b :: i in st.popped && Step(code, p, (i, st.depthAt[i]), b) ==> b.0 in st.depthAt
  }

  ghost predicate Inv(code: Code, p: Pair, st: State) {
    && Partition(code, st) && 0 in st.depthAt
    && AllReached(code, p, st) && StepsSeen(code, p, st) && ReportsPopped(code, p, st)
  }

  /** The reports are the pops among the done instructions whose depth is 0, each once. */
  ghost predicate ReportsPopped(code: Code, p: Pair, st: State)
    requires InRange(code, st) && forall k :: k in st.popped ==> k in st.depthAt
  {
    && (forall d :: d in st.out <==> d.Underflow? && IsUnderflow(code, p, st, d.at))
    && forall i, j :: 0 <= i < j < |st.out| ==> st.out[i] != st.out[j]
  }

  predicate IsUnderflow(code: Code, p: Pair, st: State, i: nat)
    requires InRange(code, st) && forall k :: k in st.popped ==> k in st.depthAt
  {
    i in st.popped && Pops(p, code[i]) && st.depthAt[i] == 0
  }

  lemma NoRepeatsMoves(popped: seq<nat>, rest: seq<nat>, i: nat, added: seq<nat>)
    requires NoRepeats(popped + (rest + [i])) && NoRepeats(added)
    requires forall k :: k in added ==> k !in popped && k !in rest && k != i
    ensures NoRepeats((popped + [i]) + (rest + added))
  {
    var before, after := popped + (rest + [i]), (popped + [i]) + (rest + added);
    var m, n := |popped|, |rest|;
    forall a, b | 0 <= a < b < |after| ensures after[a] != after[b] {
      if b < m + 1 + n {
        var x := if a < m then a else if a == m then m + n else a - 1;
        var y := if b == m then m + n else if b < m then b else b - 1;
        assert before[x] == after[a] && before[y] == after[b] && x != y;
      } else {
        assert after[b] == added[b - m - 1 - n] && after[b] in added;
        assert a >= m + 1 + n ==> after[a] == added[a - m - 1 - n];
        assert a < m ==> after[a] in popped;
        assert m < a < m + 1 + n ==> after[a] in rest;
      }
    }
  }

  /** The parts of the invariant, one at a time, across one visit. */
  lemma KeepsPartition(code: Code, p: Pair, st: State, r: State, added: seq<nat>)
    requires Partition(code, st) && st.work != [] && Visited(code, p, st, r, added)
    ensures Partition(code, r)
  {
    var i, rest := st.work[|st.work| - 1], st.work[..|st.work| - 1];
    assert st.work == rest + [i];
    assert forall k :: k in PushTarget(code, p, i) ==> k < |code|;
    assert forall k :: k in Successors(code, i) ==> k < |code|;
    hide Step, Successors, PushTarget, Popped;
    NoRepeatsMoves(st.popped, rest, i, added);
    hide NoRepeats;
  }

  lemma KeepsReached(code: Code, p: Pair, st: State, r: State, added: seq<nat>)
    requires InRange(code, st) && AllReached(code, p, st) && st.work != [] && Visited(code, p, st, r, added)
    ensures AllReached(code, p, r)
  {
    var i := st.work[|st.work| - 1];
    hide Step, Reaches, Successors, PushTarget, NoRepeats, Popped;
    forall k | k in r.depthAt ensures Reaches(code, p, (k, r.depthAt[k])) {
      if k !in st.depthAt { ReachesStep(code, p, (i, st.depthAt[i]), (k, r.depthAt[k])); }
    }
  }

  lemma KeepsSteps(code: Code, p: Pair, st: State, r: State, added: seq<nat>)
    requires Partition(code, st) && StepsSeen(code, p, st) && st.work != [] && Visited(code, p, st, r, added)
    requires forall k :: k in r.popped ==> k in r.depthAt
    ensures StepsSeen(code, p, r)
  {
    var last := st.work[|st.work| - 1];
    hide NoRepeats, Successors, PushTarget, InRange, Popped;
    forall i, b | i in r.popped && Step(code, p, (i, r.depthAt[i]), b) ensures b.0 in r.depthAt {
      if i in st.popped {
        assert Step(code, p, (i, st.depthAt[i]), b);
      } else {
        assert i == last;
      }
    }
  }

  lemma NotTwice(a: seq<nat>, b: seq<nat>, i: nat)
    requires NoRepeats(a + (b + [i]))
    ensures i !in a
  {
    var all := a + (b + [i]);
    assert all[|all| - 1] == i && forall k :: 0 <= k < |a| ==> all[k] == a[k];
  }

  lemma KeepsReports(code: Code, p: Pair, st: State, r: State, added: seq<nat>)
    requires Partition(code, st) && ReportsPopped(code, p, st) && st.work != [] && Visited(code, p, st, r, added)
    requires Partition(code, r)
    ensures ReportsPopped(code, p, r)
  {
    var i, rest := st.work[|st.work| - 1], st.work[..|st.work| - 1];
    assert st.work == rest + [i];
    NotTwice(st.popped, rest, i);
    hide Step, Successors, PushTarget, NoRepeats, InRange, Pops, ReportsPopped;
    assert forall k :: IsUnderflow(code, p, r, k) <==>
             IsUnderflow(code, p, st, k) || (k == i && Pops(p, code[i]) && st.depthAt[i] == 0);
    assert !IsUnderflow(code, p, st, i);
    OneMoreReport(code, p, st, r, i);
  }

  lemma OneMoreReport(code: Code, p: Pair, st: State, r: State, i: nat)
    requires InRange(code, st) && (forall k :: k in st.popped ==> k in st.depthAt) && ReportsPopped(code, p, st)
    requires InRange(code, r) && (forall k :: k in r.popped ==> k in r.depthAt)
    requires forall k :: IsUnderflow(code, p, r, k) ==> IsUnderflow(code, p, st, k) || k == i
    requires forall k :: IsUnderflow(code, p, st, k) ==> IsUnderflow(code, p, r, k) && k != i
    requires r.out == if IsUnderflow(code, p, r, i) then st.out + [Underflow(i)] else st.out
    ensures ReportsPopped(code, p, r)
  {
    hide IsUnderflow, InRange;
    forall d: Diagnostic ensures d in r.out <==> d.Underflow? && IsUnderflow(code, p, r, d.at) {
      assert d in r.out <==> d in st.out || (d == Underflow(i) && IsUnderflow(code, p, r, i));
    }
    assert Underflow(i) !in st.out;
  }

  lemma VisitKeepsInv(code: Code, p: Pair, st: State)
    requires Inv(code, p, st) && st.work != []
    ensures Inv(code, p, Visit(code, p, st))
  {
    var added := VisitVisits(code, p, st);
    var r := Visit(code, p, st);
    hide Visit, Step, Reaches, ReportsPopped, NoRepeats, Successors, PushTarget, StepsSeen, AllReached, Popped, InRange;
    KeepsPartition(code, p, st, r, added);
    KeepsReached(code, p, st, r, added);
    KeepsSteps(code, p, st, r, added);
    KeepsReports(code, p, st, r, added);
  }

  lemma StartInv(code: Code, p: Pair)
    requires code != []
    ensures Inv(code, p, START)
  {
    ReachesEntry(code, p);
    hide Reaches;
  }

  // --- the whole exploration -------------------------------------------------------------------

  ghost function Indices(n: nat): (s: set<nat>)
    ensures forall k: nat :: k in s <==> k < n
  {
    if n == 0 then {}
    else
      var last: nat := n - 1;
      Indices(last) + {last}
  }

  ghost function Unseen(code: Code, st: State): set<nat> { Indices(|code|) - st.depthAt.Keys }

  /** A visit sees something new or shortens the worklist. */
  lemma VisitProgresses(code: Code, p: Pair, st: State)
    requires InRange(code, st) && st.work != []
    ensures var r := Visit(code, p, st);
            InRange(code, r) && (Unseen(code, r) < Unseen(code, st) ||
                                 (Unseen(code, r) == Unseen(code, st) && |r.work| < |st.work|))
  {
    var added := VisitVisits(code, p, st);
    var r := Visit(code, p, st);
    hide Visit, Step, NoRepeats;
    var i := st.work[|st.work| - 1];
    assert forall k :: k in PushTarget(code, p, i) ==> k < |code|;
    assert forall k :: k in Successors(code, i) ==> k < |code|;
    if added == [] {
      assert r.depthAt.Keys == st.depthAt.Keys;
    } else {
      assert added[0] in added;
      assert added[0] in Unseen(code, st) && added[0] !in Unseen(code, r);
    }
  }

  ghost function Explore(code: Code, p: Pair, st: State): State
    requires InRange(code, st)
    decreases Unseen(code, st), |st.work|
  {
    if st.work == [] then st
    else
      VisitProgresses(code, p, st);
      Explore(code, p, Visit(code, p, st))
  }

  lemma {:induction false} ExploreKeepsInv(code: Code, p: Pair, st: State)
    requires Inv(code, p, st)
    ensures var r := Explore(code, p, st); Inv(code, p, r) && r.work == []
    decreases Unseen(code, st), |st.work|
  {
    if st.work != [] {
      VisitProgresses(code, p, st);
      VisitKeepsInv(code, p, st);
      hide Visit, Inv;
      ExploreKeepsInv(code, p, Visit(code, p, st));
    }
  }

  ghost function Explored(code: Code, p: Pair): State
    requires code != []
  {
    Explore(code, p, START)
  }

  /** The second loop: the first return at which a push is still open. */
  function FirstUnclosed(code: Code, depthAt: map<nat, nat>, i: nat): seq<Diagnostic>
    requires i <= |code|
    decreases |code| - i
  {
    if i == |code| then []
    else if Returns(code[i]) && i in depthAt && depthAt[i] > 0 then [Unclosed(i, depthAt[i])]
    else FirstUnclosed(code, depthAt, i + 1)
  }

  predicate Returns(inst: Inst) { inst.opcode == "RETURN" || inst.opcode == "TAIL_CALL" }

  ghost function Diagnostics(code: Code, p: Pair): seq<Diagnostic> {
    if code == [] then [] else Explored(code, p).out + FirstUnclosed(code, Explored(code, p).depthAt, 0)
  }

  // --- what the exploration sees --------------------------------------------------------------

  ghost predicate Reachable(code: Code, p: Pair, i: nat) {
    exists path: seq<(nat, nat)> :: Walk(code, p, path) && path[|path| - 1].0 == i
  }

  lemma {:induction false} WalkIsSeen(code: Code, p: Pair, st: State, path: seq<(nat, nat)>)
    requires Inv(code, p, st) && st.work == [] && Walk(code, p, path)
    ensures path[|path| - 1].0 in st.popped
    decreases |path|
  {
    if |path| > 1 {
      var front := path[..|path| - 1];
      assert Walk(code, p, front);
      WalkIsSeen(code, p, st, front);
      var a, b := front[|front| - 1], path[|path| - 1];
      assert Step(code, p, a, b);
      StepWithDepth(code, p, a, b, st.depthAt[a.0]);
    }
  }

  /** Where a step leads does not depend on the depth it starts with. */
  lemma StepWithDepth(code: Code, p: Pair, a: (nat, nat), b: (nat, nat), depth: nat)
    requires Step(code, p, a, b)
    ensures exists e :: Step(code, p, (a.0, depth), (b.0, e))
  {
    if b.0 in PushTarget(code, p, a.0) {
      assert Step(code, p, (a.0, depth), (b.0, depth + 1));
    } else {
      assert Step(code, p, (a.0, depth), (b.0, NextDepth(p, code[a.0], depth)));
    }
  }

  /** The worklist takes up the reachable instructions, each exactly once. */
  lemma VisitsReachableOnce(code: Code, p: Pair)
    requires code != []
    ensures var r := Explored(code, p);
            && (forall i :: i in r.popped <==> Reachable(code, p, i))
            && NoRepeats(r.popped)
            && forall i :: i in r.depthAt <==> i in r.popped
  {
    StartInv(code, p);
    ExploreKeepsInv(code, p, START);
    var r := Explored(code, p);
    hide Explore, Step;
    assert r.popped + r.work == r.popped;
    forall i ensures i in r.popped <==> Reachable(code, p, i) {
      if i in r.popped {
        assert Reaches(code, p, (i, r.depthAt[i]));
      }
      if Reachable(code, p, i) {
        var path: seq<(nat, nat)> :| Walk(code, p, path) && path[|path| - 1].0 == i;
        WalkIsSeen(code, p, r, path);
      }
    }
  }

  /** Each recorded depth is that of a path that leads there. */
  lemma DepthsAreRealised(code: Code, p: Pair, i: nat)
    requires code != [] && i in Explored(code, p).depthAt
    ensures Reaches(code, p, (i, Explored(code, p).depthAt[i]))
  {
    StartInv(code, p);
    ExploreKeepsInv(code, p, START);
  }

  // --- what the diagnostics mean ---------------------------------------------------------------

  /** No path pops below zero, and none returns with a push open. */
  ghost predicate Balanced(code: Code, p: Pair) {
    forall i: nat, d: nat :: Reaches(code, p, (i, d)) && i < |code| ==>
      !(Pops(p, code[i]) && d == 0) && !(Returns(code[i]) && d > 0)
  }

  ghost predicate PathIndependent(code: Code, p: Pair) {
    forall i: nat, d: nat, e: nat :: Reaches(code, p, (i, d)) && Reaches(code, p, (i, e)) ==> d == e
  }

  lemma {:induction false} NothingUnclosed(code: Code, depthAt: map<nat, nat>, i: nat)
    requires i <= |code|
    ensures FirstUnclosed(code, depthAt, i) == []
       <==> forall k :: i <= k < |code| && Returns(code[k]) && k in depthAt ==> depthAt[k] == 0
    decreases |code| - i
  {
    if i < |code| {
      NothingUnclosed(code, depthAt, i + 1);
    }
  }

  /** The diagnostics are empty exactly when the recorded depths are balanced. */
  lemma EmptyByRecordedDepths(code: Code, p: Pair)
    requires code != []
    ensures var at := Explored(code, p).depthAt;
            Diagnostics(code, p) == [] <==>
              forall i :: i in at ==> i < |code| && !(Pops(p, code[i]) && at[i] == 0) && !(Returns(code[i]) && at[i] > 0)
  {
    StartInv(code, p);
    ExploreKeepsInv(code, p, START);
    var r := Explored(code, p);
    NothingUnclosed(code, r.depthAt, 0);
    SilentReports(code, p, r);
    hide Explore, Explored, AllReached, StepsSeen, ReportsPopped, NoRepeats, Pops, Returns, FirstUnclosed;
  }

  lemma SilentReports(code: Code, p: Pair, r: State)
    requires Partition(code, r) && ReportsPopped(code, p, r) && r.work == []
    ensures r.out == [] <==> forall i :: i in r.depthAt ==> i < |code| && !(Pops(p, code[i]) && r.depthAt[i] == 0)
  {
    hide NoRepeats, Pops;
    if r.out == [] {
      forall i | i in r.depthAt ensures !(Pops(p, code[i]) && r.depthAt[i] == 0) {
        assert Underflow(i) !in r.out;
      }
    } else {
      assert r.out[0] in r.out;
    }
  }

  /** Balanced code is never reported. */
  lemma BalancedIsSilent(code: Code, p: Pair)
    requires Balanced(code, p)
    ensures Diagnostics(code, p) == []
  {
    if code != [] {
      EmptyByRecordedDepths(code, p);
      hide Explored, Reaches;
      StartInvRange(code, p);
      forall i | i in Explored(code, p).depthAt
        ensures !(Pops(p, code[i]) && Explored(code, p).depthAt[i] == 0)
             && !(Returns(code[i]) && Explored(code, p).depthAt[i] > 0)
      {
        DepthsAreRealised(code, p, i);
      }
    }
  }

  lemma StartInvRange(code: Code, p: Pair)
    requires code != []
    ensures forall i :: i in Explored(code, p).depthAt ==> i < |code|
  {
    StartInv(code, p);
    ExploreKeepsInv(code, p, START);
  }

  /** At each reached pop or return the paths agree on whether a push is open. */
  ghost predicate ZeroAgrees(code: Code, p: Pair) {
    forall i: nat, d: nat, e: nat ::
      Reaches(code, p, (i, d)) && Reaches(code, p, (i, e)) && i < |code| && (Pops(p, code[i]) || Returns(code[i])) ==>
        (d == 0 <==> e == 0)
  }

  /** Silence means balance exactly where the paths agree on that. */
  lemma BalancedExactly(code: Code, p: Pair)
    ensures Balanced(code, p) <==> Diagnostics(code, p) == [] && ZeroAgrees(code, p)
  {
    if Balanced(code, p) {
      BalancedIsSilent(code, p);
    }
    if Diagnostics(code, p) == [] && ZeroAgrees(code, p) && code != [] {
      EmptyByRecordedDepths(code, p);
      VisitsReachableOnce(code, p);
      var at := Explored(code, p).depthAt;
      hide Explored, Diagnostics, Pops, Returns, Reaches;
      forall i: nat, d: nat | Reaches(code, p, (i, d)) && i < |code|
        ensures !(Pops(p, code[i]) && d == 0) && !(Returns(code[i]) && d > 0)
      {
        ReachesReachable(code, p, i, d);
        DepthsAreRealised(code, p, i);
      }
    }
  }

  /** In particular where depths do not depend on the path at all. */
  lemma SilentIsBalanced(code: Code, p: Pair)
    requires PathIndependent(code, p)
    ensures Diagnostics(code, p) == [] <==> Balanced(code, p)
  {
    hide Reaches, Diagnostics, Balanced;
    BalancedExactly(code, p);
  }

  lemma ReachesReachable(code: Code, p: Pair, i: nat, d: nat)
    requires Reaches(code, p, (i, d))
    ensures Reachable(code, p, i)
  {
    var path: seq<(nat, nat)> :| Walk(code, p, path) && path[|path| - 1] == (i, d);
    assert path[|path| - 1].0 == i;
  }

  // --- the check as written -------------------------------------------------------------------

  /** The tables of the analysis. `popped` is kept for the proof only. */
  class Worklist {
    var depthAt: map<nat, nat>
    var work: seq<nat>
    var reported: set<nat>
    var out: seq<Diagnostic>
    ghost var popped: seq<nat>

    constructor ()
      ensures Current() == START && reported == {}
    {
      depthAt, work := map[0 := 0], [0];
      reported, out, popped := {}, [], [];
    }

    ghost function Current(): State
      reads this
    {
      State(depthAt, work, out, popped)
    }

    method RelaxDepth(node: nat, depth: nat)
      modifies this
      ensures Current() == Relax(old(Current()), node, depth) && reported == old(reported) && out == old(out)
    {
      if node !in depthAt {
        depthAt := depthAt[node := depth];
        work := work + [node];
      }
    }

    method RelaxSuccessors(nodes: seq<nat>, depth: nat)
      modifies this
      ensures Current() == RelaxAll(old(Current()), nodes, depth) && reported == old(reported) && out == old(out)
    {
      ghost var before := Current();
      for k := 0 to |nodes|
        invariant RelaxAll(before, nodes, depth) == RelaxAll(Current(), nodes[k..], depth)
        invariant reported == old(reported) && out == old(out)
      {
        assert nodes[k..][1..] == nodes[k + 1..];
        RelaxDepth(nodes[k], depth);
      }
    }

    /** One turn of the loop. The guard against a second report is never needed. */
    method VisitTop(code: Code, p: Pair)
      requires InRange(code, Current()) && work != []
      requires forall k :: k in reported <==> Underflow(k) in out
      requires Underflow(work[|work| - 1]) !in out
      modifies this
      ensures Current() == Visit(code, p, old(Current()))
      ensures forall k :: k in reported <==> Underflow(k) in out
    {
      hide RelaxAll, Successors;
      ghost var st := Current();
      var i := work[|work| - 1];
      assert i in work;
      work := work[..|work| - 1];
      popped := popped + [i];
      var depth := depthAt[i];
      var inst := code[i];
      var nextDepth := depth;
      if inst.opcode != p.push && inst.opcode == p.pop {
        if depth < 1 {
          if i !in reported {
            reported := reported + {i};
            out := out + [Underflow(i)];
          }
          nextDepth := depth;
        } else {
          nextDepth := depth - 1;
        }
      }
      assert Current() == Popped(code, p, st);
      if inst.opcode == p.push {
        nextDepth := depth + 1;
        RelaxPushTarget(code, p, i, depth);
      } else {
        assert PushTarget(code, p, i) == [];
        NothingToRelax(Current(), depth + 1);
      }
      assert nextDepth == NextDepth(p, inst, depth);
      RelaxSuccessors(Successors(code, i), nextDepth);
    }

    method RelaxPushTarget(code: Code, p: Pair, i: nat, depth: nat)
      requires i < |code| && code[i].opcode == p.push
      modifies this
      ensures Current() == RelaxAll(old(Current()), PushTarget(code, p, i), depth + 1) && reported == old(reported) && out == old(out)
    {
      var inst := code[i];
      if |inst.operands| >= 2 {
        var target := inst.operands[1];
        if target.Some? && 0 <= target.value < |code| {
          RelaxDepth(target.value, depth + 1);
        }
      }
    }
  }

  lemma NothingToRelax(st: State, depth: nat)
    ensures RelaxAll(st, [], depth) == st
  {
  }

  method NestingCfg(code: Code, p: Pair) returns (out: seq<Diagnostic>)
    ensures out == Diagnostics(code, p)
  {
    if |code| == 0 { return []; }
    var w := new Worklist();
    StartInv(code, p);
    while w.work != []
      invariant fresh(w) && Inv(code, p, w.Current())
      invariant forall k :: k in w.reported <==> Underflow(k) in w.out
      invariant Explored(code, p) == Explore(code, p, w.Current())
      decreases Unseen(code, w.Current()), |w.work|
    {
      hide *;
      ghost var st := w.Current();
      WorkIsNew(code, p, st);
      VisitKeepsInv(code, p, st);
      VisitProgresses(code, p, st);
      ExploreStep(code, p, st);
      w.VisitTop(code, p);
    }
    EndOfExploration(code, p, w.Current());
    out := ReportUnclosed(code, p, w);
  }

  /** The second loop. */
  method ReportUnclosed(code: Code, p: Pair, w: Worklist) returns (out: seq<Diagnostic>)
    requires code != [] && Explored(code, p) == w.Current()
    ensures out == Diagnostics(code, p)
  {
    hide Explored;
    out := w.out;
    for i := 0 to |code|
      invariant Explored(code, p) == w.Current() && out == w.out
      invariant FirstUnclosed(code, w.depthAt, 0) == FirstUnclosed(code, w.depthAt, i)
    {
      var inst := code[i];
      if inst.opcode == "RETURN" || inst.opcode == "TAIL_CALL" {
        if i in w.depthAt && w.depthAt[i] > 0 {
          out := out + [Unclosed(i, w.depthAt[i])];
          return;
        }
      }
    }
    assert out + [] == out;
  }

  lemma EndOfExploration(code: Code, p: Pair, st: State)
    requires InRange(code, st) && st.work == []
    ensures Explore(code, p, st) == st
  {
  }

  /** What waits has not been reported: the guard against a second report is never needed. */
  lemma WorkIsNew(code: Code, p: Pair, st: State)
    requires Inv(code, p, st) && st.work != []
    ensures var i := st.work[|st.work| - 1];
            InRange(code, st) && Underflow(i) !in st.out
  {
    var i, rest := st.work[|st.work| - 1], st.work[..|st.work| - 1];
    assert st.work == rest + [i] && i in st.work;
    NotTwice(st.popped, rest, i);
  }

  lemma ExploreStep(code: Code, p: Pair, st: State)
    requires InRange(code, st) && st.work != []
    ensures InRange(code, Visit(code, p, st)) && Explore(code, p, st) == Explore(code, p, Visit(code, p, st))
  {
    VisitProgresses(code, p, st);
    hide Visit;
  }

  // --- when depths do depend on the path -----------------------------------------------------

  const SCOPES := Pair("ENTER_SCOPE", "EXIT_SCOPE")

  /** Two ways to the EXIT_SCOPE at 3: through the ENTER_SCOPE at 2, and around it. */
  const JOINED: Code := [
    Inst("JUMP_IF_FALSE", [None, Some(2)]), Inst("JUMP", [Some(3)]),
    Inst("ENTER_SCOPE", []), Inst("EXIT_SCOPE", []), Inst("RETURN", [None])]

  lemma JoinedVisit(st: State, i: nat, nodes: seq<nat>, next: nat, mid: State, r: State)
    requires InRange(JOINED, st) && i < 5 && i in st.depthAt && st.work != [] && st.work[|st.work| - 1] == i
    requires Successors(JOINED, i) == nodes && PushTarget(JOINED, SCOPES, i) == []
    requires !(Pops(SCOPES, JOINED[i]) && st.depthAt[i] == 0) && NextDepth(SCOPES, JOINED[i], st.depthAt[i]) == next
    requires mid.depthAt == st.depthAt && mid.work == st.work[..|st.work| - 1]
    requires mid.out == st.out && mid.popped == st.popped + [i]
    requires InRange(JOINED, r) && r == RelaxAll(mid, nodes, next)
    ensures Explore(JOINED, SCOPES, st) == Explore(JOINED, SCOPES, r)
  {
    ExploreStep(JOINED, SCOPES, st);
    hide Explore, RelaxAll, Successors, PushTarget;
    NothingToRelax(Popped(JOINED, SCOPES, st), st.depthAt[i] + 1);
  }

  lemma RelaxOne(st: State, node: nat, depth: nat)
    ensures RelaxAll(st, [node], depth) == Relax(st, node, depth)
  {
    assert [node][1..] == [];
  }

  lemma RelaxTwo(st: State, a: nat, b: nat, depth: nat)
    ensures RelaxAll(st, [a, b], depth) == Relax(Relax(st, a, depth), b, depth)
  {
    assert [a, b][1..] == [b];
    RelaxOne(Relax(st, a, depth), b, depth);
  }

  const SEEN0 := State(map[0 := 0, 1 := 0, 2 := 0], [1, 2], [], [0])
  const SEEN2 := State(map[0 := 0, 1 := 0, 2 := 0, 3 := 1], [1, 3], [], [0, 2])
  const SEEN3 := State(map[0 := 0, 1 := 0, 2 := 0, 3 := 1, 4 := 0], [1, 4], [], [0, 2, 3])
  const SEEN4 := State(SEEN3.depthAt, [1], [], [0, 2, 3, 4])
  const SEEN1 := State(SEEN3.depthAt, [], [], [0, 2, 3, 4, 1])

  /** The graph of the example, edge by edge. */
  lemma JoinedEdges(i: nat)
    requires i < 5
    ensures PushTarget(JOINED, SCOPES, i) == []
    ensures Successors(JOINED, i) == if i == 0 then [1, 2] else if i == 1 then [3] else if i == 4 then [] else [i + 1]
    ensures NextDepth(SCOPES, JOINED[i], 0) == if i == 2 then 1 else 0
    ensures NextDepth(SCOPES, JOINED[3], 1) == 0
    ensures Pops(SCOPES, JOINED[i]) <==> i == 3
  {
  }

  lemma Turn0() ensures Explore(JOINED, SCOPES, START) == Explore(JOINED, SCOPES, SEEN0) {
    JoinedEdges(0);
    hide *;
    var mid := State(START.depthAt, [], [], [0]);
    RelaxTwo(mid, 1, 2, 0);
    SeenFirst(mid);
    InRangeHere(START);
    InRangeHere(SEEN0);
    JoinedVisit(START, 0, [1, 2], 0, mid, SEEN0);
  }

  lemma SeenFirst(mid: State)
    requires mid == State(START.depthAt, [], [], [0])
    ensures Relax(Relax(mid, 1, 0), 2, 0) == SEEN0
  {
    var one := Relax(mid, 1, 0);
    assert one == State(map[0 := 0, 1 := 0], [1], [], [0]) by {
      assert START.depthAt[1 := 0] == map[0 := 0, 1 := 0];
      assert [] + [1] == [1];
    }
    assert one.depthAt[2 := 0] == SEEN0.depthAt && [1] + [2] == SEEN0.work;
  }

  lemma InRangeHere(st: State)
    requires (forall k :: k in st.depthAt ==> k < 5) && forall k :: k in st.work ==> k in st.depthAt
    ensures InRange(JOINED, st)
  {
  }

  lemma Turn2() ensures Explore(JOINED, SCOPES, SEEN0) == Explore(JOINED, SCOPES, SEEN2) {
    JoinedEdges(2);
    hide RelaxAll, Explore, Successors, PushTarget, NextDepth, Pops, InRange;
    var mid := State(SEEN0.depthAt, [1], [], [0, 2]);
    RelaxOne(mid, 3, 1);
    assert SEEN0.depthAt[3 := 1] == SEEN2.depthAt && [1] + [3] == SEEN2.work;
    InRangeHere(SEEN0);
    InRangeHere(SEEN2);
    JoinedVisit(SEEN0, 2, [3], 1, mid, SEEN2);
  }

  lemma Turn3() ensures Explore(JOINED, SCOPES, SEEN2) == Explore(JOINED, SCOPES, SEEN3) {
    JoinedEdges(3);
    hide RelaxAll, Explore, Successors, PushTarget, NextDepth, Pops, InRange;
    var mid := State(SEEN2.depthAt, [1], [], [0, 2, 3]);
    RelaxOne(mid, 4, 0);
    assert SEEN2.depthAt[4 := 0] == SEEN3.depthAt && [1] + [4] == SEEN3.work;
    InRangeHere(SEEN2);
    InRangeHere(SEEN3);
    JoinedVisit(SEEN2, 3, [4], 0, mid, SEEN3);
  }

  lemma Turn4() ensures Explore(JOINED, SCOPES, SEEN3) == Explore(JOINED, SCOPES, SEEN4) {
    JoinedEdges(4);
    hide RelaxAll, Explore, Successors, PushTarget, NextDepth, Pops, InRange;
    NothingToRelax(SEEN4, 0);
    InRangeHere(SEEN3);
    InRangeHere(SEEN4);
    JoinedVisit(SEEN3, 4, [], 0, SEEN4, SEEN4);
  }

  lemma Turn1() ensures Explore(JOINED, SCOPES, SEEN4) == SEEN1 {
    EndOfExploration(JOINED, SCOPES, SEEN1);
    JoinedEdges(1);
    hide RelaxAll, Explore, Successors, PushTarget, NextDepth, Pops, InRange;
    RelaxOne(SEEN1, 3, 0);
    InRangeHere(SEEN4);
    InRangeHere(SEEN1);
    JoinedVisit(SEEN4, 1, [3], 0, SEEN1, SEEN1);
  }

  /** The depth that is seen first hides the underflow on the other path. */
  lemma FirstDepthHidesUnderflow()
    ensures Diagnostics(JOINED, SCOPES) == [] && !Balanced(JOINED, SCOPES)
  {
    Turn0();
    Turn2();
    Turn3();
    Turn4();
    Turn1();
    JoinedReturns();
    PathAround();
    hide Explore, FirstUnclosed, Reaches, Step;
  }

  lemma JoinedReturns()
    ensures FirstUnclosed(JOINED, SEEN1.depthAt, 0) == []
  {
    NothingUnclosed(JOINED, SEEN1.depthAt, 0);
    hide FirstUnclosed;
  }

  lemma PathAround()
    ensures Reaches(JOINED, SCOPES, (3, 0)) && Pops(SCOPES, JOINED[3])
  {
    ReachesEntry(JOINED, SCOPES);
    ReachesStep(JOINED, SCOPES, (0, 0), (1, 0));
    ReachesStep(JOINED, SCOPES, (1, 0), (3, 0));
  }
}

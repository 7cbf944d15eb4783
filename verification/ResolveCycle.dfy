/**
 A cyclic package graph in which the order of dependencies never matters although newer
 versions do not bring about what older ones ask for. Old x and old y ask for b; new x asks
 for old y and new y for old x. Whichever of the two packages comes first is expanded while
 the other is not selected yet, and so leads to an old version, which asks for b.
 */
module ResolveCycle {
  import opened Versions
  import opened Resolve
  import opened ResolveOrder

  const B := Dependency("b", "1")
  const CYCLE: Provider :=
    map[("x", "1") := [B], ("x", "2") := [Y1], ("y", "1") := [B], ("y", "2") := [X1]]
  const KEYS: set<Key> := {("x", "1"), ("x", "2"), ("y", "1"), ("y", "2"), ("b", "1")}

  /** The same graph, with dependencies repeated or not. */
  ghost predicate IsCycle(p: Provider) { Reordered(CYCLE, p) }

  lemma CycleAsks(p: Provider)
    requires IsCycle(p)
    ensures p.Keys == {("x", "1"), ("x", "2"), ("y", "1"), ("y", "2")} && Within(p, KEYS)
    ensures forall d :: d in p[("x", "1")] || d in p[("y", "1")] ==> d == B
    ensures forall d :: d in p[("x", "2")] ==> d == Y1
    ensures forall d :: d in p[("y", "2")] ==> d == X1
    ensures B in p[("x", "1")] && B in p[("y", "1")] && p[("x", "2")] != [] && p[("y", "2")] != []
  {
    assert B in CYCLE[("x", "1")] && B in CYCLE[("y", "1")] && Y1 in CYCLE[("x", "2")] && X1 in CYCLE[("y", "2")];
    forall k | k in p ensures KeysOf(p[k]) <= KEYS {
      assert KeysOf(p[k]) == KeysOf(CYCLE[k]);
    }
  }

  // --- new versions do not bring b about for sure ------------------------------------------------

  least lemma {:induction false} NewVersionsOnlyCircle(x: Key)
    requires Brings(Edges(CYCLE), KEYS, x, B)
    ensures x != ("x", "2") && x != ("y", "2")
  {
    TwoIsNewerThanOne();
    hide AtMost;
    if x == ("x", "2") || x == ("y", "2") {
      var e :| (x, e) in Edges(CYCLE) &&
        forall w :: (e.path, w) in KEYS && AtMost(e.minVersion, w) ==> Brings#[_k - 1](Edges(CYCLE), KEYS, (e.path, w), B);
      CycleAsks(CYCLE);
      assert (e.path, "2") in KEYS;
      NewVersionsOnlyCircle#[_k - 1]((e.path, "2"));
    }
  }

  // --- but they do in every walk -------------------------------------------------------------------

  ghost predicate Fresh(st: State, p: Path) {
    p !in st.requirements && forall k :: k in st.visited ==> k.0 != p
  }

  /** What the first dependency leads to stays. */
  lemma ThroughFirst(p: Provider, deps: Manifest, st: State, st2: State)
    requires Within(p, KEYS) && KeysOf(deps) <= KEYS && StateWithin(st, KEYS) && SelectedVisited(st)
    requires deps != [] && Fresh(st, deps[0].path) && (deps[0].path, deps[0].minVersion) in p
    requires st2 == State(st.requirements[deps[0].path := deps[0].minVersion],
                          st.visited + {(deps[0].path, deps[0].minVersion)})
    ensures StateWithin(st2, KEYS) && SelectedVisited(st2)
    ensures "b" in Collect(p, KEYS, p[(deps[0].path, deps[0].minVersion)], st2).requirements ==>
            "b" in Collect(p, KEYS, deps, st).requirements
  {
    hide AtMost, Less, Parse;
    var d, rest := deps[0], deps[1..];
    var key := (d.path, d.minVersion);
    assert d in deps && key in KeysOf(deps);
    assert forall e :: e in rest ==> e in deps;
    assert key in KEYS - st.visited && key !in KEYS - st2.visited;
    var st3 := Collect(p, KEYS, p[key], st2);
    assert KEYS - st3.visited <= KEYS - st2.visited;
    CollectAchieves(p, KEYS, p[key], st2);
    CollectAchieves(p, KEYS, rest, st3);
  }

  /** An old version that comes first asks for b. */
  lemma OldLeads(p: Provider, deps: Manifest, st: State)
    requires IsCycle(p) && KeysOf(deps) <= KEYS && StateWithin(st, KEYS) && SelectedVisited(st)
    requires deps != [] && (deps[0] == X1 || deps[0] == Y1) && Fresh(st, deps[0].path)
    ensures Within(p, KEYS) && "b" in Collect(p, KEYS, deps, st).requirements
  {
    hide AtMost;
    CycleAsks(p);
    var d := deps[0];
    var st2 := State(st.requirements[d.path := d.minVersion], st.visited + {(d.path, d.minVersion)});
    ThroughFirst(p, deps, st, st2);
    CollectAchieves(p, KEYS, p[(d.path, d.minVersion)], st2);
  }

  /** A new one leads to the old version of the other package. */
  lemma NewLeads(p: Provider, deps: Manifest, st: State)
    requires IsCycle(p) && KeysOf(deps) <= KEYS && StateWithin(st, KEYS) && SelectedVisited(st)
    requires deps != [] && (deps[0].path == "x" || deps[0].path == "y") && deps[0].minVersion == "2"
    requires Fresh(st, "x") && Fresh(st, "y")
    ensures Within(p, KEYS) && "b" in Collect(p, KEYS, deps, st).requirements
  {
    hide AtMost;
    CycleAsks(p);
    var d := deps[0];
    var st2 := State(st.requirements[d.path := d.minVersion], st.visited + {(d.path, d.minVersion)});
    ThroughFirst(p, deps, st, st2);
    assert p[(d.path, d.minVersion)][0] in p[(d.path, d.minVersion)];
    OldLeads(p, p[(d.path, d.minVersion)], st2);
  }

  lemma {:induction false} BothLeadToB(p: Provider, deps: Manifest, st: State)
    requires IsCycle(p) && KeysOf(deps) <= KEYS && StateWithin(st, KEYS) && SelectedVisited(st)
    requires Fresh(st, "x") && Fresh(st, "y")
    ensures Within(p, KEYS)
    ensures var r := Collect(p, KEYS, deps, st).requirements; "x" in r || "y" in r ==> "b" in r
    decreases |deps|
  {
    hide AtMost, Less, Parse;
    CycleAsks(p);
    if deps != [] {
      var d, rest := deps[0], deps[1..];
      assert d in deps && (d.path, d.minVersion) in KeysOf(deps);
      if d == X1 || d == Y1 {
        OldLeads(p, deps, st);
      } else if d.path != "b" {
        NewLeads(p, deps, st);
      } else {
        CollectAchieves(p, KEYS, deps, st);
      }
    }
  }

  // --- so the build is fixed ---------------------------------------------------------------------------

  lemma NewestIsTwo(v: Version)
    requires v == "1" || v == "2"
    ensures AtMost("2", v) <==> v == "2"
  {
    OneSegment("1");
    OneSegment("2");
  }

  lemma NothingIsNewer(p: Provider, r: map<Path, Version>, q: Path)
    requires ClosedIn(p, KEYS, r) && q in r && AtMost("2", r[q])
    ensures r[q] == "2"
  {
    assert (q, r[q]) in KEYS;
    hide AtMost, ClosedIn;
    NewestIsTwo(r[q]);
  }

  lemma CycleVersions(p: Provider, k: Key, d: Dependency)
    requires IsCycle(p) && k in p && d in p[k]
    ensures (k.0 == "x" || k.0 == "y") && (k.1 == "2" || d == B)
  {
    CycleAsks(p);
  }

  /** A selected version, and with it every older one, has what it asks for. */
  lemma CycleMeets(p: Provider, r: map<Path, Version>, k: Key, d: Dependency)
    requires IsCycle(p) && ClosedIn(p, KEYS, r) && ("x" in r || "y" in r ==> "b" in r)
    requires k in p && d in p[k] && k.0 in r && AtMost(k.1, r[k.0])
    ensures d.path in r && AtMost(d.minVersion, r[d.path])
  {
    CycleVersions(p, k, d);
    hide AtMost, IsCycle;
    if k.1 == "2" {
      NothingIsNewer(p, r, k.0);
      assert Satisfied(r, DependenciesOf(p, (k.0, r[k.0])));
    } else {
      hide ClosedIn;
      OnlyOneB(p, r);
    }
  }

  lemma OnlyOneB(p: Provider, r: map<Path, Version>)
    requires ClosedIn(p, KEYS, r) && "b" in r
    ensures AtMost("1", r["b"])
  {
    assert ("b", r["b"]) in KEYS;
    hide AtMost;
    AtMostReflexive("1");
  }

  lemma {:induction false} CycleSelects(p: Provider, root: Manifest, r: map<Path, Version>, n: nat, q: Path, v: Version)
    requires IsCycle(p) && ClosedIn(p, KEYS, r) && ("x" in r || "y" in r ==> "b" in r) && Satisfied(r, root)
    requires RequestedBy(p, root, n, q, v)
    ensures q in r && AtMost(v, r[q])
  {
    hide AtMost, IsCycle, ClosedIn;
    if n == 0 {
      var d :| d in root && d.path == q && d.minVersion == v;
    } else {
      var k :| k in p && RequestedBy(p, root, n - 1, k.0, k.1) && Asks(p[k], q, v);
      CycleSelects(p, root, r, n - 1, k.0, k.1);
      var d :| d in p[k] && d.path == q && d.minVersion == v;
      CycleMeets(p, r, k, d);
    }
  }

  lemma CycleResolves(p: Provider, root: Manifest)
    requires IsCycle(p) && KeysOf(root) <= KEYS
    ensures var r := Resolution(p, root).requirements;
            ClosedIn(p, KEYS, r) && ("x" in r || "y" in r ==> "b" in r) && Satisfied(r, root)
  {
    CycleAsks(p);
    hide AtMost, IsCycle, Within;
    ResolutionIsClosed(p, root);
    ResolutionIsClosedIn(p, KEYS, root);
    ResolutionIn(p, KEYS, root);
    BothLeadToB(p, root, START);
  }

  lemma CycleBuilds(p: Provider, root: Manifest)
    requires IsCycle(p) && KeysOf(root) <= KEYS
    ensures IsBuildList(p, root, Resolution(p, root).requirements)
  {
    hide AtMost, Resolution, IsCycle, ClosedIn, RequestedBy, KeysOf, Satisfied;
    CycleResolves(p, root);
    SelectedIsRequested(p, root);
    forall q, v | IsRequested(p, root, q, v)
      ensures var r := Resolution(p, root).requirements; q in r && AtMost(v, r[q])
    {
      var n: nat :| RequestedBy(p, root, n, q, v);
      CycleSelects(p, root, Resolution(p, root).requirements, n, q, v);
    }
  }

  /** With a cycle, the order may be irrelevant without upgrades. */
  lemma CyclesNeedNoUpgrades()
    ensures Within(CYCLE, KEYS) && OrderIrrelevant(CYCLE, KEYS) && !Upgrades(CYCLE, KEYS)
  {
    TwoIsNewerThanOne();
    hide AtMost, Resolution;
    assert IsCycle(CYCLE);
    CycleAsks(CYCLE);
    forall other: Provider, a: Manifest, b: Manifest |
        Reordered(CYCLE, other) && KeysOf(a) <= KEYS && SameDependencies(a, b)
      ensures SameBuild(Resolution(CYCLE, a).requirements, Resolution(other, b).requirements)
    {
      assert KeysOf(b) == KeysOf(a);
      CycleBuilds(CYCLE, a);
      CycleBuilds(other, b);
      BuildListsAgree(CYCLE, other, a, b, Resolution(CYCLE, a).requirements, Resolution(other, b).requirements);
    }
    assert (("x", "1"), B) in Edges(CYCLE);
    if Brings(Edges(CYCLE), KEYS, ("x", "2"), B) {
      NewVersionsOnlyCircle(("x", "2"));
    }
  }
}

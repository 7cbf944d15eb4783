/**
 When the order of dependencies matters to version selection (qy/project/resolve.py).
 `_collect_requirements` expands a package at the version selected at that moment: an old
 version that is asked for first has its manifest counted, one that is asked for after a
 newer version has not. The order never matters where every newer version brings about what
 the older ones ask for; in a package graph without cycles it never matters only there.
 */
module ResolveOrder {
  import opened Versions
  import opened Resolve

  /** What a package asks for; nothing if it has no manifest. */
  function DependenciesOf(provider: Provider, k: Key): Manifest {
    if k in provider then provider[k] else []
  }

  /** Which package asks for which dependency. */
  ghost function Edges(provider: Provider): set<(Key, Dependency)> {
    set k, d | k in provider && d in provider[k] :: (k, d)
  }

  /** With `x` selected, `d` is met whatever else is selected: `x` is `d` or newer, or one of
      its dependencies brings `d` about at every version it may be raised to. */
  least predicate Brings(edges: set<(Key, Dependency)>, u: set<Key>, x: Key, d: Dependency) {
    || (x.0 == d.path && AtMost(d.minVersion, x.1))
    || exists e :: (x, e) in edges &&
         forall w :: (e.path, w) in u && AtMost(e.minVersion, w) ==> Brings(edges, u, (e.path, w), d)
  }

  /** Among the versions in `u`, a newer one brings about what an older one asks for. */
  ghost predicate Upgrades(provider: Provider, u: set<Key>) {
    forall k, l, d :: k in u && l in u && k.0 == l.0 && AtMost(k.1, l.1) && (k, d) in Edges(provider) ==>
      Brings(Edges(provider), u, l, d)
  }

  /** Asked for at the end of a chain of `n` manifests behind the root's. */
  ghost predicate RequestedBy(provider: Provider, root: Manifest, n: nat, p: Path, v: Version) {
    if n == 0 then Asks(root, p, v)
    else exists k :: k in provider && RequestedBy(provider, root, n - 1, k.0, k.1) && Asks(provider[k], p, v)
  }

  /** Whatever is selected meanwhile: this is a property of the graph and not of the walk. */
  ghost predicate IsRequested(provider: Provider, root: Manifest, p: Path, v: Version) {
    exists n: nat :: RequestedBy(provider, root, n, p, v)
  }

  /** The list that minimum version selection promises: each requested path, at a requested
      version that is no older than any requested one. */
  ghost predicate IsBuildList(provider: Provider, root: Manifest, versions: map<Path, Version>) {
    && (forall p, v :: IsRequested(provider, root, p, v) ==> p in versions && AtMost(v, versions[p]))
    && (forall p :: p in versions ==> IsRequested(provider, root, p, versions[p]))
  }

  /** The same paths, at versions that compare equal. */
  ghost predicate SameBuild(a: map<Path, Version>, b: map<Path, Version>) {
    a.Keys == b.Keys && forall p :: p in a ==> AtMost(a[p], b[p]) && AtMost(b[p], a[p])
  }

  /** The same dependencies, in any order and any number of times. */
  ghost predicate SameDependencies(a: Manifest, b: Manifest) { forall d :: d in a <==> d in b }

  /** Any manifest may list its dependencies in another order. */
  ghost predicate Reordered(a: Provider, b: Provider) {
    a.Keys == b.Keys && forall k :: k in a ==> SameDependencies(a[k], b[k])
  }

  /** No root over `u` and no reordering of it or of the manifests changes the build. */
  ghost predicate OrderIrrelevant(provider: Provider, u: set<Key>) {
    forall other: Provider, a: Manifest, b: Manifest ::
      Reordered(provider, other) && KeysOf(a) <= u && SameDependencies(a, b) ==>
        SameBuild(Resolution(provider, a).requirements, Resolution(other, b).requirements)
  }

  // --- what is selected was requested -----------------------------------------------------------

  ghost predicate StateRequested(provider: Provider, root: Manifest, st: State) {
    && (forall k :: k in st.visited ==> IsRequested(provider, root, k.0, k.1))
    && (forall p :: p in st.requirements ==> IsRequested(provider, root, p, st.requirements[p]))
  }

  ghost predicate AllRequested(provider: Provider, root: Manifest, deps: Manifest) {
    forall d :: d in deps ==> IsRequested(provider, root, d.path, d.minVersion)
  }

  lemma ManifestRequested(provider: Provider, root: Manifest, k: Key)
    requires k in provider && IsRequested(provider, root, k.0, k.1)
    ensures AllRequested(provider, root, provider[k])
  {
    var n: nat :| RequestedBy(provider, root, n, k.0, k.1);
    forall d | d in provider[k] ensures IsRequested(provider, root, d.path, d.minVersion) {
      assert Asks(provider[k], d.path, d.minVersion);
      assert RequestedBy(provider, root, n + 1, d.path, d.minVersion);
    }
  }

  lemma {:induction false} CollectIsRequested(provider: Provider, root: Manifest, u: set<Key>, deps: Manifest, st: State)
    requires Within(provider, u) && KeysOf(deps) <= u && StateWithin(st, u)
    requires StateRequested(provider, root, st) && AllRequested(provider, root, deps)
    ensures StateRequested(provider, root, Collect(provider, u, deps, st))
    decreases u - st.visited, |deps|
  {
    hide IsRequested, Less, Parse;
    if deps != [] {
      var d, rest := deps[0], deps[1..];
      assert (d.path, d.minVersion) in KeysOf(deps);
      assert forall e :: e in rest ==> e in deps;
      var key := (d.path, Selected(st.requirements, d));
      var st1 := Select(st, d);
      assert IsRequested(provider, root, key.0, key.1);
      if key in st.visited {
        CollectIsRequested(provider, root, u, rest, st1);
      } else {
        var st2 := st1.(visited := st.visited + {key});
        assert key in u - st.visited && key !in u - st2.visited;
        if key in provider {
          ManifestRequested(provider, root, key);
          CollectIsRequested(provider, root, u, provider[key], st2);
        }
        var st3 := if key in provider then Collect(provider, u, provider[key], st2) else st2;
        assert u - st3.visited <= u - st2.visited;
        CollectIsRequested(provider, root, u, rest, st3);
      }
    }
  }

  // --- with upgrades the build list is fixed --------------------------------------------------------

  /** A list of versions from `u` that meets the dependencies of everything on it. */
  ghost predicate ClosedIn(provider: Provider, u: set<Key>, r: map<Path, Version>) {
    forall p :: p in r ==> (p, r[p]) in u && Satisfied(r, DependenciesOf(provider, (p, r[p])))
  }

  least lemma BroughtIsMet(provider: Provider, u: set<Key>, x: Key, d: Dependency, r: map<Path, Version>)
    requires Brings(Edges(provider), u, x, d)
    requires ClosedIn(provider, u, r) && x.0 in r && r[x.0] == x.1
    ensures d.path in r && AtMost(d.minVersion, r[d.path])
  {
    hide AtMost;
    if !(x.0 == d.path && AtMost(d.minVersion, x.1)) {
      var e :| (x, e) in Edges(provider) &&
        forall w :: (e.path, w) in u && AtMost(e.minVersion, w) ==> Brings#[_k - 1](Edges(provider), u, (e.path, w), d);
      assert Satisfied(r, DependenciesOf(provider, (x.0, r[x.0])));
      BroughtIsMet#[_k - 1](provider, u, (e.path, r[e.path]), d, r);
    }
  }

  lemma ResolutionIsClosedIn(provider: Provider, u: set<Key>, root: Manifest)
    requires Within(provider, u) && KeysOf(root) <= u
    ensures ClosedIn(provider, u, Resolution(provider, root).requirements)
  {
    hide AtMost;
    ResolutionIsClosed(provider, root);
    UniverseIsClosed(provider, root);
    assert Universe(provider, root) <= u by {
      forall k, d | k in provider && d in provider[k] ensures (d.path, d.minVersion) in u {
        assert (d.path, d.minVersion) in KeysOf(provider[k]);
      }
    }
  }

  lemma {:induction false} RequestedIsIn(provider: Provider, u: set<Key>, root: Manifest, n: nat, p: Path, v: Version)
    requires Within(provider, u) && KeysOf(root) <= u && RequestedBy(provider, root, n, p, v)
    ensures (p, v) in u
  {
    if n == 0 {
      assert (p, v) in KeysOf(root);
    } else {
      var k :| k in provider && RequestedBy(provider, root, n - 1, k.0, k.1) && Asks(provider[k], p, v);
      assert (p, v) in KeysOf(provider[k]);
    }
  }

  lemma NewerMeets(provider: Provider, u: set<Key>, r: map<Path, Version>, k: Key, d: Dependency)
    requires Upgrades(provider, u) && ClosedIn(provider, u, r) && k in u && k.0 in r && AtMost(k.1, r[k.0])
    requires k in provider && d in provider[k]
    ensures d.path in r && AtMost(d.minVersion, r[d.path])
  {
    hide AtMost;
    BroughtIsMet(provider, u, (k.0, r[k.0]), d, r);
  }

  lemma {:induction false} RequestedIsSelected(provider: Provider, u: set<Key>, root: Manifest, n: nat, p: Path, v: Version)
    requires Within(provider, u) && KeysOf(root) <= u
    requires Upgrades(provider, u) && RequestedBy(provider, root, n, p, v)
    ensures var r := Resolution(provider, root).requirements; p in r && AtMost(v, r[p])
  {
    hide AtMost, Upgrades, ClosedIn, Within;
    var r := Resolution(provider, root).requirements;
    ResolutionIsClosed(provider, root);
    ResolutionIsClosedIn(provider, u, root);
    hide Resolution;
    if n == 0 {
      var d :| d in root && d.path == p && d.minVersion == v;
    } else {
      var k :| k in provider && RequestedBy(provider, root, n - 1, k.0, k.1) && Asks(provider[k], p, v);
      RequestedIsSelected(provider, u, root, n - 1, k.0, k.1);
      RequestedIsIn(provider, u, root, n - 1, k.0, k.1);
      var d :| d in provider[k] && d.path == p && d.minVersion == v;
      NewerMeets(provider, u, r, k, d);
    }
  }

  lemma SelectedIsRequested(provider: Provider, root: Manifest)
    ensures forall p :: p in Resolution(provider, root).requirements ==>
              IsRequested(provider, root, p, Resolution(provider, root).requirements[p])
  {
    hide AtMost;
    UniverseIsClosed(provider, root);
    forall d | d in root ensures IsRequested(provider, root, d.path, d.minVersion) {
      assert Asks(root, d.path, d.minVersion);
      assert RequestedBy(provider, root, 0, d.path, d.minVersion);
    }
    CollectIsRequested(provider, root, Universe(provider, root), root, START);
  }

  /** Where newer versions bring about as much, the resolver returns the promised list. */
  lemma UpgradesFixBuildList(provider: Provider, u: set<Key>, root: Manifest)
    requires Within(provider, u) && KeysOf(root) <= u && Upgrades(provider, u)
    ensures IsBuildList(provider, root, Resolution(provider, root).requirements)
  {
    hide AtMost, Upgrades, Resolution;
    SelectedIsRequested(provider, root);
    forall p, v | IsRequested(provider, root, p, v)
      ensures var r := Resolution(provider, root).requirements; p in r && AtMost(v, r[p])
    {
      var n: nat :| RequestedBy(provider, root, n, p, v);
      RequestedIsSelected(provider, u, root, n, p, v);
    }
  }

  // --- reordering -------------------------------------------------------------------------------------

  lemma {:induction false} RequestsIgnoreOrder(a: Provider, b: Provider, rootA: Manifest, rootB: Manifest,
      n: nat, p: Path, v: Version)
    requires Reordered(a, b) && SameDependencies(rootA, rootB) && RequestedBy(a, rootA, n, p, v)
    ensures RequestedBy(b, rootB, n, p, v)
  {
    if n > 0 {
      var k :| k in a && RequestedBy(a, rootA, n - 1, k.0, k.1) && Asks(a[k], p, v);
      RequestsIgnoreOrder(a, b, rootA, rootB, n - 1, k.0, k.1);
      assert k in b && Asks(b[k], p, v);
    }
  }

  lemma UpgradesIgnoreOrder(a: Provider, b: Provider, u: set<Key>)
    requires Reordered(a, b) && Within(a, u) && Upgrades(a, u)
    ensures Within(b, u) && Upgrades(b, u)
  {
    assert Edges(a) == Edges(b);
    forall k | k in b ensures KeysOf(b[k]) <= u {
      assert KeysOf(b[k]) == KeysOf(a[k]);
    }
  }

  /** What is promised does not depend on any order. */
  lemma BuildListsAgree(a: Provider, b: Provider, rootA: Manifest, rootB: Manifest, r: map<Path, Version>, s: map<Path, Version>)
    requires Reordered(a, b) && SameDependencies(rootA, rootB)
    requires IsBuildList(a, rootA, r) && IsBuildList(b, rootB, s)
    ensures SameBuild(r, s)
  {
    hide AtMost, RequestedBy;
    assert Reordered(b, a);
    forall p, v ensures IsRequested(a, rootA, p, v) <==> IsRequested(b, rootB, p, v) {
      if n: nat :| RequestedBy(a, rootA, n, p, v) { RequestsIgnoreOrder(a, b, rootA, rootB, n, p, v); }
      if n: nat :| RequestedBy(b, rootB, n, p, v) { RequestsIgnoreOrder(b, a, rootB, rootA, n, p, v); }
    }
  }

  /** With upgrades the resolver selects the same paths, at versions that compare equal,
      whatever the order in the root and in every manifest. */
  lemma UpgradesHideOrder(a: Provider, b: Provider, u: set<Key>, rootA: Manifest, rootB: Manifest)
    requires Within(a, u) && KeysOf(rootA) <= u && Upgrades(a, u)
    requires Reordered(a, b) && SameDependencies(rootA, rootB)
    ensures SameBuild(Resolution(a, rootA).requirements, Resolution(b, rootB).requirements)
  {
    hide AtMost, Resolution, Upgrades;
    UpgradesIgnoreOrder(a, b, u);
    assert KeysOf(rootB) == KeysOf(rootA);
    UpgradesFixBuildList(a, u, rootA);
    UpgradesFixBuildList(b, u, rootB);
    BuildListsAgree(a, b, rootA, rootB, Resolution(a, rootA).requirements, Resolution(b, rootB).requirements);
  }

  // --- without upgrades the order matters ------------------------------------------------------------

  /** The walk is the same in every universe that holds it. */
  lemma {:induction false} UniverseIsIrrelevant(provider: Provider, u: set<Key>, w: set<Key>, deps: Manifest, st: State)
    requires Within(provider, u) && KeysOf(deps) <= u && StateWithin(st, u)
    requires Within(provider, w) && KeysOf(deps) <= w && StateWithin(st, w)
    ensures Collect(provider, u, deps, st) == Collect(provider, w, deps, st)
    decreases u - st.visited, |deps|
  {
    hide Less, Parse;
    if deps != [] {
      var d, rest := deps[0], deps[1..];
      assert (d.path, d.minVersion) in KeysOf(deps);
      assert forall e :: e in rest ==> e in deps;
      var key := (d.path, Selected(st.requirements, d));
      var st1 := Select(st, d);
      if key in st.visited {
        UniverseIsIrrelevant(provider, u, w, rest, st1);
      } else {
        var st2 := st1.(visited := st.visited + {key});
        assert key in u - st.visited && key !in u - st2.visited;
        if key in provider { UniverseIsIrrelevant(provider, u, w, provider[key], st2); }
        var st3 := if key in provider then Collect(provider, u, provider[key], st2) else st2;
        assert u - st3.visited <= u - st2.visited;
        UniverseIsIrrelevant(provider, u, w, rest, st3);
      }
    }
  }

  lemma ResolutionIn(provider: Provider, u: set<Key>, root: Manifest)
    requires Within(provider, u) && KeysOf(root) <= u
    ensures Resolution(provider, root) == Collect(provider, u, root, START)
  {
    UniverseIsClosed(provider, root);
    UniverseIsIrrelevant(provider, Universe(provider, root), u, root, START);
  }

  /** Dependencies that are met already leave the walk as it is. */
  lemma {:induction false} MetChangesNothing(provider: Provider, u: set<Key>, deps: Manifest, st: State)
    requires Within(provider, u) && KeysOf(deps) <= u && StateWithin(st, u)
    requires Satisfied(st.requirements, deps) && SelectedVisited(st)
    ensures Collect(provider, u, deps, st) == st
    decreases |deps|
  {
    if deps != [] {
      var d := deps[0];
      assert d in deps && forall e :: e in deps[1..] ==> e in deps;
      assert Selected(st.requirements, d) == st.requirements[d.path];
      assert Select(st, d) == st;
      hide AtMost, Less, Parse;
      MetChangesNothing(provider, u, deps[1..], st);
    }
  }

  lemma {:induction false} CollectConcat(provider: Provider, u: set<Key>, a: Manifest, b: Manifest, st: State)
    requires Within(provider, u) && KeysOf(a + b) <= u && StateWithin(st, u)
    ensures KeysOf(a) <= u && KeysOf(b) <= u
    ensures Collect(provider, u, a + b, st) == Collect(provider, u, b, Collect(provider, u, a, st))
    decreases u - st.visited, |a|
  {
    hide Less, Parse;
    forall d | d in a || d in b ensures (d.path, d.minVersion) in KeysOf(a + b) {
      assert d in a + b;
    }
    if a == [] {
      assert a + b == b;
    } else {
      var d := a[0];
      assert (a + b)[0] == d && (a + b)[1..] == a[1..] + b;
      assert forall e :: e in a[1..] + b ==> e in a + b;
      var key := (d.path, Selected(st.requirements, d));
      var st1 := Select(st, d);
      var st2 := st1.(visited := st.visited + {key});
      assert key !in st.visited ==> key in u - st.visited && key !in u - st2.visited;
      var st3 := if key in st.visited then st1
                 else if key in provider then Collect(provider, u, provider[key], st2) else st2;
      assert u - st3.visited <= u - st.visited;
      CollectConcat(provider, u, a[1..], b, st3);
    }
  }

  /** An older version that is asked for last counts for nothing. */
  lemma OlderLast(provider: Provider, rest: Manifest, a: Dependency)
    requires var r := Resolution(provider, rest).requirements; a.path in r && AtMost(a.minVersion, r[a.path])
    ensures Resolution(provider, rest + [a]) == Resolution(provider, rest)
  {
    hide AtMost;
    var u := Universe(provider, rest + [a]);
    UniverseIsClosed(provider, rest + [a]);
    CollectConcat(provider, u, rest, [a], START);
    ResolutionIn(provider, u, rest);
    CollectAchieves(provider, u, rest, START);
    MetChangesNothing(provider, u, [a], Collect(provider, u, rest, START));
  }

  /** One that is asked for first has its dependencies met. */
  lemma OlderFirst(provider: Provider, rest: Manifest, a: Dependency)
    requires (a.path, a.minVersion) in provider
    ensures Satisfied(Resolution(provider, [a] + rest).requirements, provider[(a.path, a.minVersion)])
  {
    hide AtMost;
    var deps := [a] + rest;
    var u := Universe(provider, deps);
    UniverseIsClosed(provider, deps);
    CollectAchieves(provider, u, deps, START);
    assert deps[0] == a && deps[1..] == rest;
    assert a in deps && (a.path, a.minVersion) in KeysOf(deps);
    assert forall e :: e in rest ==> e in deps;
    assert (a.path, a.minVersion) in Resolution(provider, deps).visited;
  }

  /** So the order matters, in any package graph, whenever an older version than the selected
      one asks for something that the selection does not meet. */
  lemma UnmetChangesBuild(provider: Provider, rest: Manifest, a: Dependency)
    requires var r := Resolution(provider, rest).requirements; a.path in r && AtMost(a.minVersion, r[a.path])
    requires (a.path, a.minVersion) in provider
    requires !Satisfied(Resolution(provider, rest).requirements, provider[(a.path, a.minVersion)])
    ensures SameDependencies(rest + [a], [a] + rest)
    ensures !SameBuild(Resolution(provider, rest + [a]).requirements, Resolution(provider, [a] + rest).requirements)
  {
    OlderLast(provider, rest, a);
    OlderFirst(provider, rest, a);
    hide Resolution, AtMost;
    var r, s := Resolution(provider, rest).requirements, Resolution(provider, [a] + rest).requirements;
    var d :| d in provider[(a.path, a.minVersion)] && !(d.path in r && AtMost(d.minVersion, r[d.path]));
    if SameBuild(r, s) {
      AtMostTransitive(d.minVersion, s[d.path], r[d.path]);
    }
  }

  // --- a build without what an upgrade lost -----------------------------------------------------------

  /** Every package depends on packages of lower rank only. */
  ghost predicate Acyclic(provider: Provider, rank: Path -> nat) {
    forall k, d :: k in provider && d in provider[k] ==> rank(d.path) < rank(k.0)
  }

  ghost predicate Newest(keys: set<Key>, d: Dependency) {
    (d.path, d.minVersion) in keys && forall v :: (d.path, v) in keys ==> AtMost(v, d.minVersion)
  }

  lemma {:induction false} NewestExists(keys: set<Key>, p: Path, v: Version) returns (d: Dependency)
    requires (p, v) in keys
    ensures d.path == p && Newest(keys, d)
    decreases keys
  {
    hide Parse, Less, AtMost;
    var others := keys - {(p, v)};
    AtMostReflexive(v);
    if w :| (p, w) in others {
      d := NewestExists(others, p, w);
      AtMostTotal(v, d.minVersion);
      if !AtMost(v, d.minVersion) {
        forall x | (p, x) in keys ensures AtMost(x, v) {
          if x != v {
            assert (p, x) in others;
            AtMostTransitive(x, d.minVersion, v);
          }
        }
        d := Dependency(p, v);
      }
    } else {
      d := Dependency(p, v);
    }
  }

  lemma AtMostTotal(a: Version, b: Version)
    ensures AtMost(a, b) || AtMost(b, a)
  {
    LessTotal(Parse(a), Parse(b));
  }

  /** One newest version of each path, lower ranks first. */
  ghost predicate Listed(paths: set<Path>, keys: set<Key>, rank: Path -> nat, tops: Manifest) {
    && (forall d :: d in tops ==> d.path in paths && Newest(keys, d))
    && (forall p :: p in paths ==> exists i :: 0 <= i < |tops| && tops[i].path == p)
    && (forall i, j :: 0 <= i < j < |tops| ==> tops[i].path != tops[j].path && rank(tops[i].path) <= rank(tops[j].path))
  }

  lemma {:induction false} HighestRank(paths: set<Path>, rank: Path -> nat) returns (p: Path)
    requires paths != {}
    ensures p in paths && forall q :: q in paths ==> rank(q) <= rank(p)
    decreases paths
  {
    p :| p in paths;
    if paths != {p} {
      var q := HighestRank(paths - {p}, rank);
      assert forall x :: x in paths ==> x == p || x in paths - {p};
      if rank(p) <= rank(q) { p := q; }
    }
  }

  lemma {:induction false} Listing(paths: set<Path>, keys: set<Key>, rank: Path -> nat) returns (tops: Manifest)
    requires forall p :: p in paths ==> exists v :: (p, v) in keys
    ensures Listed(paths, keys, rank, tops)
    decreases paths
  {
    hide AtMost;
    tops := [];
    if paths != {} {
      var p := HighestRank(paths, rank);
      var v :| (p, v) in keys;
      var top := NewestExists(keys, p, v);
      var lower := Listing(paths - {p}, keys, rank);
      tops := lower + [top];
      forall q | q in paths ensures exists i :: 0 <= i < |tops| && tops[i].path == q {
        if q == p {
          assert tops[|lower|].path == q;
        } else {
          assert q in paths - {p};
          var i :| 0 <= i < |lower| && lower[i].path == q;
          assert tops[i].path == q;
        }
      }
    }
  }

  ghost predicate MetBefore(tops: Manifest, i: nat, e: Dependency)
    requires i <= |tops|
  {
    exists j :: 0 <= j < i && tops[j].path == e.path && AtMost(e.minVersion, tops[j].minVersion)
  }

  /** Each package behind what it asks for. */
  ghost predicate Settled(provider: Provider, tops: Manifest) {
    && (forall i, j :: 0 <= i < j < |tops| ==> tops[i].path != tops[j].path)
    && forall i, e :: 0 <= i < |tops| && e in DependenciesOf(provider, (tops[i].path, tops[i].minVersion)) ==>
         MetBefore(tops, i, e)
  }

  ghost predicate Selects(r: map<Path, Version>, tops: Manifest) {
    && (forall d :: d in tops ==> d.path in r && r[d.path] == d.minVersion)
    && (forall p :: p in r ==> exists d :: d in tops && d.path == p)
  }

  lemma AddTop(provider: Provider, u: set<Key>, d: Dependency, st: State)
    requires Within(provider, u) && KeysOf([d]) <= u && StateWithin(st, u) && SelectedVisited(st)
    requires d.path !in st.requirements && Satisfied(st.requirements, DependenciesOf(provider, (d.path, d.minVersion)))
    ensures Collect(provider, u, [d], st).requirements == st.requirements[d.path := d.minVersion]
  {
    hide AtMost, Less, Parse;
    var key := (d.path, d.minVersion);
    assert d in [d] && key in KeysOf([d]) && [d][1..] == [];
    if key !in st.visited {
      var st2 := State(st.requirements[d.path := d.minVersion], st.visited + {key});
      assert key in u - st.visited && key !in u - st2.visited;
      if key in provider {
        assert Satisfied(st2.requirements, provider[key]);
        MetChangesNothing(provider, u, provider[key], st2);
      }
    }
  }

  lemma SettledFront(provider: Provider, tops: Manifest, d: Dependency)
    requires Settled(provider, tops + [d])
    ensures Settled(provider, tops)
  {
    hide AtMost;
    var all := tops + [d];
    assert forall i :: 0 <= i < |tops| ==> tops[i] == all[i];
    forall i, e | 0 <= i < |tops| && e in DependenciesOf(provider, (tops[i].path, tops[i].minVersion))
      ensures MetBefore(tops, i, e)
    {
      assert MetBefore(all, i, e);
      var j :| 0 <= j < i && all[j].path == e.path && AtMost(e.minVersion, all[j].minVersion);
      assert tops[j] == all[j];
    }
  }

  lemma SettledStep(provider: Provider, tops: Manifest, d: Dependency, r: map<Path, Version>)
    requires Settled(provider, tops + [d]) && Selects(r, tops)
    ensures d.path !in r && Satisfied(r, DependenciesOf(provider, (d.path, d.minVersion)))
    ensures Selects(r[d.path := d.minVersion], tops + [d])
  {
    hide AtMost;
    var all, n := tops + [d], |tops|;
    forall i | 0 <= i < n ensures tops[i].path != d.path {
      assert all[i].path != all[n].path;
    }
    forall e | e in DependenciesOf(provider, (d.path, d.minVersion))
      ensures e.path in r && AtMost(e.minVersion, r[e.path])
    {
      assert all[n] == d;
      assert MetBefore(all, n, e);
      var j :| 0 <= j < n && all[j].path == e.path && AtMost(e.minVersion, all[j].minVersion);
      assert tops[j] in tops;
    }
  }

  /** The walk over such a list selects the list and expands nothing else. */
  lemma {:induction false} SettledWalk(provider: Provider, u: set<Key>, tops: Manifest)
    requires Within(provider, u) && KeysOf(tops) <= u && Settled(provider, tops)
    ensures Selects(Collect(provider, u, tops, START).requirements, tops)
    decreases |tops|
  {
    assert SelectedVisited(START);
    if tops != [] {
      hide AtMost, Less, Parse, Settled, Selects, Within, KeysOf, Satisfied, SelectedVisited;
      var front, d := tops[..|tops| - 1], tops[|tops| - 1];
      assert tops == front + [d];
      CollectConcat(provider, u, front, [d], START);
      SettledFront(provider, front, d);
      SettledWalk(provider, u, front);
      CollectAchieves(provider, u, front, START);
      var st := Collect(provider, u, front, START);
      SettledStep(provider, front, d, st.requirements);
      AddTop(provider, u, d, st);
    }
  }

  /** The packages that can be selected without `d` being met. */
  ghost function Without(provider: Provider, u: set<Key>, d: Dependency): set<Key> {
    set x | x in u && !Brings(Edges(provider), u, x, d)
  }

  /** What such a package asks for can be raised to another such package. */
  lemma WithoutIsClosed(provider: Provider, u: set<Key>, d: Dependency, x: Key, e: Dependency)
    requires x in Without(provider, u, d) && e in DependenciesOf(provider, x)
    ensures exists w :: (e.path, w) in Without(provider, u, d) && AtMost(e.minVersion, w)
  {
    assert (x, e) in Edges(provider);
  }

  /** All of them, newest version by path, in an order that lets the walk select just these. */
  lemma BuildWithout(provider: Provider, u: set<Key>, rank: Path -> nat, d: Dependency) returns (tops: Manifest)
    requires Within(provider, u) && Acyclic(provider, rank)
    ensures Listed(PathsOf(Without(provider, u, d)), Without(provider, u, d), rank, tops)
    ensures Settled(provider, tops)
  {
    hide AtMost, Brings;
    var keys := Without(provider, u, d);
    var paths := PathsOf(keys);
    assert forall p :: p in paths ==> exists v :: (p, v) in keys by {
      forall p | p in paths ensures exists v :: (p, v) in keys {
        var k :| k in keys && k.0 == p;
        assert (p, k.1) in keys;
      }
    }
    tops := Listing(paths, keys, rank);
    forall i, e | 0 <= i < |tops| && e in DependenciesOf(provider, (tops[i].path, tops[i].minVersion))
      ensures MetBefore(tops, i, e)
    {
      ListedIsSettled(provider, u, rank, d, tops, i, e);
    }
  }

  function PathsOf(keys: set<Key>): set<Path> { set k | k in keys :: k.0 }

  lemma ListedIsSettled(provider: Provider, u: set<Key>, rank: Path -> nat, d: Dependency, tops: Manifest, i: nat, e: Dependency)
    requires Acyclic(provider, rank) && Listed(PathsOf(Without(provider, u, d)), Without(provider, u, d), rank, tops)
    requires i < |tops| && e in DependenciesOf(provider, (tops[i].path, tops[i].minVersion))
    ensures MetBefore(tops, i, e)
  {
    hide AtMost, Without;
    var keys := Without(provider, u, d);
    assert tops[i] in tops;
    WithoutIsClosed(provider, u, d, (tops[i].path, tops[i].minVersion), e);
    var w :| (e.path, w) in keys && AtMost(e.minVersion, w);
    var j := TopOf(PathsOf(keys), keys, rank, tops, (e.path, w));
    AtMostTransitive(e.minVersion, w, tops[j].minVersion);
    assert rank(e.path) < rank(tops[i].path);
  }

  lemma TopOf(paths: set<Path>, keys: set<Key>, rank: Path -> nat, tops: Manifest, x: Key) returns (i: nat)
    requires Listed(paths, keys, rank, tops) && x in keys && x.0 in paths
    ensures i < |tops| && tops[i].path == x.0 && AtMost(x.1, tops[i].minVersion)
  {
    hide AtMost;
    i :| 0 <= i < |tops| && tops[i].path == x.0;
    assert tops[i] in tops;
  }

  /** In a graph without cycles, a lost dependency is lost for some root in one of its orders. */
  lemma LostDependency(provider: Provider, u: set<Key>, rank: Path -> nat, k: Key, l: Key, d: Dependency) returns (rest: Manifest)
    requires Within(provider, u) && Acyclic(provider, rank)
    requires k in u && l in u && k.0 == l.0 && AtMost(k.1, l.1) && (k, d) in Edges(provider)
    requires !Brings(Edges(provider), u, l, d)
    ensures KeysOf(rest) <= u
    ensures var r := Resolution(provider, rest).requirements;
            && k.0 in r && AtMost(k.1, r[k.0])
            && !(d.path in r && AtMost(d.minVersion, r[d.path]))
  {
    rest := BuildWithout(provider, u, rank, d);
    var keys := Without(provider, u, d);
    assert KeysOf(rest) <= u;
    SettledWalk(provider, u, rest);
    ResolutionIn(provider, u, rest);
    var i := TopOf(PathsOf(keys), keys, rank, rest, l);
    AtMostTransitive(k.1, l.1, rest[i].minVersion);
    assert forall t :: t in rest ==> !(t.path == d.path && AtMost(d.minVersion, t.minVersion));
    hide AtMost, Resolution;
    assert rest[i] in rest;
  }

  /** Over the versions in `u` the order of dependencies never changes the build if newer
      versions bring about what older ones ask for; without cycles among packages, only if. */
  lemma OrderIsIrrelevantExactly(provider: Provider, u: set<Key>)
    requires Within(provider, u)
    ensures Upgrades(provider, u) ==> OrderIrrelevant(provider, u)
    ensures OrderIrrelevant(provider, u) ==> Upgrades(provider, u) || forall rank :: !Acyclic(provider, rank)
  {
    if Upgrades(provider, u) {
      forall other: Provider, a: Manifest, b: Manifest |
          Reordered(provider, other) && KeysOf(a) <= u && SameDependencies(a, b)
        ensures SameBuild(Resolution(provider, a).requirements, Resolution(other, b).requirements)
      {
        UpgradesHideOrder(provider, other, u, a, b);
      }
    } else if rank: Path -> nat :| Acyclic(provider, rank) {
      WithoutUpgrades(provider, u, rank);
    }
  }

  lemma WithoutUpgrades(provider: Provider, u: set<Key>, rank: Path -> nat)
    requires Within(provider, u) && Acyclic(provider, rank) && !Upgrades(provider, u)
    ensures !OrderIrrelevant(provider, u)
  {
    hide AtMost, Brings, Resolution, SameBuild;
    var k, l, d :| k in u && l in u && k.0 == l.0 && AtMost(k.1, l.1) && (k, d) in Edges(provider)
                   && !Brings(Edges(provider), u, l, d);
    var rest := LostDependency(provider, u, rank, k, l, d);
    var a := Dependency(k.0, k.1);
    UnmetChangesBuild(provider, rest, a);
    assert Reordered(provider, provider);
    assert KeysOf(rest + [a]) <= u;
  }

  // --- the smallest example ------------------------------------------------------------------------

  const X1 := Dependency("x", "1")
  const X2 := Dependency("x", "2")
  const Y1 := Dependency("y", "1")
  const ONLY_X1: Provider := map[("x", "1") := [Y1]]

  lemma TwoIsNewerThanOne()
    ensures AtMost("1", "2")
  {
    OneSegment("1");
    OneSegment("2");
  }

  lemma OneSegment(v: Version)
    requires |v| == 1 && IsDigit(v[0])
    ensures Parse(v) == [v[0] as int - '0' as int]
  {
    assert Split(v[1..]) == [""];
    assert v == [v[0]] + "";
    assert Split(v) == [v];
    assert NumericPrefix(v) == v;
    PrefixIsDigits(v);
    assert ToNat(v[..0]) == 0;
    assert ToNat(v) == v[0] as int - '0' as int;
  }

  /** Asking for x 2 first keeps x 1 from ever being expanded; asking for it second does not. */
  lemma OrderOfDependenciesMatters()
    ensures "y" !in Resolution(ONLY_X1, [X2, X1]).requirements
    ensures "y" in Resolution(ONLY_X1, [X1, X2]).requirements
  {
    TwoIsNewerThanOne();
    hide AtMost;
    var u := Universe(ONLY_X1, [X2]);
    UniverseIsClosed(ONLY_X1, [X2]);
    SettledWalk(ONLY_X1, u, [X2]);
    assert X2 in [X2];
    OlderLast(ONLY_X1, [X2], X1);
    assert [X2] + [X1] == [X2, X1] && [X1] + [X2] == [X1, X2];
    OlderFirst(ONLY_X1, [X2], X1);
    assert Y1 in ONLY_X1[("x", "1")];
  }
}

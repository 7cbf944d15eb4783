/**
 Minimum Version Selection (qy/project/resolve.py). A provider is a finite table of
 manifests, as `LocalManifestProvider` is; the dependency graph may be cyclic.
 */
module Resolve {
  import opened Versions

  type Path = string

  datatype Dependency = Dependency(path: Path, minVersion: Version)
  type Manifest = seq<Dependency>
  type Key = (Path, Version)
  type Provider = map<Key, Manifest>

  datatype State = State(requirements: map<Path, Version>, visited: set<Key>)

  const START := State(map[], {})

  // --- the finite universe of a resolution -------------------------------------------------

  function KeysOf(deps: Manifest): set<Key> {
    set d | d in deps :: (d.path, d.minVersion)
  }

  /** Every path with every minimum that any manifest asks for. */
  ghost function Universe(provider: Provider, root: Manifest): set<Key> {
    KeysOf(root) + set k, d | k in provider && d in provider[k] :: (d.path, d.minVersion)
  }

  /** Everything a resolution can reach stays in `u`. */
  ghost predicate Within(provider: Provider, u: set<Key>) {
    forall k :: k in provider ==> KeysOf(provider[k]) <= u
  }

  ghost predicate StateWithin(st: State, u: set<Key>) {
    && st.visited <= u
    && forall p :: p in st.requirements ==> (p, st.requirements[p]) in u
  }

  // --- the walk ---------------------------------------------------------------------------------

  function Selected(requirements: map<Path, Version>, d: Dependency): Version {
    if d.path in requirements then Max(requirements[d.path], d.minVersion) else d.minVersion
  }

  function Select(st: State, d: Dependency): State {
    st.(requirements := st.requirements[d.path := Selected(st.requirements, d)])
  }

  /** `_collect_requirements` on the dependencies that are left, one after the other. Each
      recursive expansion has visited one more key of the finite universe. */
  ghost function Collect(provider: Provider, u: set<Key>, deps: Manifest, st: State): (r: State)
    requires Within(provider, u) && KeysOf(deps) <= u && StateWithin(st, u)
    ensures StateWithin(r, u) && st.visited <= r.visited
    decreases u - st.visited, |deps|
  {
    if deps == [] then st
    else
      var d := deps[0];
      assert (d.path, d.minVersion) in KeysOf(deps);
      assert forall e :: e in deps[1..] ==> e in deps;
      var key := (d.path, Selected(st.requirements, d));
      var st1 := Select(st, d);
      if key in st.visited then Collect(provider, u, deps[1..], st1)
      else
        var st2 := st1.(visited := st.visited + {key});
        assert key in u - st.visited && key !in u - st2.visited;
        var st3 := if key in provider then Collect(provider, u, provider[key], st2) else st2;
        assert u - st3.visited <= u - st2.visited;
        Collect(provider, u, deps[1..], st3)
  }

  /** A manifest's every dependency is selected, at its minimum or above. */
  ghost predicate Satisfied(requirements: map<Path, Version>, deps: Manifest) {
    forall d :: d in deps ==> d.path in requirements && AtMost(d.minVersion, requirements[d.path])
  }

  /** Requirements are never dropped and never lowered. */
  ghost predicate Raised(a: map<Path, Version>, b: map<Path, Version>) {
    forall p :: p in a ==> p in b && AtMost(a[p], b[p])
  }

  /** The manifest of every key in `keys` is satisfied. */
  ghost predicate Expanded(provider: Provider, requirements: map<Path, Version>, keys: set<Key>) {
    forall k :: k in keys && k in provider ==> Satisfied(requirements, provider[k])
  }

  /** What is selected has been visited. */
  ghost predicate SelectedVisited(st: State) {
    forall p :: p in st.requirements ==> (p, st.requirements[p]) in st.visited
  }

  ghost predicate Asks(deps: Manifest, p: Path, v: Version) {
    exists d :: d in deps && d.path == p && d.minVersion == v
  }

  /** Somebody asked for exactly this: the manifest at hand, or one expanded since. */
  ghost predicate Asked(provider: Provider, deps: Manifest, keys: set<Key>, p: Path, v: Version) {
    Asks(deps, p, v) || exists k :: k in keys && k in provider && Asks(provider[k], p, v)
  }

  lemma RaisedReflexive(a: map<Path, Version>)
    ensures Raised(a, a)
  {
    forall p | p in a ensures AtMost(a[p], a[p]) {
      AtMostReflexive(a[p]);
    }
  }

  lemma RaisedTransitive(a: map<Path, Version>, b: map<Path, Version>, c: map<Path, Version>)
    requires Raised(a, b) && Raised(b, c)
    ensures Raised(a, c)
  {
    forall p | p in a ensures p in c && AtMost(a[p], c[p]) {
      AtMostTransitive(a[p], b[p], c[p]);
    }
  }

  lemma SelectRaises(st: State, d: Dependency)
    ensures Raised(st.requirements, Select(st, d).requirements)
    ensures AtMost(d.minVersion, Select(st, d).requirements[d.path])
  {
    hide AtMost, Max;
    if d.path in st.requirements {
      MaxIsLeastUpperBound(st.requirements[d.path], d.minVersion);
    }
    AtMostReflexive(d.minVersion);
    forall p | p in st.requirements ensures AtMost(st.requirements[p], Select(st, d).requirements[p]) {
      AtMostReflexive(st.requirements[p]);
    }
  }

  lemma SatisfiedRaises(a: map<Path, Version>, b: map<Path, Version>, deps: Manifest)
    requires Satisfied(a, deps) && Raised(a, b)
    ensures Satisfied(b, deps)
  {
    forall d | d in deps ensures d.path in b && AtMost(d.minVersion, b[d.path]) {
      AtMostTransitive(d.minVersion, a[d.path], b[d.path]);
    }
  }

  /** What one (recursive) call achieves, whatever was visited before it and whatever is still
      being expanded above it: its own dependencies and all newly visited manifests are satisfied. */
  ghost predicate Achieves(provider: Provider, deps: Manifest, st: State, r: State) {
    && Raised(st.requirements, r.requirements)
    && Satisfied(r.requirements, deps)
    && Expanded(provider, r.requirements, r.visited - st.visited)
    && SelectedVisited(r)
  }

  lemma {:induction false} CollectAchieves(provider: Provider, u: set<Key>, deps: Manifest, st: State)
    requires Within(provider, u) && KeysOf(deps) <= u && StateWithin(st, u) && SelectedVisited(st)
    ensures Achieves(provider, deps, st, Collect(provider, u, deps, st))
    decreases u - st.visited, |deps|
  {
    hide AtMost, Max;
    if deps == [] {
      RaisedReflexive(st.requirements);
    } else {
      var d, rest := deps[0], deps[1..];
      assert (d.path, d.minVersion) in KeysOf(deps);
      if d.path in st.requirements {
        MaxIsLeastUpperBound(st.requirements[d.path], d.minVersion);
      }
      assert forall e :: e in rest ==> e in deps;
      var key := (d.path, Selected(st.requirements, d));
      var st1 := Select(st, d);
      SelectRaises(st, d);
      RaisedReflexive(st1.requirements);
      if key in st.visited {
        CollectAchieves(provider, u, rest, st1);
        FirstThenRest(provider, deps, st, st1, st1, Collect(provider, u, rest, st1), key);
      } else {
        var st2 := st1.(visited := st.visited + {key});
        assert key in u - st.visited && key !in u - st2.visited;
        var st3 := if key in provider then Collect(provider, u, provider[key], st2) else st2;
        assert u - st3.visited <= u - st2.visited;
        if key in provider {
          CollectAchieves(provider, u, provider[key], st2);
        }
        CollectAchieves(provider, u, rest, st3);
        FirstThenRest(provider, deps, st, st1, st3, Collect(provider, u, rest, st3), key);
      }
    }
  }

  /** Composing the expansion of the first dependency with the rest of the list. */
  lemma FirstThenRest(provider: Provider, deps: Manifest, st: State, st1: State, st3: State, r: State, key: Key)
    requires deps != [] && st1 == Select(st, deps[0])
    requires Raised(st1.requirements, st3.requirements)
    requires Expanded(provider, st3.requirements, st3.visited - st.visited - {key})
    requires key in provider && key !in st.visited ==> Satisfied(st3.requirements, provider[key])
    requires Achieves(provider, deps[1..], st3, r)
    ensures Achieves(provider, deps, st, r)
  {
    hide AtMost, Max;
    var d := deps[0];
    SelectRaises(st, d);
    RaisedTransitive(st.requirements, st1.requirements, st3.requirements);
    RaisedTransitive(st.requirements, st3.requirements, r.requirements);
    RaisedTransitive(st1.requirements, st3.requirements, r.requirements);
    forall e | e in deps ensures e.path in r.requirements && AtMost(e.minVersion, r.requirements[e.path]) {
      if e == d {
        AtMostTransitive(d.minVersion, st1.requirements[d.path], r.requirements[d.path]);
      } else {
        assert e in deps[1..];
      }
    }
    forall k | k in r.visited - st.visited && k in provider ensures Satisfied(r.requirements, provider[k]) {
      if k in st3.visited {
        SatisfiedRaises(st3.requirements, r.requirements, provider[k]);
      }
    }
  }

  /** A selected version is never invented: it was there before, or somebody asked for it. */
  lemma {:induction false} CollectIsAsked(provider: Provider, u: set<Key>, deps: Manifest, st: State, p: Path)
    requires Within(provider, u) && KeysOf(deps) <= u && StateWithin(st, u)
    requires p in Collect(provider, u, deps, st).requirements
    ensures var r := Collect(provider, u, deps, st);
            || (p in st.requirements && r.requirements[p] == st.requirements[p])
            || Asked(provider, deps, r.visited, p, r.requirements[p])
    decreases u - st.visited, |deps|
  {
    hide AtMost, Parse, Less;
    if deps != [] {
      var d, rest := deps[0], deps[1..];
      assert (d.path, d.minVersion) in KeysOf(deps);
      assert forall e :: e in rest ==> e in deps;
      var key := (d.path, Selected(st.requirements, d));
      var st1 := Select(st, d);
      var st2 := st1.(visited := st.visited + {key});
      assert key !in st.visited ==> key in u - st.visited && key !in u - st2.visited;
      var st3 := if key in st.visited then st1
                 else if key in provider then Collect(provider, u, provider[key], st2) else st2;
      assert u - st3.visited <= u - st.visited;
      CollectIsAsked(provider, u, rest, st3, p);
      if key !in st.visited && key in provider && p in st3.requirements {
        CollectIsAsked(provider, u, provider[key], st2, p);
      }
      if p == d.path && p in st1.requirements {
        assert st1.requirements[p] == d.minVersion || (p in st.requirements && st1.requirements[p] == st.requirements[p]);
        assert Asks(deps, p, d.minVersion);
      }
    }
  }

  // --- resolution ----------------------------------------------------------------------------------

  lemma UniverseIsClosed(provider: Provider, root: Manifest)
    ensures Within(provider, Universe(provider, root)) && KeysOf(root) <= Universe(provider, root)
    ensures StateWithin(START, Universe(provider, root))
  {
  }

  ghost function Resolution(provider: Provider, root: Manifest): State {
    UniverseIsClosed(provider, root);
    Collect(provider, Universe(provider, root), root, START)
  }

  /** A manifest whose minimums counted: the root, or one that was expanded. */
  ghost predicate Counted(provider: Provider, root: Manifest, r: State, m: Manifest) {
    m == root || exists k :: k in r.visited && k in provider && provider[k] == m
  }

  /** The build list is closed: the root and every selected version find each dependency
      selected, at its minimum or above. */
  lemma ResolutionIsClosed(provider: Provider, root: Manifest)
    ensures var r := Resolution(provider, root);
            && Satisfied(r.requirements, root)
            && forall p :: p in r.requirements && (p, r.requirements[p]) in provider ==>
                 Satisfied(r.requirements, provider[(p, r.requirements[p])])
  {
    hide AtMost;
    UniverseIsClosed(provider, root);
    CollectAchieves(provider, Universe(provider, root), root, START);
    var r := Resolution(provider, root);
    assert r.visited - START.visited == r.visited;
    forall p | p in r.requirements && (p, r.requirements[p]) in provider
      ensures Satisfied(r.requirements, provider[(p, r.requirements[p])])
    {
      assert (p, r.requirements[p]) in r.visited;
    }
  }

  /** Each selected version is the maximum of the minimums that counted manifests ask for. */
  lemma ResolutionIsMaximum(provider: Provider, root: Manifest, p: Path)
    requires p in Resolution(provider, root).requirements
    ensures var r := Resolution(provider, root);
            && (exists m: Manifest :: Counted(provider, root, r, m) && Asks(m, p, r.requirements[p]))
            && forall m: Manifest, d: Dependency :: Counted(provider, root, r, m) && d in m && d.path == p ==>
                 AtMost(d.minVersion, r.requirements[p])
  {
    hide AtMost;
    var u := Universe(provider, root);
    UniverseIsClosed(provider, root);
    CollectAchieves(provider, u, root, START);
    CollectIsAsked(provider, u, root, START, p);
    var r := Resolution(provider, root);
    assert r.visited - START.visited == r.visited;
    if !Asks(root, p, r.requirements[p]) {
      var k :| k in r.visited && k in provider && Asks(provider[k], p, r.requirements[p]);
      assert Counted(provider, root, r, provider[k]);
    } else {
      assert Counted(provider, root, r, root);
    }
    forall m: Manifest, d: Dependency | Counted(provider, root, r, m) && d in m && d.path == p
      ensures AtMost(d.minVersion, r.requirements[p])
    {
      assert Satisfied(r.requirements, m);
    }
  }

  // --- the resolver as written --------------------------------------------------------------------------

  /** The two dictionaries that the recursion shares. */
  class Collector {
    var requirements: map<Path, Version>
    var visited: set<Key>

    constructor ()
      ensures Current() == START
    {
      requirements, visited := map[], {};
    }

    function Current(): State
      reads this
    {
      State(requirements, visited)
    }

    method CollectRequirements(provider: Provider, manifest: Manifest, ghost u: set<Key>)
      requires Within(provider, u) && KeysOf(manifest) <= u && StateWithin(Current(), u)
      modifies this
      ensures Current() == Collect(provider, u, manifest, old(Current()))
      decreases u - visited
    {
      hide AtMost, Parse, Less;
      ghost var before := Current();
      for i := 0 to |manifest|
        invariant StateWithin(Current(), u) && before.visited <= visited
        invariant KeysOf(manifest[i..]) <= u
        invariant Collect(provider, u, manifest, before) == Collect(provider, u, manifest[i..], Current())
      {
        var dep := manifest[i];
        assert manifest[i..][0] == dep && manifest[i..][1..] == manifest[i + 1..];
        assert (dep.path, dep.minVersion) in KeysOf(manifest);
        var selected := dep.minVersion;
        if dep.path in requirements {
          selected := MaxVersion(requirements[dep.path], dep.minVersion);
        }
        requirements := requirements[dep.path := selected];
        var key := (dep.path, selected);
        if key !in visited {
          ghost var was := visited;
          visited := visited + {key};
          assert key in u - was && key !in u - visited;
          assert u - visited < u - before.visited;
          if key in provider {
            CollectRequirements(provider, provider[key], u);
          }
        }
      }
    }
  }

  // --- the build list ---------------------------------------------------------------------------------

  function Codes(p: Path): seq<nat> { seq(|p|, i requires 0 <= i < |p| => p[i] as int) }

  /** Python's order on strings, by code points. */
  predicate Before(p: Path, q: Path) { Less(Codes(p), Codes(q)) }

  /** The strings share `k` characters, and then `p` ends or has the smaller one. */
  ghost predicate EarlierAt(p: Path, q: Path, k: int) {
    && 0 <= k <= |p| && k <= |q| && p[..k] == q[..k]
    && ((k == |p| && k < |q|) || (k < |p| && k < |q| && p[k] < q[k]))
  }

  ghost predicate Earlier(p: Path, q: Path) { exists k :: EarlierAt(p, q, k) }

  lemma BeforeMeans(p: Path, q: Path)
    ensures Before(p, q) <==> Earlier(p, q)
  {
    LessMeans(Codes(p), Codes(q));
    hide Less;
    forall k ensures PrecedesAt(Codes(p), Codes(q), k) <==> EarlierAt(p, q, k) {
      if 0 <= k <= |p| && k <= |q| {
        assert forall i :: 0 <= i < k ==> Codes(p)[..k][i] == p[i] as int && Codes(q)[..k][i] == q[i] as int;
        assert Codes(p)[..k] == Codes(q)[..k] <==> p[..k] == q[..k] by {
          if Codes(p)[..k] == Codes(q)[..k] {
            forall i | 0 <= i < k ensures p[..k][i] == q[..k][i] {
              assert Codes(p)[..k][i] == Codes(q)[..k][i];
            }
          }
          if p[..k] == q[..k] {
            forall i | 0 <= i < k ensures Codes(p)[..k][i] == Codes(q)[..k][i] {
              assert p[..k][i] == q[..k][i];
            }
          }
        }
      }
    }
    if k :| PrecedesAt(Codes(p), Codes(q), k) { assert EarlierAt(p, q, k); }
    if k :| EarlierAt(p, q, k) { assert PrecedesAt(Codes(p), Codes(q), k); }
  }

  lemma BeforeTotal(p: Path, q: Path)
    ensures Before(p, q) || p == q || Before(q, p)
    ensures !(Before(p, q) && Before(q, p)) && !Before(p, p)
  {
    LessTotal(Codes(p), Codes(q));
    LessTotal(Codes(p), Codes(p));
    if Codes(p) == Codes(q) {
      forall i | 0 <= i < |p| ensures |p| == |q| && p[i] == q[i] {
        assert |Codes(p)| == |p| && Codes(p)[i] == Codes(q)[i];
      }
      assert |Codes(p)| == |p| && |Codes(q)| == |q|;
      assert p == q;
    }
  }

  ghost predicate First(paths: set<Path>, p: Path) {
    p in paths && forall q :: q in paths ==> q == p || Before(p, q)
  }

  lemma {:induction false} FirstExists(paths: set<Path>) returns (p: Path)
    requires paths != {}
    ensures First(paths, p)
    decreases paths
  {
    hide Before;
    p :| p in paths;
    var others := paths - {p};
    assert forall x :: x in paths ==> x == p || x in others;
    if others != {} {
      var q := FirstExists(others);
      BeforeTotal(p, q);
      if Before(q, p) {
        p := q;
      } else {
        forall x | x in others && x != q ensures Before(p, x) {
          BeforeTransitive(p, q, x);
        }
      }
    }
  }

  lemma BeforeTransitive(p: Path, q: Path, r: Path)
    requires Before(p, q) && Before(q, r)
    ensures Before(p, r)
  {
    LessTransitive(Codes(p), Codes(q), Codes(r));
  }

  datatype Module = Module(path: Path, version: Version)

  /** Every path once, in Python's order, with its version. */
  ghost predicate Lists(modules: seq<Module>, versions: map<Path, Version>) {
    && (forall i :: 0 <= i < |modules| ==> modules[i].path in versions && modules[i].version == versions[modules[i].path])
    && (forall p :: p in versions ==> exists i :: 0 <= i < |modules| && modules[i].path == p)
    && forall i, j :: 0 <= i < j < |modules| ==> Earlier(modules[i].path, modules[j].path)
  }

  /** The paths outside `left` are listed, and all of them come before those in `left`. */
  ghost predicate ListsBut(modules: seq<Module>, versions: map<Path, Version>, left: set<Path>) {
    && left <= versions.Keys
    && Lists(modules, versions - left)
    && forall i, p :: 0 <= i < |modules| && p in left ==> Earlier(modules[i].path, p)
  }

  lemma ListOneMore(modules: seq<Module>, versions: map<Path, Version>, left: set<Path>, p: Path)
    requires ListsBut(modules, versions, left) && First(left, p)
    ensures ListsBut(modules + [Module(p, versions[p])], versions, left - {p})
  {
    forall q | q in left && q != p ensures Earlier(p, q) {
      BeforeMeans(p, q);
    }
    hide Before, Earlier;
    var more := modules + [Module(p, versions[p])];
    assert more[|modules|].path == p;
    forall q | q in versions - (left - {p}) ensures exists i :: 0 <= i < |more| && more[i].path == q {
      if q != p {
        assert q in versions - left;
        var i :| 0 <= i < |modules| && modules[i].path == q;
        assert more[i].path == q;
      }
    }
  }

  method SortedModules(versions: map<Path, Version>) returns (modules: seq<Module>)
    ensures Lists(modules, versions)
  {
    hide Before, Lists;
    var left := versions.Keys;
    modules := [];
    NothingListed(versions);
    while left != {}
      invariant ListsBut(modules, versions, left)
      decreases left
    {
      ghost var first := FirstExists(left);
      var p :| p in left && forall q :: q in left ==> q == p || Before(p, q);
      ListOneMore(modules, versions, left, p);
      modules := modules + [Module(p, versions[p])];
      left := left - {p};
    }
    assert versions - left == versions;
  }

  lemma NothingListed(versions: map<Path, Version>)
    ensures Lists([], versions - versions.Keys)
  {
  }

  /** `resolve`. */
  method ResolveVersions(provider: Provider, root: Manifest) returns (modules: seq<Module>)
    ensures Lists(modules, Resolution(provider, root).requirements)
  {
    UniverseIsClosed(provider, root);
    var c := new Collector();
    c.CollectRequirements(provider, root, Universe(provider, root));
    modules := SortedModules(c.requirements);
  }
}

/**
 Symbol resolution along a chain of symbol spaces (qy/core/symbol_space.py). A chain is the
 list of its layers, innermost first; a layer without a resolver has one that knows nothing.
 */
module SymbolSpaces {
  import opened Wrappers

  type Symbol = string

  datatype Entry = Value(id: int) | Alias(target: Symbol)

  datatype Layer = Layer(bindings: map<Symbol, Entry>, hidden: map<Symbol, Entry>, resolver: Symbol -> Option<Entry>)

  /** `SymbolSpace.lookup`, in one layer. `None` stands for MISSING. */
  function Lookup(layer: Layer, symbol: Symbol): Option<Entry> {
    if symbol in layer.bindings then Some(layer.bindings[symbol])
    else if symbol in layer.hidden then Some(layer.hidden[symbol])
    else layer.resolver(symbol)
  }

  /** Every symbol that some layer aliases is one of `names`. */
  ghost predicate AliasesWithin(layers: seq<Layer>, names: set<Symbol>) {
    forall i, s :: 0 <= i < |layers| && AliasAt(layers[i], s) ==> s in names
  }

  ghost predicate AliasAt(layer: Layer, s: Symbol) {
    var e := Lookup(layer, s);
    e.Some? && e.value.Alias?
  }

  /** The recursive resolver from layer `k` out, which carries the set of symbols followed so
      far. Either a layer is left behind, or one more of the aliased symbols is followed. */
  ghost function Resolve(layers: seq<Layer>, k: nat, symbol: Symbol, seen: set<Symbol>, names: set<Symbol>): (r: Option<Entry>)
    requires AliasesWithin(layers, names) && k <= |layers|
    ensures r.Some? ==> r.value.Value?
    decreases |layers| - k, names - seen
  {
    if k == |layers| || symbol in seen then None
    else
      match Lookup(layers[k], symbol)
      case None => Resolve(layers, k + 1, symbol, seen, names)
      case Some(Alias(target)) =>
        assert AliasAt(layers[k], symbol);
        assert symbol in names - seen && symbol !in names - (seen + {symbol});
        Resolve(layers, k, target, seen + {symbol}, names)
      case Some(Value(id)) => Some(Value(id))
  }

  // --- the plain meaning of aliases ------------------------------------------------------------

  /** Where a lookup is: at which layer, for which symbol. */
  datatype Place = Place(layer: nat, symbol: Symbol)

  predicate Follows(layers: seq<Layer>, at: Place) {
    at.layer < |layers| && var e := Lookup(layers[at.layer], at.symbol); e.Some? && e.value.Alias?
  }

  /** One step: out to the parent, or on to the target of an alias. */
  predicate Step(layers: seq<Layer>, a: Place, b: Place) {
    && a.layer < |layers|
    && match Lookup(layers[a.layer], a.symbol)
       case None => b == Place(a.layer + 1, a.symbol)
       case Some(Alias(target)) => b == Place(a.layer, target)
       case Some(Value(_)) => false
  }

  predicate Route(layers: seq<Layer>, route: seq<Place>) {
    route != [] && forall k :: 0 <= k < |route| - 1 ==> Step(layers, route[k], route[k + 1])
  }

  predicate EndsAt(layers: seq<Layer>, at: Place, id: int) {
    at.layer < |layers| && Lookup(layers[at.layer], at.symbol) == Some(Value(id))
  }

  /** The value that following aliases and parents leads to, if it leads anywhere. */
  ghost predicate Derives(layers: seq<Layer>, start: Place, id: int) {
    exists route :: Route(layers, route) && route[0] == start && EndsAt(layers, route[|route| - 1], id)
  }

  /** A symbol that was followed as an alias does not come up again, in whatever layer. */
  predicate Fresh(layers: seq<Layer>, route: seq<Place>) {
    forall i, j :: 0 <= i < j < |route| && Follows(layers, route[i]) ==> route[j].symbol != route[i].symbol
  }

  predicate Avoids(route: seq<Place>, seen: set<Symbol>) {
    forall k :: 0 <= k < |route| ==> route[k].symbol !in seen
  }

  ghost predicate FreshlyDerives(layers: seq<Layer>, start: Place, seen: set<Symbol>, id: int) {
    exists route :: Route(layers, route) && route[0] == start && EndsAt(layers, route[|route| - 1], id)
                 && Fresh(layers, route) && Avoids(route, seen)
  }

  // --- what resolution finds --------------------------------------------------------------------

  lemma {:induction false} ResolvedIsDerived(layers: seq<Layer>, k: nat, symbol: Symbol, seen: set<Symbol>, names: set<Symbol>)
    requires AliasesWithin(layers, names) && k <= |layers| && Resolve(layers, k, symbol, seen, names).Some?
    ensures FreshlyDerives(layers, Place(k, symbol), seen, Resolve(layers, k, symbol, seen, names).value.id)
    decreases |layers| - k, names - seen
  {
    var id := Resolve(layers, k, symbol, seen, names).value.id;
    var here := Place(k, symbol);
    match Lookup(layers[k], symbol)
    case None =>
      ResolvedIsDerived(layers, k + 1, symbol, seen, names);
      PrependStep(layers, here, Place(k + 1, symbol), seen, seen, id);
    case Some(Alias(target)) =>
      assert AliasAt(layers[k], symbol);
      assert symbol in names - seen && symbol !in names - (seen + {symbol});
      ResolvedIsDerived(layers, k, target, seen + {symbol}, names);
      PrependStep(layers, here, Place(k, target), seen, seen + {symbol}, id);
    case Some(Value(_)) =>
      var route := [here];
      assert Route(layers, route) && EndsAt(layers, route[|route| - 1], id) && Fresh(layers, route) && Avoids(route, seen);
  }

  lemma PrependStep(layers: seq<Layer>, a: Place, b: Place, seen: set<Symbol>, after: set<Symbol>, id: int)
    requires Step(layers, a, b) && FreshlyDerives(layers, b, after, id) && a.symbol !in seen
    requires after == if Follows(layers, a) then seen + {a.symbol} else seen
    ensures FreshlyDerives(layers, a, seen, id)
  {
    var rest: seq<Place> :| Route(layers, rest) && rest[0] == b && EndsAt(layers, rest[|rest| - 1], id)
             && Fresh(layers, rest) && Avoids(rest, after);
    var route := [a] + rest;
    hide EndsAt;
    assert forall i :: 0 < i < |route| ==> route[i] == rest[i - 1];
    assert Route(layers, route) by { hide Follows; }
    assert Fresh(layers, route) by { hide Step; }
    assert Avoids(route, seen) && route[0] == a && route[|route| - 1] == rest[|rest| - 1];
  }

  lemma {:induction false} DerivedIsResolved(layers: seq<Layer>, route: seq<Place>, seen: set<Symbol>, names: set<Symbol>, id: int)
    requires AliasesWithin(layers, names)
    requires Route(layers, route) && EndsAt(layers, route[|route| - 1], id) && Fresh(layers, route) && Avoids(route, seen)
    ensures route[0].layer <= |layers|
    ensures Resolve(layers, route[0].layer, route[0].symbol, seen, names) == Some(Value(id))
    decreases |route|
  {
    if |route| > 1 {
      var rest := route[1..];
      assert Step(layers, route[0], route[1]);
      assert forall k :: 0 <= k < |rest| ==> rest[k] == route[k + 1];
      var after := if Follows(layers, route[0]) then seen + {route[0].symbol} else seen;
      DerivedIsResolved(layers, rest, after, names, id);
    }
  }

  /** Resolution finds a value exactly when aliases and parents lead to it without coming back
      to a symbol that was followed before. */
  lemma ResolveExactly(layers: seq<Layer>, symbol: Symbol, names: set<Symbol>, id: int)
    requires AliasesWithin(layers, names)
    ensures Resolve(layers, 0, symbol, {}, names) == Some(Value(id))
       <==> FreshlyDerives(layers, Place(0, symbol), {}, id)
  {
    if Resolve(layers, 0, symbol, {}, names) == Some(Value(id)) {
      ResolvedIsDerived(layers, 0, symbol, {}, names);
    }
    if FreshlyDerives(layers, Place(0, symbol), {}, id) {
      var route: seq<Place> :| Route(layers, route) && route[0] == Place(0, symbol) && EndsAt(layers, route[|route| - 1], id)
                && Fresh(layers, route) && Avoids(route, {});
      DerivedIsResolved(layers, route, {}, names, id);
    }
  }

  /** Every answer is one of the plain alias semantics. */
  lemma ResolveIsSound(layers: seq<Layer>, symbol: Symbol, names: set<Symbol>)
    requires AliasesWithin(layers, names) && Resolve(layers, 0, symbol, {}, names).Some?
    ensures Derives(layers, Place(0, symbol), Resolve(layers, 0, symbol, {}, names).value.id)
  {
    ResolveExactly(layers, symbol, names, Resolve(layers, 0, symbol, {}, names).value.id);
  }

  /** No alias leads, through the aliases of all layers together, back to its own symbol. */
  ghost predicate Acyclic(layers: seq<Layer>, rank: Symbol -> nat) {
    forall i, s :: 0 <= i < |layers| && AliasAt(layers[i], s) ==> rank(Lookup(layers[i], s).value.target) < rank(s)
  }

  /** Where aliases have no cycle across layers, resolution misses nothing. */
  lemma ResolveIsComplete(layers: seq<Layer>, symbol: Symbol, names: set<Symbol>, rank: Symbol -> nat, id: int)
    requires AliasesWithin(layers, names) && Acyclic(layers, rank)
    ensures Resolve(layers, 0, symbol, {}, names) == Some(Value(id)) <==> Derives(layers, Place(0, symbol), id)
  {
    ResolveExactly(layers, symbol, names, id);
    if Derives(layers, Place(0, symbol), id) {
      var route: seq<Place> :| Route(layers, route) && route[0] == Place(0, symbol) && EndsAt(layers, route[|route| - 1], id);
      forall i, j | 0 <= i < j < |route| && Follows(layers, route[i]) ensures route[j].symbol != route[i].symbol {
        RankFalls(layers, rank, route, i, j);
      }
      assert Fresh(layers, route) && Avoids(route, {});
    }
  }

  lemma {:induction false} RankFalls(layers: seq<Layer>, rank: Symbol -> nat, route: seq<Place>, i: nat, j: nat)
    requires Acyclic(layers, rank) && Route(layers, route) && i < j < |route|
    ensures rank(route[j].symbol) <= rank(route[i].symbol)
    ensures Follows(layers, route[i]) ==> rank(route[j].symbol) < rank(route[i].symbol)
    decreases j - i
  {
    assert Step(layers, route[i], route[i + 1]);
    assert Follows(layers, route[i]) ==> AliasAt(layers[route[i].layer], route[i].symbol);
    if i + 1 < j {
      RankFalls(layers, rank, route, i + 1, j);
    }
  }

  // --- an answer that is missed ---------------------------------------------------------------

  const EMPTY: Symbol -> Option<Entry> := s => None
  const INNER := Layer(map["a" := Alias("b")], map[], EMPTY)
  const OUTER := Layer(map["b" := Alias("a"), "a" := Value(5)], map[], EMPTY)

  /** The inner `a` stands for the outer `b`, which stands for the outer `a`; that is bound,
      but `a` has been followed already. */
  lemma RevisitIsMissing()
    ensures AliasesWithin([INNER, OUTER], {"a", "b"})
    ensures Resolve([INNER, OUTER], 0, "a", {}, {"a", "b"}) == None
    ensures Derives([INNER, OUTER], Place(0, "a"), 5)
  {
    var layers := [INNER, OUTER];
    var route := [Place(0, "a"), Place(0, "b"), Place(1, "b"), Place(1, "a")];
    assert Step(layers, route[0], route[1]) && Step(layers, route[1], route[2]) && Step(layers, route[2], route[3]);
    assert Route(layers, route) && EndsAt(layers, route[|route| - 1], 5);
    var seen := {} + {"a"};
    assert "a" in seen + {"b"};
    assert Resolve(layers, 1, "a", seen + {"b"}, {"a", "b"}) == None;
    assert Resolve(layers, 1, "b", seen, {"a", "b"}) == None;
    assert Resolve(layers, 0, "b", seen, {"a", "b"}) == None;
  }

  // --- spaces as objects -------------------------------------------------------------------------

  class SymbolSpace {
    var bindings: map<Symbol, Entry>
    var hidden: map<Symbol, Entry>
    const resolver: Symbol -> Option<Entry>
    const parent: SymbolSpace?
    /** This space and its ancestors. */
    ghost const spaces: seq<SymbolSpace>

    ghost predicate Valid()
      decreases |spaces|
    {
      && spaces != [] && spaces[0] == this
      && if parent == null then |spaces| == 1 else spaces[1..] == parent.spaces && parent.Valid()
    }

    constructor (bindings: map<Symbol, Entry>, parent: SymbolSpace?, resolver: Symbol -> Option<Entry>)
      requires parent != null ==> parent.Valid()
      ensures Valid() && this.parent == parent && this.resolver == resolver
      ensures this.bindings == bindings && hidden == map[]
    {
      this.bindings := bindings;
      this.hidden := map[];
      this.parent := parent;
      this.resolver := resolver;
      this.spaces := if parent == null then [this] else [this] + parent.spaces;
    }

    ghost function Here(): Layer
      reads this
    {
      Layer(bindings, hidden, resolver)
    }

    /** The chain as it stands. */
    ghost function Layers(): (layers: seq<Layer>)
      requires Valid()
      reads set s | s in spaces
      ensures |layers| == |spaces|
      decreases |spaces|
    {
      [Here()] + if parent == null then [] else ParentLayers()
    }

    ghost function ParentLayers(): (layers: seq<Layer>)
      requires Valid() && parent != null
      reads set s | s in spaces
      ensures |layers| == |spaces| - 1
      decreases |spaces|, 0
    {
      assert forall s :: s in parent.spaces ==> s in spaces;
      parent.Layers()
    }

    method LookupHere(symbol: Symbol) returns (value: Option<Entry>)
      ensures value == Lookup(Here(), symbol)
    {
      if symbol in bindings { return Some(bindings[symbol]); }
      if symbol in hidden { return Some(hidden[symbol]); }
      value := resolver(symbol);
    }

    /** The `k`-th ancestor and what it sees. */
    lemma {:induction false} Ancestor(k: nat)
      requires Valid() && k < |spaces|
      ensures spaces[k].Valid() && spaces[k].spaces == spaces[k..]
      ensures Layers()[k] == spaces[k].Here()
      ensures spaces[k].parent == if k + 1 < |spaces| then spaces[k + 1] else null
      decreases |spaces|
    {
      if k > 0 {
        assert spaces[1..][k - 1] == spaces[k];
        parent.Ancestor(k - 1);
        assert parent.spaces[k - 1..] == spaces[k..];
        assert Layers()[k] == parent.Layers()[k - 1];
      } else if parent != null {
        assert spaces[1] == parent.spaces[0] == parent;
      }
    }

    method ResolveSymbol(name: Symbol, ghost names: set<Symbol>) returns (value: Option<Entry>)
      requires Valid() && AliasesWithin(Layers(), names)
      ensures value == Resolve(Layers(), 0, name, {}, names)
    {
      var seen: set<Symbol> := {};
      var space: SymbolSpace? := this;
      var symbol := name;
      ghost var k := 0;
      while space != null
        invariant k <= |spaces| && space == if k < |spaces| then spaces[k] else null
        invariant Resolve(Layers(), 0, name, {}, names) == Resolve(Layers(), k, symbol, seen, names)
        decreases |spaces| - k, names - seen
      {
        Ancestor(k);
        if symbol in seen { return None; }
        var found := space.LookupHere(symbol);
        if found.None? {
          space := space.parent;
          k := k + 1;
          continue;
        }
        if found.value.Alias? {
          assert AliasAt(Layers()[k], symbol);
          assert symbol in names - seen && symbol !in names - (seen + {symbol});
          seen := seen + {symbol};
          symbol := found.value.target;
          continue;
        }
        return found;
      }
      return None;
    }

    /** Once bound, a symbol of this layer keeps its value; a hidden binding does not count. */
    method DefineOnce(symbol: Symbol, value: Entry) returns (defined: bool)
      requires Valid()
      modifies this`bindings
      ensures Valid() && defined == (symbol !in old(bindings))
      ensures bindings == if defined then old(bindings)[symbol := value] else old(bindings)
      ensures Layers() == old(Layers())[0 := Here()]
    {
      OthersAreOther();
      ghost var before := Layers();
      defined := symbol !in bindings;
      if defined {
        bindings := bindings[symbol := value];
      }
      forall k | 0 < k < |spaces| ensures Layers()[k] == before[k] {
        Ancestor(k);
      }
    }

    lemma OthersAreOther()
      requires Valid()
      ensures forall k :: 0 < k < |spaces| ==> spaces[k] != this && spaces[k].Here() == Layers()[k]
    {
      forall k | 0 < k < |spaces| ensures spaces[k] != this && spaces[k].Here() == Layers()[k] {
        Ancestor(k);
      }
    }
  }
}

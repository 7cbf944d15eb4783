/**
 The JSON interchange format of bytecode (qy/backend/vm/bytecode.py), as trees: what
 `serialize_bytecode_json` builds without an environment, and what `load_bytecode_json`
 makes of it. JSON text is not part of this model.
 */
module Interchange {
  import opened Wrappers

  datatype Json =
    | Null | Bool(b: bool) | Number(n: int) | Real(f: int) | Text(s: string)
    | Array(items: seq<Json>) | Object(fields: seq<Field>)

  datatype Field = Field(name: string, json: Json)

  /** Python values. `None` and the empty chain are one; `Other` is whatever has no encoding. */
  datatype Value =
    | Nil | T | NoneObject | Flag(b: bool) | Int(n: int) | Float(f: int) | Str(s: string)
    | Symbol(name: string) | Chain(head: Value, tail: Value)
    | Effect(name: string, resumable: bool, doc: string) | Address(space: int, slot: int)
    | List(items: seq<Value>) | Tuple(items: seq<Value>)
    | Semantic(cls: string, kind: string, names: seq<string>, fields: seq<Value>)
    | Import(name: string, aka: string)
    | Other(text: string)

  /** `Unserializable` is the TypeError of the JSON writer. */
  datatype Error = Unencodable | Unserializable | UnsupportedVersion

  /** A value class of qy.sem.core, found by its name or by its type name. */
  datatype Class = Class(name: string, kind: string, fields: seq<string>)

  /** The loader's tables, and Python's own conversions of unexpected data. */
  datatype Host = Host(byClass: map<string, Class>, byKind: map<string, Class>,
                       show: Json -> string, parse: string -> Option<int>)

  predicate Distinct(names: seq<string>) {
    forall i, j :: 0 <= i < j < |names| ==> names[i] != names[j]
  }

  predicate Registered(host: Host) {
    && (forall c :: c in host.byClass ==> host.byClass[c].name == c && Distinct(host.byClass[c].fields))
    && forall k :: k in host.byKind ==> host.byKind[k].name in host.byClass
  }

  // --- trees ---------------------------------------------------------------------------------

  function Size(j: Json): nat
    decreases j, 0
  {
    match j
    case Array(items) => 2 + SizeOfAll(items)
    case Object(fields) => 2 + SizeOfFields(fields)
    case _ => 1
  }

  function SizeOfAll(items: seq<Json>): nat
    decreases items, 1
  {
    if items == [] then 0 else Size(items[0]) + SizeOfAll(items[1..])
  }

  function SizeOfFields(fields: seq<Field>): nat
    decreases fields, 1
  {
    if fields == [] then 0 else SizeOfField(fields[0]) + SizeOfFields(fields[1..])
  }

  function SizeOfField(field: Field): nat
    decreases field, 0
  {
    match field
    case Field(_, json) => Size(json)
  }

  /** `payload.get(key)`; a missing key reads as null. */
  function Get(j: Json, key: string): (r: Json)
    ensures r == Null || Size(r) < Size(j)
    ensures j.Object? ==> Size(r) < Size(j)
  {
    match j
    case Object(fields) => GetField(fields, key)
    case _ => Null
  }

  function GetField(fields: seq<Field>, key: string): (r: Json)
    ensures r == Null || Size(r) <= SizeOfFields(fields)
  {
    if fields == [] then Null
    else if fields[0].name == key then fields[0].json
    else GetField(fields[1..], key)
  }

  // --- encoding --------------------------------------------------------------------------------

  function Tagged(kind: string, value: Json): Json {
    Object([Field("type", Text(kind)), Field("value", value)])
  }

  function Plain(kind: string): Json { Object([Field("type", Text(kind))]) }

  /** `encode_value`. */
  function Encode(v: Value): Json
    decreases v, 1
  {
    match v
    case Nil => Plain("nil")
    case T => Plain("t")
    case NoneObject => Plain("none")
    case Flag(b) => Tagged("bool", Bool(b))
    case Int(n) => Tagged("int", Number(n))
    case Float(f) => Tagged("float", Real(f))
    case Str(s) => Tagged("string", Text(s))
    case Symbol(name) => Tagged("symbol", Text(name))
    case Chain(_, _) => Tagged("chain", EncodeNode(v))
    case Effect(name, resumable, _) =>
      Tagged("effect_def", Object([Field("name", Text(name)), Field("resumable", Bool(resumable))]))
    case List(items) => Tagged("list", Array(EncodeAll(items)))
    case Tuple(items) => Tagged("tuple", Array(EncodeAll(items)))
    case Address(space, slot) =>
      Tagged("binding_addr", Object([Field("space", Number(space)), Field("slot", Number(slot))]))
    case Semantic(cls, kind, names, fields) =>
      Object([Field("type", Text(kind)), Field("class", Text(cls)), Field("value", Object(EncodeFields(names, fields)))])
    case Import(_, _) => Tagged("unknown", Text(""))
    case Other(text) => Tagged("unknown", Text(text))
  }

  function EncodeNode(v: Value): Json
    requires v.Chain?
    decreases v, 0
  {
    Object([Field("head", Encode(v.head)), Field("tail", EncodeChain(v.tail))])
  }

  /** `encode_chain`: null, a node, or the value that ends an improper chain. */
  function EncodeChain(v: Value): Json
    decreases v, 2
  {
    if v.Nil? then Null else if v.Chain? then EncodeNode(v) else Encode(v)
  }

  function EncodeAll(items: seq<Value>): (r: seq<Json>)
    ensures |r| == |items|
    decreases items, 0
  {
    if items == [] then [] else [Encode(items[0])] + EncodeAll(items[1..])
  }

  function EncodeFields(names: seq<string>, fields: seq<Value>): seq<Field>
    decreases fields, 0
  {
    if names == [] || fields == [] then []
    else [Field(names[0], Encode(fields[0]))] + EncodeFields(names[1..], fields[1..])
  }

  // --- decoding ----------------------------------------------------------------------------------

  function FromRaw(j: Json): Value {
    match j
    case Null => Nil
    case Bool(b) => Flag(b)
    case Number(n) => Int(n)
    case Real(f) => Float(f)
    case Text(s) => Str(s)
    case _ => Other("")
  }

  function AsText(host: Host, j: Json): string { if j.Text? then j.s else host.show(j) }

  function OrElse(n: Option<int>, default_: int): int { if n.Some? then n.value else default_ }

  predicate Has(j: Json, key: string) {
    j.Object? && exists k :: 0 <= k < |j.fields| && j.fields[k].name == key
  }

  /** Python's truth value. */
  predicate Truthy(j: Json) {
    match j
    case Null => false
    case Bool(b) => b
    case Number(n) => n != 0
    case Real(f) => f != 0
    case Text(s) => s != ""
    case Array(items) => items != []
    case Object(fields) => fields != []
  }

  /** `as_int`; a float is cut off by the host. */
  function AsInt(host: Host, j: Json, default_: int): int {
    match j
    case Bool(b) => if b then 1 else 0
    case Number(n) => n
    case Real(_) => OrElse(host.parse(host.show(j)), default_)
    case Text(s) => OrElse(host.parse(s), default_)
    case _ => default_
  }

  function Found(host: Host, j: Json): Option<Class> {
    var cls := Get(j, "class");
    if !cls.Text? then None
    else if cls.s in host.byClass then Some(host.byClass[cls.s])
    else
      var kind := AsText(host, Get(j, "type"));
      if kind in host.byKind then Some(host.byKind[kind]) else None
  }

  function ItemsOf(j: Json): (items: seq<Json>)
    ensures SizeOfAll(items) <= Size(j)
  {
    if j.Array? then j.items else []
  }

  function Each<A, B>(items: seq<A>, f: A -> B): (r: seq<B>)
    ensures |r| == |items| && forall k :: 0 <= k < |items| ==> r[k] == f(items[k])
  {
    seq(|items|, k requires 0 <= k < |items| => f(items[k]))
  }

  function Objects(items: seq<Json>): seq<Json> {
    if items == [] then []
    else (if items[0].Object? then [items[0]] else []) + Objects(items[1..])
  }

  /** A text field, with a default when it is missing. */
  function TextField(host: Host, j: Json, key: string, default_: string): string {
    if Has(j, key) then AsText(host, Get(j, key)) else default_
  }

  function Handler(host: Host, j: Json): Value {
    Tuple([Symbol(TextField(host, j, "effect", "")), Int(AsInt(host, Get(j, "handler_fn"), -1))])
  }

  function ImportOf(host: Host, j: Json): Value {
    Import(TextField(host, j, "name", ""), TextField(host, j, "alias", ""))
  }

  /** `decode_value`. */
  function Decode(host: Host, j: Json): Result<Value, Error>
    decreases Size(j), 1
  {
    if !j.Object? then Success(FromRaw(j))
    else
      var kind := Get(j, "type");
      var raw := Get(j, "value");
      var cls := Found(host, j);
      if cls.Some? then
        var fields :- DecodeFields(host, raw, cls.value.fields);
        Success(Semantic(cls.value.name, cls.value.kind, cls.value.fields, fields))
      else if kind == Text("nil") then Success(Nil)
      else if kind == Text("t") then Success(T)
      else if kind == Text("none") then Success(NoneObject)
      else if kind == Text("binding_addr") then
        Success(Address(AsInt(host, Get(raw, "space"), 0), AsInt(host, Get(raw, "slot"), 0)))
      else if kind in [Text("int"), Text("float"), Text("bool"), Text("string")] then Success(FromRaw(raw))
      else if kind == Text("symbol") then Success(Symbol(AsText(host, raw)))
      else if kind == Text("chain") then DecodeChain(host, raw)
      else if kind == Text("effect_def") then
        Success(Effect(TextField(host, raw, "name", ""), !Has(raw, "resumable") || Truthy(Get(raw, "resumable")), ""))
      else if kind == Text("list") then
        var items :- DecodeAll(host, ItemsOf(raw));
        Success(List(items))
      else if kind == Text("tuple") then
        var items :- DecodeAll(host, ItemsOf(raw));
        Success(Tuple(items))
      else if kind == Text("reg_tuple") then Success(Tuple(Each(ItemsOf(raw), j => Int(AsInt(host, j, 0)))))
      else if kind == Text("symbol_tuple") then Success(Tuple(Each(ItemsOf(raw), j => Symbol(AsText(host, j)))))
      else if kind == Text("handler_specs") then Success(Tuple(Each(Objects(ItemsOf(raw)), j => Handler(host, j))))
      else if kind == Text("import_specs") then Success(Tuple(Each(Objects(ItemsOf(raw)), j => ImportOf(host, j))))
      else if kind == Text("unknown") then Failure(Unencodable)
      else Success(FromRaw(raw))
  }

  function DecodeChain(host: Host, j: Json): Result<Value, Error>
    decreases Size(j), 2
  {
    if j == Null then Success(Nil)
    else if !Has(j, "head") then Decode(host, j)
    else
      var tail :- DecodeChain(host, Get(j, "tail"));
      var head :- Decode(host, Get(j, "head"));
      Success(Chain(head, tail))
  }

  function DecodeAll(host: Host, items: seq<Json>): Result<seq<Value>, Error>
    decreases SizeOfAll(items), 3, |items|
  {
    if items == [] then Success([])
    else
      var first :- Decode(host, items[0]);
      var others :- DecodeAll(host, items[1..]);
      Success([first] + others)
  }

  function DecodeFields(host: Host, data: Json, names: seq<string>): Result<seq<Value>, Error>
    decreases Size(data), 3, |names|
  {
    if names == [] then Success([])
    else
      var first :- Decode(host, Get(data, names[0]));
      var others :- DecodeFields(host, data, names[1..]);
      Success([first] + others)
  }

  // --- objects as the encoder writes them ----------------------------------------------------

  lemma HitField(f: Field, rest: seq<Field>)
    ensures GetField([f] + rest, f.name) == f.json && Has(Object([f] + rest), f.name)
  {
    assert ([f] + rest)[0] == f;
  }

  lemma SkipField(f: Field, rest: seq<Field>, key: string)
    requires f.name != key
    ensures GetField([f] + rest, key) == GetField(rest, key) && Has(Object([f] + rest), key) == Has(Object(rest), key)
  {
    var all := [f] + rest;
    assert all[1..] == rest && all[0] == f;
    if Has(Object(rest), key) {
      var k :| 0 <= k < |rest| && rest[k].name == key;
      assert all[k + 1].name == key;
    }
    if Has(Object(all), key) {
      var k :| 0 <= k < |all| && all[k].name == key;
      assert rest[k - 1].name == key;
    }
  }

  lemma OneField(f: Field, key: string)
    ensures GetField([f], key) == if f.name == key then f.json else Null
    ensures Has(Object([f]), key) <==> f.name == key
  {
    assert [f] + [] == [f];
    if f.name == key { HitField(f, []); } else { SkipField(f, [], key); }
  }

  lemma PairField(f: Field, g: Field, key: string)
    ensures GetField([f, g], key) == if f.name == key then f.json else if g.name == key then g.json else Null
    ensures Has(Object([f, g]), key) <==> f.name == key || g.name == key
  {
    assert [f] + [g] == [f, g];
    OneField(g, key);
    if f.name == key { HitField(f, [g]); } else { SkipField(f, [g], key); }
  }

  lemma KeysDiffer()
    ensures "type" != "value" && "type" != "class" && "class" != "value"
    ensures "type" != "head" && "value" != "head" && "class" != "head"
    ensures "head" != "tail" && "name" != "resumable" && "space" != "slot"
  {
    assert |"type"| == 4 && |"value"| == 5 && |"class"| == 5 && |"head"| == 4;
    assert "class"[0] == 'c' && "value"[0] == 'v' && "type"[0] == 't' && "head"[0] == 'h' && "tail"[0] == 't';
  }

  lemma TaggedFields(kind: string, value: Json)
    ensures var j := Tagged(kind, value);
            Get(j, "type") == Text(kind) && Get(j, "value") == value && Get(j, "class") == Null && !Has(j, "head")
  {
    KeysDiffer();
    var f, g := Field("type", Text(kind)), Field("value", value);
    PairField(f, g, "type");
    PairField(f, g, "value");
    PairField(f, g, "class");
    PairField(f, g, "head");
  }

  lemma PlainFields(kind: string)
    ensures var j := Plain(kind);
            Get(j, "type") == Text(kind) && Get(j, "value") == Null && Get(j, "class") == Null && !Has(j, "head")
  {
    KeysDiffer();
    var f := Field("type", Text(kind));
    OneField(f, "type");
    OneField(f, "value");
    OneField(f, "class");
    OneField(f, "head");
  }

  lemma SemanticFields(cls: string, kind: string, data: Json)
    ensures var j := Object([Field("type", Text(kind)), Field("class", Text(cls)), Field("value", data)]);
            Get(j, "type") == Text(kind) && Get(j, "class") == Text(cls) && Get(j, "value") == data && !Has(j, "head")
  {
    KeysDiffer();
    var e, f, g := Field("type", Text(kind)), Field("class", Text(cls)), Field("value", data);
    assert [e] + [f, g] == [e, f, g];
    HitField(e, [f, g]);
    SkipField(e, [f, g], "class");
    SkipField(e, [f, g], "value");
    SkipField(e, [f, g], "head");
    PairField(f, g, "class");
    PairField(f, g, "value");
    PairField(f, g, "head");
  }

  // --- decoding, kind by kind ----------------------------------------------------------------

  lemma DecodeScalar(host: Host, j: Json)
    requires j.Object? && Get(j, "class") == Null
    ensures Get(j, "type") == Text("nil") ==> Decode(host, j) == Success(Nil)
    ensures Get(j, "type") == Text("t") ==> Decode(host, j) == Success(T)
    ensures Get(j, "type") == Text("none") ==> Decode(host, j) == Success(NoneObject)
    ensures Get(j, "type") == Text("bool") ==> Decode(host, j) == Success(FromRaw(Get(j, "value")))
    ensures Get(j, "type") == Text("int") ==> Decode(host, j) == Success(FromRaw(Get(j, "value")))
    ensures Get(j, "type") == Text("float") ==> Decode(host, j) == Success(FromRaw(Get(j, "value")))
    ensures Get(j, "type") == Text("string") ==> Decode(host, j) == Success(FromRaw(Get(j, "value")))
    ensures Get(j, "type") == Text("symbol") ==> Decode(host, j) == Success(Symbol(AsText(host, Get(j, "value"))))
    ensures Get(j, "type") == Text("unknown") ==> Decode(host, j) == Failure(Unencodable)
  {
    assert Found(host, j) == None;
    hide Get, Has, DecodeAll, DecodeChain;
  }

  lemma DecodeRecord(host: Host, j: Json)
    requires j.Object? && Get(j, "class") == Null
    ensures var raw := Get(j, "value");
            && (Get(j, "type") == Text("binding_addr") ==>
                  Decode(host, j) == Success(Address(AsInt(host, Get(raw, "space"), 0), AsInt(host, Get(raw, "slot"), 0))))
            && (Get(j, "type") == Text("effect_def") ==>
                  Decode(host, j) == Success(Effect(TextField(host, raw, "name", ""),
                                                    !Has(raw, "resumable") || Truthy(Get(raw, "resumable")), "")))
  {
    assert Found(host, j) == None;
    hide Get, Has, DecodeAll, DecodeChain, AsInt, TextField, Truthy;
  }

  lemma DecodeCollection(host: Host, j: Json)
    requires j.Object? && Get(j, "class") == Null
    ensures var raw := Get(j, "value");
            var items := DecodeAll(host, ItemsOf(raw));
            && (Get(j, "type") == Text("chain") ==> Decode(host, j) == DecodeChain(host, raw))
            && (Get(j, "type") == Text("list") ==>
                  Decode(host, j) == if items.Success? then Success(List(items.value)) else Failure(items.error))
            && (Get(j, "type") == Text("tuple") ==>
                  Decode(host, j) == if items.Success? then Success(Tuple(items.value)) else Failure(items.error))
  {
    assert Found(host, j) == None;
    hide Get, Has, DecodeAll, DecodeChain;
  }

  /** The four kinds of operand tuples, item by item. */
  lemma DecodeTuples(host: Host, j: Json)
    requires j.Object? && Get(j, "class") == Null
    ensures var raws := ItemsOf(Get(j, "value"));
            var r := Decode(host, j);
            && (Get(j, "type") == Text("reg_tuple") ==>
                  r.Success? && r.value.Tuple? && |r.value.items| == |raws|
                  && forall k :: 0 <= k < |raws| ==> r.value.items[k] == Int(AsInt(host, raws[k], 0)))
            && (Get(j, "type") == Text("symbol_tuple") ==>
                  r.Success? && r.value.Tuple? && |r.value.items| == |raws|
                  && forall k :: 0 <= k < |raws| ==> r.value.items[k] == Symbol(AsText(host, raws[k])))
    ensures var specs := Objects(ItemsOf(Get(j, "value")));
            var r := Decode(host, j);
            && (Get(j, "type") == Text("handler_specs") ==>
                  r.Success? && r.value.Tuple? && |r.value.items| == |specs|
                  && forall k :: 0 <= k < |specs| ==> r.value.items[k] == Handler(host, specs[k]))
            && (Get(j, "type") == Text("import_specs") ==>
                  r.Success? && r.value.Tuple? && |r.value.items| == |specs|
                  && forall k :: 0 <= k < |specs| ==> r.value.items[k] == ImportOf(host, specs[k]))
  {
    assert Found(host, j) == None;
    hide Get, Has, DecodeAll, DecodeChain, AsInt, AsText, Handler, ImportOf, ItemsOf, Objects;
  }

  // --- values round trip ---------------------------------------------------------------------

  /** No part without an encoding, and every semantic value of a class that the loader knows. */
  predicate Encodable(host: Host, v: Value)
    decreases v, 1
  {
    match v
    case Chain(head, tail) => Encodable(host, head) && Encodable(host, tail)
    case List(items) => AllEncodable(host, items)
    case Tuple(items) => AllEncodable(host, items)
    case Semantic(cls, kind, names, fields) =>
      && cls in host.byClass && host.byClass[cls] == Class(cls, kind, names)
      && |names| == |fields| && AllEncodable(host, fields)
    case Effect(_, _, doc) => doc == ""
    case Import(_, _) => false
    case Other(_) => false
    case _ => true
  }

  predicate AllEncodable(host: Host, items: seq<Value>)
    decreases items, 0
  {
    items == [] || (Encodable(host, items[0]) && AllEncodable(host, items[1..]))
  }

  /** The value, less the documentation of the effects in it. */
  function Undocumented(v: Value): Value
    decreases v, 1
  {
    match v
    case Chain(head, tail) => Chain(Undocumented(head), Undocumented(tail))
    case List(items) => List(AllUndocumented(items))
    case Tuple(items) => Tuple(AllUndocumented(items))
    case Semantic(cls, kind, names, fields) => Semantic(cls, kind, names, AllUndocumented(fields))
    case Effect(name, resumable, _) => Effect(name, resumable, "")
    case _ => v
  }

  function AllUndocumented(items: seq<Value>): (r: seq<Value>)
    ensures |r| == |items|
    decreases items, 0
  {
    if items == [] then [] else [Undocumented(items[0])] + AllUndocumented(items[1..])
  }

  lemma {:induction false} DocsAreNotWritten(v: Value)
    ensures Encode(Undocumented(v)) == Encode(v) && EncodeChain(Undocumented(v)) == EncodeChain(v)
    decreases v, 1
  {
    match v
    case Chain(head, tail) =>
      DocsAreNotWritten(head);
      DocsAreNotWritten(tail);
    case List(items) => NoDocsAreWritten(items);
    case Tuple(items) => NoDocsAreWritten(items);
    case Semantic(_, _, names, fields) => NoFieldDocsAreWritten(names, fields);
    case _ =>
  }

  lemma {:induction false} NoDocsAreWritten(items: seq<Value>)
    ensures EncodeAll(AllUndocumented(items)) == EncodeAll(items)
    decreases items, 0
  {
    if items != [] {
      DocsAreNotWritten(items[0]);
      NoDocsAreWritten(items[1..]);
      assert AllUndocumented(items)[1..] == AllUndocumented(items[1..]);
    }
  }

  lemma {:induction false} NoFieldDocsAreWritten(names: seq<string>, fields: seq<Value>)
    ensures EncodeFields(names, AllUndocumented(fields)) == EncodeFields(names, fields)
    decreases fields, 0
  {
    if names != [] && fields != [] {
      DocsAreNotWritten(fields[0]);
      NoFieldDocsAreWritten(names[1..], fields[1..]);
      assert AllUndocumented(fields)[1..] == AllUndocumented(fields[1..]);
    }
  }

  /** Documentation is all that a value loses whose rest is encodable. */
  lemma UndocumentedRoundTrip(host: Host, v: Value)
    requires Registered(host)
    ensures Decode(host, Encode(v)) == Success(Undocumented(v)) <==> Encodable(host, Undocumented(v))
  {
    hide Encode, Decode, Encodable, Undocumented;
    DocsAreNotWritten(v);
    ValuesRoundTrip(host, Undocumented(v));
  }

  /** A value comes back from its JSON tree exactly when it is encodable; effects have to be
      without documentation. */
  lemma {:induction false} ValuesRoundTrip(host: Host, v: Value)
    requires Registered(host)
    ensures Decode(host, Encode(v)) == Success(v) <==> Encodable(host, v)
    decreases v, 1
  {
    hide Decode, Encode;
    match v
    case Chain(_, _) =>
      NodesRoundTrip(host, v);
      ChainCase(host, v);
    case List(items) =>
      AllRoundTrip(host, items);
      CollectionCase(host, v, items);
    case Tuple(items) =>
      AllRoundTrip(host, items);
      CollectionCase(host, v, items);
    case Semantic(_, _, _, _) => SemanticRoundTrip(host, v);
    case Effect(_, _, _) => RecordCase(host, v);
    case Address(_, _) => RecordCase(host, v);
    case _ => ScalarCase(host, v);
  }

  lemma ScalarCase(host: Host, v: Value)
    requires !v.Chain? && !v.List? && !v.Tuple? && !v.Semantic? && !v.Effect? && !v.Address?
    ensures Decode(host, Encode(v)) == if v.Other? || v.Import? then Failure(Unencodable) else Success(v)
  {
    var j := Encode(v);
    match v {
      case Nil => PlainFields("nil");
      case T => PlainFields("t");
      case NoneObject => PlainFields("none");
      case Flag(b) => TaggedFields("bool", Bool(b));
      case Int(n) => TaggedFields("int", Number(n));
      case Float(f) => TaggedFields("float", Real(f));
      case Str(t) => TaggedFields("string", Text(t));
      case Symbol(name) => TaggedFields("symbol", Text(name));
      case Import(_, _) => TaggedFields("unknown", Text(""));
      case Other(text) => TaggedFields("unknown", Text(text));
    }
    hide Decode, Get, Has;
    DecodeScalar(host, j);
  }

  lemma RecordCase(host: Host, v: Value)
    requires v.Effect? || v.Address?
    ensures Decode(host, Encode(v)) == Success(if v.Effect? then v.(doc := "") else v)
  {
    KeysDiffer();
    var j := Encode(v);
    if v.Effect? {
      var f, g := Field("name", Text(v.name)), Field("resumable", Bool(v.resumable));
      TaggedFields("effect_def", Object([f, g]));
      PairField(f, g, "name");
      PairField(f, g, "resumable");
    } else {
      var f, g := Field("space", Number(v.space)), Field("slot", Number(v.slot));
      TaggedFields("binding_addr", Object([f, g]));
      PairField(f, g, "space");
      PairField(f, g, "slot");
    }
    hide Decode, Has, GetField;
    DecodeRecord(host, j);
  }

  lemma ChainCase(host: Host, v: Value)
    requires v.Chain?
    ensures Decode(host, Encode(v)) == DecodeChain(host, EncodeNode(v))
  {
    TaggedFields("chain", EncodeNode(v));
    hide Decode, DecodeChain, EncodeNode, Get, Has;
    DecodeCollection(host, Encode(v));
  }

  lemma CollectionCase(host: Host, v: Value, items: seq<Value>)
    requires v == List(items) || v == Tuple(items)
    ensures Decode(host, Encode(v)) == Success(v) <==> DecodeAll(host, EncodeAll(items)) == Success(items)
  {
    TaggedFields(if v.List? then "list" else "tuple", Array(EncodeAll(items)));
    hide Decode, DecodeAll, EncodeAll, Get, Has;
    DecodeCollection(host, Encode(v));
  }

  lemma {:induction false} AllRoundTrip(host: Host, items: seq<Value>)
    requires Registered(host)
    ensures DecodeAll(host, EncodeAll(items)) == Success(items) <==> AllEncodable(host, items)
    decreases items, 0
  {
    hide Decode, Encode, Encodable;
    if items != [] {
      ValuesRoundTrip(host, items[0]);
      AllRoundTrip(host, items[1..]);
      var all := EncodeAll(items);
      assert all[1..] == EncodeAll(items[1..]);
      var first, others := Decode(host, all[0]), DecodeAll(host, all[1..]);
      if first.Success? && others.Success? {
        SameList(first.value, others.value, items);
      }
    }
  }

  lemma {:induction false} NodesRoundTrip(host: Host, v: Value)
    requires Registered(host) && v.Chain?
    ensures DecodeChain(host, EncodeNode(v)) == Success(v) <==> Encodable(host, v)
    decreases v, 0
  {
    KeysDiffer();
    PairField(Field("head", Encode(v.head)), Field("tail", EncodeChain(v.tail)), "head");
    PairField(Field("head", Encode(v.head)), Field("tail", EncodeChain(v.tail)), "tail");
    ValuesRoundTrip(host, v.head);
    ChainsRoundTrip(host, v.tail);
    hide Decode, Encode, Get, Has;
  }

  lemma {:induction false} ChainsRoundTrip(host: Host, v: Value)
    requires Registered(host)
    ensures DecodeChain(host, EncodeChain(v)) == Success(v) <==> Encodable(host, v)
    decreases v, 2
  {
    if v.Chain? {
      NodesRoundTrip(host, v);
    } else if !v.Nil? {
      ValuesRoundTrip(host, v);
      NoHead(v);
    }
  }

  lemma NoHead(v: Value)
    requires !v.Chain?
    ensures Encode(v) != Null && !Has(Encode(v), "head")
  {
  }

  lemma {:induction false} FieldAt(names: seq<string>, fields: seq<Value>, i: nat)
    requires |names| == |fields| && Distinct(names) && i < |names|
    ensures GetField(EncodeFields(names, fields), names[i]) == Encode(fields[i])
  {
    hide Encode;
    var all := EncodeFields(names, fields);
    assert all[0] == Field(names[0], Encode(fields[0])) && all[1..] == EncodeFields(names[1..], fields[1..]);
    if i > 0 {
      assert names[i] != names[0];
      FieldAt(names[1..], fields[1..], i - 1);
    }
  }

  lemma {:induction false} FieldsRoundTrip(host: Host, names: seq<string>, fields: seq<Value>, k: nat)
    requires Registered(host) && |names| == |fields| && Distinct(names) && k <= |names|
    ensures DecodeFields(host, Object(EncodeFields(names, fields)), names[k..]) == Success(fields[k..])
       <==> AllEncodable(host, fields[k..])
    decreases fields, 0, |fields| - k
  {
    hide Decode, Encode, Encodable, EncodeFields, GetField;
    var data := Object(EncodeFields(names, fields));
    if k < |names| {
      FieldAt(names, fields, k);
      ValuesRoundTrip(host, fields[k]);
      FieldsRoundTrip(host, names, fields, k + 1);
      assert names[k..][0] == names[k] && names[k..][1..] == names[k + 1..];
      assert fields[k..][0] == fields[k] && fields[k..][1..] == fields[k + 1..];
      assert Get(data, names[k]) == Encode(fields[k]);
      var first, others := Decode(host, Encode(fields[k])), DecodeFields(host, data, names[k + 1..]);
      if first.Success? && others.Success? {
        SameList(first.value, others.value, fields[k..]);
      }
    }
  }

  lemma SameList(first: Value, others: seq<Value>, items: seq<Value>)
    requires items != []
    ensures [first] + others == items <==> first == items[0] && others == items[1..]
  {
    assert ([first] + others)[1..] == others;
    assert items == [items[0]] + items[1..];
  }

  lemma {:induction false} FieldCount(host: Host, data: Json, names: seq<string>)
    ensures var r := DecodeFields(host, data, names); r.Success? ==> |r.value| == |names|
    decreases |names|
  {
    hide Decode;
    if names != [] {
      FieldCount(host, data, names[1..]);
    }
  }

  /** The loader only makes objects of classes that it knows. */
  lemma {:induction false} DecodedClass(host: Host, j: Json)
    requires Registered(host) && Decode(host, j).Success? && Decode(host, j).value.Semantic?
    ensures Decode(host, j).value.cls in host.byClass
    decreases Size(j), 0
  {
    hide DecodeFields, DecodeAll, Has;
    if j.Object? && Found(host, j).None? && Get(j, "type") == Text("chain") {
      var raw := Get(j, "value");
      if raw != Null && !Has(raw, "head") {
        DecodedClass(host, raw);
      }
    }
  }

  lemma {:induction false} SemanticRoundTrip(host: Host, v: Value)
    requires Registered(host) && v.Semantic?
    ensures Decode(host, Encode(v)) == Success(v) <==> Encodable(host, v)
    decreases v, 0
  {
    var data := Object(EncodeFields(v.names, v.fields));
    SemanticFields(v.cls, v.kind, data);
    hide EncodeFields, Get;
    if v.cls !in host.byClass {
      if Decode(host, Encode(v)) == Success(v) { DecodedClass(host, Encode(v)); }
    } else {
      var c := host.byClass[v.cls];
      FieldCount(host, data, c.fields);
      if c == Class(v.cls, v.kind, v.names) && |v.names| == |v.fields| {
        FieldsRoundTrip(host, v.names, v.fields, 0);
        assert v.names[0..] == v.names && v.fields[0..] == v.fields;
      }
    }
  }
}

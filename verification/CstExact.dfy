/**
 Which sources the CST parser accepts, and what it reads (qy/frontend/cst_parser.py), said by
 where things stand in the source and not by how they are scanned: trivia, atoms of seven
 kinds, lists and programs. A quote closes a string if an even number of backslashes stands
 directly in front of it.
 */
module CstExact {
  import opened Wrappers
  import opened Cst
  import opened CstGrammar

  // --- characters ---------------------------------------------------------------------------

  predicate Blank(c: char) { c in " \t\n\r" }

  predicate Delimiter(c: char) { c in "() \t\n\r;" }

  lemma Characters(c: char)
    ensures IsBlank(c) <==> Blank(c)
    ensures Delimits(c) <==> Delimiter(c)
    ensures StartsForm(c) <==> !Blank(c) && c != ';'
  {
  }

  // --- trivia -----------------------------------------------------------------------------------

  /** A semicolon at `q` and no end of line from there to `p`. */
  predicate CommentFrom(s: string, t: int, q: int, p: int) {
    0 <= t <= q < p <= |s| && s[q] == ';' && forall k :: q <= k < p ==> s[k] != '\n'
  }

  ghost predicate InComment(s: string, t: int, p: int) { exists q :: CommentFrom(s, t, q, p) }

  /** From `t` to `i` stand blanks and comments, and at `i` neither, or the end. */
  ghost predicate TriviaSpan(s: string, t: int, i: int) {
    && 0 <= t <= i <= |s|
    && (forall p :: t <= p < i ==> Blank(s[p]) || s[p] == ';' || InComment(s, t, p))
    && (i < |s| ==> !Blank(s[i]) && s[i] != ';' && !InComment(s, t, i))
  }

  lemma {:induction false} CommentEndIs(s: string, i: nat)
    requires i <= |s|
    ensures forall k :: i <= k < CommentEnd(s, i) ==> s[k] != '\n'
    decreases |s| - i
  {
    if i < |s| && s[i] != '\n' { CommentEndIs(s, i + 1); }
  }

  lemma AfterBlank(s: string, t: nat, i: nat)
    requires t < |s| && Blank(s[t]) && TriviaSpan(s, t + 1, i)
    ensures TriviaSpan(s, t, i)
  {
    var u := t + 1;
    forall p | t < p <= i ensures InComment(s, t, p) <==> InComment(s, u, p) {
      if q :| CommentFrom(s, t, q, p) { assert CommentFrom(s, u, q, p); }
      if q :| CommentFrom(s, u, q, p) { assert CommentFrom(s, t, q, p); }
    }
  }

  lemma AfterComment(s: string, t: nat, n: nat, i: nat)
    requires t < n <= |s| && s[t] == ';' && (forall k :: t < k < n ==> s[k] != '\n')
    requires (n < |s| ==> s[n] == '\n') && TriviaSpan(s, n, i)
    ensures TriviaSpan(s, t, i)
  {
    forall p | t < p <= n ensures InComment(s, t, p) {
      assert CommentFrom(s, t, t, p);
    }
    forall p | n < p <= i ensures InComment(s, t, p) <==> InComment(s, n, p) {
      if q :| CommentFrom(s, t, q, p) { assert CommentFrom(s, n, q, p); }
      if q :| CommentFrom(s, n, q, p) { assert CommentFrom(s, t, q, p); }
    }
  }

  lemma {:induction false} TriviaIsSpan(s: string, t: nat)
    requires t <= |s|
    ensures TriviaSpan(s, t, TriviaEnd(s, t))
    decreases |s| - t
  {
    hide TriviaSpan;
    if t == |s| {
      NoTrivia(s, t);
    } else if IsBlank(s[t]) {
      TriviaIsSpan(s, t + 1);
      AfterBlank(s, t, TriviaEnd(s, t));
    } else if s[t] == ';' {
      var n := CommentEnd(s, t + 1);
      CommentEndIs(s, t + 1);
      TriviaIsSpan(s, n);
      AfterComment(s, t, n, TriviaEnd(s, t));
    } else {
      NoTrivia(s, t);
    }
  }

  lemma NoTrivia(s: string, t: nat)
    requires t <= |s| && (t < |s| ==> StartsForm(s[t]))
    ensures TriviaSpan(s, t, t)
  {
  }

  /** The cursor behind trivia is at the one place where trivia ends. */
  lemma TriviaExact(s: string, t: nat, i: int)
    requires t <= |s|
    ensures TriviaEnd(s, t) == i <==> TriviaSpan(s, t, i)
  {
    TriviaIsSpan(s, t);
  }

  // --- strings ----------------------------------------------------------------------------------

  /** The backslashes directly in front of `c`, from `b` on. */
  function Backslashes(s: string, b: nat, c: nat): nat
    requires c <= |s|
  {
    if c > b && s[c - 1] == '\\' then 1 + Backslashes(s, b, c - 1) else 0
  }

  /** A quote that a backslash does not take the meaning of. */
  predicate PlainQuote(s: string, b: nat, c: int, raw: bool) {
    b <= c < |s| && s[c] == '"' && (raw || Backslashes(s, b, c) % 2 == 0)
  }

  /** The first such quote from `b` on. */
  predicate Closes(s: string, b: nat, c: int, raw: bool) {
    PlainQuote(s, b, c, raw) && forall k :: b <= k < c ==> !PlainQuote(s, b, k, raw)
  }

  lemma {:induction false} SkipOne(s: string, b: nat, c: nat)
    requires b < c <= |s| && s[b] != '\\'
    ensures Backslashes(s, b, c) == Backslashes(s, b + 1, c)
    decreases c
  {
    if c > b + 1 && s[c - 1] == '\\' { SkipOne(s, b, c - 1); }
  }

  lemma {:induction false} SkipTwo(s: string, b: nat, c: nat)
    requires b + 2 <= c <= |s| && s[b] == '\\'
    ensures Backslashes(s, b, c) % 2 == Backslashes(s, b + 2, c) % 2
    decreases c
  {
    if c > b + 2 {
      if s[c - 1] == '\\' { SkipTwo(s, b, c - 1); }
    } else if s[b + 1] == '\\' {
      assert Backslashes(s, b, b + 1) == 1 + Backslashes(s, b, b);
    }
  }

  /** A string ends at its first unescaped quote, and nowhere if it has none. */
  lemma {:induction false} StringExact(s: string, b: nat, raw: bool)
    requires b <= |s|
    ensures forall e :: StringEnd(s, b, raw) == Some(e) <==> Closes(s, b, e - 1, raw)
    ensures StringEnd(s, b, raw).None? <==> forall c :: !PlainQuote(s, b, c, raw)
    decreases |s| - b
  {
    if b == |s| {
    } else if s[b] == '\\' && !raw {
      if b + 1 < |s| {
        StringExact(s, b + 2, raw);
        forall c ensures PlainQuote(s, b, c, raw) <==> PlainQuote(s, b + 2, c, raw) {
          if b + 2 <= c < |s| { SkipTwo(s, b, c); }
          if c == b + 1 { assert Backslashes(s, b, b + 1) == 1 + Backslashes(s, b, b); }
        }
        EndsSame(s, b, b + 2, raw);
      }
    } else if s[b] == '"' {
      assert PlainQuote(s, b, b, raw);
    } else {
      StringExact(s, b + 1, raw);
      forall c ensures PlainQuote(s, b, c, raw) <==> PlainQuote(s, b + 1, c, raw) {
        if b < c < |s| && !raw { SkipOne(s, b, c); }
      }
      EndsSame(s, b, b + 1, raw);
    }
  }

  lemma EndsSame(s: string, b: nat, d: nat, raw: bool)
    requires b <= d && forall c :: PlainQuote(s, b, c, raw) <==> PlainQuote(s, d, c, raw)
    ensures forall c :: Closes(s, b, c, raw) <==> Closes(s, d, c, raw)
  {
    forall c ensures Closes(s, b, c, raw) <==> Closes(s, d, c, raw) {
      hide PlainQuote;
      assert forall k :: b <= k < d ==> !PlainQuote(s, b, k, raw) by {
        forall k | b <= k < d ensures !PlainQuote(s, d, k, raw) { NotBefore(s, d, k, raw); }
      }
    }
  }

  lemma NotBefore(s: string, d: nat, k: int, raw: bool)
    requires k < d
    ensures !PlainQuote(s, d, k, raw)
  {
  }

  predicate Triple(s: string, q: int) {
    0 <= q && q + 2 < |s| && s[q] == '"' && s[q + 1] == '"' && s[q + 2] == '"'
  }

  /** The first three quotes in a row from `b` on. */
  predicate ClosesTriple(s: string, b: nat, c: int) {
    b <= c && Triple(s, c) && forall k :: b <= k < c ==> !Triple(s, k)
  }

  lemma {:induction false} MultilineExact(s: string, b: nat)
    requires b <= |s|
    ensures forall e :: MultilineEnd(s, b) == Some(e) <==> ClosesTriple(s, b, e - 3)
    ensures MultilineEnd(s, b).None? <==> forall c :: b <= c ==> !Triple(s, c)
    decreases |s| - b
  {
    if b < |s| {
      if TripleAt(s, b) {
        assert Triple(s, b);
      } else {
        MultilineExact(s, b + 1);
      }
    }
  }

  // --- atoms --------------------------------------------------------------------------------------

  predicate BareChar(c: char) { !Delimiter(c) && c != '"' }

  /** The first quote of an atom at `i`. */
  predicate Opens(s: string, i: nat, q: int) {
    i <= q < |s| && s[q] == '"' && forall k :: i <= k < q ==> BareChar(s[k])
  }

  predicate Tagged(kind: AtomKind, prefix: string) {
    match kind
    case Bare => false
    case Quoted => prefix == ""
    case Multiline => prefix == ""
    case RawQuoted => prefix == "r" || prefix == "R"
    case RawMultiline => prefix == "r" || prefix == "R"
    case _ => prefix != "" && prefix != "r" && prefix != "R"
  }

  predicate OneLine(kind: AtomKind) { kind.Quoted? || kind.RawQuoted? || kind.TaggedQuoted? }

  /** The atom opens a string at `q`: the kind goes by what stands in front and by three quotes
      or one, and the string ends at the first quote or quotes that close it. */
  predicate StringFrom(s: string, i: nat, j: int, kind: AtomKind, q: int) {
    && Opens(s, i, q) && q < j && Tagged(kind, s[i..q]) && (OneLine(kind) <==> !Triple(s, q))
    && if OneLine(kind) then Closes(s, q + 1, j - 1, kind.RawQuoted?) else ClosesTriple(s, q + 3, j - 3)
  }

  ghost predicate AtomIs(s: string, i: nat, j: int, kind: AtomKind) {
    && i < j <= |s| && !Delimiter(s[i])
    && if kind.Bare? then
         && (forall k :: i <= k < j ==> BareChar(s[k]))
         && (j < |s| ==> Delimiter(s[j]))
       else exists q :: StringFrom(s, i, j, kind, q)
  }

  lemma {:induction false} QuoteExact(s: string, i: nat)
    requires i <= |s|
    ensures forall q :: QuoteAhead(s, i) == Some(q) <==> Opens(s, i, q)
    ensures QuoteAhead(s, i).None? <==> forall q :: !Opens(s, i, q)
    decreases |s| - i
  {
    if i < |s| {
      Characters(s[i]);
      if s[i] == '"' {
        assert Opens(s, i, i);
      } else if !Delimits(s[i]) {
        QuoteExact(s, i + 1);
        forall q: int ensures Opens(s, i, q) <==> Opens(s, i + 1, q) {
        }
      }
    }
  }

  lemma {:induction false} BareExact(s: string, i: nat)
    requires i <= |s|
    ensures forall k :: i <= k < BareEnd(s, i) ==> BareChar(s[k])
    ensures BareEnd(s, i) < |s| ==> !BareChar(s[BareEnd(s, i)])
    decreases |s| - i
  {
    if i < |s| {
      Characters(s[i]);
      if BareChar(s[i]) { BareExact(s, i + 1); }
    }
  }

  function AtomFrom(s: string, t: nat, i: nat, j: nat, kind: AtomKind): Form
    requires t <= i <= j <= |s|
  {
    AtomForm(kind, s[i..j], SpanOf(s, i, j), s[t..i])
  }

  function StringAtomKind(prefix: string, oneLine: bool): AtomKind {
    if oneLine then StringKind(prefix) else MultilineKind(prefix)
  }

  lemma KindsAreTagged(prefix: string, oneLine: bool, kind: AtomKind)
    ensures !kind.Bare? && Tagged(kind, prefix) && (OneLine(kind) <==> oneLine) <==> kind == StringAtomKind(prefix, oneLine)
    ensures IsRawTag(prefix) && oneLine <==> StringAtomKind(prefix, oneLine).RawQuoted?
  {
  }

  /** What is read behind a quote at `q`. */
  lemma StringUnfolds(s: string, t: nat, i: nat, q: nat)
    requires t <= i < |s| && !Delimits(s[i]) && QuoteAhead(s, i) == Some(q)
    ensures var e := if TripleAt(s, q) then MultilineEnd(s, q + 3) else StringEnd(s, q + 1, IsRawTag(s[i..q]));
            && (e.None? <==> ParseAtom(s, t, i).Failure?)
            && (e.Some? ==>
                  && e.value <= |s|
                  && var form := AtomFrom(s, t, i, e.value, StringAtomKind(s[i..q], !TripleAt(s, q)));
                     ParseAtom(s, t, i) == Success(Parsed(form, e.value)))
  {
    hide StringEnd, MultilineEnd, SpanOf;
  }

  lemma StringFromUnfolds(s: string, i: nat, j: nat, kind: AtomKind, q: nat)
    requires i < |s| && QuoteAhead(s, i) == Some(q)
    ensures StringFrom(s, i, j, kind, q) <==>
            && kind == StringAtomKind(s[i..q], !TripleAt(s, q)) && q < j
            && (if TripleAt(s, q) then MultilineEnd(s, q + 3) else StringEnd(s, q + 1, IsRawTag(s[i..q]))) == Some(j)
  {
    QuoteExact(s, i);
    assert Opens(s, i, q);
    assert TripleAt(s, q) <==> Triple(s, q);
    StringExact(s, q + 1, IsRawTag(s[i..q]));
    if TripleAt(s, q) { MultilineExact(s, q + 3); }
    KindsAreTagged(s[i..q], !TripleAt(s, q), kind);
    hide Closes, ClosesTriple, Opens, StringEnd, MultilineEnd, Tagged, StringAtomKind, Triple, TripleAt, IsRawTag;
  }

  lemma AtomExact(s: string, t: nat, i: nat, j: nat, form: Form)
    requires t <= i < |s| && !Delimits(s[i]) && j <= |s| && i <= j
    ensures ParseAtom(s, t, i) == Success(Parsed(form, j)) <==>
            form.AtomForm? && form == AtomFrom(s, t, i, j, form.kind) && AtomIs(s, i, j, form.kind)
  {
    Characters(s[i]);
    QuoteExact(s, i);
    var q := QuoteAhead(s, i);
    if q.Some? {
      StringUnfolds(s, t, i, q.value);
      if form.AtomForm? {
        StringFromUnfolds(s, i, j, form.kind, q.value);
        if i < j { QuotedIsNotBare(s, i, j, q.value); }
        assert forall p :: StringFrom(s, i, j, form.kind, p) ==> Opens(s, i, p);
        assert form.kind.Bare? ==> !StringFrom(s, i, j, form.kind, q.value);
      }
      hide ParseAtom, StringFrom, Opens, StringEnd, MultilineEnd, SpanOf, StringAtomKind, TripleAt, IsRawTag, BareChar;
    } else {
      BareRead(s, t, i, j);
      hide ParseAtom, Opens, SpanOf;
    }
  }

  lemma QuotedIsNotBare(s: string, i: nat, j: nat, q: nat)
    requires Opens(s, i, q) && i < j <= |s|
    ensures !((forall k :: i <= k < j ==> BareChar(s[k])) && (j < |s| ==> Delimiter(s[j])))
  {
    if q < j { assert !BareChar(s[q]); } else { assert j < |s| && !Delimiter(s[j]); }
  }

  lemma BareRead(s: string, t: nat, i: nat, j: nat)
    requires t <= i < |s| && !Delimits(s[i]) && i <= j <= |s| && QuoteAhead(s, i).None?
    ensures var e := BareEnd(s, i);
            && ParseAtom(s, t, i) == Success(Parsed(AtomFrom(s, t, i, e, Bare), e))
            && (AtomIs(s, i, j, Bare) <==> j == e)
  {
    QuoteExact(s, i);
    BareExact(s, i);
    Characters(s[i]);
    var e := BareEnd(s, i);
    if e < |s| && s[e] == '"' { assert Opens(s, i, e); }
    assert !Opens(s, i, i);
    assert j < e ==> BareChar(s[j]);
  }

  // --- forms ------------------------------------------------------------------------------------------

  /** A dot that stands alone. */
  predicate Dot(s: string, i: nat) {
    i < |s| && s[i] == '.' && (i + 1 == |s| || Delimiter(s[i + 1]) || s[i + 1] == '"')
  }

  /** `form` stands in the source from `i` to `j`, behind trivia from `t` on. */
  ghost predicate FormIs(s: string, t: nat, i: nat, j: nat, form: Form)
    decreases form, 0
  {
    && i < j <= |s| && TriviaSpan(s, t, i)
    && form.leading == s[t..i] && form.span == SpanOf(s, i, j)
    && match form
       case AtomForm(kind, text, _, _) => text == s[i..j] && AtomIs(s, i, j, kind)
       case ListForm(items, _, _, close) => s[i] == '(' && s[j - 1] == ')' && InsideIs(s, i + 1, j - 1, items, close)
  }

  /** Between the parentheses of a list. */
  ghost predicate InsideIs(s: string, a: nat, b: nat, items: seq<Item>, close: string)
    decreases items, 2
  {
    exists e: nat :: ItemsAre(s, a, e, items) && ClosesBehind(s, e, b, close)
  }

  ghost predicate ClosesBehind(s: string, e: nat, b: nat, close: string) {
    e <= b <= |s| && TriviaSpan(s, e, b) && close == s[e..b]
  }

  /** The items stand one behind the other from `a` to `e`. */
  ghost predicate ItemsAre(s: string, a: nat, e: nat, items: seq<Item>)
    decreases items, 1
  {
    if items == [] then a == e else ItemsUpTo(s, a, e, items, |items| - 1)
  }

  ghost predicate ItemsUpTo(s: string, a: nat, e: nat, items: seq<Item>, n: nat)
    requires n < |items| && n == |items| - 1
    decreases items, 0
  {
    exists m: nat :: ItemsAre(s, a, m, items[..n]) && ItemIs(s, m, e, items[n])
  }

  ghost predicate ItemIs(s: string, m: nat, e: nat, item: Item)
    decreases item, 0
  {
    match item
    case Child(form) => exists i: nat :: FormIs(s, m, i, e, form) && !Dot(s, i)
    case Tail(dotTrivia, form) => exists i: nat, k: nat :: TailIs(s, m, i, dotTrivia) && FormIsBehind(s, i, k, e, form)
  }

  predicate TailText(s: string, m: nat, i: nat, dotTrivia: string) { m <= i < |s| && Dot(s, i) && dotTrivia == s[m..i] }

  ghost predicate TailIs(s: string, m: nat, i: nat, dotTrivia: string) {
    TriviaSpan(s, m, i) && TailText(s, m, i, dotTrivia)
  }

  /** Behind the character at `i`. */
  ghost predicate FormIsBehind(s: string, i: nat, k: nat, e: nat, form: Form)
    decreases form, 1
  {
    FormIs(s, i + 1, k, e, form)
  }

  lemma DotExact(s: string, i: nat)
    requires i < |s|
    ensures DotAt(s, i) <==> Dot(s, i)
  {
  }

  lemma FormStarts(s: string, t: nat, i: nat, j: nat, form: Form)
    requires FormIs(s, t, i, j, form)
    ensures t <= i < j <= |s| && StartsForm(s[i]) && TriviaEnd(s, t) == i
    ensures form.AtomForm? ==> !Delimits(s[i])
    ensures s[i] != ')'
  {
    TriviaExact(s, t, i);
    Characters(s[i]);
  }

  // --- what is read stands there -------------------------------------------------------------------------

  lemma {:induction false} FormRead(s: string, t: nat, i: nat)
    requires t <= i < |s| && TriviaEnd(s, t) == i && StartsForm(s[i]) && ParseForm(s, t, i).Success?
    ensures var r := ParseForm(s, t, i).value; FormIs(s, t, i, r.end, r.form)
    decreases |s| - i, 0
  {
    if s[i] == '(' {
      ListOpens(s, t, i);
      assert ItemsAre(s, i + 1, i + 1, []);
      hide *;
      TriviaExact(s, t, i);
      ItemsRead(s, i, i + 1, []);
      var list := ParseItems(s, i, i + 1, []).value;
      ListIs(s, t, i, list.end, list.items, list.close);
    } else {
      AtomReadThere(s, t, i);
    }
  }

  lemma AtomReadThere(s: string, t: nat, i: nat)
    requires t <= i < |s| && TriviaEnd(s, t) == i && StartsForm(s[i]) && s[i] != '(' && ParseForm(s, t, i).Success?
    ensures var r := ParseForm(s, t, i).value; FormIs(s, t, i, r.end, r.form)
  {
    assert !Delimits(s[i]) && ParseForm(s, t, i) == ParseAtom(s, t, i);
    hide ParseForm, ParseAtom, SpanOf, TriviaSpan, TriviaEnd, AtomIs, StartsForm;
    TriviaExact(s, t, i);
    var r := ParseAtom(s, t, i).value;
    AtomExact(s, t, i, r.end, r.form);
  }

  lemma ListIs(s: string, t: nat, i: nat, j: nat, items: seq<Item>, close: string)
    requires i + 1 < j <= |s| && TriviaSpan(s, t, i) && s[i] == '(' && s[j - 1] == ')'
    requires InsideIs(s, i + 1, j - 1, items, close)
    ensures FormIs(s, t, i, j, ListForm(items, SpanOf(s, i, j), s[t..i], close))
  {
    hide InsideIs, TriviaSpan, SpanOf;
  }

  lemma AppendItem(s: string, a: nat, m: nat, e: nat, items: seq<Item>, item: Item)
    requires ItemsAre(s, a, m, items) && ItemIs(s, m, e, item)
    ensures ItemsAre(s, a, e, items + [item])
  {
    hide ItemIs;
    var all, n := items + [item], |items|;
    assert all[..n] == items && all[n] == item;
    assert ItemsUpTo(s, a, e, all, n);
  }

  lemma InsideEnds(s: string, a: nat, t: nat, i: nat, items: seq<Item>)
    requires ItemsAre(s, a, t, items) && t <= i < |s| && TriviaSpan(s, t, i)
    ensures InsideIs(s, a, i, items, s[t..i])
  {
    hide ItemsAre, TriviaSpan;
    assert ClosesBehind(s, t, i, s[t..i]);
  }

  lemma {:induction false} ItemsRead(s: string, start: nat, t: nat, items: seq<Item>)
    requires start < t <= |s| && ParseItems(s, start, t, items).Success? && ItemsAre(s, start + 1, t, items)
    ensures var r := ParseItems(s, start, t, items).value;
            s[r.end - 1] == ')' && InsideIs(s, start + 1, r.end - 1, r.items, r.close)
    decreases |s| - t, 3
  {
    assert TriviaEnd(s, t) < |s|;
    hide *;
    var i := TriviaEnd(s, t);
    TriviaExact(s, t, i);
    if s[i] == ')' {
      ItemsClose(s, start, t, items);
      InsideEnds(s, start + 1, t, i, items);
    } else if DotAt(s, i) {
      DottedRead(s, start, t, items);
    } else {
      ChildRead(s, start, t, items);
    }
  }

  lemma TailItem(s: string, m: nat, i: nat, k: nat, e: nat, form: Form)
    requires TriviaSpan(s, m, i) && m <= i < |s| && Dot(s, i) && FormIs(s, i + 1, k, e, form)
    ensures ItemIs(s, m, e, Tail(s[m..i], form))
  {
    assert TailIs(s, m, i, s[m..i]);
    hide TriviaSpan, FormIs, TailIs;
    assert FormIsBehind(s, i, k, e, form);
  }

  lemma {:induction false} DottedRead(s: string, start: nat, t: nat, items: seq<Item>)
    requires start < t <= |s| && ParseItems(s, start, t, items).Success? && ItemsAre(s, start + 1, t, items)
    requires TriviaEnd(s, t) < |s| && DotAt(s, TriviaEnd(s, t))
    ensures var r := ParseItems(s, start, t, items).value;
            s[r.end - 1] == ')' && InsideIs(s, start + 1, r.end - 1, r.items, r.close)
    decreases |s| - t, 2
  {
    hide *;
    var i := TriviaEnd(s, t);
    TriviaExact(s, t, i);
    DotExact(s, i);
    ItemsTail(s, start, t, items);
    var tail := ParseTail(s, i).value;
    TailIsForm(s, i);
    var k := TriviaEnd(s, i + 1);
    FormRead(s, i + 1, k);
    TailItem(s, t, i, k, tail.end, tail.form);
    AppendItem(s, start + 1, t, tail.end, items, Tail(s[t..i], tail.form));
    ItemsRead(s, start, tail.end, items + [Tail(s[t..i], tail.form)]);
  }

  lemma ChildItem(s: string, m: nat, i: nat, e: nat, form: Form)
    requires FormIs(s, m, i, e, form) && !Dot(s, i)
    ensures ItemIs(s, m, e, Child(form))
  {
    hide FormIs;
  }

  lemma {:induction false} ChildRead(s: string, start: nat, t: nat, items: seq<Item>)
    requires start < t <= |s| && ParseItems(s, start, t, items).Success? && ItemsAre(s, start + 1, t, items)
    requires TriviaEnd(s, t) < |s| && s[TriviaEnd(s, t)] != ')' && !DotAt(s, TriviaEnd(s, t))
    ensures var r := ParseItems(s, start, t, items).value;
            s[r.end - 1] == ')' && InsideIs(s, start + 1, r.end - 1, r.items, r.close)
    decreases |s| - t, 2
  {
    hide *;
    var i := TriviaEnd(s, t);
    DotExact(s, i);
    ItemsChild(s, start, t, items);
    var child := ParseForm(s, t, i).value;
    FormRead(s, t, i);
    ChildItem(s, t, i, child.end, child.form);
    AppendItem(s, start + 1, t, child.end, items, Child(child.form));
    ItemsRead(s, start, child.end, items + [Child(child.form)]);
  }

  // --- what stands there is read ------------------------------------------------------------------------

  lemma FormOpens(s: string, t: nat, i: nat, j: nat, form: Form)
    requires FormIs(s, t, i, j, form) && form.ListForm?
    ensures s[i] == '(' && s[j - 1] == ')' && InsideIs(s, i + 1, j - 1, form.items, form.close)
    ensures form == ListForm(form.items, SpanOf(s, i, j), s[t..i], form.close)
  {
    hide InsideIs, SpanOf, TriviaSpan;
  }

  lemma {:induction false} FormIsRead(s: string, t: nat, i: nat, j: nat, form: Form)
    requires FormIs(s, t, i, j, form)
    ensures t <= i < j <= |s| && StartsForm(s[i]) && ParseForm(s, t, i) == Success(Parsed(form, j))
    decreases form, 0
  {
    FormStarts(s, t, i, j, form);
    if form.AtomForm? {
      Characters(s[i]);
      AtomExact(s, t, i, j, form);
      assert s[i] != '(' && s[i] != ')';
      hide ParseAtom, AtomIs, TriviaSpan;
    } else {
      FormOpens(s, t, i, j, form);
      ListIsRead(s, t, i, j, form);
    }
  }

  lemma {:induction false} ListIsRead(s: string, t: nat, i: nat, j: nat, form: Form)
    requires t <= i < j <= |s| && form.ListForm? && s[i] == '(' && s[j - 1] == ')' && i + 1 <= j - 1
    requires InsideIs(s, i + 1, j - 1, form.items, form.close)
    requires form == ListForm(form.items, SpanOf(s, i, j), s[t..i], form.close)
    ensures ParseForm(s, t, i) == Success(Parsed(form, j))
    decreases form.items, 2
  {
    var b := j - 1;
    hide ItemsAre, TriviaSpan;
    var e: nat :| ItemsAre(s, i + 1, e, form.items) && ClosesBehind(s, e, b, form.close);
    ItemsAreRead(s, i, e, form.items);
    ClosingRead(s, t, i, e, b, form);
  }

  lemma ClosingRead(s: string, t: nat, i: nat, e: nat, b: nat, form: Form)
    requires t <= i < e <= b < |s| && form.ListForm? && s[i] == '(' && s[b] == ')' && ClosesBehind(s, e, b, form.close)
    requires form == ListForm(form.items, SpanOf(s, i, b + 1), s[t..i], form.close)
    requires ParseItems(s, i, i + 1, []) == ParseItems(s, i, e, form.items)
    ensures ParseForm(s, t, i) == Success(Parsed(form, b + 1))
  {
    assert TriviaSpan(s, e, b) && form.close == s[e..b];
    hide *;
    TriviaExact(s, e, b);
    ItemsClose(s, i, e, form.items);
    ListOpens(s, t, i);
  }

  lemma {:induction false} ItemsAreRead(s: string, start: nat, e: nat, items: seq<Item>)
    requires start + 1 <= |s| && ItemsAre(s, start + 1, e, items)
    ensures start < e <= |s| && ParseItems(s, start, start + 1, []) == ParseItems(s, start, e, items)
    decreases items, 1
  {
    if items != [] {
      var n := |items| - 1;
      assert ItemsUpTo(s, start + 1, e, items, n);
      var m: nat :| ItemsAre(s, start + 1, m, items[..n]) && ItemIs(s, m, e, items[n]);
      hide ParseItems, ItemsAre, ItemIs;
      assert items[..n] + [items[n]] == items;
      assert items decreases to items[n];
      ItemsAreRead(s, start, m, items[..n]);
      ItemIsRead(s, start, m, e, items[..n], items[n]);
    }
  }

  lemma {:induction false} ItemIsRead(s: string, start: nat, m: nat, e: nat, front: seq<Item>, last: Item)
    requires start < m <= |s| && ItemIs(s, m, e, last)
    ensures m < e <= |s| && ParseItems(s, start, m, front) == ParseItems(s, start, e, front + [last])
    decreases last, 0
  {
    if last.Child? {
      var i: nat :| FormIs(s, m, i, e, last.form) && !Dot(s, i);
      FormIsRead(s, m, i, e, last.form);
      ChildIsRead(s, start, m, i, e, front, last.form);
    } else {
      var i: nat, k: nat :| TailIs(s, m, i, last.dotTrivia) && FormIsBehind(s, i, k, e, last.form);
      FormIsRead(s, i + 1, k, e, last.form);
      DottedIsRead(s, start, m, i, k, e, front, last);
    }
  }

  lemma ChildIsRead(s: string, start: nat, m: nat, i: nat, e: nat, front: seq<Item>, form: Form)
    requires start < m <= |s| && FormIs(s, m, i, e, form) && !Dot(s, i)
    requires i < |s| && StartsForm(s[i]) && m <= i && ParseForm(s, m, i) == Success(Parsed(form, e))
    ensures m < e <= |s| && ParseItems(s, start, m, front) == ParseItems(s, start, e, front + [Child(form)])
  {
    hide *;
    FormStarts(s, m, i, e, form);
    DotExact(s, i);
    ItemsChild(s, start, m, front);
  }

  lemma DottedIsRead(s: string, start: nat, m: nat, i: nat, k: nat, e: nat, front: seq<Item>, last: Item)
    requires start < m <= |s| && last.Tail? && TailIs(s, m, i, last.dotTrivia) && FormIsBehind(s, i, k, e, last.form)
    requires i + 1 <= k < |s| && StartsForm(s[k]) && ParseForm(s, i + 1, k) == Success(Parsed(last.form, e))
    ensures m < e <= |s| && ParseItems(s, start, m, front) == ParseItems(s, start, e, front + [last])
  {
    assert TriviaSpan(s, m, i) && m <= i < |s| && Dot(s, i) && last.dotTrivia == s[m..i] && FormIs(s, i + 1, k, e, last.form);
    hide *;
    TriviaExact(s, m, i);
    DotExact(s, i);
    FormStarts(s, i + 1, k, e, last.form);
    TailIsRead(s, i, k, e, last.form);
    ItemsTail(s, start, m, front);
  }

  lemma TailIsRead(s: string, i: nat, k: nat, e: nat, form: Form)
    requires i < |s| && TriviaEnd(s, i + 1) == k && k < |s| && s[k] != ')' && StartsForm(s[k])
    requires ParseForm(s, i + 1, k) == Success(Parsed(form, e))
    ensures ParseTail(s, i) == Success(Parsed(form, e))
  {
  }

  // --- programs -------------------------------------------------------------------------------------------

  /** Forms one behind the other; no dot has a meaning outside lists. */
  ghost predicate FormsAre(s: string, a: nat, e: nat, items: seq<Item>)
    decreases |items|, 0
  {
    if items == [] then a == e else FormsUpTo(s, a, e, items, |items| - 1)
  }

  ghost predicate FormsUpTo(s: string, a: nat, e: nat, items: seq<Item>, n: nat)
    requires n < |items|
    decreases n, 1
  {
    exists m: nat, i: nat :: FormsAre(s, a, m, items[..n]) && items[n].Child? && FormIs(s, m, i, e, items[n].form)
  }

  ghost predicate ProgramIs(s: string, p: ParsedProgram) {
    && p.span == SpanOf(s, 0, |s|)
    && exists e: nat :: FormsAre(s, 0, e, p.items) && e <= |s| && TriviaSpan(s, e, |s|) && p.trailing == s[e..]
  }

  lemma AppendForm(s: string, a: nat, m: nat, i: nat, e: nat, items: seq<Item>, form: Form)
    requires FormsAre(s, a, m, items) && FormIs(s, m, i, e, form)
    ensures FormsAre(s, a, e, items + [Child(form)])
  {
    hide FormIs;
    var all, n := items + [Child(form)], |items|;
    assert all[..n] == items && all[n] == Child(form);
    assert FormsUpTo(s, a, e, all, n);
  }

  lemma {:induction false} RestRead(s: string, t: nat, items: seq<Item>)
    requires t <= |s| && ParseRest(s, t, items).Success? && FormsAre(s, 0, t, items)
    ensures ProgramIs(s, ParseRest(s, t, items).value)
    decreases |s| - t
  {
    hide ParseForm, TriviaSpan, TriviaEnd, FormsAre, SpanOf, FormIs;
    var i := TriviaEnd(s, t);
    TriviaExact(s, t, i);
    if i < |s| {
      FormRead(s, t, i);
      var child := ParseForm(s, t, i).value;
      AppendForm(s, 0, t, i, child.end, items, child.form);
      RestRead(s, child.end, items + [Child(child.form)]);
    } else {
      assert s[t..] == s[t..i];
    }
  }

  lemma RestChild(s: string, m: nat, i: nat, e: nat, front: seq<Item>, form: Form)
    requires m <= i < |s| && TriviaEnd(s, m) == i && StartsForm(s[i]) && e <= |s|
    requires ParseForm(s, m, i) == Success(Parsed(form, e))
    ensures ParseRest(s, m, front) == ParseRest(s, e, front + [Child(form)])
  {
    hide ParseForm, TriviaEnd, SpanOf;
  }

  lemma {:induction false} FormsAreRead(s: string, e: nat, items: seq<Item>)
    requires FormsAre(s, 0, e, items)
    ensures e <= |s| && ParseRest(s, 0, []) == ParseRest(s, e, items)
    decreases |items|
  {
    if items != [] {
      var n := |items| - 1;
      assert FormsUpTo(s, 0, e, items, n);
      var m: nat, i: nat :| FormsAre(s, 0, m, items[..n]) && items[n].Child? && FormIs(s, m, i, e, items[n].form);
      hide *;
      FormsAreRead(s, m, items[..n]);
      assert items[..n] + [items[n]] == items && items[n] == Child(items[n].form);
      FormStarts(s, m, i, e, items[n].form);
      FormIsRead(s, m, i, e, items[n].form);
      RestChild(s, m, i, e, items[..n], items[n].form);
    }
  }

  /** Parsing succeeds with just the program that stands in the source. */
  lemma ProgramExact(s: string, p: ParsedProgram)
    ensures ParseRest(s, 0, []) == Success(p) <==> ProgramIs(s, p)
  {
    assert FormsAre(s, 0, 0, []);
    if ParseRest(s, 0, []).Success? {
      RestRead(s, 0, []);
    }
    if ProgramIs(s, p) {
      var e: nat :| FormsAre(s, 0, e, p.items) && e <= |s| && TriviaSpan(s, e, |s|) && p.trailing == s[e..];
      FormsAreRead(s, e, p.items);
      TriviaExact(s, e, |s|);
    }
  }

  /** The parser accepts a source exactly if a program stands in it, and gives its tree. */
  lemma SourceExact(s: string, tree: Program)
    ensures ParseCst(s) == Success(tree) <==>
            exists p :: ProgramIs(s, p) && tree == Program(Children(p.items), p.trailing, p.span)
  {
    hide ProgramIs, ParseRest, Children;
    if ParseRest(s, 0, []).Success? {
      ProgramExact(s, ParseRest(s, 0, []).value);
    }
    if p :| ProgramIs(s, p) && tree == Program(Children(p.items), p.trailing, p.span) {
      ProgramExact(s, p);
    }
  }

  // --- positions ----------------------------------------------------------------------------------------

  /** Lines are counted by their ends, columns from the start of the line. */
  lemma {:induction false} PositionIs(s: string, k: nat)
    requires k <= |s|
    ensures Line(s, k) == 1 + multiset(s[..k])['\n']
    ensures exists b :: LineStart(s, b, k) && Column(s, k) == k - b + 1
  {
    if k == 0 {
      assert LineStart(s, 0, 0);
    } else {
      PositionIs(s, k - 1);
      assert s[..k] == s[..k - 1] + [s[k - 1]];
      if s[k - 1] == '\n' {
        assert LineStart(s, k, k);
      } else {
        var b :| LineStart(s, b, k - 1) && Column(s, k - 1) == k - 1 - b + 1;
        assert LineStart(s, b, k);
      }
    }
  }

  /** The line that `k` is in starts at `b`. */
  predicate LineStart(s: string, b: int, k: int) {
    0 <= b <= k <= |s| && (b == 0 || s[b - 1] == '\n') && forall i :: b <= i < k ==> s[i] != '\n'
  }
}

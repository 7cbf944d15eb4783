/**
 What the CST parser reads at each offset of its source (qy/frontend/cst_parser.py), and
 the error it stops with. A `Form` keeps everything in source order, dots included; the
 tree that the parser builds is what `Forget` leaves of it.
 */
module CstGrammar {
  import opened Wrappers
  import opened Cst

  datatype Form =
    | AtomForm(kind: AtomKind, text: string, span: Span, leading: string)
    | ListForm(items: seq<Item>, span: Span, leading: string, close: string)

  datatype Item = Child(form: Form) | Tail(dotTrivia: string, form: Form)

  datatype Error =
    | UnexpectedClose(span: Span)
    | UnclosedList(span: Span)
    | MissingTail(span: Span)
    | UnterminatedString(span: Span)
    | UnterminatedMultiline(span: Span)

  // --- positions ------------------------------------------------------------------------

  function Line(s: string, k: nat): nat
    requires k <= |s|
  {
    if k == 0 then 1 else Line(s, k - 1) + if s[k - 1] == '\n' then 1 else 0
  }

  function Column(s: string, k: nat): nat
    requires k <= |s|
  {
    if k == 0 || s[k - 1] == '\n' then 1 else Column(s, k - 1) + 1
  }

  function SpanOf(s: string, i: nat, j: nat): Span
    requires i <= |s| && j <= |s|
  {
    Span(Line(s, i), Column(s, i), Line(s, j), Column(s, j))
  }

  // --- scanning --------------------------------------------------------------------------

  predicate IsBlank(c: char) { c == ' ' || c == '\t' || c == '\n' || c == '\r' }

  /** What ends an atom and the lookahead scans; a quote does not end the scans. */
  predicate Delimits(c: char) { IsBlank(c) || c == '(' || c == ')' || c == ';' }

  predicate StartsForm(c: char) { !IsBlank(c) && c != ';' }

  function CommentEnd(s: string, i: nat): (j: nat)
    requires i <= |s|
    ensures i <= j <= |s| && (j < |s| ==> s[j] == '\n')
    decreases |s| - i
  {
    if i == |s| || s[i] == '\n' then i else CommentEnd(s, i + 1)
  }

  /** The end of the blanks and comments that start at `i`. */
  function TriviaEnd(s: string, i: nat): (j: nat)
    requires i <= |s|
    ensures i <= j <= |s| && (j < |s| ==> StartsForm(s[j]))
    decreases |s| - i
  {
    if i == |s| then i
    else if IsBlank(s[i]) then TriviaEnd(s, i + 1)
    else if s[i] == ';' then TriviaEnd(s, CommentEnd(s, i + 1))
    else i
  }

  function BareEnd(s: string, i: nat): (j: nat)
    requires i <= |s|
    ensures i <= j <= |s|
    decreases |s| - i
  {
    if i == |s| || Delimits(s[i]) || s[i] == '"' then i else BareEnd(s, i + 1)
  }

  /** The first quote at or after `i`, if no delimiter comes before it. */
  function QuoteAhead(s: string, i: nat): (q: Option<nat>)
    requires i <= |s|
    ensures q.Some? ==> i <= q.value < |s| && s[q.value] == '"'
    ensures q.Some? ==> forall k :: i <= k < q.value ==> !Delimits(s[k]) && s[k] != '"'
    decreases |s| - i
  {
    if i == |s| || Delimits(s[i]) then None
    else if s[i] == '"' then Some(i)
    else QuoteAhead(s, i + 1)
  }

  predicate TripleAt(s: string, q: nat) {
    q + 2 < |s| && s[q] == '"' && s[q + 1] == '"' && s[q + 2] == '"'
  }

  /** The end of a string whose body starts at `j`; raw strings have no escapes. */
  function StringEnd(s: string, j: nat, raw: bool): (e: Option<nat>)
    requires j <= |s|
    ensures e.Some? ==> j < e.value <= |s|
    decreases |s| - j
  {
    if j == |s| then None
    else if s[j] == '\\' && !raw then if j + 1 == |s| then None else StringEnd(s, j + 2, raw)
    else if s[j] == '"' then Some(j + 1)
    else StringEnd(s, j + 1, raw)
  }

  function MultilineEnd(s: string, j: nat): (e: Option<nat>)
    requires j <= |s|
    ensures e.Some? ==> j < e.value <= |s|
    decreases |s| - j
  {
    if j == |s| then None
    else if TripleAt(s, j) then Some(j + 3)
    else MultilineEnd(s, j + 1)
  }

  /** A dot that stands alone. */
  predicate DotAt(s: string, i: nat)
    requires i < |s|
  {
    s[i] == '.' && (i + 1 == |s| || Delimits(s[i + 1]) || s[i + 1] == '"')
  }

  predicate IsRawTag(prefix: string) { prefix == "r" || prefix == "R" }

  function StringKind(prefix: string): AtomKind {
    if IsRawTag(prefix) then RawQuoted else if prefix == "" then Quoted else TaggedQuoted
  }

  function MultilineKind(prefix: string): AtomKind {
    if IsRawTag(prefix) then RawMultiline else if prefix == "" then Multiline else TaggedMultiline
  }

  // --- forms ------------------------------------------------------------------------------

  datatype Parsed = Parsed(form: Form, end: nat)
  datatype ParsedItems = ParsedItems(items: seq<Item>, close: string, end: nat)

  /** The atom at `i`, after trivia that starts at `t`. */
  function ParseAtom(s: string, t: nat, i: nat): (r: Result<Parsed, Error>)
    requires t <= i < |s| && !Delimits(s[i])
    ensures r.Success? ==> i < r.value.end <= |s|
  {
    var trivia := s[t..i];
    match QuoteAhead(s, i)
    case Some(q) =>
      var prefix := s[i..q];
      if TripleAt(s, q) then
        match MultilineEnd(s, q + 3)
        case Some(j) => Success(Parsed(AtomForm(MultilineKind(prefix), s[i..j], SpanOf(s, i, j), trivia), j))
        case None => Failure(UnterminatedMultiline(SpanOf(s, i, |s|)))
      else
        match StringEnd(s, q + 1, IsRawTag(prefix)) {
          case Some(j) => Success(Parsed(AtomForm(StringKind(prefix), s[i..j], SpanOf(s, i, j), trivia), j))
          case None => Failure(UnterminatedString(SpanOf(s, i, |s|)))
        }
    case None =>
      var j := BareEnd(s, i);
      Success(Parsed(AtomForm(Bare, s[i..j], SpanOf(s, i, j), trivia), j))
  }

  function ParseForm(s: string, t: nat, i: nat): (r: Result<Parsed, Error>)
    requires t <= i < |s| && StartsForm(s[i])
    ensures r.Success? ==> i < r.value.end <= |s|
    decreases |s| - i, 0
  {
    if s[i] == '(' then
      var list :- ParseItems(s, i, i + 1, []);
      Success(Parsed(ListForm(list.items, SpanOf(s, i, list.end), s[t..i], list.close), list.end))
    else if s[i] == ')' then
      Failure(UnexpectedClose(Span(Line(s, i), Column(s, i), Line(s, i), Column(s, i) + 1)))
    else
      ParseAtom(s, t, i)
  }

  /** The form that has to follow the dot at `i`. */
  function ParseTail(s: string, i: nat): (r: Result<Parsed, Error>)
    requires i < |s|
    ensures r.Success? ==> i < r.value.end <= |s|
    decreases |s| - i, 0
  {
    var k := TriviaEnd(s, i + 1);
    if k == |s| || s[k] == ')' then Failure(MissingTail(SpanOf(s, k, k))) else ParseForm(s, i + 1, k)
  }

  /** The rest of the list that was opened at `start`, from `t` on, after `items`. */
  function ParseItems(s: string, start: nat, t: nat, items: seq<Item>): (r: Result<ParsedItems, Error>)
    requires start < t <= |s|
    ensures r.Success? ==> t < r.value.end <= |s|
    decreases |s| - t, 1
  {
    var i := TriviaEnd(s, t);
    if i == |s| then Failure(UnclosedList(SpanOf(s, start, i)))
    else if s[i] == ')' then Success(ParsedItems(items, s[t..i], i + 1))
    else if DotAt(s, i) then
      var tail :- ParseTail(s, i);
      ParseItems(s, start, tail.end, items + [Tail(s[t..i], tail.form)])
    else
      var child :- ParseForm(s, t, i);
      ParseItems(s, start, child.end, items + [Child(child.form)])
  }

  // --- one unfolding at a time ----------------------------------------------------------------

  lemma AtomRead(s: string, t: nat, i: nat)
    requires t <= i < |s| && !Delimits(s[i]) && ParseAtom(s, t, i).Success?
    ensures var r := ParseAtom(s, t, i).value;
            && r.form.AtomForm? && r.form.text == s[i..r.end]
            && r.form.leading == s[t..i] && r.form.span == SpanOf(s, i, r.end)
  {
  }

  lemma ListOpens(s: string, t: nat, i: nat)
    requires t <= i < |s| && s[i] == '('
    ensures var r := ParseItems(s, i, i + 1, []);
            ParseForm(s, t, i) ==
            if r.Failure? then Failure(r.error)
            else
              var list := r.value;
              Success(Parsed(ListForm(list.items, SpanOf(s, i, list.end), s[t..i], list.close), list.end))
  {
  }

  lemma TailIsForm(s: string, i: nat)
    requires i < |s|
    ensures var k := TriviaEnd(s, i + 1);
            ParseTail(s, i).Success? ==> k < |s| && ParseTail(s, i) == ParseForm(s, i + 1, k)
  {
  }

  lemma ItemsEnd(s: string, start: nat, t: nat, items: seq<Item>)
    requires start < t <= |s| && TriviaEnd(s, t) == |s|
    ensures ParseItems(s, start, t, items) == Failure(UnclosedList(SpanOf(s, start, |s|)))
  {
  }

  lemma ItemsClose(s: string, start: nat, t: nat, items: seq<Item>)
    requires start < t <= |s| && TriviaEnd(s, t) < |s| && s[TriviaEnd(s, t)] == ')'
    ensures var i := TriviaEnd(s, t);
            ParseItems(s, start, t, items) == Success(ParsedItems(items, s[t..i], i + 1))
  {
  }

  lemma ItemsTail(s: string, start: nat, t: nat, items: seq<Item>)
    requires start < t <= |s| && TriviaEnd(s, t) < |s| && DotAt(s, TriviaEnd(s, t))
    ensures var i := TriviaEnd(s, t);
            var tail := ParseTail(s, i);
            && (tail.Failure? ==> ParseItems(s, start, t, items) == Failure(tail.error))
            && (tail.Success? ==>
                  ParseItems(s, start, t, items) ==
                  ParseItems(s, start, tail.value.end, items + [Tail(s[t..i], tail.value.form)]))
  {
  }

  lemma ItemsChild(s: string, start: nat, t: nat, items: seq<Item>)
    requires start < t <= |s| && TriviaEnd(s, t) < |s|
    requires s[TriviaEnd(s, t)] != ')' && !DotAt(s, TriviaEnd(s, t))
    ensures var child := ParseForm(s, t, TriviaEnd(s, t));
            && (child.Failure? ==> ParseItems(s, start, t, items) == Failure(child.error))
            && (child.Success? ==>
                  ParseItems(s, start, t, items) ==
                  ParseItems(s, start, child.value.end, items + [Child(child.value.form)]))
  {
  }

  // --- programs and trees -----------------------------------------------------------------------

  datatype ParsedProgram = ParsedProgram(items: seq<Item>, trailing: string, span: Span)

  /** The rest of a program, from `t` on. */
  function ParseRest(s: string, t: nat, items: seq<Item>): Result<ParsedProgram, Error>
    requires t <= |s|
    decreases |s| - t
  {
    var i := TriviaEnd(s, t);
    if i == |s| then Success(ParsedProgram(items, s[t..], SpanOf(s, 0, i)))
    else
      var child :- ParseForm(s, t, i);
      ParseRest(s, child.end, items + [Child(child.form)])
  }

  function Forget(form: Form): Node
    decreases form
  {
    match form
    case AtomForm(kind, text, span, leading) => Atom(kind, text, span, leading)
    case ListForm(items, span, leading, close) =>
      List(Children(items), span, leading, LastDot(items), LastTail(items), close)
  }

  function Children(items: seq<Item>): (nodes: seq<Node>)
    decreases items
  {
    if items == [] then []
    else
      var front, last := items[..|items| - 1], items[|items| - 1];
      Children(front) + Kept(last)
  }

  function Kept(item: Item): seq<Node>
    decreases item
  {
    match item
    case Child(form) => [Forget(form)]
    case Tail(_, _) => []
  }

  /** A later dot overwrites an earlier one. */
  function LastTail(items: seq<Item>): Option<Node>
    decreases items
  {
    if items == [] then None
    else
      var last := items[|items| - 1];
      if last.Tail? then Some(Forget(last.form)) else LastTail(items[..|items| - 1])
  }

  function LastDot(items: seq<Item>): string {
    if items == [] then ""
    else
      var last := items[|items| - 1];
      if last.Tail? then last.dotTrivia else LastDot(items[..|items| - 1])
  }

  /** `parse_cst`. */
  function ParseCst(s: string): Result<Program, Error> {
    var p :- ParseRest(s, 0, []);
    Success(Program(Children(p.items), p.trailing, p.span))
  }
}

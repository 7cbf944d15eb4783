/** `_CstParser` (qy/frontend/cst_parser.py): one cursor that every method moves. */
module CstParser {
  import opened Wrappers
  import opened Cst
  import opened CstGrammar

  /** What the loop over a list has built from the items read so far. */
  ghost predicate Built(items: seq<Item>, children: seq<Node>, dotTrivia: string, tail: Option<Node>) {
    children == Children(items) && dotTrivia == LastDot(items) && tail == LastTail(items)
  }

  lemma BuiltWithTail(items: seq<Item>, children: seq<Node>, d: string, tail: Option<Node>, between: string, form: Form)
    requires Built(items, children, d, tail)
    ensures Built(items + [Tail(between, form)], children, between, Some(Forget(form)))
  {
    assert (items + [Tail(between, form)])[..|items|] == items;
    assert Kept(Tail(between, form)) == [];
  }

  lemma BuiltWithChild(items: seq<Item>, children: seq<Node>, d: string, tail: Option<Node>, form: Form)
    requires Built(items, children, d, tail)
    ensures Built(items + [Child(form)], children + [Forget(form)], d, tail)
  {
    assert (items + [Child(form)])[..|items|] == items;
  }

  lemma ForgetList(items: seq<Item>, children: seq<Node>, dotTrivia: string, tail: Option<Node>,
                   span: Span, leading: string, close: string)
    requires Built(items, children, dotTrivia, tail)
    ensures Forget(ListForm(items, span, leading, close)) == List(children, span, leading, dotTrivia, tail, close)
  {
  }

  class Parser {
    const source: string
    var pos: nat
    var line: nat
    var col: nat

    /** The line and column counters are those of the cursor. */
    ghost predicate Valid()
      reads this
    {
      pos <= |source| && line == Line(source, pos) && col == Column(source, pos)
    }

    constructor (source: string)
      ensures Valid() && pos == 0 && this.source == source
    {
      this.source := source;
      pos, line, col := 0, 1, 1;
    }

    method Advance()
      requires Valid() && pos < |source|
      modifies this
      ensures Valid() && pos == old(pos) + 1
    {
      var ch := source[pos];
      pos := pos + 1;
      if ch == '\n' {
        line := line + 1;
        col := 1;
      } else {
        col := col + 1;
      }
    }

    method ConsumeTrivia() returns (trivia: string)
      requires Valid()
      modifies this
      ensures Valid() && pos == TriviaEnd(source, old(pos)) && trivia == source[old(pos)..pos]
    {
      var start := pos;
      while pos < |source|
        invariant Valid() && start <= pos && TriviaEnd(source, start) == TriviaEnd(source, pos)
      {
        if IsBlank(source[pos]) {
          Advance();
        } else if source[pos] == ';' {
          ghost var semicolon := pos;
          while pos < |source| && source[pos] != '\n'
            invariant Valid() && semicolon <= pos
            invariant CommentEnd(source, semicolon) == CommentEnd(source, pos)
          {
            Advance();
          }
        } else {
          break;
        }
      }
      trivia := source[start..pos];
    }

    /** `_looking_at_quoted`: the scan stops at the first quote. */
    method LookingAtQuoted() returns (b: bool)
      requires Valid()
      ensures b == QuoteAhead(source, pos).Some?
    {
      if pos >= |source| { return false; }
      if source[pos] == '"' { return true; }
      var i := pos;
      while i < |source| && !Delimits(source[i])
        invariant pos <= i <= |source| && QuoteAhead(source, pos) == QuoteAhead(source, i)
      {
        if source[i] == '"' { return true; }
        i := i + 1;
      }
      return false;
    }

    method LookingAtMultiline() returns (b: bool)
      requires Valid()
      ensures var q := QuoteAhead(source, pos); b == (q.Some? && TripleAt(source, q.value))
    {
      if pos >= |source| { return false; }
      if source[pos] == '"' && pos + 2 < |source| && source[pos + 1] == '"' && source[pos + 2] == '"' {
        return true;
      }
      var i := pos;
      while i < |source| && !Delimits(source[i])
        invariant pos <= i <= |source| && QuoteAhead(source, pos) == QuoteAhead(source, i)
      {
        if source[i] == '"' {
          return i + 2 < |source| && source[i + 1] == '"' && source[i + 2] == '"';
        }
        i := i + 1;
      }
      return false;
    }

    /** The prefix loop of the two string parsers. It has no end-of-input test: the lookahead
        has seen the quote. */
    method ConsumePrefix() returns (prefix: string)
      requires Valid() && QuoteAhead(source, pos).Some?
      modifies this
      ensures Valid() && pos == QuoteAhead(source, old(pos)).value && prefix == source[old(pos)..pos]
    {
      var start := pos;
      while source[pos] != '"'
        invariant Valid() && start <= pos < |source| && QuoteAhead(source, pos) == QuoteAhead(source, start)
        decreases |source| - pos
      {
        Advance();
      }
      prefix := source[start..pos];
    }

    method ParseQuotedAtom(trivia: string, ghost t: nat) returns (r: Result<Node, Error>)
      requires Valid() && pos < |source| && QuoteAhead(source, pos).Some?
      requires !TripleAt(source, QuoteAhead(source, pos).value)
      requires !Delimits(source[pos]) && t <= pos && trivia == source[t..pos]
      modifies this
      ensures Valid() && Agrees(r, ParseAtom(source, t, old(pos)))
    {
      hide Line, Column, TriviaEnd, Children, LastTail, LastDot;
      var startLine, startCol := line, col;
      var start := pos;
      var prefix := ConsumePrefix();
      var kind := if IsRawTag(prefix) then RawQuoted else if prefix == "" then Quoted else TaggedQuoted;
      Advance();
      var isRaw := IsRawTag(prefix);
      ghost var body := pos;
      var closed := false;
      while pos < |source|
        invariant Valid() && body <= pos && !closed
        invariant StringEnd(source, body, isRaw) == StringEnd(source, pos, isRaw)
                  || (pos == |source| && StringEnd(source, body, isRaw) == None)
      {
        if source[pos] == '\\' && !isRaw {
          Advance();
          if pos < |source| { Advance(); }
        } else if source[pos] == '"' {
          Advance();
          closed := true;
          break;
        } else {
          Advance();
        }
      }
      if !closed {
        return Failure(UnterminatedString(Span(startLine, startCol, line, col)));
      }
      assert StringEnd(source, body, isRaw) == Some(pos);
      return Success(Atom(kind, source[start..pos], Span(startLine, startCol, line, col), trivia));
    }

    method ParseMultilineAtom(trivia: string, ghost t: nat) returns (r: Result<Node, Error>)
      requires Valid() && pos < |source| && QuoteAhead(source, pos).Some?
      requires TripleAt(source, QuoteAhead(source, pos).value)
      requires !Delimits(source[pos]) && t <= pos && trivia == source[t..pos]
      modifies this
      ensures Valid() && Agrees(r, ParseAtom(source, t, old(pos)))
    {
      hide Line, Column, TriviaEnd, Children, LastTail, LastDot;
      var startLine, startCol := line, col;
      var start := pos;
      var prefix := ConsumePrefix();
      var kind := if IsRawTag(prefix) then RawMultiline else if prefix == "" then Multiline else TaggedMultiline;
      Advance();
      Advance();
      Advance();
      ghost var body := pos;
      var closed := false;
      while pos < |source|
        invariant Valid() && body <= pos && !closed
        invariant MultilineEnd(source, body) == MultilineEnd(source, pos)
      {
        if source[pos] == '"' && pos + 2 < |source| && source[pos + 1] == '"' && source[pos + 2] == '"' {
          Advance();
          Advance();
          Advance();
          closed := true;
          break;
        }
        Advance();
      }
      if !closed {
        return Failure(UnterminatedMultiline(Span(startLine, startCol, line, col)));
      }
      assert MultilineEnd(source, body) == Some(pos);
      return Success(Atom(kind, source[start..pos], Span(startLine, startCol, line, col), trivia));
    }

    /** `_parse_bare_atom`. Its "empty atom" error cannot be raised: the atom starts with a
        character that does not delimit, and the quoted parsers have taken every quote. */
    method ParseBareAtom(trivia: string, ghost t: nat) returns (r: Result<Node, Error>)
      requires Valid() && pos < |source| && QuoteAhead(source, pos) == None
      requires !Delimits(source[pos]) && t <= pos && trivia == source[t..pos]
      modifies this
      ensures Valid() && Agrees(r, ParseAtom(source, t, old(pos)))
    {
      hide Line, Column, TriviaEnd, Children, LastTail, LastDot;
      var startLine, startCol := line, col;
      var start := pos;
      while pos < |source|
        invariant Valid() && start <= pos && BareEnd(source, start) == BareEnd(source, pos)
      {
        if Delimits(source[pos]) || source[pos] == '"' {
          break;
        }
        Advance();
      }
      var text := source[start..pos];
      assert text != "";
      return Success(Atom(Bare, text, Span(startLine, startCol, line, col), trivia));
    }

    /** The method returned what the grammar says, and the cursor is behind it. */
    ghost predicate Agrees(r: Result<Node, Error>, spec: Result<Parsed, Error>)
      reads this
    {
      match spec
      case Success(p) => r == Success(Forget(p.form)) && pos == p.end
      case Failure(e) => r == Failure(e)
    }

    method ParseAtomAt(trivia: string, ghost t: nat) returns (r: Result<Node, Error>)
      requires Valid() && pos < |source|
      requires !Delimits(source[pos]) && t <= pos && trivia == source[t..pos]
      modifies this
      ensures Valid() && Agrees(r, ParseAtom(source, t, old(pos)))
    {
      var multiline := LookingAtMultiline();
      if multiline {
        r := ParseMultilineAtom(trivia, t);
        return;
      }
      var quoted := LookingAtQuoted();
      if quoted {
        r := ParseQuotedAtom(trivia, t);
        return;
      }
      r := ParseBareAtom(trivia, t);
    }

    method ParseNode(trivia: string, ghost t: nat) returns (r: Result<Node, Error>)
      requires Valid() && pos < |source| && StartsForm(source[pos])
      requires t <= pos && trivia == source[t..pos]
      modifies this
      ensures Valid() && Agrees(r, ParseForm(source, t, old(pos)))
      decreases |source| - pos, 1
    {
      var ch := source[pos];
      if ch == '(' {
        r := ParseList(trivia, t);
        return;
      }
      if ch == ')' {
        return Failure(UnexpectedClose(Span(line, col, line, col + 1)));
      }
      r := ParseAtomAt(trivia, t);
    }

    method IsDot() returns (b: bool)
      requires Valid() && pos < |source|
      ensures b == DotAt(source, pos)
    {
      if source[pos] != '.' { return false; }
      var next := pos + 1;
      if next >= |source| { return true; }
      return Delimits(source[next]) || source[next] == '"';
    }

    /** The dot of a list and the form after it. */
    method ParseDotted() returns (r: Result<Node, Error>)
      requires Valid() && pos < |source| && source[pos] == '.'
      modifies this
      ensures Valid() && Agrees(r, ParseTail(source, old(pos)))
      decreases |source| - pos, 0
    {
      hide Line, Column, TriviaEnd;
      Advance();
      ghost var from := pos;
      var tailTrivia := ConsumeTrivia();
      if pos >= |source| || source[pos] == ')' {
        return Failure(MissingTail(Span(line, col, line, col)));
      }
      r := ParseNode(tailTrivia, from);
    }

    method ParseList(trivia: string, ghost t: nat) returns (r: Result<Node, Error>)
      requires Valid() && pos < |source| && source[pos] == '('
      requires t <= pos && trivia == source[t..pos]
      modifies this
      ensures Valid() && Agrees(r, ParseForm(source, t, old(pos)))
      decreases |source| - pos, 0
    {
      assert Built([], [], "", None);
      ListOpens(source, t, pos);
      hide Forget, StartsForm, Built, ParseForm, ParseTail, ParseItems, DotAt, TriviaEnd, Line, Column;
      var startLine, startCol := line, col;
      ghost var start := pos;
      ghost var whole := ParseItems(source, start, start + 1, []);
      Advance();
      var children: seq<Node> := [];
      var dotTrivia := "";
      var tail: Option<Node> := None;
      ghost var items: seq<Item> := [];
      while true
        invariant Valid() && start < pos
        invariant Built(items, children, dotTrivia, tail) && whole == ParseItems(source, start, pos, items)
        decreases |source| - pos
      {
        ghost var from := pos;
        var between := ConsumeTrivia();
        if pos >= |source| {
          ItemsEnd(source, start, from, items);
          return Failure(UnclosedList(Span(startLine, startCol, line, col)));
        }
        if source[pos] == ')' {
          ItemsClose(source, start, from, items);
          Advance();
          ForgetList(items, children, dotTrivia, tail, SpanOf(source, start, pos), trivia, between);
          return Success(List(children, Span(startLine, startCol, line, col), trivia, dotTrivia, tail, between));
        }
        var dot := IsDot();
        if dot {
          ItemsTail(source, start, from, items);
          ghost var spec := ParseTail(source, pos);
          var parsed :- ParseDotted();
          BuiltWithTail(items, children, dotTrivia, tail, between, spec.value.form);
          dotTrivia, tail := between, Some(parsed);
          items := items + [Tail(between, spec.value.form)];
        } else {
          ItemsChild(source, start, from, items);
          ghost var spec := ParseForm(source, from, pos);
          var parsed :- ParseNode(between, from);
          BuiltWithChild(items, children, dotTrivia, tail, spec.value.form);
          children := children + [parsed];
          items := items + [Child(spec.value.form)];
        }
      }
    }

    lemma RestUnfolds(start: nat, items: seq<Item>)
      requires start <= |source|
      ensures var i := TriviaEnd(source, start);
              && (i == |source| ==>
                    ParseRest(source, start, items) == Success(ParsedProgram(items, source[start..], SpanOf(source, 0, |source|))))
              && (i < |source| ==>
                    var child := ParseForm(source, start, i);
                    && (child.Failure? ==> ParseRest(source, start, items) == Failure(child.error))
                    && (child.Success? ==> ParseRest(source, start, items) ==
                                           ParseRest(source, child.value.end, items + [Child(child.value.form)])))
    {
      hide ParseForm, SpanOf;
    }

    method ParseProgram() returns (r: Result<Program, Error>)
      requires Valid() && pos == 0
      modifies this
      ensures Valid() && r == ParseCst(source)
    {
      assert Children([]) == [] && Line(source, 0) == Column(source, 0) == 1;
      hide ParseForm, ParseRest, TriviaEnd, Children, LastTail, LastDot, Line, Column;
      var startLine, startCol := line, col;
      var children: seq<Node> := [];
      ghost var items: seq<Item> := [];
      while true
        invariant Valid()
        invariant children == Children(items) && ParseRest(source, 0, []) == ParseRest(source, pos, items)
        decreases |source| - pos
      {
        ghost var start := pos;
        var trivia := ConsumeTrivia();
        RestUnfolds(start, items);
        if pos >= |source| {
          assert trivia == source[start..];
          return Success(Program(children, trivia, Span(startLine, startCol, line, col)));
        }
        ghost var form := ParseForm(source, start, pos);
        var node :- ParseNode(trivia, start);
        BuiltWithChild(items, children, LastDot(items), LastTail(items), form.value.form);
        children := children + [node];
        items := items + [Child(form.value.form)];
      }
    }
  }

  method Parse(source: string) returns (r: Result<Program, Error>)
    ensures r == ParseCst(source)
  {
    var parser := new Parser(source);
    r := parser.ParseProgram();
  }
}

/**
 Two sources that the CST parser accepts and whose text does not come back: the parser keeps
 one tail to a list and prints it behind all children (qy/frontend/cst_parser.py).
 */
module CstExamples {
  import opened Wrappers
  import opened Cst
  import opened CstGrammar

  const LATE_CHILD := "(a . b c)"
  const TWO_DOTS := "(a . b . c)"

  /** A symbol of one letter at `i`. */
  function Letter(s: string, t: nat, i: nat): Form
    requires t <= i < |s|
  {
    AtomForm(Bare, [s[i]], SpanOf(s, i, i + 1), s[t..i])
  }

  predicate LetterAt(s: string, i: nat) {
    i + 1 < |s| && 'a' <= s[i] <= 'z' && (s[i + 1] == ' ' || s[i + 1] == ')')
  }

  lemma LetterRead(s: string, t: nat, i: nat)
    requires t <= i && LetterAt(s, i)
    ensures ParseForm(s, t, i) == Success(Parsed(Letter(s, t, i), i + 1))
  {
    assert BareEnd(s, i + 1) == i + 1;
    assert QuoteAhead(s, i + 1) == None;
    assert s[i..i + 1] == [s[i]];
  }

  lemma ChildRead(s: string, start: nat, t: nat, items: seq<Item>)
    requires start < t < |s| && (if s[t] == ' ' then LetterAt(s, t + 1) else LetterAt(s, t))
    ensures var i := if s[t] == ' ' then t + 1 else t;
            ParseItems(s, start, t, items) == ParseItems(s, start, i + 1, items + [Child(Letter(s, t, i))])
  {
    var i := if s[t] == ' ' then t + 1 else t;
    assert TriviaEnd(s, t) == i;
    LetterRead(s, t, i);
    ItemsChild(s, start, t, items);
  }

  lemma TailRead(s: string, start: nat, t: nat, items: seq<Item>)
    requires start < t && t + 3 < |s| && s[t..t + 3] == " . " && LetterAt(s, t + 3)
    ensures ParseItems(s, start, t, items) ==
            ParseItems(s, start, t + 4, items + [Tail(" ", Letter(s, t + 2, t + 3))])
  {
    assert s[t] == s[t..t + 3][0] && s[t + 1] == s[t..t + 3][1] && s[t + 2] == s[t..t + 3][2];
    assert TriviaEnd(s, t) == t + 1 && TriviaEnd(s, t + 2) == t + 3;
    assert s[t..t + 1] == " ";
    LetterRead(s, t + 2, t + 3);
    TailIsForm(s, t + 1);
    ItemsTail(s, start, t, items);
  }

  lemma OneFormProgram(s: string, form: Form)
    requires s != "" && StartsForm(s[0]) && ParseForm(s, 0, 0) == Success(Parsed(form, |s|))
    ensures ParseCst(s).Success? && ProgramText(ParseCst(s).value) == NodeText(Forget(form))
  {
    hide NodesText, NodeText, Forget, ParseForm;
    var items := [Child(form)];
    assert TriviaEnd(s, 0) == 0 && TriviaEnd(s, |s|) == |s|;
    assert ParseRest(s, |s|, items) == Success(ParsedProgram(items, s[|s|..], SpanOf(s, 0, |s|)));
    assert [] + items == items && s[|s|..] == "";
    assert items[..0] == [];
    assert Children(items) == [Forget(form)];
    OneNodeText(Forget(form));
  }

  lemma ListNodeText(items: seq<Item>, span: Span)
    ensures NodeText(Forget(ListForm(items, span, "", ""))) ==
            "(" + NodesText(Children(items))
            + (if LastTail(items).Some? then LastDot(items) + "." + NodeText(LastTail(items).value) else "") + ")"
  {
    hide NodesText, Children, LastTail, LastDot;
  }

  /** A source that is one list. */
  lemma OneList(s: string, items: seq<Item>)
    requires |s| > 2 && s[0] == '(' && s[|s| - 1] == ')'
    requires ParseItems(s, 0, 1, []) == ParseItems(s, 0, |s| - 1, items)
    ensures ParseCst(s).Success?
    ensures ProgramText(ParseCst(s).value) ==
            "(" + NodesText(Children(items))
            + (if LastTail(items).Some? then LastDot(items) + "." + NodeText(LastTail(items).value) else "") + ")"
  {
    var n := |s|;
    assert TriviaEnd(s, n - 1) == n - 1;
    ItemsClose(s, 0, n - 1, items);
    ListOpens(s, 0, 0);
    hide *;
    assert s[0..0] == "" && s[n - 1..n - 1] == "";
    OneFormProgram(s, ListForm(items, SpanOf(s, 0, n), "", ""));
    ListNodeText(items, SpanOf(s, 0, n));
  }

  lemma OneNodeText(node: Node)
    ensures NodesText([node]) == NodeText(node)
  {
    assert [node][..0] == [];
  }

  lemma LetterText(s: string, t: nat, i: nat)
    requires t <= i < |s|
    ensures NodeText(Forget(Letter(s, t, i))) == s[t..i + 1]
  {
  }

  lemma ChildTailChild(a: Form, b: Form, c: Form)
    ensures var items := [Child(a), Tail(" ", b), Child(c)];
            && NodesText(Children(items)) == NodeText(Forget(a)) + NodeText(Forget(c))
            && LastTail(items) == Some(Forget(b)) && LastDot(items) == " "
  {
    hide NodeText, Forget;
    var x, y, z := Child(a), Tail(" ", b), Child(c);
    assert [x, y, z][..2] == [x, y] && [x, y][..1] == [x] && [x][..0] == [];
    assert Children([x]) == [Forget(a)] && Children([x, y]) == [Forget(a)];
    assert Children([x, y, z]) == [Forget(a), Forget(c)];
    assert [Forget(a), Forget(c)][..1] == [Forget(a)];
    OneNodeText(Forget(a));
  }

  lemma ChildTailTail(a: Form, b: Form, c: Form)
    ensures var items := [Child(a), Tail(" ", b), Tail(" ", c)];
            && NodesText(Children(items)) == NodeText(Forget(a))
            && LastTail(items) == Some(Forget(c)) && LastDot(items) == " "
  {
    hide NodeText, Forget;
    var x, y, z := Child(a), Tail(" ", b), Tail(" ", c);
    assert [x, y, z][..2] == [x, y] && [x, y][..1] == [x] && [x][..0] == [];
    assert Children([x]) == [Forget(a)] && Children([x, y]) == [Forget(a)] && Children([x, y, z]) == [Forget(a)];
    OneNodeText(Forget(a));
  }

  /** The form behind the dotted one comes back in front of the dot. */
  lemma LateChildMoves()
    ensures ParseCst(LATE_CHILD).Success? && ProgramText(ParseCst(LATE_CHILD).value) == "(a c . b)" != LATE_CHILD
  {
    hide ParseItems, ParseCst, ProgramText, NodeText, NodesText, Children, LastTail, LastDot, Forget, Letter;
    var s := LATE_CHILD;
    var a, b, c := Letter(s, 1, 1), Letter(s, 4, 5), Letter(s, 6, 7);
    ChildRead(s, 0, 1, []);
    assert s[2..5] == " . ";
    TailRead(s, 0, 2, [] + [Child(a)]);
    ChildRead(s, 0, 6, [] + [Child(a)] + [Tail(" ", b)]);
    assert [] + [Child(a)] + [Tail(" ", b)] + [Child(c)] == [Child(a), Tail(" ", b), Child(c)];
    OneList(s, [Child(a), Tail(" ", b), Child(c)]);
    ChildTailChild(a, b, c);
    LetterText(s, 1, 1);
    LetterText(s, 4, 5);
    LetterText(s, 6, 7);
    assert s[1..2] == "a" && s[4..6] == " b" && s[6..8] == " c";
    assert "(" + ("a" + " c") + (" " + "." + " b") + ")" == "(a c . b)";
    assert s[3] != "(a c . b)"[3];
  }

  /** The first of two dotted forms does not come back at all. */
  lemma FirstTailIsLost()
    ensures ParseCst(TWO_DOTS).Success? && ProgramText(ParseCst(TWO_DOTS).value) == "(a . c)" != TWO_DOTS
  {
    hide ParseItems, ParseCst, ProgramText, NodeText, NodesText, Children, LastTail, LastDot, Forget, Letter;
    var s := TWO_DOTS;
    var a, b, c := Letter(s, 1, 1), Letter(s, 4, 5), Letter(s, 8, 9);
    ChildRead(s, 0, 1, []);
    assert s[2..5] == " . " && s[6..9] == " . ";
    TailRead(s, 0, 2, [] + [Child(a)]);
    TailRead(s, 0, 6, [] + [Child(a)] + [Tail(" ", b)]);
    assert [] + [Child(a)] + [Tail(" ", b)] + [Tail(" ", c)] == [Child(a), Tail(" ", b), Tail(" ", c)];
    OneList(s, [Child(a), Tail(" ", b), Tail(" ", c)]);
    ChildTailTail(a, b, c);
    LetterText(s, 1, 1);
    LetterText(s, 8, 9);
    assert s[1..2] == "a" && s[8..10] == " c";
    assert "(" + "a" + (" " + "." + " c") + ")" == "(a . c)";
    assert |s| != |"(a . c)"|;
  }
}

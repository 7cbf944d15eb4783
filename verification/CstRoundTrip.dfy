/**
 `collect_text` undoes `parse_cst` on exactly the sources whose lists follow the dotted-list
 grammar: forms, then at most one dot with one form after it, then the closing parenthesis.
 The parser accepts more, and then text is moved or lost.
 */
module CstRoundTrip {
  import opened Wrappers
  import opened Cst
  import opened CstGrammar
  import CstParser

  // --- the text of a form, in source order -----------------------------------------------

  function FormText(form: Form): string
    decreases form
  {
    match form
    case AtomForm(_, text, _, leading) => leading + text
    case ListForm(items, _, leading, close) => leading + "(" + ItemsText(items) + close + ")"
  }

  function ItemText(item: Item): string
    decreases item
  {
    match item
    case Child(form) => FormText(form)
    case Tail(dotTrivia, form) => dotTrivia + "." + FormText(form)
  }

  function ItemsText(items: seq<Item>): string
    decreases items
  {
    if items == [] then "" else ItemsText(items[..|items| - 1]) + ItemText(items[|items| - 1])
  }

  lemma ItemsTextAppend(items: seq<Item>, item: Item)
    ensures ItemsText(items + [item]) == ItemsText(items) + ItemText(item)
  {
    assert (items + [item])[..|items|] == items;
  }

  lemma Slices(s: string, a: nat, b: nat, c: nat)
    requires a <= b <= c <= |s|
    ensures s[a..c] == s[a..b] + s[b..c]
  {
  }

  /** The items read so far are the source from `a` to `t`. */
  predicate ReadSoFar(s: string, a: nat, t: nat, items: seq<Item>) {
    a <= t <= |s| && ItemsText(items) == s[a..t]
  }

  predicate ReadsForm(s: string, t: nat, r: Parsed) {
    t <= r.end <= |s| && FormText(r.form) == s[t..r.end]
  }

  /** The items, the closing trivia and the parenthesis are the source from `a` on. */
  predicate ReadsList(s: string, a: nat, r: ParsedItems) {
    a <= r.end <= |s| && ItemsText(r.items) + r.close + ")" == s[a..r.end]
  }

  lemma ClosesList(s: string, a: nat, t: nat, i: nat, items: seq<Item>)
    requires a <= t <= i < |s| && s[i] == ')' && ReadSoFar(s, a, t, items)
    ensures ReadsList(s, a, ParsedItems(items, s[t..i], i + 1))
  {
    Slices(s, a, t, i);
    Slices(s, a, i, i + 1);
  }

  lemma ExtendsByTail(s: string, a: nat, t: nat, i: nat, items: seq<Item>, r: Parsed)
    requires a <= t <= i < r.end <= |s| && DotAt(s, i)
    requires ReadSoFar(s, a, t, items) && ReadsForm(s, i + 1, r)
    ensures ReadSoFar(s, a, r.end, items + [Tail(s[t..i], r.form)])
  {
    hide FormText, ItemsText;
    ItemsTextAppend(items, Tail(s[t..i], r.form));
    Slices(s, a, t, r.end);
    Slices(s, t, i, r.end);
    Slices(s, i, i + 1, r.end);
    assert s[i..i + 1] == ".";
    assert s[t..i] + "." + s[i + 1..r.end] == s[t..i] + ("." + s[i + 1..r.end]);
  }

  lemma ExtendsByChild(s: string, a: nat, t: nat, items: seq<Item>, r: Parsed)
    requires ReadSoFar(s, a, t, items) && ReadsForm(s, t, r)
    ensures ReadSoFar(s, a, r.end, items + [Child(r.form)])
  {
    hide FormText, ItemsText;
    ItemsTextAppend(items, Child(r.form));
    Slices(s, a, t, r.end);
  }

  lemma ReadsAtom(s: string, t: nat, i: nat)
    requires t <= i < |s| && !Delimits(s[i]) && ParseAtom(s, t, i).Success?
    ensures ReadsForm(s, t, ParseAtom(s, t, i).value)
  {
    AtomRead(s, t, i);
    hide ParseAtom;
    Slices(s, t, i, ParseAtom(s, t, i).value.end);
  }

  lemma ReadsOpened(s: string, t: nat, i: nat, list: ParsedItems, span: Span)
    requires t <= i < list.end <= |s| && s[i] == '(' && ReadsList(s, i + 1, list)
    ensures ReadsForm(s, t, Parsed(ListForm(list.items, span, s[t..i], list.close), list.end))
    ensures s[i..list.end] == "(" + ItemsText(list.items) + list.close + ")"
  {
    hide ItemsText;
    Slices(s, t, i, list.end);
    Slices(s, i, i + 1, list.end);
    assert s[i..i + 1] == "(";
    assert "(" + ItemsText(list.items) + list.close + ")" == "(" + (ItemsText(list.items) + list.close + ")");
    assert s[t..i] + "(" + ItemsText(list.items) + list.close + ")"
        == s[t..i] + ("(" + ItemsText(list.items) + list.close + ")");
  }

  lemma {:induction false} ParseFormText(s: string, t: nat, i: nat)
    requires t <= i < |s| && StartsForm(s[i]) && ParseForm(s, t, i).Success?
    ensures ReadsForm(s, t, ParseForm(s, t, i).value)
    decreases |s| - i, 0
  {
    if s[i] == '(' {
      ListOpens(s, t, i);
      hide ParseItems, ParseForm, SpanOf, ReadsForm, ReadsList, ReadSoFar;
      StartsEmpty(s, i + 1);
      ParseItemsText(s, i, i + 1, []);
      var list := ParseItems(s, i, i + 1, []).value;
      ReadsOpened(s, t, i, list, SpanOf(s, i, list.end));
    } else {
      ReadsAtom(s, t, i);
    }
  }

  lemma StartsEmpty(s: string, a: nat)
    requires a <= |s|
    ensures ReadSoFar(s, a, a, [])
  {
  }

  lemma {:induction false} ParseItemsText(s: string, start: nat, t: nat, items: seq<Item>)
    requires start < t <= |s| && ParseItems(s, start, t, items).Success?
    requires ReadSoFar(s, start + 1, t, items)
    ensures ReadsList(s, start + 1, ParseItems(s, start, t, items).value)
    decreases |s| - t, 3
  {
    assert TriviaEnd(s, t) < |s|;
    hide *;
    var i := TriviaEnd(s, t);
    if s[i] == ')' {
      ItemsClose(s, start, t, items);
      ClosesList(s, start + 1, t, i, items);
    } else if DotAt(s, i) {
      ParseDottedText(s, start, t, items);
    } else {
      ParseChildText(s, start, t, items);
    }
  }

  lemma {:induction false} ParseTailText(s: string, i: nat)
    requires i < |s| && ParseTail(s, i).Success?
    ensures ReadsForm(s, i + 1, ParseTail(s, i).value)
    decreases |s| - i, 1
  {
    TailIsForm(s, i);
    hide *;
    ParseFormText(s, i + 1, TriviaEnd(s, i + 1));
  }

  lemma {:induction false} ParseDottedText(s: string, start: nat, t: nat, items: seq<Item>)
    requires start < t <= |s| && ParseItems(s, start, t, items).Success?
    requires TriviaEnd(s, t) < |s| && DotAt(s, TriviaEnd(s, t)) && ReadSoFar(s, start + 1, t, items)
    ensures ReadsList(s, start + 1, ParseItems(s, start, t, items).value)
    decreases |s| - t, 2
  {
    hide *;
    var i := TriviaEnd(s, t);
    ItemsTail(s, start, t, items);
    var tail := ParseTail(s, i).value;
    ParseTailText(s, i);
    ExtendsByTail(s, start + 1, t, i, items, tail);
    var more := items + [Tail(s[t..i], tail.form)];
    ParseItemsText(s, start, tail.end, more);
  }

  lemma {:induction false} ParseChildText(s: string, start: nat, t: nat, items: seq<Item>)
    requires start < t <= |s| && ParseItems(s, start, t, items).Success?
    requires TriviaEnd(s, t) < |s| && s[TriviaEnd(s, t)] != ')' && !DotAt(s, TriviaEnd(s, t))
    requires ReadSoFar(s, start + 1, t, items)
    ensures ReadsList(s, start + 1, ParseItems(s, start, t, items).value)
    decreases |s| - t, 2
  {
    hide *;
    ItemsChild(s, start, t, items);
    ParseFormText(s, t, TriviaEnd(s, t));
    var child := ParseForm(s, t, TriviaEnd(s, t)).value;
    ExtendsByChild(s, start + 1, t, items, child);
    ParseItemsText(s, start, child.end, items + [Child(child.form)]);
  }

  lemma {:induction false} ParseRestText(s: string, t: nat, items: seq<Item>)
    requires t <= |s| && ParseRest(s, t, items).Success? && ReadSoFar(s, 0, t, items)
    ensures var r := ParseRest(s, t, items).value; ItemsText(r.items) + r.trailing == s
    decreases |s| - t
  {
    hide ParseForm, ReadsForm, FormText, ItemsText, TriviaEnd, SpanOf;
    var i := TriviaEnd(s, t);
    if i < |s| {
      ParseFormText(s, t, i);
      var child := ParseForm(s, t, i).value;
      ExtendsByChild(s, 0, t, items, child);
      ParseRestText(s, child.end, items + [Child(child.form)]);
    }
  }

  // --- what every form that was read looks like ---------------------------------------------

  /** Blanks and comments, every comment ended by its newline. */
  predicate Closed(trivia: string)
    decreases |trivia|
  {
    || trivia == ""
    || (IsBlank(trivia[0]) && Closed(trivia[1..]))
    || (trivia[0] == ';' && var n := CommentEnd(trivia, 1); n < |trivia| && Closed(trivia[n..]))
  }

  lemma {:induction false} TriviaIsClosed(s: string, t: nat)
    requires t <= |s| && TriviaEnd(s, t) < |s|
    ensures Closed(s[t..TriviaEnd(s, t)])
    decreases |s| - t
  {
    var e := TriviaEnd(s, t);
    if IsBlank(s[t]) {
      TriviaIsClosed(s, t + 1);
      assert s[t..e][1..] == s[t + 1..e];
    } else if s[t] == ';' {
      var n := CommentEnd(s, t + 1);
      TriviaIsClosed(s, n);
      assert s[n] == '\n' && e > n;
      CommentEndInside(s, t, e, t + 1);
      assert s[t..e][n - t..] == s[n..e];
    }
  }

  /** A comment that ends before `e` ends at the same character when only `s[t..e]` is seen. */
  lemma {:induction false} CommentEndInside(s: string, t: nat, e: nat, k: nat)
    requires t <= k <= e <= |s| && CommentEnd(s, k) < e
    ensures CommentEnd(s[t..e], k - t) == CommentEnd(s, k) - t
    decreases e - k
  {
    assert s[t..e][k - t] == s[k];
    if s[k] != '\n' {
      CommentEndInside(s, t, e, k + 1);
    }
  }

  /** Closed trivia ends where the next form starts, whatever that form is. */
  lemma {:induction false} ClosedEndsAtForm(trivia: string, rest: string, t: nat)
    requires t <= |trivia| && Closed(trivia[t..]) && rest != "" && StartsForm(rest[0])
    ensures TriviaEnd(trivia + rest, t) == |trivia|
    decreases |trivia| - t
  {
    var s := trivia + rest;
    if t < |trivia| {
      if IsBlank(s[t]) {
        assert trivia[t..][1..] == trivia[t + 1..];
        ClosedEndsAtForm(trivia, rest, t + 1);
      } else {
        var m := CommentEnd(trivia[t..], 1);
        assert s[t..|trivia|] == trivia[t..];
        CommentEndExtends(s, t, |trivia|, t + 1);
        assert trivia[t..][m..] == trivia[t + m..];
        ClosedEndsAtForm(trivia, rest, t + m);
      }
    }
  }

  lemma {:induction false} CommentEndExtends(s: string, t: nat, e: nat, k: nat)
    requires t <= k <= e <= |s| && CommentEnd(s[t..e], k - t) < e - t
    ensures CommentEnd(s, k) == CommentEnd(s[t..e], k - t) + t
    decreases e - k
  {
    assert s[t..e][k - t] == s[k];
    if s[k] != '\n' {
      CommentEndExtends(s, t, e, k + 1);
    }
  }

  predicate EndsAtom(c: char) { Delimits(c) || c == '"' }

  /** Not a dot that stands alone. */
  predicate NotDot(form: Form) {
    form.AtomForm? && form.text != "" && form.text[0] == '.' ==> |form.text| >= 2 && !EndsAtom(form.text[1])
  }

  predicate Shaped(form: Form)
    decreases form
  {
    && Closed(form.leading)
    && match form
       case AtomForm(_, text, _, _) => text != "" && !Delimits(text[0])
       case ListForm(items, _, _, _) => forall k :: 0 <= k < |items| ==> ShapedItem(items[k])
  }

  predicate ShapedItem(item: Item)
    decreases item
  {
    && Shaped(item.form)
    && (item.Child? ==> NotDot(item.form))
    && (item.Tail? ==> Closed(item.dotTrivia) && FormText(item.form) != "" && EndsAtom(FormText(item.form)[0]))
  }

  predicate ShapedItems(items: seq<Item>) {
    forall k :: 0 <= k < |items| ==> ShapedItem(items[k])
  }

  lemma AtomShape(s: string, t: nat, i: nat)
    requires t <= i < |s| && !Delimits(s[i]) && ParseAtom(s, t, i).Success? && TriviaEnd(s, t) == i
    ensures var form := ParseAtom(s, t, i).value.form; Shaped(form) && (!DotAt(s, i) ==> NotDot(form))
  {
    TriviaIsClosed(s, t);
    var form := ParseAtom(s, t, i).value.form;
    if s[i] == '.' && !DotAt(s, i) {
      assert QuoteAhead(s, i) == QuoteAhead(s, i + 1);
      assert BareEnd(s, i) == BareEnd(s, i + 1) == BareEnd(s, i + 2);
      assert form.text[1] == s[i + 1];
    }
  }

  lemma {:induction false} ParseFormShape(s: string, t: nat, i: nat)
    requires t <= i < |s| && StartsForm(s[i]) && ParseForm(s, t, i).Success? && TriviaEnd(s, t) == i
    ensures var form := ParseForm(s, t, i).value.form; Shaped(form) && (!DotAt(s, i) ==> NotDot(form))
    decreases |s| - i, 0
  {
    if s[i] == '(' {
      ParseItemsShape(s, i, i + 1, []);
      TriviaIsClosed(s, t);
    } else {
      AtomShape(s, t, i);
    }
  }

  lemma {:induction false} ParseTailShape(s: string, t: nat, i: nat)
    requires t <= i < |s| && TriviaEnd(s, t) == i && DotAt(s, i) && ParseTail(s, i).Success?
    ensures ShapedItem(Tail(s[t..i], ParseTail(s, i).value.form))
    decreases |s| - i, 1
  {
    hide ParseForm, FormText, Shaped, TriviaEnd, Closed;
    var k := TriviaEnd(s, i + 1);
    ParseFormShape(s, i + 1, k);
    TriviaIsClosed(s, t);
    ParseFormText(s, i + 1, k);
    assert s[i + 1..ParseTail(s, i).value.end][0] == s[i + 1];
  }

  lemma ShapedAppend(items: seq<Item>, item: Item)
    requires ShapedItems(items) && ShapedItem(item)
    ensures ShapedItems(items + [item])
  {
  }

  lemma {:induction false} ParseItemsShape(s: string, start: nat, t: nat, items: seq<Item>)
    requires start < t <= |s| && ParseItems(s, start, t, items).Success? && ShapedItems(items)
    ensures ShapedItems(ParseItems(s, start, t, items).value.items)
    decreases |s| - t, 2
  {
    assert TriviaEnd(s, t) < |s|;
    hide ShapedItems, Shaped, NotDot, DotAt, ParseTail, ParseForm, ParseItems, TriviaEnd;
    var i := TriviaEnd(s, t);
    if s[i] == ')' {
      ItemsClose(s, start, t, items);
    } else if DotAt(s, i) {
      ItemsTail(s, start, t, items);
      ParseTailShape(s, t, i);
      var tail := ParseTail(s, i).value;
      ShapedAppend(items, Tail(s[t..i], tail.form));
      ParseItemsShape(s, start, tail.end, items + [Tail(s[t..i], tail.form)]);
    } else {
      ItemsChild(s, start, t, items);
      ParseFormShape(s, t, i);
      var child := ParseForm(s, t, i).value;
      ShapedAppend(items, Child(child.form));
      ParseItemsShape(s, start, child.end, items + [Child(child.form)]);
    }
  }

  // --- the documented grammar ------------------------------------------------------------------

  /** Every list is `"(" form* (DOT form)? ")"`: only its last item may be the dotted one. */
  predicate FollowsGrammar(form: Form)
    decreases form
  {
    match form
    case AtomForm(_, _, _, _) => true
    case ListForm(items, _, _, _) =>
      && (forall k :: 0 <= k < |items| - 1 ==> items[k].Child?)
      && (forall k :: 0 <= k < |items| ==> FollowsGrammar(items[k].form))
  }

  predicate AllFollow(items: seq<Item>) {
    forall k :: 0 <= k < |items| ==> FollowsGrammar(items[k].form)
  }

  predicate AllChildren(items: seq<Item>) {
    forall k :: 0 <= k < |items| ==> items[k].Child?
  }

  /** What `_collect_node` prints between the parentheses, before the closing trivia. */
  function KeptText(items: seq<Item>): string {
    NodesText(Children(items)) +
    (if LastTail(items).Some? then LastDot(items) + "." + NodeText(LastTail(items).value) else "")
  }

  lemma ListText(form: Form)
    requires form.ListForm?
    ensures NodeText(Forget(form)) == form.leading + "(" + KeptText(form.items) + form.close + ")"
  {
    var node := Forget(form);
    var dotted := if node.tail.Some? then node.dotTrivia + "." + NodeText(node.tail.value) else "";
    assert form.leading + "(" + NodesText(node.children) + dotted
        == form.leading + "(" + (NodesText(node.children) + dotted);
  }

  lemma LastChild(items: seq<Item>)
    requires items != [] && items[|items| - 1].Child?
    ensures var (front, last) := (items[..|items| - 1], items[|items| - 1]);
            && NodesText(Children(items)) == NodesText(Children(front)) + NodeText(Forget(last.form))
            && LastTail(items) == LastTail(front) && LastDot(items) == LastDot(front)
  {
    var front, last := items[..|items| - 1], items[|items| - 1];
    assert Children(items) == Children(front) + [Forget(last.form)];
    assert (Children(front) + [Forget(last.form)])[..|Children(front)|] == Children(front);
  }

  lemma LastDotted(items: seq<Item>)
    requires items != [] && items[|items| - 1].Tail?
    ensures var (front, last) := (items[..|items| - 1], items[|items| - 1]);
            && Children(items) == Children(front)
            && KeptText(items) == NodesText(Children(front)) + (last.dotTrivia + "." + NodeText(Forget(last.form)))
  {
  }

  lemma {:induction false} NoTail(items: seq<Item>)
    requires AllChildren(items)
    ensures LastTail(items) == None
  {
    if items != [] {
      NoTail(items[..|items| - 1]);
    }
  }

  // --- a source that follows the grammar comes back ----------------------------------------------

  lemma {:induction false} GrammarKeepsText(form: Form)
    requires FollowsGrammar(form)
    ensures NodeText(Forget(form)) == FormText(form)
    decreases form, 0
  {
    if form.ListForm? {
      var items := form.items;
      ListText(form);
      if AllChildren(items) {
        ChildrenKeepText(items);
        NoTail(items);
        assert KeptText(items) == NodesText(Children(items));
      } else {
        var front, last := items[..|items| - 1], items[|items| - 1];
        ChildrenKeepText(front);
        GrammarKeepsText(last.form);
        LastDotted(items);
        assert KeptText(items) == ItemsText(items);
      }
    }
  }

  lemma {:induction false} ChildrenKeepText(items: seq<Item>)
    requires AllChildren(items) && AllFollow(items)
    ensures NodesText(Children(items)) == ItemsText(items)
    decreases items, 1
  {
    if items != [] {
      ChildrenKeepText(items[..|items| - 1]);
      var last := items[|items| - 1];
      assert items decreases to last;
      GrammarKeepsText(last.form);
      LastChild(items);
    }
  }

  // --- and no other does ------------------------------------------------------------------------------

  lemma {:induction false} NeverLonger(form: Form)
    ensures |NodeText(Forget(form))| <= |FormText(form)|
    decreases form, 0
  {
    if form.ListForm? {
      ListText(form);
      KeptNeverLonger(form.items);
    }
  }

  lemma {:induction false} KeptNeverLonger(items: seq<Item>)
    ensures |KeptText(items)| <= |ItemsText(items)|
    decreases items, 1
  {
    if items != [] {
      var front, last := items[..|items| - 1], items[|items| - 1];
      KeptNeverLonger(front);
      assert items decreases to last;
      NeverLonger(last.form);
      if last.Child? {
        LastChild(items);
      } else {
        LastDotted(items);
      }
    }
  }

  lemma {:induction false} HasTail(items: seq<Item>, j: nat)
    requires j < |items| && items[j].Tail?
    ensures LastTail(items).Some?
  {
    if items[|items| - 1].Child? {
      HasTail(items[..|items| - 1], j);
    }
  }

  /** The form after an earlier dot is lost. */
  lemma {:induction false} SecondDotLosesText(items: seq<Item>, j: nat, k: nat)
    requires j < k < |items| && items[j].Tail? && items[k].Tail?
    ensures |KeptText(items)| < |ItemsText(items)|
  {
    hide FormText, NodeText, Forget, NodesText, Children;
    var front, last := items[..|items| - 1], items[|items| - 1];
    NeverLonger(last.form);
    if last.Tail? {
      HasTail(front, j);
      KeptNeverLonger(front);
      LastDotted(items);
    } else {
      SecondDotLosesText(front, j, k);
      LastChild(items);
    }
  }

  lemma {:induction false} ItemsTextSplit(a: seq<Item>, b: seq<Item>)
    ensures ItemsText(a + b) == ItemsText(a) + ItemsText(b)
    decreases |b|
  {
    if b == [] {
      assert a + b == a;
    } else {
      var front := b[..|b| - 1];
      assert (a + b)[..|a + b| - 1] == a + front;
      ItemsTextSplit(a, front);
    }
  }

  lemma {:induction false} NodesTextSplit(a: seq<Node>, b: seq<Node>)
    ensures NodesText(a + b) == NodesText(a) + NodesText(b)
    decreases |b|
  {
    if b == [] {
      assert a + b == a;
    } else {
      var front := b[..|b| - 1];
      assert (a + b)[..|a + b| - 1] == a + front;
      NodesTextSplit(a, front);
    }
  }

  /** Children after the dotted form are printed before it. */
  lemma {:induction false} ChildrenAfterTail(a: seq<Item>, tail: Item, b: seq<Item>)
    requires AllChildren(a) && tail.Tail? && AllChildren(b)
    ensures Children(a + [tail] + b) == Children(a) + Children(b)
    ensures LastTail(a + [tail] + b) == Some(Forget(tail.form)) && LastDot(a + [tail] + b) == tail.dotTrivia
    decreases |b|
  {
    hide Forget;
    var all := a + [tail] + b;
    if b == [] {
      assert all[..|all| - 1] == a && all[|all| - 1] == tail;
      assert Kept(tail) == [] && Children([]) == [];
    } else {
      var front := b[..|b| - 1];
      assert all[..|all| - 1] == a + [tail] + front && all[|all| - 1] == b[|b| - 1];
      ChildrenAfterTail(a, tail, front);
    }
  }

  /** The text of a node starts with its own trivia and then with its own first character. */
  lemma FirstCharacter(form: Form)
    requires Shaped(form) && NotDot(form)
    ensures var text := NodeText(Forget(form)); var n := |form.leading|;
            && n < |text| && text[..n] == form.leading && StartsForm(text[n])
            && (text[n] == '.' ==> n + 1 < |text| && !EndsAtom(text[n + 1]))
  {
    if form.ListForm? {
      ListText(form);
    }
  }

  /** No node that is not a dot can be read where a dot and its tail stand. */
  lemma DotIsNotANode(dotTrivia: string, tail: string, form: Form, rest: string)
    requires Closed(dotTrivia) && tail != "" && EndsAtom(tail[0])
    requires Shaped(form) && NotDot(form)
    ensures dotTrivia + "." + tail != NodeText(Forget(form)) + rest
  {
    var text := NodeText(Forget(form));
    var n := |form.leading|;
    FirstCharacter(form);
    hide Closed, Forget, NodeText, Shaped, NotDot;
    LeadingIsClosed(form);
    var after := text[n..] + rest;
    assert text + rest == form.leading + after && after[0] == text[n];
    assert dotTrivia + "." + tail == dotTrivia + ("." + tail);
    assert dotTrivia[0..] == dotTrivia && form.leading[0..] == form.leading;
    ClosedEndsAtForm(form.leading, after, 0);
    ClosedEndsAtForm(dotTrivia, "." + tail, 0);
    assert (dotTrivia + "." + tail)[|dotTrivia| + 1] == tail[0];
    assert text[n] == '.' ==> (text + rest)[n + 1] == text[n + 1];
  }

  lemma LeadingIsClosed(form: Form)
    requires Shaped(form)
    ensures Closed(form.leading)
  {
  }

  /** A form after the dotted one is moved in front of it, and that shows. */
  lemma FormAfterTailMoves(a: seq<Item>, tail: Item, b: seq<Item>)
    requires AllChildren(a) && tail.Tail? && AllChildren(b) && b != []
    requires ShapedItem(tail) && ShapedItems(b)
    ensures KeptText(a + [tail] + b) != ItemsText(a + [tail] + b)
  {
    hide Forget, NodeText, FormText, Shaped, NotDot, Closed, Children, NodesText, ItemsText, LastTail, LastDot;
    var all := a + [tail] + b;
    ChildrenAfterTail(a, tail, b);
    NodesTextSplit(Children(a), Children(b));
    ItemsTextSplit(a + [tail], b);
    ItemsTextAppend(a, tail);
    KeptNeverLonger(a);
    KeptNeverLonger(b);
    NeverLonger(tail.form);
    NoTail(a);
    NoTail(b);
    var first := b[0].form;
    var others := FirstChildText(b);
    var ka, kb, kt := NodesText(Children(a)), NodesText(Children(b)), NodeText(Forget(tail.form));
    var ia, ib, it := ItemsText(a), ItemsText(b), FormText(tail.form);
    var d := tail.dotTrivia;
    assert KeptText(all) == ka + kb + (d + "." + kt);
    assert ItemsText(all) == ia + (d + "." + it) + ib;
    if KeptText(all) == ItemsText(all) {
      assert |ka| == |ia|;
      assert KeptText(all)[|ka|..] == kb + (d + "." + kt);
      assert ItemsText(all)[|ia|..] == d + "." + (it + ib);
      assert kb + (d + "." + kt) == NodeText(Forget(first)) + (others + (d + "." + kt));
      DotIsNotANode(d, it + ib, first, others + (d + "." + kt));
    }
  }

  lemma {:induction false} FirstChildText(items: seq<Item>) returns (others: string)
    requires items != [] && AllChildren(items)
    ensures NodesText(Children(items)) == NodeText(Forget(items[0].form)) + others
  {
    LastChild(items);
    var front := items[..|items| - 1];
    if front == [] {
      others := "";
      assert NodesText(Children(front)) == "";
    } else {
      others := FirstChildText(front);
      others := others + NodeText(Forget(items[|items| - 1].form));
    }
  }

  lemma {:induction false} KeptTextFollowsGrammar(form: Form)
    requires Shaped(form) && NodeText(Forget(form)) == FormText(form)
    ensures FollowsGrammar(form)
    decreases form, 0
  {
    if form.ListForm? {
      var items := form.items;
      ListText(form);
      SameInside(form.leading + "(", KeptText(items), ItemsText(items), form.close + ")");
      assert form.leading + "(" + KeptText(items) + form.close + ")"
          == form.leading + "(" + KeptText(items) + (form.close + ")");
      KeptItemsFollow(items);
    }
  }

  lemma SameInside(a: string, x: string, y: string, b: string)
    ensures a + x + b == a + y + b ==> x == y
  {
    if a + x + b == a + y + b {
      assert (a + x + b)[|a|..|a| + |x|] == x;
      assert (a + y + b)[|a|..|a| + |y|] == y;
    }
  }

  /** A dot that is not in the last item, once in the tree, shows in the text. */
  lemma EarlyDotShows(items: seq<Item>, m: nat)
    requires m + 1 < |items| && items[m].Tail? && ShapedItems(items)
    ensures KeptText(items) != ItemsText(items)
  {
    hide KeptText, ItemsText, ShapedItem;
    var a, tail, b := items[..m], items[m], items[m + 1..];
    assert items == a + [tail] + b;
    if k :| 0 <= k < |items| && k != m && items[k].Tail? {
      SecondDotLosesText(items, if k < m then k else m, if k < m then m else k);
    } else {
      FormAfterTailMoves(a, tail, b);
    }
  }

  /** If a list ends with its only dot and keeps its text, both parts keep theirs. */
  lemma LastTailKept(items: seq<Item>)
    requires items != [] && items[|items| - 1].Tail? && AllChildren(items[..|items| - 1])
    requires KeptText(items) == ItemsText(items)
    ensures var (front, last) := (items[..|items| - 1], items[|items| - 1]);
            && NodesText(Children(front)) == ItemsText(front)
            && NodeText(Forget(last.form)) == FormText(last.form)
  {
    var front, last := items[..|items| - 1], items[|items| - 1];
    LastDotted(items);
    NoTail(front);
    KeptNeverLonger(front);
    NeverLonger(last.form);
    var ka, kt := NodesText(Children(front)), NodeText(Forget(last.form));
    var ia, it := ItemsText(front), FormText(last.form);
    var dot := last.dotTrivia + ".";
    assert |KeptText(front)| == |ka|;
    SameParts(ka, dot + kt, ia, dot + it);
    SameParts(dot, kt, dot, it);
  }

  lemma SameParts(a: string, b: string, c: string, d: string)
    requires a + b == c + d && |a| <= |c| && |b| <= |d|
    ensures a == c && b == d
  {
    assert |a| == |c|;
    assert (a + b)[..|a|] == a && (c + d)[..|a|] == c;
    assert (a + b)[|a|..] == b && (c + d)[|a|..] == d;
  }

  lemma KeptOfChildren(items: seq<Item>)
    requires AllChildren(items)
    ensures KeptText(items) == NodesText(Children(items))
  {
    NoTail(items);
  }

  lemma {:induction false} KeptItemsFollow(items: seq<Item>)
    requires ShapedItems(items) && KeptText(items) == ItemsText(items)
    ensures forall k :: 0 <= k < |items| - 1 ==> items[k].Child?
    ensures AllFollow(items)
    decreases items, 2
  {
    hide KeptText, Shaped, FormText, Forget, NodeText, NodesText, Children, ItemsText;
    if m :| 0 <= m < |items| - 1 && items[m].Tail? {
      EarlyDotShows(items, m);
    } else if AllChildren(items) {
      KeptOfChildren(items);
      KeptChildrenFollow(items);
    } else {
      var front, last := items[..|items| - 1], items[|items| - 1];
      LastTailKept(items);
      KeptChildrenFollow(front);
      KeptTextFollowsGrammar(last.form);
    }
  }

  /** Here a child may be a lone dot: at top level it is an atom like any other. */
  lemma {:induction false} KeptChildrenFollow(items: seq<Item>)
    requires AllChildren(items) && NodesText(Children(items)) == ItemsText(items)
    requires forall k :: 0 <= k < |items| ==> Shaped(items[k].form)
    ensures AllFollow(items)
    decreases items, 1
  {
    if items != [] {
      var front, last := items[..|items| - 1], items[|items| - 1];
      LastChild(items);
      KeptNeverLonger(front);
      NoTail(front);
      NeverLonger(last.form);
      assert |KeptText(front)| == |NodesText(Children(front))|;
      SameParts(NodesText(Children(front)), NodeText(Forget(last.form)), ItemsText(front), FormText(last.form));
      KeptChildrenFollow(front);
      assert items decreases to last;
      KeptTextFollowsGrammar(last.form);
    }
  }

  // --- the round trip ------------------------------------------------------------------------------

  lemma {:induction false} ParseRestShape(s: string, t: nat, items: seq<Item>)
    requires t <= |s| && ParseRest(s, t, items).Success? && AllChildren(items)
    requires forall k :: 0 <= k < |items| ==> Shaped(items[k].form)
    ensures var r := ParseRest(s, t, items).value.items;
            AllChildren(r) && forall k :: 0 <= k < |r| ==> Shaped(r[k].form)
    decreases |s| - t
  {
    hide Shaped;
    var i := TriviaEnd(s, t);
    if i < |s| {
      ParseFormShape(s, t, i);
      ParseRestShape(s, ParseForm(s, t, i).value.end, items + [Child(ParseForm(s, t, i).value.form)]);
    }
  }

  /** Every list of the source is one of the documented grammar. */
  predicate SourceFollowsGrammar(s: string) {
    var r := ParseRest(s, 0, []);
    r.Success? && AllFollow(r.value.items)
  }

  lemma TextComesBack(s: string)
    requires ParseCst(s).Success?
    ensures ProgramText(ParseCst(s).value) == s <==> SourceFollowsGrammar(s)
  {
    var r := ParseRest(s, 0, []).value;
    ParseRestText(s, 0, []);
    ParseRestShape(s, 0, []);
    var kept := NodesText(Children(r.items));
    SameInside("", kept, ItemsText(r.items), r.trailing);
    assert "" + kept == kept && "" + ItemsText(r.items) == ItemsText(r.items);
    if SourceFollowsGrammar(s) {
      ChildrenKeepText(r.items);
    }
    if ProgramText(ParseCst(s).value) == s {
      KeptChildrenFollow(r.items);
    }
  }

  /** Parsing and collecting, as the two programs run. */
  method ParseAndCollect(s: string) returns (text: Result<string, Error>)
    ensures text.Success? <==> ParseCst(s).Success?
    ensures text.Success? ==> (text.value == s <==> SourceFollowsGrammar(s))
  {
    var program :- CstParser.Parse(s);
    TextComesBack(s);
    var collected := CollectText(program);
    text := Success(collected);
  }

  // --- spans ------------------------------------------------------------------------------------------

  function OwnText(form: Form): string {
    match form
    case AtomForm(_, text, _, _) => text
    case ListForm(items, _, _, close) => "(" + ItemsText(items) + close + ")"
  }

  /** Each form's text stands in the source at the offsets that its span gives. */
  ghost predicate Located(s: string, form: Form)
    decreases form
  {
    && (exists i, j :: 0 <= i <= j <= |s| && s[i..j] == OwnText(form) && form.span == SpanOf(s, i, j))
    && (form.ListForm? ==> forall k :: 0 <= k < |form.items| ==> Located(s, form.items[k].form))
  }

  ghost predicate AllLocated(s: string, items: seq<Item>) {
    forall k :: 0 <= k < |items| ==> Located(s, items[k].form)
  }

  lemma {:induction false} FormIsLocated(s: string, t: nat, i: nat)
    requires t <= i < |s| && StartsForm(s[i]) && ParseForm(s, t, i).Success?
    ensures Located(s, ParseForm(s, t, i).value.form)
    decreases |s| - i, 0
  {
    hide Line, Column, ParseAtom, OwnText;
    var r := ParseForm(s, t, i).value;
    if s[i] == '(' {
      ItemsAreLocated(s, i, i + 1, []);
    }
    OwnTextOfForm(s, t, i);
    assert s[i..r.end] == OwnText(r.form) && r.form.span == SpanOf(s, i, r.end);
  }

  lemma OwnTextOfForm(s: string, t: nat, i: nat)
    requires t <= i < |s| && StartsForm(s[i]) && ParseForm(s, t, i).Success?
    ensures var r := ParseForm(s, t, i).value;
            && s[i..r.end] == OwnText(r.form) && r.form.span == SpanOf(s, i, r.end)
            && (r.form.ListForm? <==> s[i] == '(')
  {
    if s[i] == '(' {
      ListOpens(s, t, i);
      hide ParseItems, ParseForm, SpanOf, ItemsText, ReadsForm, ReadsList, ReadSoFar;
      StartsEmpty(s, i + 1);
      ParseItemsText(s, i, i + 1, []);
      var list := ParseItems(s, i, i + 1, []).value;
      ReadsOpened(s, t, i, list, SpanOf(s, i, list.end));
    } else {
      AtomRead(s, t, i);
    }
  }

  lemma {:induction false} ItemsAreLocated(s: string, start: nat, t: nat, items: seq<Item>)
    requires start < t <= |s| && ParseItems(s, start, t, items).Success? && AllLocated(s, items)
    ensures AllLocated(s, ParseItems(s, start, t, items).value.items)
    decreases |s| - t, 1
  {
    hide Located;
    var i := TriviaEnd(s, t);
    if s[i] == ')' {
    } else if DotAt(s, i) {
      var k := TriviaEnd(s, i + 1);
      FormIsLocated(s, i + 1, k);
      var tail := ParseForm(s, i + 1, k).value;
      ItemsAreLocated(s, start, tail.end, items + [Tail(s[t..i], tail.form)]);
    } else {
      FormIsLocated(s, t, i);
      var child := ParseForm(s, t, i).value;
      ItemsAreLocated(s, start, child.end, items + [Child(child.form)]);
    }
  }

  lemma {:induction false} ProgramIsLocated(s: string, t: nat, items: seq<Item>)
    requires t <= |s| && ParseRest(s, t, items).Success? && AllLocated(s, items)
    ensures AllLocated(s, ParseRest(s, t, items).value.items)
    decreases |s| - t
  {
    hide Located;
    var i := TriviaEnd(s, t);
    if i < |s| {
      FormIsLocated(s, t, i);
      ProgramIsLocated(s, ParseForm(s, t, i).value.end, items + [Child(ParseForm(s, t, i).value.form)]);
    }
  }

  /** Line and column order offsets as the source does, so a span names one piece of it. */
  lemma {:induction false} PositionsIncrease(s: string, i: nat, j: nat)
    requires i < j <= |s|
    ensures Line(s, i) < Line(s, j) || (Line(s, i) == Line(s, j) && Column(s, i) < Column(s, j))
  {
    if i + 1 < j {
      PositionsIncrease(s, i, j - 1);
    }
  }

  lemma SpanNamesOnePiece(s: string, i: nat, j: nat, i': nat, j': nat)
    requires i <= |s| && j <= |s| && i' <= |s| && j' <= |s| && SpanOf(s, i, j) == SpanOf(s, i', j')
    ensures i == i' && j == j'
  {
    if i < i' { PositionsIncrease(s, i, i'); }
    if i' < i { PositionsIncrease(s, i', i); }
    if j < j' { PositionsIncrease(s, j, j'); }
    if j' < j { PositionsIncrease(s, j', j); }
  }
}

/**
 Which sources the CST parser refuses, with which error and where (qy/frontend/cst_parser.py):
 forms and items stand in the source up to a place where none can follow.
 */
module CstRefusal {
  import opened Wrappers
  import opened Cst
  import opened CstGrammar
  import opened CstExact

  // --- strings that nothing closes ---------------------------------------------------------------

  ghost predicate NoQuote(s: string, b: nat, raw: bool) { forall c :: !PlainQuote(s, b, c, raw) }

  ghost predicate NoTriple(s: string, b: nat) { forall c :: b <= c ==> !Triple(s, c) }

  ghost predicate OpenFrom(s: string, i: nat, q: int, error: Error) {
    && i <= |s| && Opens(s, i, q)
    && if Triple(s, q) then NoTriple(s, q + 3) && error == UnterminatedMultiline(SpanOf(s, i, |s|))
       else NoQuote(s, q + 1, s[i..q] == "r" || s[i..q] == "R") && error == UnterminatedString(SpanOf(s, i, |s|))
  }

  /** The atom opens a string that is not closed. */
  ghost predicate AtomFails(s: string, i: nat, error: Error) { exists q :: OpenFrom(s, i, q, error) }

  lemma AtomFailsExact(s: string, t: nat, i: nat, error: Error)
    requires t <= i < |s| && !Delimits(s[i])
    ensures ParseAtom(s, t, i) == Failure(error) <==> AtomFails(s, i, error)
  {
    QuoteExact(s, i);
    var q := QuoteAhead(s, i);
    if q.Some? {
      StringFails(s, t, i, q.value, error);
      hide ParseAtom, Opens, Triple, NoTriple, NoQuote, SpanOf;
      assert Opens(s, i, q.value);
      if AtomFails(s, i, error) {
        var p :| OpenFrom(s, i, p, error);
        assert QuoteAhead(s, i) == Some(p);
      }
    } else {
      hide Opens, SpanOf;
    }
  }

  lemma StringFails(s: string, t: nat, i: nat, q: nat, error: Error)
    requires t <= i < |s| && !Delimits(s[i]) && QuoteAhead(s, i) == Some(q)
    ensures ParseAtom(s, t, i) == Failure(error) <==> OpenFrom(s, i, q, error)
  {
    hide *;
    OpensAhead(s, i, q);
    StringUnread(s, t, i, q, error);
    if TripleAt(s, q) { NoTripleExact(s, q + 3); } else { NoQuoteExact(s, q + 1, IsRawTag(s[i..q])); }
    OpenUnfolds(s, i, q, error);
  }

  lemma OpensAhead(s: string, i: nat, q: nat)
    requires i < |s| && QuoteAhead(s, i) == Some(q)
    ensures Opens(s, i, q) && (TripleAt(s, q) <==> Triple(s, q)) && (TripleAt(s, q) ==> q + 3 <= |s|)
  {
    QuoteExact(s, i);
  }

  lemma OpenUnfolds(s: string, i: nat, q: nat, error: Error)
    requires i <= q < |s| && Opens(s, i, q)
    ensures OpenFrom(s, i, q, error) <==>
            if Triple(s, q) then NoTriple(s, q + 3) && error == UnterminatedMultiline(SpanOf(s, i, |s|))
            else NoQuote(s, q + 1, IsRawTag(s[i..q])) && error == UnterminatedString(SpanOf(s, i, |s|))
  {
    hide NoTriple, NoQuote, SpanOf, Triple;
  }

  lemma StringUnread(s: string, t: nat, i: nat, q: nat, error: Error)
    requires t <= i < |s| && !Delimits(s[i]) && QuoteAhead(s, i) == Some(q)
    ensures ParseAtom(s, t, i) == Failure(error) <==>
            if TripleAt(s, q) then MultilineEnd(s, q + 3).None? && error == UnterminatedMultiline(SpanOf(s, i, |s|))
            else StringEnd(s, q + 1, IsRawTag(s[i..q])).None? && error == UnterminatedString(SpanOf(s, i, |s|))
  {
    hide StringEnd, MultilineEnd, SpanOf;
  }

  lemma NoTripleExact(s: string, b: nat)
    requires b <= |s|
    ensures MultilineEnd(s, b).None? <==> NoTriple(s, b)
  {
    MultilineExact(s, b);
  }

  lemma NoQuoteExact(s: string, b: nat, raw: bool)
    requires b <= |s|
    ensures StringEnd(s, b, raw).None? <==> NoQuote(s, b, raw)
  {
    StringExact(s, b, raw);
    hide PlainQuote, StringEnd;
  }

  // --- forms that fail ---------------------------------------------------------------------------

  /** The items stand behind the parenthesis at `i`, up to `m`. */
  ghost predicate Stand(s: string, i: nat, m: nat, items: seq<Item>) { i < m <= |s| && ItemsAre(s, i + 1, m, items) }

  ghost predicate TriviaBehind(s: string, j: nat, k: nat) { TriviaSpan(s, j + 1, k) }

  /** At `i`, behind trivia from `t` on, a form begins that cannot be read. */
  ghost predicate FormFails(s: string, t: nat, i: nat, error: Error)
    decreases |s| - i, 1
  {
    && i < |s| && TriviaSpan(s, t, i)
    && if s[i] == '(' then exists m: nat, items :: Stand(s, i, m, items) && FailsBehind(s, i, m, error)
       else if s[i] == ')' then error == UnexpectedClose(Span(Line(s, i), Column(s, i), Line(s, i), Column(s, i) + 1))
       else AtomFails(s, i, error)
  }

  /** Behind the items up to `m`, the list that was opened at `start` cannot go on. */
  ghost predicate FailsBehind(s: string, start: nat, m: nat, error: Error)
    requires start < m <= |s|
    decreases |s| - m, 3
  {
    exists j: nat :: TriviaSpan(s, m, j) && FailsAt(s, start, m, j, error)
  }

  ghost predicate FailsAt(s: string, start: nat, m: nat, j: nat, error: Error)
    requires start < m <= j <= |s|
    decreases |s| - m, 2
  {
    if j == |s| then error == UnclosedList(SpanOf(s, start, |s|))
    else if Dot(s, j) then exists k: nat :: TriviaBehind(s, j, k) && TailFails(s, j, k, error)
    else s[j] != ')' && FormFails(s, m, j, error)
  }

  /** No form follows the dot at `j`, or one that cannot be read. */
  ghost predicate TailFails(s: string, j: nat, k: nat, error: Error)
    requires j < k <= |s|
    decreases |s| - k, 2
  {
    if k == |s| || s[k] == ')' then error == MissingTail(SpanOf(s, k, k)) else FormFails(s, j + 1, k, error)
  }

  lemma {:induction false} FormFailsExact(s: string, t: nat, i: nat, error: Error)
    requires t <= i < |s| && TriviaEnd(s, t) == i
    ensures ParseForm(s, t, i) == Failure(error) <==> FormFails(s, t, i, error)
    decreases |s| - i, 4
  {
    TriviaExact(s, t, i);
    if s[i] == '(' {
      ListOpens(s, t, i);
      hide ParseForm, ParseItems, TriviaSpan, ItemsAre, FailsBehind, TriviaEnd;
      if ParseItems(s, i, i + 1, []) == Failure(error) {
        NoItems(s, i + 1);
        var m, items := ItemsFail(s, i, i + 1, [], error);
        assert Stand(s, i, m, items);
      }
      if FormFails(s, t, i, error) {
        var m: nat, items :| Stand(s, i, m, items) && FailsBehind(s, i, m, error);
        ItemsAreRead(s, i, m, items);
        BehindFails(s, i, m, items, error);
      }
    } else if s[i] != ')' {
      AtomFailsExact(s, t, i, error);
      hide AtomFails, ParseAtom, TriviaSpan, TriviaEnd;
    }
  }

  lemma NoItems(s: string, a: nat)
    ensures ItemsAre(s, a, a, [])
  {
  }

  /** What comes behind items that have been read. */
  lemma {:induction false} BehindFails(s: string, start: nat, m: nat, items: seq<Item>, error: Error)
    requires start < m <= |s| && FailsBehind(s, start, m, error)
    ensures ParseItems(s, start, m, items) == Failure(error)
    decreases |s| - m, 6
  {
    hide ParseItems, FailsAt;
    var j: nat :| TriviaSpan(s, m, j) && FailsAt(s, start, m, j, error);
    PlaceFails(s, start, m, j, items, error);
  }

  lemma TriviaIsWithin(s: string, t: nat, i: int)
    requires TriviaSpan(s, t, i)
    ensures t <= i <= |s| && TriviaEnd(s, t) == i
  {
    TriviaExact(s, t, i);
  }

  lemma {:induction false} PlaceFails(s: string, start: nat, m: nat, j: nat, items: seq<Item>, error: Error)
    requires start < m <= j <= |s| && TriviaSpan(s, m, j) && FailsAt(s, start, m, j, error)
    ensures ParseItems(s, start, m, items) == Failure(error)
    decreases |s| - m, 5
  {
    hide ParseItems, ParseForm, TriviaSpan, TriviaEnd, FormFails, ParseTail, SpanOf, TailFails, Dot;
    TriviaIsWithin(s, m, j);
    if j == |s| {
      ItemsEnd(s, start, m, items);
    } else {
      DotExact(s, j);
      if Dot(s, j) {
        TailFailsExact(s, j, error);
        ItemsTail(s, start, m, items);
      } else {
        FormFailsExact(s, m, j, error);
        ItemsChild(s, start, m, items);
      }
    }
  }

  lemma {:induction false} TailFailsExact(s: string, j: nat, error: Error)
    requires j < |s|
    ensures ParseTail(s, j) == Failure(error) <==> exists k: nat :: TriviaBehind(s, j, k) && TailFails(s, j, k, error)
    decreases |s| - j, 3
  {
    var k := TriviaEnd(s, j + 1);
    TriviaExact(s, j + 1, k);
    assert TriviaBehind(s, j, k);
    OneTriviaBehind(s, j, k);
    if k < |s| { FormFailsExact(s, j + 1, k, error); }
    hide ParseForm, FormFails, TriviaBehind, TriviaEnd, SpanOf;
  }

  lemma OneTriviaBehind(s: string, j: nat, k: nat)
    requires j < |s| && TriviaBehind(s, j, k)
    ensures forall l: nat :: TriviaBehind(s, j, l) ==> l == k
  {
    hide TriviaSpan;
    TriviaIsWithin(s, j + 1, k);
    forall l: nat | TriviaBehind(s, j, l) ensures l == k { TriviaIsWithin(s, j + 1, l); }
  }

  lemma {:induction false} ItemsFail(s: string, start: nat, t: nat, items: seq<Item>, error: Error) returns (m: nat, all: seq<Item>)
    requires start < t <= |s| && ItemsAre(s, start + 1, t, items) && ParseItems(s, start, t, items) == Failure(error)
    ensures start < m <= |s| && ItemsAre(s, start + 1, m, all) && FailsBehind(s, start, m, error)
    decreases |s| - t, 5
  {
    var i := TriviaEnd(s, t);
    TriviaExact(s, t, i);
    m, all := t, items;
    hide ParseItems, ParseForm, TriviaSpan, TriviaEnd, FormFails, ItemsAre;
    if i == |s| {
      ItemsEnd(s, start, t, items);
      assert FailsAt(s, start, t, i, error);
    } else if s[i] == ')' {
      ItemsClose(s, start, t, items);
    } else {
      DotExact(s, i);
      if Dot(s, i) {
        ItemsTail(s, start, t, items);
        if ParseTail(s, i).Failure? {
          TailFailsExact(s, i, error);
          assert FailsAt(s, start, t, i, error);
        } else {
          var tail := TailStands(s, t, i, start, items);
          m, all := ItemsFail(s, start, tail.end, items + [Tail(s[t..i], tail.form)], error);
        }
      } else {
        ItemsChild(s, start, t, items);
        if ParseForm(s, t, i).Failure? {
          FormFailsExact(s, t, i, error);
          assert FailsAt(s, start, t, i, error);
        } else {
          var child := ChildStands(s, t, i, start, items);
          m, all := ItemsFail(s, start, child.end, items + [Child(child.form)], error);
        }
      }
    }
  }

  lemma TailStands(s: string, t: nat, i: nat, start: nat, items: seq<Item>) returns (tail: Parsed)
    requires start < t <= i < |s| && TriviaEnd(s, t) == i && Dot(s, i) && ItemsAre(s, start + 1, t, items)
    requires ParseTail(s, i).Success?
    ensures ParseTail(s, i) == Success(tail) && ItemsAre(s, start + 1, tail.end, items + [Tail(s[t..i], tail.form)])
  {
    hide *;
    TriviaExact(s, t, i);
    tail := ParseTail(s, i).value;
    TailIsForm(s, i);
    var k := TriviaEnd(s, i + 1);
    FormRead(s, i + 1, k);
    TailItem(s, t, i, k, tail.end, tail.form);
    AppendItem(s, start + 1, t, tail.end, items, Tail(s[t..i], tail.form));
  }

  lemma ChildStands(s: string, t: nat, i: nat, start: nat, items: seq<Item>) returns (child: Parsed)
    requires start < t <= i < |s| && TriviaEnd(s, t) == i && !Dot(s, i) && ItemsAre(s, start + 1, t, items)
    requires StartsForm(s[i]) && ParseForm(s, t, i).Success?
    ensures ParseForm(s, t, i) == Success(child) && ItemsAre(s, start + 1, child.end, items + [Child(child.form)])
  {
    hide *;
    child := ParseForm(s, t, i).value;
    FormRead(s, t, i);
    ChildItem(s, t, i, child.end, child.form);
    AppendItem(s, start + 1, t, child.end, items, Child(child.form));
  }

  // --- programs ------------------------------------------------------------------------------------

  /** Forms stand in the source up to `t`, and the one behind them cannot be read. */
  ghost predicate Refused(s: string, error: Error) {
    exists t: nat, i: nat, items :: FormsAre(s, 0, t, items) && t <= |s| && FormFails(s, t, i, error)
  }

  lemma {:induction false} RestFails(s: string, t: nat, items: seq<Item>, error: Error)
    requires t <= |s| && FormsAre(s, 0, t, items) && ParseRest(s, t, items) == Failure(error)
    ensures Refused(s, error)
    decreases |s| - t
  {
    var i := TriviaEnd(s, t);
    hide ParseForm, TriviaSpan, TriviaEnd, FormsAre, SpanOf, FormIs, FormFails;
    assert i < |s|;
    if ParseForm(s, t, i).Failure? {
      FormFailsExact(s, t, i, error);
    } else {
      FormRead(s, t, i);
      var child := ParseForm(s, t, i).value;
      AppendForm(s, 0, t, i, child.end, items, child.form);
      RestFails(s, child.end, items + [Child(child.form)], error);
    }
  }

  /** The parser stops with an error exactly at a form that cannot be read behind forms that can. */
  lemma RefusalExact(s: string, error: Error)
    ensures ParseCst(s) == Failure(error) <==> Refused(s, error)
  {
    assert FormsAre(s, 0, 0, []);
    if ParseCst(s) == Failure(error) { RestFails(s, 0, [], error); }
    if Refused(s, error) {
      var t: nat, i: nat, items :| FormsAre(s, 0, t, items) && t <= |s| && FormFails(s, t, i, error);
      assert TriviaSpan(s, t, i) && i < |s|;
      hide ParseForm, TriviaSpan, TriviaEnd, FormsAre, SpanOf, FormFails;
      FormsAreRead(s, t, items);
      TriviaExact(s, t, i);
      FormFailsExact(s, t, i, error);
    }
  }
}

/**
 Which sources the Go reader accepts, and what it reads (go-reader/lexer.go,
 go-reader/parser.go), said by where tokens stand in the source and by trees of tokens, not by
 how either is scanned.
 */
module GoExact {
  import opened Wrappers
  import opened GoForm
  import opened GoLexer
  import opened GoParser
  import CstGrammar
  import CstExact

  // --- gaps -------------------------------------------------------------------------------------

  /** Up to `n` stand spaces and comments, and at `n` neither, or the end. */
  ghost predicate Gap(r: string, n: int) {
    && 0 <= n <= |r|
    && (forall p :: 0 <= p < n ==> IsSpace(r[p]) || r[p] == ';' || CstExact.InComment(r, 0, p))
    && (n < |r| ==> !IsSpace(r[n]) && r[n] != ';' && !CstExact.InComment(r, 0, n))
  }

  lemma CommentShifts(r: string, m: nat, p: int)
    requires m <= |r| && CstExact.InComment(r[m..], 0, p)
    ensures CstExact.InComment(r, 0, p + m)
  {
    var q :| CstExact.CommentFrom(r[m..], 0, q, p);
    forall k | q + m <= k < p + m ensures r[k] != '\n' { assert r[k] == r[m..][k - m]; }
    assert CstExact.CommentFrom(r, 0, q + m, p + m);
  }

  /** No comment reaches over the start of a rest that begins behind it. */
  lemma CommentShiftsBack(r: string, m: nat, p: int)
    requires m <= |r| && CstExact.InComment(r, 0, p) && m < p
    requires (m == 1 && IsSpace(r[0])) || (m < |r| && r[m] == '\n')
    ensures CstExact.InComment(r[m..], 0, p - m)
  {
    var q :| CstExact.CommentFrom(r, 0, q, p);
    assert m <= q;
    assert CstExact.CommentFrom(r[m..], 0, q - m, p - m);
  }

  lemma {:induction false} CommentEnds(r: string) returns (n: nat)
    ensures n <= |r| && AfterComment(r) == r[n..] && (forall k :: 0 <= k < n ==> r[k] != '\n') && (n < |r| ==> r[n] == '\n')
  {
    if r == "" || r[0] == '\n' {
      n := 0;
    } else {
      n := CommentEnds(r[1..]);
      forall k | 0 <= k < n + 1 ensures r[k] != '\n' { if k > 0 { assert r[k] == r[1..][k - 1]; } }
      n := n + 1;
    }
  }

  lemma {:induction false} SpaceIsGap(r: string) returns (n: nat)
    ensures n <= |r| && AfterSpace(r) == r[n..] && Gap(r, n)
    decreases |r|
  {
    hide Gap, AfterComment;
    if r == "" {
      n := 0;
      NoGap(r);
    } else if IsSpace(r[0]) {
      var m := SpaceIsGap(r[1..]);
      n := m + 1;
      GapBehind(r, 1, m);
      RestOfRest(r, 1, m);
    } else if r[0] == ';' {
      var c := CommentEnds(r[1..]);
      CommentText(r, c);
      var m := SpaceIsGap(r[c + 1..]);
      n := c + 1 + m;
      CommentGap(r, c + 1);
      GapBehind(r, c + 1, m);
      RestOfRest(r, c + 1, m);
    } else {
      n := 0;
      NoGap(r);
    }
  }

  lemma NoGap(r: string)
    requires r != "" ==> !IsSpace(r[0]) && r[0] != ';'
    ensures Gap(r, 0) && r[0..] == r
  {
  }

  lemma RestOfRest(r: string, a: nat, b: nat)
    requires a <= |r| && b <= |r| - a
    ensures r[a..][b..] == r[a + b..]
  {
  }

  lemma CommentText(r: string, c: nat)
    requires r != "" && r[0] == ';' && c <= |r[1..]| && (forall k :: 0 <= k < c ==> r[1..][k] != '\n')
    requires c < |r[1..]| ==> r[1..][c] == '\n'
    ensures (forall k :: 0 <= k < c + 1 ==> r[k] != '\n') && (c + 1 < |r| ==> r[c + 1] == '\n') && r[1..][c..] == r[c + 1..]
  {
    forall k | 0 <= k < c + 1 ensures r[k] != '\n' { if k > 0 { assert r[k] == r[1..][k - 1]; } }
  }

  lemma CommentGap(r: string, c: nat)
    requires 0 < c <= |r| && r[0] == ';' && forall k :: 0 <= k < c ==> r[k] != '\n'
    ensures forall p :: 0 < p <= c ==> CstExact.InComment(r, 0, p)
  {
    forall p | 0 < p <= c ensures CstExact.InComment(r, 0, p) { assert CstExact.CommentFrom(r, 0, 0, p); }
  }

  lemma GapBehind(r: string, m: nat, n: nat)
    requires m <= |r| && Gap(r[m..], n)
    requires (m == 1 && IsSpace(r[0])) || (0 < m && (m < |r| ==> r[m] == '\n'))
    requires forall p :: 0 <= p < m ==> IsSpace(r[p]) || r[p] == ';' || CstExact.InComment(r, 0, p)
    ensures Gap(r, m + n)
  {
    forall p | m <= p < m + n ensures IsSpace(r[p]) || r[p] == ';' || CstExact.InComment(r, 0, p) {
      assert r[p] == r[m..][p - m];
      if CstExact.InComment(r[m..], 0, p - m) { CommentShifts(r, m, p - m); }
    }
    if m + n < |r| {
      assert r[m + n] == r[m..][n];
      if CstExact.InComment(r, 0, m + n) {
        if n > 0 {
          CommentShiftsBack(r, m, m + n);
        } else {
          var q :| CstExact.CommentFrom(r, 0, q, m);
        }
      }
    }
  }

  /** What is left behind spaces and comments begins at the one place where they end. */
  lemma SpaceExact(r: string, n: nat)
    requires n <= |r|
    ensures AfterSpace(r) == r[n..] <==> Gap(r, n)
  {
    var m := SpaceIsGap(r);
    if n != m { assert |r[n..]| != |r[m..]|; }
  }

  // --- strings -------------------------------------------------------------------------------------

  /** Both readers end a string that is not raw, and three quotes, at the same place. */
  lemma {:induction false} StringsEndAlike(r: string, j: nat)
    requires j <= |r|
    ensures QuotedEnd(r, j) == CstGrammar.StringEnd(r, j, false)
    decreases |r| - j
  {
    if j < |r| {
      if r[j] == '\\' {
        if j + 1 < |r| { StringsEndAlike(r, j + 2); }
      } else if r[j] != '"' {
        StringsEndAlike(r, j + 1);
      }
    }
  }

  lemma {:induction false} TriplesEndAlike(r: string, j: nat)
    requires j <= |r|
    ensures MultilineEnd(r, j) == CstGrammar.MultilineEnd(r, j)
    decreases |r| - j
  {
    if j < |r| && !TripleAt(r, j) { TriplesEndAlike(r, j + 1); }
  }

  /** A raw string may end in a backslash for the Python reader, but not for the Go reader. */
  lemma RawStringsEndApart()
    ensures var source := "r\"\\\"";
            && CstGrammar.StringEnd(source, 2, true) == Some(4) && QuotedEnd(source, 2) == None
            && Tokens(source) == Failure(UnterminatedString)
  {
    var source := "r\"\\\"";
    assert source[0] == 'r' && source[1] == '"' && source[2] == '\\' && source[3] == '"' && |source| == 4;
    assert CstGrammar.StringEnd(source, 3, true) == Some(4);
    assert QuotedEnd(source, 4) == None;
    assert !TripleAt(source, 1);
    assert NextOf(source) == Failure(UnterminatedString);
  }

  // --- tokens --------------------------------------------------------------------------------------

  /** A string opens at `q`, directly behind a tag or nothing. */
  predicate OpensAt(r: string, q: int) {
    && 0 <= q < |r| && r[q] == '"' && (forall k :: 0 <= k < q ==> !IsBareTerminator(r[k]))
    && (q == 0 || IsValidTagPrefix(r[..q]))
  }

  /** The token's kind goes by the tag and by three quotes or one. */
  function KindOf(tag: string, triple: bool): TokenType {
    if tag == "" then if triple then MultilineSymbol else QuotedSymbol
    else if tag == "r" || tag == "R" then if triple then RawMultilineSymbol else RawQuotedSymbol
    else if triple then TaggedMultilineSymbol else TaggedQuotedSymbol
  }

  /** The first `e` characters are a string that opens at `q`. */
  predicate StringIs(r: string, q: int, e: int) {
    && OpensAt(r, q) && q < e
    && if CstExact.Triple(r, q) then CstExact.ClosesTriple(r, q + 3, e - 3) else CstExact.Closes(r, q + 1, e - 1, false)
  }

  /** A token at the start of `r`. */
  ghost predicate TokenIs(r: string, token: Token) {
    var e := |token.value|;
    && 0 < e <= |r| && token.value == r[..e]
    && if r[0] == '(' then token == Token(LParen, "(")
       else if r[0] == ')' then token == Token(RParen, ")")
       else if exists q :: OpensAt(r, q) then
         exists q :: StringIs(r, q, e) && token.typ == KindOf(r[..q], CstExact.Triple(r, q))
       else
         && (forall k :: 0 <= k < e ==> !IsBareTerminator(r[k])) && (e < |r| ==> IsBareTerminator(r[e]))
         && token.typ == if token.value == "." then Dot else BareSymbol
  }

  ghost predicate NoQuoteFrom(r: string, b: nat) { forall c :: !CstExact.PlainQuote(r, b, c, false) }

  ghost predicate NoTripleFrom(r: string, b: int) { forall c :: b <= c ==> !CstExact.Triple(r, c) }

  ghost predicate UnclosedAt(r: string, q: int, error: Error) {
    && OpensAt(r, q)
    && if CstExact.Triple(r, q) then error == UnterminatedMultiline && NoTripleFrom(r, q + 3)
       else error == UnterminatedString && NoQuoteFrom(r, q + 1)
  }

  /** A string opens at the start of `r` and nothing closes it. */
  ghost predicate Unclosing(r: string, error: Error) {
    r != "" && r[0] != '(' && r[0] != ')' && exists q :: UnclosedAt(r, q, error)
  }

  lemma OneOpening(r: string, p: int, q: int)
    requires OpensAt(r, p) && OpensAt(r, q)
    ensures p == q
  {
  }

  lemma LiteralExact(r: string, q: nat, token: Token, rest: string)
    requires OpensAt(r, q)
    ensures Literal(r, q) == Success(Next(token, rest)) <==>
              var e := |token.value|;
              && e <= |r| && token.value == r[..e] && rest == r[e..] && StringIs(r, q, e)
              && token.typ == KindOf(r[..q], CstExact.Triple(r, q))
  {
    KindsAgree(r[..q]);
    if TripleAt(r, q) {
      TriplesEndAlike(r, q + 3);
      CstExact.MultilineExact(r, q + 3);
    } else {
      StringsEndAlike(r, q + 1);
      CstExact.StringExact(r, q + 1, false);
    }
    hide QuotedEnd, MultilineEnd, CstGrammar.StringEnd, CstGrammar.MultilineEnd, OpensAt, KindOf, CstExact.Closes,
      CstExact.ClosesTriple, QuotedType, MultilineType;
  }

  lemma KindsAgree(tag: string)
    ensures QuotedType(tag) == KindOf(tag, false) && MultilineType(tag) == KindOf(tag, true)
  {
  }

  /** Where a string opens, it is read; the tags `r` and `R` are no exception. */
  lemma OpeningIsRead(r: string, q: nat)
    requires OpensAt(r, q) && r[0] != '(' && r[0] != ')' && !IsSpace(r[0]) && r[0] != ';'
    ensures NextOf(r) == Literal(r, q)
  {
    if q > 0 {
      var e := BareEnd(r, 0);
      assert e == q;
    }
  }

  lemma BareIsRead(r: string)
    requires r != "" && r[0] != '(' && r[0] != ')' && !IsSpace(r[0]) && r[0] != ';' && forall q :: !OpensAt(r, q)
    ensures var e := BareEnd(r, 0);
            && e > 0 && NextOf(r) == Success(Next(Token(if r[..e] == "." then Dot else BareSymbol, r[..e]), r[e..]))
  {
    assert !OpensAt(r, 0);
    var e := BareEnd(r, 0);
    assert !OpensAt(r, e);
    assert !OpensAt(r, 1);
  }

  lemma TokenExact(r: string, token: Token, rest: string)
    requires r != "" && !IsSpace(r[0]) && r[0] != ';'
    ensures NextOf(r) == Success(Next(token, rest)) <==> TokenIs(r, token) && rest == r[|token.value|..]
  {
    if r[0] == '(' || r[0] == ')' {
      assert r[..1] == [r[0]];
    } else if q :| OpensAt(r, q) {
      OpeningIsRead(r, q);
      LiteralExact(r, q, token, rest);
      assert forall p :: OpensAt(r, p) ==> p == q by {
        forall p | OpensAt(r, p) ensures p == q { OneOpening(r, p, q); }
      }
      hide NextOf, Literal, KindOf, OpensAt;
    } else {
      BareIsRead(r);
    }
  }

  lemma UnclosedExact(r: string, error: Error)
    requires r != "" && !IsSpace(r[0]) && r[0] != ';'
    ensures NextOf(r) == Failure(error) <==> Unclosing(r, error)
  {
    if r[0] == '(' || r[0] == ')' {
    } else if q :| OpensAt(r, q) {
      OpeningIsRead(r, q);
      LiteralFails(r, q, error);
      hide NextOf, Literal, OpensAt, UnclosedAt;
      forall p | UnclosedAt(r, p, error) ensures p == q { UnclosedOpens(r, p, error); OneOpening(r, p, q); }
    } else {
      BareIsRead(r);
      forall q ensures !UnclosedAt(r, q, error) { assert !OpensAt(r, q); }
    }
  }

  lemma UnclosedOpens(r: string, q: int, error: Error)
    ensures UnclosedAt(r, q, error) ==> OpensAt(r, q)
  {
  }

  lemma LiteralFails(r: string, q: nat, error: Error)
    requires OpensAt(r, q)
    ensures Literal(r, q) == Failure(error) <==> UnclosedAt(r, q, error)
  {
    if TripleAt(r, q) {
      TriplesEndAlike(r, q + 3);
      CstExact.MultilineExact(r, q + 3);
    } else {
      StringsEndAlike(r, q + 1);
      CstExact.StringExact(r, q + 1, false);
    }
    hide QuotedEnd, MultilineEnd, CstGrammar.StringEnd, CstGrammar.MultilineEnd, CstExact.PlainQuote, OpensAt;
  }

  /** The tokens of a source stand in it one behind the other, between gaps, up to its end. */
  ghost predicate TokensAre(r: string, ts: seq<Token>)
    decreases |ts|, 1
  {
    exists n :: Gap(r, n) && if n == |r| then ts == [END] else TokensFrom(r[n..], ts)
  }

  ghost predicate TokensFrom(r: string, ts: seq<Token>)
    decreases |ts|, 0
  {
    ts != [] && TokenIs(r, ts[0]) && TokensAre(r[|ts[0].value|..], ts[1..])
  }

  /** The tokens of a source lead to a string that nothing closes. */
  ghost predicate BreaksOff(r: string, error: Error)
    decreases |r|, 1
  {
    exists n :: Gap(r, n) && n < |r| && BreaksFrom(r[n..], error)
  }

  ghost predicate BreaksFrom(r: string, error: Error)
    decreases |r|, 0
  {
    Unclosing(r, error) || exists token :: TokenIs(r, token) && BreaksOff(r[|token.value|..], error)
  }

  lemma OneGap(r: string, a: int, b: int)
    requires Gap(r, a) && Gap(r, b)
    ensures a == b
  {
  }

  lemma TokensStep(r: string, n: nat)
    requires Gap(r, n)
    ensures n == |r| ==> Tokens(r) == Success([END])
    ensures n < |r| ==> r[n..] != "" && !IsSpace(r[n..][0]) && r[n..][0] != ';' && Tokens(r) == FirstTokens(r[n..])
  {
    SpaceExact(r, n);
    hide AfterSpace, NextOf;
  }

  function FirstTokens(r: string): Result<seq<Token>, Error>
    requires r != "" && !IsSpace(r[0]) && r[0] != ';'
  {
    var next :- NextOf(r);
    var others :- Tokens(next.rest);
    Success([next.token] + others)
  }

  lemma TokenHasText(r: string, token: Token)
    requires TokenIs(r, token)
    ensures 0 < |token.value| <= |r|
  {
  }

  /** The lexer accepts a source exactly if tokens stand in it up to the end, and gives them. */
  lemma {:induction false} TokensExact(r: string, ts: seq<Token>)
    ensures Tokens(r) == Success(ts) <==> TokensAre(r, ts)
    decreases |r|
  {
    var n := SpaceIsGap(r);
    TokensStep(r, n);
    hide *;
    if n < |r| { FirstTokensExact(r[n..], ts); }
    OnlyGap(r, n, ts);
  }

  lemma OnlyGap(r: string, n: nat, ts: seq<Token>)
    requires Gap(r, n)
    ensures n == |r| ==> (TokensAre(r, ts) <==> ts == [END])
    ensures n < |r| ==> (TokensAre(r, ts) <==> TokensFrom(r[n..], ts))
  {
    hide Gap, TokensFrom;
    forall m | Gap(r, m) ensures m == n { OneGap(r, m, n); }
  }

  lemma {:induction false} FirstTokensExact(r: string, ts: seq<Token>)
    requires r != "" && !IsSpace(r[0]) && r[0] != ';'
    ensures FirstTokens(r) == Success(ts) <==> TokensFrom(r, ts)
    decreases |r|, 0
  {
    hide Tokens, NextOf, TokenIs, TokensAre;
    if FirstTokens(r) == Success(ts) {
      var next := NextOf(r).value;
      var others := Tokens(next.rest).value;
      assert ts[0] == next.token && ts[1..] == others;
      TokenExact(r, next.token, next.rest);
      TokensExact(next.rest, others);
    }
    if TokensFrom(r, ts) {
      TokenHasText(r, ts[0]);
      var rest := r[|ts[0].value|..];
      TokenExact(r, ts[0], rest);
      TokensExact(rest, ts[1..]);
      assert [ts[0]] + ts[1..] == ts;
    }
  }

  /** It refuses a source exactly if its tokens lead to a string that is not closed. */
  lemma {:induction false} RefusalExact(r: string, error: Error)
    ensures Tokens(r) == Failure(error) <==> BreaksOff(r, error)
    decreases |r|
  {
    var n := SpaceIsGap(r);
    TokensStep(r, n);
    hide *;
    if n < |r| { FirstRefusalExact(r[n..], error); }
    OnlyGapBreaks(r, n, error);
  }

  lemma OnlyGapBreaks(r: string, n: nat, error: Error)
    requires Gap(r, n)
    ensures BreaksOff(r, error) <==> n < |r| && BreaksFrom(r[n..], error)
  {
    hide Gap, BreaksFrom;
    forall m | Gap(r, m) ensures m == n { OneGap(r, m, n); }
  }

  lemma {:induction false} FirstRefusalExact(r: string, error: Error)
    requires r != "" && !IsSpace(r[0]) && r[0] != ';'
    ensures FirstTokens(r) == Failure(error) <==> BreaksFrom(r, error)
    decreases |r|, 0
  {
    hide Tokens, NextOf, TokenIs, BreaksOff, Unclosing;
    UnclosedExact(r, error);
    if NextOf(r).Success? {
      var next := NextOf(r).value;
      TokenExact(r, next.token, next.rest);
      RefusalExact(next.rest, error);
    }
    forall token | TokenIs(r, token)
      ensures |token.value| <= |r| && NextOf(r) == Success(Next(token, r[|token.value|..]))
    {
      TokenHasText(r, token);
      TokenExact(r, token, r[|token.value|..]);
    }
  }

  // --- tagged literals -----------------------------------------------------------------------------------

  /** A tag and the string behind it stand for the tag's call on the quoted string. */
  lemma {:induction false} TaggedExact(tag: string, literal: string)
    requires tag != "" && '"' !in tag && literal != "" && literal[0] == '"'
    ensures ExpandTagged(tag + literal) ==
            Chain(Symbol(tag), Chain(Chain(Symbol("quote"), Chain(Symbol(literal), Nil)), Nil))
  {
    var value := tag + literal;
    QuoteIndexIs(value, |tag|);
    assert value[..|tag|] == tag && value[|tag|..] == literal;
  }

  lemma {:induction false} QuoteIndexIs(value: string, i: nat)
    requires i < |value| && value[i] == '"' && forall k :: 0 <= k < i ==> value[k] != '"'
    ensures QuoteIndex(value) == i
  {
    if i > 0 { QuoteIndexIs(value[1..], i - 1); }
  }

  /** The lexer makes such a token of every string with a tag. */
  lemma TaggedTokens(r: string, token: Token)
    requires TokenIs(r, token) && (token.typ == TaggedQuotedSymbol || token.typ == TaggedMultilineSymbol)
    ensures exists tag, literal :: token.value == tag + literal && tag != "" && '"' !in tag && literal != "" && literal[0] == '"'
  {
    var q :| StringIs(r, q, |token.value|) && token.typ == KindOf(r[..q], CstExact.Triple(r, q));
    var tag, literal := token.value[..q], token.value[q..];
    assert token.value == tag + literal && tag == r[..q] && literal[0] == r[q];
    assert '"' !in tag by { assert forall k :: 0 <= k < q ==> tag[k] == r[k] && !IsBareTerminator(r[k]); }
  }

  // --- trees of tokens ---------------------------------------------------------------------------------

  /** A form of the source: one token, or what stands between two parentheses. */
  datatype Tree = Leaf(token: Token) | Node(open: Token, parts: seq<Part>, close: Token)

  datatype Part = Point(dot: Token) | Sub(tree: Tree)

  function Yield(tree: Tree): seq<Token> {
    match tree
    case Leaf(token) => [token]
    case Node(open, parts, close) => [open] + YieldOf(parts) + [close]
  }

  function YieldOf(parts: seq<Part>): seq<Token> {
    if parts == [] then []
    else
      var last := parts[|parts| - 1];
      assert parts decreases to last;
      YieldOf(parts[..|parts| - 1]) + PartYield(last)
  }

  function PartYield(part: Part): seq<Token> {
    match part
    case Point(dot) => [dot]
    case Sub(tree) => Yield(tree)
  }

  predicate NoPoint(parts: seq<Part>) { forall k :: 0 <= k < |parts| ==> parts[k].Sub? }

  /** Without dots, or with a dot in front of the last part that is not the first part. */
  predicate PointsFit(parts: seq<Part>) {
    var n := |parts|;
    NoPoint(parts) || (n >= 3 && parts[n - 2].Point? && parts[n - 1].Sub?)
  }

  predicate WellShaped(tree: Tree) {
    match tree
    case Leaf(token) =>
      IsSymbolToken(token.typ) || token.typ == TaggedQuotedSymbol || token.typ == TaggedMultilineSymbol || token.typ == Dot
    case Node(open, parts, close) =>
      open.typ == LParen && close.typ == RParen && PointsFit(parts) && PartsShaped(parts)
  }

  predicate PartsShaped(parts: seq<Part>) {
    forall k :: 0 <= k < |parts| ==> PartShaped(parts[k])
  }

  /** In a list a dot is never a form. */
  predicate PartShaped(part: Part) {
    match part
    case Point(dot) => dot.typ == Dot
    case Sub(tree) => WellShaped(tree) && !(tree.Leaf? && tree.token.typ == Dot)
  }

  /** The form that a tree stands for. A dot in front of the last one leaves a hole. */
  function Value(tree: Tree): Form {
    match tree
    case Leaf(token) =>
      if token.typ == Dot then Symbol(".") else if IsSymbolToken(token.typ) then Symbol(token.value) else ExpandTagged(token.value)
    case Node(_, parts, _) =>
      var n := |parts|;
      if n >= 3 && parts[n - 2].Point? then ListToChain(Values(parts[..n - 2]), PartValue(parts[n - 1]))
      else ListToChain(Values(parts), Nil)
  }

  function Values(parts: seq<Part>): (values: seq<Form>)
    ensures |values| == |parts|
  {
    if parts == [] then []
    else
      var last := parts[|parts| - 1];
      assert parts decreases to last;
      Values(parts[..|parts| - 1]) + [PartValue(last)]
  }

  function PartValue(part: Part): Form {
    match part
    case Point(_) => Missing
    case Sub(tree) => Value(tree)
  }

  function LastPoint(parts: seq<Part>): (dot: Option<nat>)
    ensures dot.Some? ==> dot.value < |parts| && parts[dot.value].Point? && NoPoint(parts[dot.value + 1..])
    ensures dot.None? <==> NoPoint(parts)
  {
    if parts == [] then None
    else if parts[|parts| - 1].Point? then Some(|parts| - 1)
    else LastPoint(parts[..|parts| - 1])
  }

  // --- every tree is read ----------------------------------------------------------------------------------

  lemma {:induction false} TreeIsRead(tree: Tree, rest: seq<Token>)
    requires WellShaped(tree)
    ensures FormAt(Yield(tree) + rest) == Success(Read(Value(tree), rest))
    decreases tree, 0
  {
    match tree
    case Leaf(token) =>
      assert ([token] + rest)[0] == token && ([token] + rest)[1..] == rest;
    case Node(open, parts, close) =>
      var ts, inside := Yield(tree) + rest, YieldOf(parts) + ([close] + rest);
      assert ts[0] == open && ts[1..] == inside;
      PartsAreRead(parts, [close] + rest);
      CloseIsRead(parts, close, rest);
      BuiltIsValue(tree);
  }

  lemma CloseIsRead(parts: seq<Part>, close: Token, rest: seq<Token>)
    requires close.typ == RParen
    ensures var built := Built(Values(parts), LastPoint(parts));
            ItemsAt([close] + rest, Values(parts), LastPoint(parts)) ==
            if built.Failure? then Failure(built.error) else Success(Read(built.value, rest))
  {
    assert ([close] + rest)[0] == close && ([close] + rest)[1..] == rest;
  }

  lemma {:induction false} ValuesOfFront(parts: seq<Part>, k: nat)
    requires k <= |parts|
    ensures Values(parts)[..k] == Values(parts[..k]) && (k < |parts| ==> Values(parts)[k] == PartValue(parts[k]))
    decreases |parts|
  {
    if k == |parts| {
      assert parts[..k] == parts && Values(parts)[..k] == Values(parts);
    } else {
      var n := |parts| - 1;
      ValuesOfFront(parts[..n], k);
      assert parts[..n][..k] == parts[..k];
    }
  }

  /** Dots in any other place are refused. */
  lemma BuiltIsValue(tree: Tree)
    requires tree.Node?
    ensures var parts, n := tree.parts, |tree.parts|;
            Built(Values(parts), LastPoint(parts)) ==
            if PointsFit(parts) then Success(Value(tree))
            else if LastPoint(parts) == Some(0) then Failure(NoHeadBeforeDot)
            else Failure(NotOneTailAfterDot)
  {
    var parts, n, dot := tree.parts, |tree.parts|, LastPoint(tree.parts);
    if dot.Some? {
      assert !NoPoint(parts);
      if dot.value == n - 2 {
        assert parts[dot.value + 1..][0] == parts[n - 1];
        ValuesOfFront(parts, n - 2);
        ValuesOfFront(parts, n - 1);
      }
    }
  }

  lemma {:induction false} PartsAreRead(parts: seq<Part>, rest: seq<Token>)
    requires PartsShaped(parts)
    ensures ItemsAt(YieldOf(parts) + rest, [], None) == ItemsAt(rest, Values(parts), LastPoint(parts))
    decreases parts, 1
  {
    if parts == [] {
      assert [] + rest == rest;
    } else {
      var n := |parts| - 1;
      var front, last := parts[..n], parts[n];
      assert parts decreases to last;
      var behind := PartYield(last) + rest;
      assert YieldOf(parts) + rest == YieldOf(front) + behind;
      PartsAreRead(front, behind);
      PartIsRead(front, last, rest);
    }
  }

  lemma {:induction false} PartIsRead(front: seq<Part>, last: Part, rest: seq<Token>)
    requires PartShaped(last)
    ensures ItemsAt(PartYield(last) + rest, Values(front), LastPoint(front)) ==
            ItemsAt(rest, Values(front) + [PartValue(last)], if last.Point? then Some(|front|) else LastPoint(front))
    decreases last, 1
  {
    var ts := PartYield(last) + rest;
    if last.Point? {
      assert ts[0] == last.dot && ts[1..] == rest;
    } else {
      TreeIsRead(last.tree, rest);
      FirstToken(last.tree, rest);
      hide FormAt, Yield, Value;
    }
  }

  lemma FirstToken(tree: Tree, rest: seq<Token>)
    requires WellShaped(tree)
    ensures var ts := Yield(tree) + rest;
            && ts != [] && (tree.Leaf? ==> ts[0] == tree.token) && (tree.Node? ==> ts[0].typ == LParen)
            && ts[0].typ != RParen && ts[0].typ != EOF
  {
  }

  // --- what is read is a tree ----------------------------------------------------------------------------------

  lemma {:induction false} ReadIsTree(ts: seq<Token>) returns (tree: Tree)
    requires FormAt(ts).Success?
    ensures WellShaped(tree) && ts == Yield(tree) + FormAt(ts).value.rest && Value(tree) == FormAt(ts).value.form
    ensures tree.Leaf? <==> Peek(ts).typ != LParen
    ensures tree.Leaf? ==> tree.token == Peek(ts)
    decreases |ts|, 0
  {
    if Peek(ts).typ == LParen {
      hide ItemsAt, Values, Built, LastPoint, YieldOf;
      NoParts();
      var parts, close := ReadIsParts(ts[1..], [], []);
      tree := NodeIsRead(ts, parts, close, FormAt(ts).value);
    } else {
      tree := Leaf(ts[0]);
      assert ts == [ts[0]] + ts[1..];
    }
  }

  lemma NoParts()
    ensures Values([]) == [] && LastPoint([]) == None && YieldOf([]) == []
  {
  }

  lemma NodeIsRead(ts: seq<Token>, parts: seq<Part>, close: Token, read: Read) returns (tree: Tree)
    requires ts != [] && ts[0].typ == LParen && close.typ == RParen && PartsShaped(parts)
    requires [] + ts[1..] == YieldOf(parts) + ([close] + read.rest)
    requires Built(Values(parts), LastPoint(parts)) == Success(read.form)
    ensures tree.Node? && WellShaped(tree) && ts == Yield(tree) + read.rest && Value(tree) == read.form
  {
    hide Built, Values, LastPoint, YieldOf, PointsFit, Value;
    tree := Node(ts[0], parts, close);
    BuiltIsValue(tree);
    assert ts == [ts[0]] + ts[1..];
    assert [] + ts[1..] == ts[1..];
    assert [ts[0]] + (YieldOf(parts) + ([close] + read.rest)) == [ts[0]] + YieldOf(parts) + [close] + read.rest;
  }

  /** One more item of a list. */
  lemma NextPart(ts: seq<Token>, parts: seq<Part>) returns (last: Part, rest: seq<Token>)
    requires ItemsAt(ts, Values(parts), LastPoint(parts)).Success? && Peek(ts).typ != RParen
    requires FormAt(ts).Success? ==> exists tree ::
               && WellShaped(tree) && ts == Yield(tree) + FormAt(ts).value.rest && Value(tree) == FormAt(ts).value.form
               && (tree.Leaf? ==> tree.token == Peek(ts))
    ensures PartShaped(last) && ts == PartYield(last) + rest && |rest| < |ts|
    ensures ItemsAt(ts, Values(parts), LastPoint(parts)) == ItemsAt(rest, Values(parts + [last]), LastPoint(parts + [last]))
  {
    hide FormAt, WellShaped, Yield, Value, Built;
    if Peek(ts).typ == Dot {
      last, rest := Point(ts[0]), ts[1..];
    } else {
      var tree :| WellShaped(tree) && ts == Yield(tree) + FormAt(ts).value.rest && Value(tree) == FormAt(ts).value.form
                  && (tree.Leaf? ==> tree.token == Peek(ts));
      last, rest := Sub(tree), FormAt(ts).value.rest;
    }
    assert (parts + [last])[..|parts|] == parts;
  }

  /** The list whose first parts, spelt by `seen`, have been read. */
  lemma {:induction false} ReadIsParts(ts: seq<Token>, seen: seq<Token>, parts: seq<Part>) returns (all: seq<Part>, close: Token)
    requires ItemsAt(ts, Values(parts), LastPoint(parts)).Success?
    requires PartsShaped(parts) && seen == YieldOf(parts)
    ensures var read := ItemsAt(ts, Values(parts), LastPoint(parts)).value;
            && close.typ == RParen && PartsShaped(all) && seen + ts == YieldOf(all) + ([close] + read.rest)
            && Built(Values(all), LastPoint(all)) == Success(read.form)
    decreases |ts|, 1
  {
    hide *;
    if Peek(ts).typ == RParen {
      all := parts;
      close := ReadClose(ts, parts);
      assert seen + ts == seen + ([close] + ts[1..]);
    } else {
      if FormAt(ts).Success? { var tree := ReadIsTree(ts); }
      var last, rest := NextPart(ts, parts);
      YieldOfMore(parts, last);
      MoreAreShaped(parts, last);
      assert seen + ts == seen + PartYield(last) + rest;
      all, close := ReadIsParts(rest, seen + PartYield(last), parts + [last]);
    }
  }

  lemma ReadClose(ts: seq<Token>, parts: seq<Part>) returns (close: Token)
    requires ItemsAt(ts, Values(parts), LastPoint(parts)).Success? && Peek(ts).typ == RParen
    ensures ts != [] && ts == [close] + ts[1..] && close.typ == RParen
    ensures var read := ItemsAt(ts, Values(parts), LastPoint(parts)).value;
            read.rest == ts[1..] && Built(Values(parts), LastPoint(parts)) == Success(read.form)
  {
    hide Values, LastPoint, Built;
    close := ts[0];
  }

  lemma YieldOfMore(parts: seq<Part>, last: Part)
    ensures YieldOf(parts + [last]) == YieldOf(parts) + PartYield(last)
  {
    assert (parts + [last])[..|parts|] == parts;
  }

  lemma MoreAreShaped(parts: seq<Part>, last: Part)
    requires PartsShaped(parts) && PartShaped(last)
    ensures PartsShaped(parts + [last])
  {
  }

  /** A form is read from tokens exactly if they begin with a tree that stands for it. */
  lemma FormExact(ts: seq<Token>, form: Form, rest: seq<Token>)
    ensures FormAt(ts) == Success(Read(form, rest)) <==>
              exists tree :: WellShaped(tree) && ts == Yield(tree) + rest && form == Value(tree)
  {
    if FormAt(ts) == Success(Read(form, rest)) { var tree := ReadIsTree(ts); }
    forall tree | WellShaped(tree) && ts == Yield(tree) + rest ensures FormAt(ts) == Success(Read(Value(tree), rest)) {
      TreeIsRead(tree, rest);
    }
  }

  /** Dots that do not fit their list are refused, and so are a list without an end and a
      parenthesis without a beginning. */
  lemma ListRefused(open: Token, parts: seq<Part>, close: Token, rest: seq<Token>)
    requires open.typ == LParen && PartsShaped(parts)
    ensures var ts := [open] + (YieldOf(parts) + ([close] + rest));
            && (close.typ == RParen && !PointsFit(parts) ==>
                  FormAt(ts) == Failure(if parts[0].Point? && NoPoint(parts[1..]) then NoHeadBeforeDot else NotOneTailAfterDot))
            && (close.typ == EOF ==> FormAt(ts) == Failure(Unclosed))
    ensures close.typ == RParen ==> FormAt([close] + rest) == Failure(UnexpectedClose)
  {
    ListStarts(open, YieldOf(parts) + ([close] + rest));
    PartsAreRead(parts, [close] + rest);
    ListEnds(parts, close, rest);
    hide ItemsAt, Built, YieldOf, Values, FormAt, LastPoint, NoPoint;
    if close.typ == RParen && !PointsFit(parts) {
      CloseIsRead(parts, close, rest);
      BuiltIsValue(Node(open, parts, close));
      SomePoint(parts);
      OnlyFirstPoint(parts);
    }
  }

  lemma SomePoint(parts: seq<Part>)
    ensures PointsFit(parts) || parts != []
  {
  }

  lemma ListStarts(open: Token, inside: seq<Token>)
    requires open.typ == LParen
    ensures FormAt([open] + inside) == ItemsAt(inside, [], None)
  {
    assert ([open] + inside)[1..] == inside;
  }

  lemma ListEnds(parts: seq<Part>, close: Token, rest: seq<Token>)
    ensures close.typ == EOF ==> ItemsAt([close] + rest, Values(parts), LastPoint(parts)) == Failure(Unclosed)
    ensures close.typ == RParen ==> FormAt([close] + rest) == Failure(UnexpectedClose)
  {
    hide Values, LastPoint, Built;
  }

  lemma OnlyFirstPoint(parts: seq<Part>)
    requires parts != []
    ensures LastPoint(parts) == Some(0) <==> parts[0].Point? && NoPoint(parts[1..])
  {
    var dot := LastPoint(parts);
    if dot.Some? && dot.value > 0 { assert parts[1..][dot.value - 1] == parts[dot.value]; }
  }

  // --- programs -----------------------------------------------------------------------------------------------------

  predicate AllShaped(trees: seq<Tree>) { forall k :: 0 <= k < |trees| ==> WellShaped(trees[k]) }

  function AllYield(trees: seq<Tree>): seq<Token> { if trees == [] then [] else Yield(trees[0]) + AllYield(trees[1..]) }

  function AllValues(trees: seq<Tree>): seq<Form> { if trees == [] then [] else [Value(trees[0])] + AllValues(trees[1..]) }

  ghost predicate ProgramIs(ts: seq<Token>, trees: seq<Tree>, forms: seq<Form>, rest: seq<Token>) {
    AllShaped(trees) && ts == AllYield(trees) + rest && Peek(rest).typ == EOF && forms == AllValues(trees)
  }

  lemma {:induction false} TreesAreRead(trees: seq<Tree>, rest: seq<Token>)
    requires AllShaped(trees) && Peek(rest).typ == EOF
    ensures FormsAt(AllYield(trees) + rest) == Success(AllValues(trees))
    decreases |trees|
  {
    hide FormAt, Yield, Value, WellShaped;
    if trees == [] {
      assert [] + rest == rest;
    } else {
      var behind := AllYield(trees[1..]) + rest;
      assert AllYield(trees) + rest == Yield(trees[0]) + behind;
      TreeIsRead(trees[0], behind);
      FirstToken(trees[0], behind);
      TreesAreRead(trees[1..], rest);
    }
  }

  lemma {:induction false} ReadAreTrees(ts: seq<Token>) returns (trees: seq<Tree>, rest: seq<Token>)
    requires FormsAt(ts).Success?
    ensures ProgramIs(ts, trees, FormsAt(ts).value, rest)
    decreases |ts|
  {
    hide FormAt, Yield, Value, WellShaped;
    if Peek(ts).typ == EOF {
      trees, rest := [], ts;
      assert [] + ts == ts;
    } else {
      var behind := FormAt(ts).value.rest;
      var tree := ReadIsTree(ts);
      var others: seq<Tree>;
      others, rest := ReadAreTrees(behind);
      trees := [tree] + others;
      assert trees[1..] == others;
      assert Yield(tree) + AllYield(others) + rest == Yield(tree) + (AllYield(others) + rest);
    }
  }

  /** The parser accepts tokens exactly if trees stand in them up to the end. */
  lemma ProgramExact(ts: seq<Token>, forms: seq<Form>)
    ensures FormsAt(ts) == Success(forms) <==> exists trees, rest :: ProgramIs(ts, trees, forms, rest)
  {
    if FormsAt(ts) == Success(forms) { var trees, rest := ReadAreTrees(ts); }
    forall trees, rest | ProgramIs(ts, trees, forms, rest) ensures FormsAt(ts) == Success(forms) {
      TreesAreRead(trees, rest);
    }
  }

  /** The Go reader reads a source exactly if its tokens spell trees, and gives their forms. */
  lemma SourceExact(source: string, forms: seq<Form>)
    ensures ReadRaw(source) == Success(forms) <==>
              exists ts, trees, rest :: TokensAre(source, ts) && ProgramIs(ts, trees, forms, rest)
  {
    hide TokensAre, ProgramIs;
    if ReadRaw(source) == Success(forms) {
      var ts := Tokens(source).value;
      TokensExact(source, ts);
      ProgramExact(ts, forms);
      var trees, rest :| ProgramIs(ts, trees, forms, rest);
      assert TokensAre(source, ts) && ProgramIs(ts, trees, forms, rest);
    }
    forall ts, trees, rest | TokensAre(source, ts) && ProgramIs(ts, trees, forms, rest)
      ensures ReadRaw(source) == Success(forms)
    {
      TokensExact(source, ts);
      ProgramExact(ts, forms);
    }
  }

  // --- names as written ----------------------------------------------------------------------------------

  /** A name that is no string is written as it is exactly if it is not empty and has no blank,
      control character, parenthesis, quote or semicolon. */
  lemma NameIsWritten(name: string, marshal: string -> string)
    requires !IsStringSymbol(name) && marshal(name) != name
    ensures Text(Symbol(name), marshal) == name <==> name != "" && forall c :: c in name ==> c > ' ' && c !in "()\"';"
    ensures Text(Symbol(name), marshal) == name || Text(Symbol(name), marshal) == marshal(name)
  {
    if name != "" && forall c :: c in name ==> c > ' ' && c !in "()\"';" {
      forall k | 0 <= k < |name| ensures !ForbidsBare(name[k]) { assert name[k] in name; }
    }
  }
}

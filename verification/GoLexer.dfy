/**
 The Go reader's lexer (go-reader/lexer.go). What it does next depends only on what is left
 of the source, so the grammar is given on the rest of the source; the class moves a cursor.
 Lines and columns are not part of this model.
 */
module GoLexer {
  import opened Wrappers

  datatype TokenType =
    | LParen | RParen | Dot | BareSymbol
    | QuotedSymbol | RawQuotedSymbol | TaggedQuotedSymbol
    | MultilineSymbol | RawMultilineSymbol | TaggedMultilineSymbol
    | EOF

  datatype Token = Token(typ: TokenType, value: string)

  datatype Error = UnterminatedString | UnterminatedMultiline

  /** `unicode.IsSpace`. */
  predicate IsSpace(r: char) {
    var n := r as int;
    || 9 <= n <= 13 || n == 0x20 || n == 0x85 || n == 0xA0 || n == 0x1680 || 0x2000 <= n <= 0x200A
    || n == 0x2028 || n == 0x2029 || n == 0x202F || n == 0x205F || n == 0x3000
  }

  predicate IsBareTerminator(r: char) {
    r == '(' || r == ')' || IsSpace(r) || r == '"' || r == ';'
  }

  predicate ForbidsTag(r: char) {
    || r == '(' || r == ')' || IsSpace(r) || r == '"' || r == '\'' || r == ';'
    || r == '`' || r == ',' || r == '@'
  }

  predicate IsValidTagPrefix(s: string) {
    s != "" && forall k :: 0 <= k < |s| ==> !ForbidsTag(s[k])
  }

  // --- the next token of what is left -------------------------------------------------------

  function AfterComment(r: string): (rest: string)
    ensures |rest| <= |r| && (rest != "" ==> rest[0] == '\n')
  {
    if r == "" || r[0] == '\n' then r else AfterComment(r[1..])
  }

  function AfterSpace(r: string): (rest: string)
    ensures |rest| <= |r| && (rest != "" ==> !IsSpace(rest[0]) && rest[0] != ';')
    decreases |r|
  {
    if r == "" then r
    else if IsSpace(r[0]) then AfterSpace(r[1..])
    else if r[0] == ';' then AfterSpace(AfterComment(r[1..]))
    else r
  }

  predicate TripleAt(r: string, q: nat) {
    q + 3 <= |r| && r[q] == '"' && r[q + 1] == '"' && r[q + 2] == '"'
  }

  function QuotedEnd(r: string, j: nat): (e: Option<nat>)
    requires j <= |r|
    ensures e.Some? ==> j < e.value <= |r|
    decreases |r| - j
  {
    if j == |r| then None
    else if r[j] == '\\' then if j + 1 == |r| then None else QuotedEnd(r, j + 2)
    else if r[j] == '"' then Some(j + 1)
    else QuotedEnd(r, j + 1)
  }

  function MultilineEnd(r: string, j: nat): (e: Option<nat>)
    requires j <= |r|
    ensures e.Some? ==> j < e.value <= |r|
    decreases |r| - j
  {
    if j == |r| then None
    else if TripleAt(r, j) then Some(j + 3)
    else MultilineEnd(r, j + 1)
  }

  predicate IsRaw(prefix: string) { prefix == "r" || prefix == "R" }

  function QuotedType(prefix: string): TokenType {
    if IsRaw(prefix) then RawQuotedSymbol else if prefix != "" then TaggedQuotedSymbol else QuotedSymbol
  }

  function MultilineType(prefix: string): TokenType {
    if IsRaw(prefix) then RawMultilineSymbol else if prefix != "" then TaggedMultilineSymbol else MultilineSymbol
  }

  datatype Next = Next(token: Token, rest: string)

  /** `lexQuotedOrMultiline`, with the quote at `q` and everything before it as the prefix. */
  function Literal(r: string, q: nat): (n: Result<Next, Error>)
    requires q < |r| && r[q] == '"'
    ensures n.Success? ==> |n.value.rest| < |r|
  {
    if TripleAt(r, q) then
      match MultilineEnd(r, q + 3)
      case Some(e) => Success(Next(Token(MultilineType(r[..q]), r[..e]), r[e..]))
      case None => Failure(UnterminatedMultiline)
    else
      match QuotedEnd(r, q + 1) {
        case Some(e) => Success(Next(Token(QuotedType(r[..q]), r[..e]), r[e..]))
        case None => Failure(UnterminatedString)
      }
  }

  /** The first character that ends a bare symbol. */
  function BareEnd(r: string, i: nat): (e: nat)
    requires i <= |r|
    ensures i <= e <= |r| && (e < |r| ==> IsBareTerminator(r[e]))
    ensures forall k :: i <= k < e ==> !IsBareTerminator(r[k])
    decreases |r| - i
  {
    if i == |r| || IsBareTerminator(r[i]) then i else BareEnd(r, i + 1)
  }

  function BareOrTagged(r: string): (n: Result<Next, Error>)
    requires r != "" && !IsBareTerminator(r[0])
    ensures n.Success? ==> |n.value.rest| < |r|
  {
    var e := BareEnd(r, 0);
    if e < |r| && r[e] == '"' && IsValidTagPrefix(r[..e]) then Literal(r, e)
    else Success(Next(Token(if r[..e] == "." then Dot else BareSymbol, r[..e]), r[e..]))
  }

  function NextOf(r: string): (n: Result<Next, Error>)
    requires r != "" && !IsSpace(r[0]) && r[0] != ';'
    ensures n.Success? ==> |n.value.rest| < |r|
  {
    if r[0] == '(' then Success(Next(Token(LParen, "("), r[1..]))
    else if r[0] == ')' then Success(Next(Token(RParen, ")"), r[1..]))
    else if r[0] == '"' then Literal(r, 0)
    else if (r[0] == 'r' || r[0] == 'R') && |r| > 1 && r[1] == '"' then Literal(r, 1)
    else BareOrTagged(r)
  }

  const END := Token(EOF, "")

  /** All tokens of what is left. */
  function Tokens(r: string): Result<seq<Token>, Error>
    decreases |r|
  {
    var s := AfterSpace(r);
    if s == "" then Success([END])
    else
      var next :- NextOf(s);
      var others :- Tokens(next.rest);
      Success([next.token] + others)
  }

  lemma MultilineUnfolds(r: string, j: nat)
    requires j <= |r|
    ensures MultilineEnd(r, j) == if j == |r| then None else if TripleAt(r, j) then Some(j + 3) else MultilineEnd(r, j + 1)
  {
  }

  lemma TripleInRest(source: string, start: nat, pos: nat)
    requires start <= pos <= |source|
    ensures TripleAt(source[start..], pos - start) <==> TripleAt(source, pos)
    ensures TripleAt(source, pos) <==>
              pos + 2 < |source| && source[pos] == '"' && source[pos + 1] == '"' && source[pos + 2] == '"'
  {
  }

  lemma MultilineIsRead(source: string, start: nat, q: nat, pos: nat)
    requires start + q < pos <= |source| && TripleAt(source, start + q)
    requires MultilineEnd(source[start..], q + 3) == Some(pos - start)
    ensures Literal(source[start..], q) ==
            Success(Next(Token(MultilineType(source[start..start + q]), source[start..pos]), source[pos..]))
  {
    hide MultilineEnd, MultilineType;
    var rest := source[start..];
    assert rest[..q] == source[start..start + q] && rest[..pos - start] == source[start..pos];
    assert rest[pos - start..] == source[pos..];
  }

  lemma UnclosedIsRead(source: string, start: nat, q: nat)
    requires start + q <= |source| && TripleAt(source, start + q) && MultilineEnd(source[start..], q + 3) == None
    ensures Literal(source[start..], q) == Failure(UnterminatedMultiline)
  {
    hide MultilineEnd, MultilineType;
  }

  // --- the lexer as written ----------------------------------------------------------------------

  class Lexer {
    const source: string
    var pos: nat

    ghost predicate Valid()
      reads this
    {
      pos <= |source|
    }

    constructor (source: string)
      ensures Valid() && pos == 0 && this.source == source
    {
      this.source := source;
      pos := 0;
    }

    method SkipWhitespaceAndComments()
      requires Valid()
      modifies this
      ensures Valid() && old(pos) <= pos && source[pos..] == AfterSpace(source[old(pos)..])
    {
      while pos < |source|
        invariant Valid() && old(pos) <= pos
        invariant AfterSpace(source[old(pos)..]) == AfterSpace(source[pos..])
      {
        var r := source[pos];
        assert source[pos..][1..] == source[pos + 1..];
        if IsSpace(r) {
          pos := pos + 1;
        } else if r == ';' {
          ghost var semicolon := pos;
          while pos < |source| && source[pos] != '\n'
            invariant Valid() && semicolon <= pos
            invariant pos == semicolon ||
                      AfterComment(source[semicolon + 1..]) == AfterComment(source[pos..])
            decreases |source| - pos
          {
            assert source[pos..][1..] == source[pos + 1..];
            pos := pos + 1;
          }
        } else {
          break;
        }
      }
    }

    method LexMultiline(start: nat, prefix: string) returns (r: Result<Token, Error>)
      requires Valid() && start <= pos && prefix == source[start..pos] && TripleAt(source, pos)
      modifies this
      ensures Valid() && Agrees(r, Literal(source[start..], old(pos) - start))
    {
      ghost var rest, q := source[start..], pos - start;
      pos := pos + 3;
      while true
        invariant Valid() && start + q + 3 <= pos
        invariant MultilineEnd(rest, q + 3) == MultilineEnd(rest, pos - start)
        decreases |source| - pos
      {
        TripleInRest(source, start, pos);
        MultilineUnfolds(rest, pos - start);
        hide MultilineEnd, TripleAt, Literal;
        if pos >= |source| {
          UnclosedIsRead(source, start, q);
          return Failure(UnterminatedMultiline);
        }
        if pos + 2 < |source| && source[pos] == '"' && source[pos + 1] == '"' && source[pos + 2] == '"' {
          pos := pos + 3;
          MultilineIsRead(source, start, q, pos);
          var typ := MultilineSymbol;
          if prefix == "r" || prefix == "R" {
            typ := RawMultilineSymbol;
          } else if prefix != "" {
            typ := TaggedMultilineSymbol;
          }
          return Success(Token(typ, source[start..pos]));
        }
        pos := pos + 1;
      }
    }

    method LexQuotedSymbol(start: nat, prefix: string) returns (r: Result<Token, Error>)
      requires Valid() && start <= pos < |source| && prefix == source[start..pos]
      requires source[pos] == '"' && !TripleAt(source, pos)
      modifies this
      ensures Valid() && Agrees(r, Literal(source[start..], old(pos) - start))
    {
      ghost var rest := source[start..];
      ghost var body := pos + 1 - start;
      pos := pos + 1;
      while true
        invariant Valid() && start + body <= pos
        invariant QuotedEnd(rest, body) == QuotedEnd(rest, pos - start)
                  || (pos == |source| && QuotedEnd(rest, body) == None)
        decreases |source| - pos
      {
        if pos >= |source| { return Failure(UnterminatedString); }
        if source[pos] == '\\' {
          pos := pos + 1;
          if pos < |source| { pos := pos + 1; }
        } else if source[pos] == '"' {
          pos := pos + 1;
          assert QuotedEnd(rest, body) == Some(pos - start);
          assert source[start..pos] == rest[..pos - start];
          assert rest[..body - 1] == prefix && rest[pos - start..] == source[pos..];
          var typ := QuotedSymbol;
          if prefix == "r" || prefix == "R" {
            typ := RawQuotedSymbol;
          } else if prefix != "" {
            typ := TaggedQuotedSymbol;
          }
          return Success(Token(typ, source[start..pos]));
        } else {
          pos := pos + 1;
        }
      }
    }

    method LexQuotedOrMultiline(start: nat, prefix: string) returns (r: Result<Token, Error>)
      requires Valid() && start <= pos < |source| && prefix == source[start..pos] && source[pos] == '"'
      modifies this
      ensures Valid() && Agrees(r, Literal(source[start..], old(pos) - start))
    {
      if pos + 2 < |source| && source[pos + 1] == '"' && source[pos + 2] == '"' {
        r := LexMultiline(start, prefix);
      } else {
        r := LexQuotedSymbol(start, prefix);
      }
    }

    /** Its "unexpected character" error cannot be raised: the first character is no terminator. */
    method LexBareOrTagged() returns (r: Result<Token, Error>)
      requires Valid() && pos < |source| && !IsBareTerminator(source[pos])
      modifies this
      ensures Valid() && Agrees(r, BareOrTagged(source[old(pos)..]))
    {
      var start := pos;
      ghost var rest := source[start..];
      while pos < |source|
        invariant Valid() && start <= pos && BareEnd(rest, 0) == BareEnd(rest, pos - start)
      {
        var c := source[pos];
        assert c == rest[pos - start];
        if c == '"' {
          var prefix := source[start..pos];
          assert rest[..pos - start] == prefix;
          var tag := IsValidTagPrefix(prefix);
          if tag {
            r := LexQuotedOrMultiline(start, prefix);
            return;
          }
          break;
        }
        if IsBareTerminator(c) { break; }
        pos := pos + 1;
      }
      var value := source[start..pos];
      assert BareEnd(rest, 0) == pos - start && rest[..pos - start] == value && rest[pos - start..] == source[pos..];
      assert value != "";
      var typ := BareSymbol;
      if value == "." { typ := Dot; }
      return Success(Token(typ, value));
    }

    /** The token that the grammar says, with the cursor behind it. */
    ghost predicate Agrees(r: Result<Token, Error>, spec: Result<Next, Error>)
      reads this
    {
      match spec
      case Success(n) => r == Success(n.token) && pos <= |source| && source[pos..] == n.rest
      case Failure(e) => r == Failure(e)
    }

    method NextToken() returns (r: Result<Token, Error>)
      requires Valid()
      modifies this
      ensures Valid()
      ensures var rest := AfterSpace(source[old(pos)..]);
              if rest == "" then r == Success(END) else Agrees(r, NextOf(rest))
    {
      SkipWhitespaceAndComments();
      if pos >= |source| { return Success(END); }
      ghost var rest := source[pos..];
      var c := source[pos];
      assert c == rest[0] && rest[1..] == source[pos + 1..];
      if c == '(' {
        pos := pos + 1;
        return Success(Token(LParen, "("));
      } else if c == ')' {
        pos := pos + 1;
        return Success(Token(RParen, ")"));
      } else if c == '"' {
        r := LexQuotedOrMultiline(pos, "");
      } else if c == 'r' || c == 'R' {
        var nextPos := pos + 1;
        if nextPos < |source| && source[nextPos] == '"' {
          var start := pos;
          pos := pos + 1;
          assert source[start..pos] == [c];
          r := LexQuotedOrMultiline(start, [c]);
          return;
        }
        r := LexBareOrTagged();
      } else {
        r := LexBareOrTagged();
      }
    }
  }

  method Tokenize(source: string) returns (r: Result<seq<Token>, Error>)
    ensures r == Tokens(source)
  {
    hide AfterSpace, NextOf;
    var l := new Lexer(source);
    var tokens: seq<Token> := [];
    assert source[0..] == source;
    assert tokens + (if Tokens(source).Success? then Tokens(source).value else []) ==
           if Tokens(source).Success? then Tokens(source).value else [];
    while true
      invariant l.Valid() && l.source == source
      invariant Tokens(source) == Prepend(tokens, Tokens(source[l.pos..]))
      decreases |source| - l.pos
    {
      ghost var rest := source[l.pos..];
      var tok :- l.NextToken();
      ghost var others := Tokens(source[l.pos..]);
      PrependStep(tokens, tok, others);
      tokens := tokens + [tok];
      if tok.typ == EOF {
        NoOtherEnd(rest);
        return Success(tokens);
      }
    }
  }

  function Prepend(tokens: seq<Token>, others: Result<seq<Token>, Error>): Result<seq<Token>, Error> {
    match others
    case Success(ts) => Success(tokens + ts)
    case Failure(e) => Failure(e)
  }

  lemma PrependStep(tokens: seq<Token>, token: Token, others: Result<seq<Token>, Error>)
    ensures Prepend(tokens, Prepend([token], others)) == Prepend(tokens + [token], others)
  {
    if others.Success? {
      assert tokens + ([token] + others.value) == tokens + [token] + others.value;
    }
  }

  lemma NoOtherEnd(r: string)
    ensures var s := AfterSpace(r);
            s != "" && NextOf(s).Success? ==> NextOf(s).value.token.typ != EOF
  {
  }
}

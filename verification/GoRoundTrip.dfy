/**
 Reading back what the Go writer wrote. It gives the same forms for exactly the programs
 without a dot symbol inside a list and without a two-item list headed by `quote` or
 `quasiquote`: the reader takes the first for a dotted pair, and does not expand the
 quote sign that the writer prints for the second.
 */
module GoRoundTrip {
  import opened Wrappers
  import opened GoForm
  import opened GoLexer
  import opened GoParser

  // --- names that the lexer reads back as one token ----------------------------------------

  /** A bare name. Beyond ASCII the writer admits spaces that the lexer would split at. */
  predicate BareName(name: string) {
    CanWriteBare(name) && forall k :: 0 <= k < |name| ==> !IsSpace(name[k])
  }

  function LiteralEnd(name: string, q: nat): Option<nat>
    requires q < |name|
  {
    if TripleAt(name, q) then MultilineEnd(name, q + 3) else QuotedEnd(name, q + 1)
  }

  /** The quote that opens a string symbol comes first, or after an r. */
  function QuoteAt(name: string): nat
    requires IsStringSymbol(name)
  {
    if name[0] == '"' then 0 else 1
  }

  /** A string literal, complete and with nothing after it. */
  predicate StringName(name: string) {
    IsStringSymbol(name) && LiteralEnd(name, QuoteAt(name)) == Some(|name|)
  }

  predicate Readable(form: Form) {
    match form
    case Symbol(name) => BareName(name) || StringName(name)
    case Chain(head, tail) => Readable(head) && Readable(tail)
    case Nil => true
    case Missing => false
  }

  // --- the tokens of a form ---------------------------------------------------------------------

  function BareToken(value: string): Token { Token(if value == "." then Dot else BareSymbol, value) }

  function LiteralToken(name: string, q: nat): Token
    requires q < |name|
  {
    Token(if TripleAt(name, q) then MultilineType(name[..q]) else QuotedType(name[..q]), name)
  }

  /** What quote signs become that no symbol follows. */
  function Signs(p: string): seq<Token> { if p == "" then [] else [BareToken(p)] }

  predicate IsPair(form: Form, head: string) {
    form.Chain? && form.head == Symbol(head) && form.tail.Chain? && form.tail.tail.Nil?
  }

  /** The tokens of a form's text behind the quote signs `p`: the signs stick to a bare
      symbol, and to the r of a raw string. */
  function FormTokens(p: string, form: Form): seq<Token>
    requires Readable(form)
    decreases form, 1
  {
    match form
    case Symbol(name) =>
      if !IsStringSymbol(name) then [BareToken(p + name)]
      else if p != "" && QuoteAt(name) == 1 then [BareToken(p + name[..1]), LiteralToken(name[1..], 0)]
      else Signs(p) + [LiteralToken(name, QuoteAt(name))]
    case Chain(_, tail) =>
      assert Readable(tail) && (tail.Chain? ==> Readable(tail.head));
      if IsPair(form, "quote") then FormTokens(p + "'", tail.head)
      else if IsPair(form, "quasiquote") then FormTokens(p + "`", tail.head)
      else Signs(p) + [Token(LParen, "(")] + ItemTokens(form) + [Token(RParen, ")")]
    case Nil => Signs(p) + [Token(LParen, "("), Token(RParen, ")")]
  }

  function ItemTokens(form: Form): seq<Token>
    requires form.Chain? && Readable(form)
    decreases form, 0
  {
    assert Readable(form.head) && Readable(form.tail);
    FormTokens("", form.head) +
    match form.tail {
      case Nil => []
      case Chain(_, _) => ItemTokens(form.tail)
      case Symbol(_) => [BareToken(".")] + FormTokens("", form.tail)
    }
  }

  // --- lexing ---------------------------------------------------------------------------------------

  /** What may follow a form in written text. */
  predicate Delimited(rest: string) {
    rest == "" || IsSpace(rest[0]) || rest[0] == ')'
  }

  predicate AllSigns(p: string) { forall k :: 0 <= k < |p| ==> p[k] == '\'' || p[k] == '`' }

  /** Lexing `text` gives `ts` and then whatever `rest` gives. */
  ghost predicate Lexes(text: string, ts: seq<Token>, rest: string) {
    Tokens(text + rest) == GoLexer.Prepend(ts, Tokens(rest))
  }

  lemma LexesThen(a: string, ts: seq<Token>, b: string, us: seq<Token>, rest: string)
    requires Lexes(a, ts, b + rest) && Lexes(b, us, rest)
    ensures Lexes(a + b, ts + us, rest)
  {
    hide Tokens;
    assert a + b + rest == a + (b + rest);
    if Tokens(rest).Success? {
      assert ts + (us + Tokens(rest).value) == ts + us + Tokens(rest).value;
    }
  }

  lemma LexesNothing(rest: string)
    ensures Lexes("", [], rest)
  {
    hide Tokens;
    assert "" + rest == rest;
    if Tokens(rest).Success? {
      assert [] + Tokens(rest).value == Tokens(rest).value;
    }
  }

  lemma LexesSpace(space: string, rest: string)
    requires |space| == 1 && IsSpace(space[0])
    ensures Lexes(space, [], rest)
  {
    assert (space + rest)[1..] == rest;
    assert AfterSpace(space + rest) == AfterSpace(rest);
    assert Tokens(space + rest) == Tokens(rest);
    hide Tokens;
    if Tokens(rest).Success? {
      assert [] + Tokens(rest).value == Tokens(rest).value;
    }
  }

  /** One token whose text stands first. */
  lemma LexesToken(text: string, token: Token, rest: string)
    requires text != "" && !IsSpace(text[0]) && text[0] != ';'
    requires NextOf(text + rest) == Success(Next(token, rest))
    ensures Lexes(text, [token], rest)
  {
    hide NextOf;
    assert AfterSpace(text + rest) == text + rest;
    assert Tokens(text + rest) ==
      (match Tokens(rest) case Success(ts) => Success([token] + ts) case Failure(e) => Failure(e));
  }

  lemma LexesParen(c: char, rest: string)
    requires c == '(' || c == ')'
    ensures Lexes([c], [Token(if c == '(' then LParen else RParen, [c])], rest)
  {
    assert ([c] + rest)[1..] == rest;
    LexesToken([c], Token(if c == '(' then LParen else RParen, [c]), rest);
  }

  lemma {:induction false} BareEndIs(r: string, i: nat, e: nat)
    requires i <= e <= |r| && forall k :: i <= k < e ==> !IsBareTerminator(r[k])
    requires e == |r| || IsBareTerminator(r[e])
    ensures BareEnd(r, i) == e
    decreases e - i
  {
    if i < e {
      BareEndIs(r, i + 1, e);
    }
  }

  /** A bare symbol, ended by the end of the text, by a delimiter or, after a quote sign, by
      the quote of a string. */
  lemma LexesBare(name: string, rest: string)
    requires name != "" && forall k :: 0 <= k < |name| ==> !IsBareTerminator(name[k])
    requires rest == "" || IsBareTerminator(rest[0])
    requires rest != "" && rest[0] == '"' ==> name[0] == '\'' || name[0] == '`'
    ensures Lexes(name, [BareToken(name)], rest)
  {
    var r := name + rest;
    BareEndIs(r, 0, |name|);
    assert r[..|name|] == name && r[|name|..] == rest;
    assert rest != "" && rest[0] == '"' ==> ForbidsTag(name[0]) && !IsValidTagPrefix(name);
    assert |name| > 1 ==> r[1] == name[1];
    assert NextOf(r) == BareOrTagged(r);
    LexesToken(name, BareToken(name), rest);
  }

  lemma {:induction false} QuotedEndStays(name: string, j: nat, rest: string)
    requires j <= |name| && QuotedEnd(name, j) == Some(|name|)
    ensures QuotedEnd(name + rest, j) == Some(|name|)
    decreases |name| - j
  {
    assert (name + rest)[j] == name[j];
    if name[j] == '\\' {
      QuotedEndStays(name, j + 2, rest);
    } else if name[j] != '"' {
      QuotedEndStays(name, j + 1, rest);
    }
  }

  lemma {:induction false} MultilineEndStays(name: string, j: nat, rest: string)
    requires j <= |name| && MultilineEnd(name, j) == Some(|name|)
    ensures MultilineEnd(name + rest, j) == Some(|name|)
    decreases |name| - j
  {
    MultilineEndFits(name, j);
    assert TripleAt(name + rest, j) == TripleAt(name, j);
    if !TripleAt(name, j) {
      MultilineEndStays(name, j + 1, rest);
    }
  }

  lemma {:induction false} MultilineEndFits(name: string, j: nat)
    requires j <= |name| && MultilineEnd(name, j).Some?
    ensures j + 3 <= MultilineEnd(name, j).value
    decreases |name| - j
  {
    if !TripleAt(name, j) {
      MultilineEndFits(name, j + 1);
    }
  }

  lemma LexesLiteral(name: string, rest: string)
    requires StringName(name) && (rest != "" ==> rest[0] != '"')
    ensures Lexes(name, [LiteralToken(name, QuoteAt(name))], rest)
  {
    var q := QuoteAt(name);
    var r := name + rest;
    assert r[..|name|] == name && r[|name|..] == rest && r[..q] == name[..q];
    LiteralEndsWithQuote(name);
    assert TripleAt(r, q) == TripleAt(name, q);
    if TripleAt(name, q) {
      MultilineEndStays(name, q + 3, rest);
    } else {
      QuotedEndStays(name, q + 1, rest);
    }
    assert NextOf(r) == Literal(r, q);
    LexesToken(name, LiteralToken(name, q), rest);
  }

  lemma LiteralEndsWithQuote(name: string)
    requires StringName(name)
    ensures QuoteAt(name) + 2 <= |name|
  {
  }

  /** Without its r, a raw string is a string. */
  lemma {:induction false} WithoutR(name: string)
    requires StringName(name) && QuoteAt(name) == 1
    ensures StringName(name[1..]) && QuoteAt(name[1..]) == 0 && name == name[..1] + name[1..]
  {
    var n := name[1..];
    assert TripleAt(n, 0) == TripleAt(name, 1);
    if TripleAt(name, 1) {
      MultilineEndShifts(name, 4);
    } else {
      QuotedEndShifts(name, 2);
    }
  }

  lemma {:induction false} QuotedEndShifts(name: string, j: nat)
    requires 1 <= j <= |name| && QuotedEnd(name, j) == Some(|name|)
    ensures QuotedEnd(name[1..], j - 1) == Some(|name| - 1)
    decreases |name| - j
  {
    assert name[1..][j - 1] == name[j];
    if name[j] == '\\' {
      QuotedEndShifts(name, j + 2);
    } else if name[j] != '"' {
      QuotedEndShifts(name, j + 1);
    }
  }

  lemma {:induction false} MultilineEndShifts(name: string, j: nat)
    requires 1 <= j <= |name| && MultilineEnd(name, j) == Some(|name|)
    ensures MultilineEnd(name[1..], j - 1) == Some(|name| - 1)
    decreases |name| - j
  {
    assert TripleAt(name[1..], j - 1) == TripleAt(name, j);
    if !TripleAt(name, j) {
      MultilineEndShifts(name, j + 1);
    }
  }

  lemma LexesSigns(p: string, rest: string)
    requires AllSigns(p) && (rest == "" || IsBareTerminator(rest[0]))
    ensures Lexes(p, Signs(p), rest)
  {
    if p == "" {
      LexesNothing(rest);
    } else {
      LexesBare(p, rest);
    }
  }

  lemma BareNameLexes(p: string, name: string, rest: string)
    requires AllSigns(p) && BareName(name) && Delimited(rest)
    ensures Lexes(p + name, [BareToken(p + name)], rest)
  {
    var whole := p + name;
    forall k | 0 <= k < |whole| ensures !IsBareTerminator(whole[k]) {
      assert k < |p| ==> whole[k] == p[k];
      assert k >= |p| ==> whole[k] == name[k - |p|] && !ForbidsBare(whole[k]);
    }
    LexesBare(whole, rest);
  }

  /** A string behind quote signs, the r of a raw string sticking to them. */
  lemma SignsAreBare(p: string, name: string)
    requires AllSigns(p) && p != "" && StringName(name) && QuoteAt(name) == 1
    ensures var signs := p + name[..1];
            && (signs[0] == '\'' || signs[0] == '`')
            && forall k :: 0 <= k < |signs| ==> !IsBareTerminator(signs[k])
  {
    var signs := p + name[..1];
    forall k | 0 <= k < |signs| ensures !IsBareTerminator(signs[k]) {
      assert k < |p| ==> signs[k] == p[k];
    }
  }

  lemma RawBehindSigns(p: string, name: string, rest: string)
    requires AllSigns(p) && p != "" && StringName(name) && QuoteAt(name) == 1 && Delimited(rest)
    ensures Lexes(p + name, [BareToken(p + name[..1])] + [LiteralToken(name[1..], 0)], rest)
  {
    WithoutR(name);
    var signs, literal := p + name[..1], name[1..];
    SignsAreBare(p, name);
    assert (literal + rest)[0] == '"';
    LexesLiteral(literal, rest);
    hide *;
    LexesBare(signs, literal + rest);
    LexesThen(signs, [BareToken(signs)], literal, [LiteralToken(literal, 0)], rest);
    assert p + name == signs + literal;
  }

  lemma StringBehindSigns(p: string, name: string, rest: string)
    requires AllSigns(p) && StringName(name) && (p == "" || QuoteAt(name) == 0) && Delimited(rest)
    ensures Lexes(p + name, Signs(p) + [LiteralToken(name, QuoteAt(name))], rest)
  {
    var ts := [LiteralToken(name, QuoteAt(name))];
    LexesLiteral(name, rest);
    hide Lexes, StringName, LiteralToken;
    if p == "" {
      assert p + name == name && Signs(p) + ts == ts;
    } else {
      assert (name + rest)[0] == '"';
      LexesSigns(p, name + rest);
      LexesThen(p, Signs(p), name, ts, rest);
    }
  }

  lemma StringNameLexes(p: string, name: string, rest: string)
    requires AllSigns(p) && StringName(name) && Delimited(rest)
    ensures Lexes(p + name, FormTokens(p, Symbol(name)), rest)
  {
    assert IsStringSymbol(name);
    hide Lexes, StringName, LiteralToken, Signs, BareToken;
    if p != "" && QuoteAt(name) == 1 {
      RawBehindSigns(p, name, rest);
      var first, second := BareToken(p + name[..1]), LiteralToken(name[1..], 0);
      assert [first] + [second] == [first, second];
    } else {
      StringBehindSigns(p, name, rest);
    }
  }

  /** A readable list never prints as one of the two words. */
  lemma TextOfReadable(form: Form, marshal: string -> string)
    requires Readable(form)
    ensures Text(form, marshal) != ""
    ensures form.Symbol? ==> Text(form, marshal) == form.name
    ensures !form.Symbol? ==> Text(form, marshal)[0] in ['(', '\'', '`']
  {
  }

  lemma PairText(form: Form, marshal: string -> string)
    requires Readable(form) && form.Chain?
    ensures IsPair(form, "quote") ==> Text(form, marshal) == "'" + Text(form.tail.head, marshal)
    ensures IsPair(form, "quasiquote") ==> Text(form, marshal) == "`" + Text(form.tail.head, marshal)
    ensures !IsPair(form, "quote") && !IsPair(form, "quasiquote") ==>
              Text(form, marshal) == "(" + ItemsText(form, marshal) + ")"
  {
    TextOfReadable(form.head, marshal);
  }

  lemma {:induction false} FormLexes(p: string, form: Form, rest: string, marshal: string -> string)
    requires AllSigns(p) && Readable(form) && Delimited(rest)
    ensures Lexes(p + Text(form, marshal), FormTokens(p, form), rest)
    decreases form, 1
  {
    hide Lexes, Text, ItemsText;
    match form
    case Symbol(name) =>
      TextOfReadable(form, marshal);
      SymbolLexes(p, name, rest);
    case Chain(_, tail) =>
      PairText(form, marshal);
      if IsPair(form, "quote") {
        QuotedPart(form);
        FormLexes(p + "'", tail.head, rest, marshal);
        assert p + "'" + Text(tail.head, marshal) == p + ("'" + Text(tail.head, marshal));
      } else if IsPair(form, "quasiquote") {
        QuotedPart(form);
        FormLexes(p + "`", tail.head, rest, marshal);
        assert p + "`" + Text(tail.head, marshal) == p + ("`" + Text(tail.head, marshal));
      } else {
        ItemsLex(form, ")" + rest, marshal);
        ListLexes(p, ItemsText(form, marshal), ItemTokens(form), rest);
      }
    case Nil =>
      NilLexes(p, rest, marshal);
  }

  lemma QuotedPart(form: Form)
    requires Readable(form) && form.Chain? && form.tail.Chain?
    ensures Readable(form.tail.head)
  {
    assert Readable(form.tail);
  }

  lemma SymbolLexes(p: string, name: string, rest: string)
    requires AllSigns(p) && Readable(Symbol(name)) && Delimited(rest)
    ensures Lexes(p + name, FormTokens(p, Symbol(name)), rest)
  {
    hide Lexes;
    if IsStringSymbol(name) {
      assert !BareName(name);
      StringNameLexes(p, name, rest);
    } else {
      BareNameLexes(p, name, rest);
    }
  }

  lemma NilLexes(p: string, rest: string, marshal: string -> string)
    requires AllSigns(p)
    ensures Lexes(p + Text(Nil, marshal), FormTokens(p, Nil), rest)
  {
    LexesNothing(")" + rest);
    ListLexes(p, "", [], rest);
    hide Lexes;
    assert "(" + "" + ")" == "()";
    assert Signs(p) + [Token(LParen, "(")] + [] + [Token(RParen, ")")]
        == Signs(p) + [Token(LParen, "("), Token(RParen, ")")];
  }

  lemma ListLexes(p: string, inside: string, ts: seq<Token>, rest: string)
    requires AllSigns(p) && Lexes(inside, ts, ")" + rest)
    ensures Lexes(p + ("(" + inside + ")"), Signs(p) + [Token(LParen, "(")] + ts + [Token(RParen, ")")], rest)
  {
    hide Lexes;
    var open, close := [Token(LParen, "(")], [Token(RParen, ")")];
    LexesParen(')', rest);
    LexesThen(inside, ts, ")", close, rest);
    LexesParen('(', inside + ")" + rest);
    LexesThen("(", open, inside + ")", ts + close, rest);
    var list := "(" + (inside + ")");
    assert (list + rest)[0] == '(';
    LexesSigns(p, list + rest);
    LexesThen(p, Signs(p), list, open + (ts + close), rest);
    assert p + ("(" + inside + ")") == p + list;
    assert Signs(p) + open + ts + close == Signs(p) + (open + (ts + close));
  }

  lemma {:induction false} ItemsLex(form: Form, rest: string, marshal: string -> string)
    requires form.Chain? && Readable(form) && Delimited(rest)
    ensures Lexes(ItemsText(form, marshal), ItemTokens(form), rest)
    decreases form, 0
  {
    hide Lexes, Text, FormTokens, Readable;
    var head, tail := Text(form.head, marshal), form.tail;
    assert Readable(form.head) && Readable(tail) && !tail.Missing? by { ReadableParts(form); }
    assert "" + head == head;
    match tail
    case Nil =>
      FormLexes("", form.head, rest, marshal);
      assert head + "" == head && FormTokens("", form.head) + [] == FormTokens("", form.head);
    case Chain(_, _) =>
      ItemsLex(tail, rest, marshal);
      var others := ItemsText(tail, marshal);
      LexesSpace(" ", others + rest);
      LexesThen(" ", [], others, ItemTokens(tail), rest);
      FormLexes("", form.head, " " + others + rest, marshal);
      LexesThen(head, FormTokens("", form.head), " " + others, [] + ItemTokens(tail), rest);
      assert [] + ItemTokens(tail) == ItemTokens(tail);
    case Symbol(_) =>
      var last, ts := Text(tail, marshal), FormTokens("", tail);
      assert "" + last == last;
      FormLexes("", tail, rest, marshal);
      LexesSpace(" ", last + rest);
      LexesThen(" ", [], last, ts, rest);
      assert [] + ts == ts;
      LexesBare(".", " " + last + rest);
      LexesThen(".", [BareToken(".")], " " + last, ts, rest);
      LexesSpace(" ", "." + (" " + last) + rest);
      LexesThen(" ", [], "." + (" " + last), [BareToken(".")] + ts, rest);
      var dotted := " " + ("." + (" " + last));
      assert dotted == " . " + last && [] + ([BareToken(".")] + ts) == [BareToken(".")] + ts;
      FormLexes("", form.head, dotted + rest, marshal);
      LexesThen(head, FormTokens("", form.head), dotted, [BareToken(".")] + ts, rest);
  }

  lemma ReadableParts(form: Form)
    requires form.Chain? && Readable(form)
    ensures Readable(form.head) && Readable(form.tail) && !form.tail.Missing?
  {
  }

  // --- forms that come back ---------------------------------------------------------------------------

  predicate NoDot(form: Form) {
    match form
    case Symbol(name) => name != "."
    case Chain(head, tail) => NoDot(head) && NoDot(tail)
    case _ => true
  }

  /** No list of two headed by one of the two words, neither the form nor inside it. The end
      of a longer list, as in (a quote b), is not a list of its own. */
  predicate NoPair(form: Form)
    decreases form, 1
  {
    !IsPair(form, "quote") && !IsPair(form, "quasiquote") && (form.Chain? ==> NoPairInside(form))
  }

  predicate NoPairInside(form: Form)
    requires form.Chain?
    decreases form, 0
  {
    NoPair(form.head) && (form.tail.Chain? ==> NoPairInside(form.tail))
  }

  /** A dot that is the whole form is a symbol to the reader. */
  predicate ComesBack(form: Form) {
    form.Symbol? || (NoDot(form) && NoPair(form))
  }

  // --- parsing ------------------------------------------------------------------------------------

  /** The first token of a form in a list is one that a form can start with. */
  lemma FirstToken(form: Form)
    requires Readable(form) && form != Symbol(".") && NoPair(form)
    ensures var ts := FormTokens("", form); ts != [] && (ts[0].typ == LParen || IsSymbolToken(ts[0].typ))
  {
    match form
    case Symbol(name) => SymbolToken(name);
    case _ =>
  }

  lemma SymbolToken(name: string)
    requires Readable(Symbol(name))
    ensures var ts := FormTokens("", Symbol(name));
            |ts| == 1 && ts[0].value == name && if name == "." then ts[0].typ == Dot else IsSymbolToken(ts[0].typ)
  {
    assert "" + name == name;
    if IsStringSymbol(name) {
      var q := QuoteAt(name);
      assert FormTokens("", Symbol(name)) == [LiteralToken(name, q)];
      assert name[..q] == "" || name[..q] == "r" || name[..q] == "R";
    }
  }

  lemma {:induction false} FormParses(form: Form, rest: seq<Token>)
    requires Readable(form) && ComesBack(form)
    ensures FormAt(FormTokens("", form) + rest) == Success(Read(form, rest))
    decreases form, 1
  {
    match form
    case Symbol(name) =>
      SymbolParses(name, rest);
    case Chain(_, _) =>
      var open := Token(LParen, "(");
      var inside := ItemTokens(form) + ([CLOSE] + rest);
      OpenedTokens(form, rest);
      assert ([open] + inside)[1..] == inside;
      ItemsParse(form, [], rest);
    case Nil =>
      var ts := FormTokens("", form) + rest;
      assert ts[1..] == [CLOSE] + rest;
      CloseParses([], None, rest);
  }

  lemma OpenedTokens(form: Form, rest: seq<Token>)
    requires form.Chain? && Readable(form) && NoPair(form)
    ensures FormTokens("", form) + rest == [Token(LParen, "(")] + (ItemTokens(form) + ([CLOSE] + rest))
  {
    hide ItemTokens;
    assert Signs("") == [];
  }

  lemma SymbolParses(name: string, rest: seq<Token>)
    requires Readable(Symbol(name))
    ensures FormAt(FormTokens("", Symbol(name)) + rest) == Success(Read(Symbol(name), rest))
  {
    SymbolToken(name);
    assert (FormTokens("", Symbol(name)) + rest)[1..] == rest;
  }

  /** One item read, on the way through a list. */
  lemma ItemParses(form: Form, items: seq<Form>, dot: Option<nat>, rest: seq<Token>)
    requires Readable(form) && NoDot(form) && NoPair(form) && (dot.Some? ==> dot.value < |items|)
    requires FormAt(FormTokens("", form) + rest) == Success(Read(form, rest))
    ensures ItemsAt(FormTokens("", form) + rest, items, dot) == ItemsAt(rest, items + [form], dot)
  {
    hide FormAt, FormTokens;
    FirstToken(form);
    var ts := FormTokens("", form) + rest;
    assert Peek(ts) == FormTokens("", form)[0];
  }

  lemma {:induction false} ItemsParse(form: Form, items: seq<Form>, rest: seq<Token>)
    requires form.Chain? && Readable(form) && NoDot(form) && NoPairInside(form)
    ensures ItemsAt(ItemTokens(form) + ([CLOSE] + rest), items, None)
         == Success(Read(ListToChain(items, form), rest))
    decreases form, 0
  {
    hide FormAt, FormTokens, ItemsAt;
    var head, tail := FormTokens("", form.head), form.tail;
    var after := [CLOSE] + rest;
    ReadableParts(form);
    match tail
    case Nil =>
      FormParses(form.head, after);
      ItemParses(form.head, items, None, after);
      assert head + [] + after == head + after;
      CloseParses(items + [form.head], None, rest);
      ListToChainAppend(items, form.head, Nil);
    case Chain(_, _) =>
      var others := ItemTokens(tail) + after;
      FormParses(form.head, others);
      ItemParses(form.head, items, None, others);
      assert head + ItemTokens(tail) + after == head + others;
      ItemsParse(tail, items + [form.head], rest);
      ListToChainAppend(items, form.head, tail);
    case Symbol(_) =>
      var last := FormTokens("", tail) + after;
      var dot := Token(Dot, ".");
      FormParses(form.head, [dot] + last);
      ItemParses(form.head, items, None, [dot] + last);
      assert head + ([dot] + FormTokens("", tail)) + after == head + ([dot] + last);
      var heads := items + [form.head];
      DotParses(heads, last);
      FormParses(tail, after);
      ItemParses(tail, heads + [Missing], Some(|heads|), after);
      var all := heads + [Missing] + [tail];
      CloseParses(all, Some(|heads|), rest);
      assert all[..|heads|] == heads;
      ListToChainAppend(items, form.head, tail);
  }

  lemma CloseParses(items: seq<Form>, dot: Option<nat>, rest: seq<Token>)
    requires dot.Some? ==> 0 < dot.value && dot.value == |items| - 2
    ensures var form := if dot.None? then ListToChain(items, Nil)
                        else ListToChain(items[..dot.value], items[dot.value + 1]);
            ItemsAt([CLOSE] + rest, items, dot) == Success(Read(form, rest))
  {
    assert ([CLOSE] + rest)[1..] == rest;
  }

  lemma DotParses(items: seq<Form>, rest: seq<Token>)
    ensures ItemsAt([Token(Dot, ".")] + rest, items, None) == ItemsAt(rest, items + [Missing], Some(|items|))
  {
    assert ([Token(Dot, ".")] + rest)[1..] == rest;
  }

  const CLOSE := Token(RParen, ")")

  // --- what the reader cannot give back --------------------------------------------------------

  predicate IsWord(name: string) { name == "quote" || name == "quasiquote" }

  /** How many symbols carry one of the two words. */
  function Words(form: Form): nat {
    match form
    case Symbol(name) => if IsWord(name) then 1 else 0
    case Chain(head, tail) => Words(head) + Words(tail)
    case _ => 0
  }

  function WordsIn(forms: seq<Form>): nat {
    if forms == [] then 0 else WordsIn(forms[..|forms| - 1]) + Words(forms[|forms| - 1])
  }

  function TokenWords(ts: seq<Token>): nat {
    if ts == [] then 0 else (if IsWord(ts[0].value) then 1 else 0) + TokenWords(ts[1..])
  }

  lemma {:induction false} TokenWordsSplit(a: seq<Token>, b: seq<Token>)
    ensures TokenWords(a + b) == TokenWords(a) + TokenWords(b)
  {
    if a == [] {
      assert a + b == b;
    } else {
      TokenWordsSplit(a[1..], b);
      assert (a + b)[1..] == a[1..] + b;
    }
  }

  lemma SignsAreNoWords(p: string)
    requires AllSigns(p)
    ensures TokenWords(Signs(p)) == 0
  {
    if p != "" {
      assert !IsWord(p) by { assert p[0] != 'q'; }
      assert Signs(p)[1..] == [];
    }
  }

  lemma NoWords(a: Token, b: Token)
    requires !IsWord(a.value) && !IsWord(b.value)
    ensures TokenWords([a, b]) == 0
  {
    assert [a, b][1..] == [b];
    assert [b][1..] == [] && TokenWords([]) == 0;
    assert TokenWords([b]) == 0;
  }

  lemma SymbolWords(p: string, name: string)
    requires AllSigns(p) && Readable(Symbol(name))
    ensures TokenWords(FormTokens(p, Symbol(name))) <= Words(Symbol(name))
  {
    if !IsStringSymbol(name) {
      assert p == "" ==> p + name == name;
      assert p != "" ==> (p + name)[0] == p[0];
    } else if p != "" && QuoteAt(name) == 1 {
      assert (p + name[..1])[0] == p[0] && name[1..][0] == '"';
      var ts := FormTokens(p, Symbol(name));
      assert ts == [ts[0], ts[1]] && p[0] != 'q';
      NoWords(ts[0], ts[1]);
    } else {
      SignsAreNoWords(p);
      TokenWordsSplit(Signs(p), [LiteralToken(name, QuoteAt(name))]);
    }
  }

  lemma ListWords(p: string, inside: seq<Token>)
    requires AllSigns(p)
    ensures TokenWords(Signs(p) + [Token(LParen, "(")] + inside + [CLOSE]) == TokenWords(inside)
  {
    SignsAreNoWords(p);
    TokenWordsSplit(Signs(p), [Token(LParen, "(")]);
    TokenWordsSplit(Signs(p) + [Token(LParen, "(")], inside);
    TokenWordsSplit(Signs(p) + [Token(LParen, "(")] + inside, [CLOSE]);
  }

  /** A quote sign takes the place of a word, and nothing puts a word back. */
  lemma {:induction false} PairLosesWord(p: string, form: Form)
    requires AllSigns(p) && Readable(form)
    ensures TokenWords(FormTokens(p, form)) <= Words(form)
    ensures !NoPair(form) ==> TokenWords(FormTokens(p, form)) < Words(form)
    decreases form, 1
  {
    match form
    case Symbol(name) => SymbolWords(p, name);
    case Chain(_, tail) =>
      ReadableParts(form);
      if IsPair(form, "quote") {
        PairLosesWord(p + "'", tail.head);
      } else if IsPair(form, "quasiquote") {
        PairLosesWord(p + "`", tail.head);
      } else {
        ItemsLoseWord(form);
        ListWords(p, ItemTokens(form));
      }
    case Nil =>
      ListWords(p, []);
      assert Signs(p) + [Token(LParen, "(")] + [] + [CLOSE] == FormTokens(p, Nil);
  }

  lemma {:induction false} ItemsLoseWord(form: Form)
    requires form.Chain? && Readable(form)
    ensures TokenWords(ItemTokens(form)) <= Words(form)
    ensures !NoPairInside(form) ==> TokenWords(ItemTokens(form)) < Words(form)
    decreases form, 0
  {
    ReadableParts(form);
    hide FormTokens;
    PairLosesWord("", form.head);
    var head, tail := FormTokens("", form.head), form.tail;
    match tail
    case Nil =>
      assert head + [] == head;
    case Chain(_, _) =>
      ItemsLoseWord(tail);
      TokenWordsSplit(head, ItemTokens(tail));
    case Symbol(_) =>
      PairLosesWord("", tail);
      var last := FormTokens("", tail);
      TokenWordsSplit([BareToken(".")], last);
      TokenWordsSplit(head, [BareToken(".")] + last);
  }

  /** The tokens of written text: no tagged literal, and a dot is always a dot token. */
  predicate Plain(ts: seq<Token>) {
    forall k :: 0 <= k < |ts| ==> PlainToken(ts[k])
  }

  predicate PlainToken(t: Token) {
    t.typ in [LParen, RParen, Dot, EOF] || (IsSymbolToken(t.typ) && t.value != ".")
  }

  lemma {:induction false} WrittenIsPlain(p: string, form: Form)
    requires AllSigns(p) && Readable(form)
    ensures Plain(FormTokens(p, form))
    decreases form, 1
  {
    match form
    case Symbol(name) => SymbolIsPlain(p, name);
    case Chain(_, tail) =>
      ReadableParts(form);
      if IsPair(form, "quote") {
        WrittenIsPlain(p + "'", tail.head);
      } else if IsPair(form, "quasiquote") {
        WrittenIsPlain(p + "`", tail.head);
      } else {
        ItemsArePlain(form);
      }
    case Nil =>
  }

  lemma SymbolIsPlain(p: string, name: string)
    requires AllSigns(p) && Readable(Symbol(name))
    ensures Plain(FormTokens(p, Symbol(name)))
  {
    if p == "" {
      SymbolToken(name);
    } else if IsStringSymbol(name) && QuoteAt(name) == 1 {
      WithoutR(name);
      SymbolToken(name[1..]);
      assert LiteralToken(name[1..], 0) == FormTokens("", Symbol(name[1..]))[0];
    } else if IsStringSymbol(name) {
      SymbolToken(name);
    }
  }

  lemma {:induction false} ItemsArePlain(form: Form)
    requires form.Chain? && Readable(form)
    ensures Plain(ItemTokens(form))
    decreases form, 0
  {
    ReadableParts(form);
    hide FormTokens;
    WrittenIsPlain("", form.head);
    match form.tail
    case Nil =>
    case Chain(_, _) => ItemsArePlain(form.tail);
    case Symbol(_) => WrittenIsPlain("", form.tail);
  }

  lemma {:induction false} WordsInSplit(a: seq<Form>, b: seq<Form>)
    ensures WordsIn(a + b) == WordsIn(a) + WordsIn(b)
    decreases |b|
  {
    if b == [] {
      assert a + b == a;
    } else {
      assert (a + b)[..|a + b| - 1] == a + b[..|b| - 1];
      WordsInSplit(a, b[..|b| - 1]);
    }
  }

  lemma {:induction false} ChainWords(items: seq<Form>, tail: Form)
    ensures Words(ListToChain(items, tail)) == WordsIn(items) + Words(tail)
    decreases |items|
  {
    if items != [] {
      ChainWords(items[..|items| - 1], Chain(items[|items| - 1], tail));
    }
  }

  lemma BuiltWords(items: seq<Form>, dot: Option<nat>)
    requires dot.Some? ==> dot.value < |items|
    requires Built(items, dot).Success?
    ensures Words(Built(items, dot).value) <= WordsIn(items)
  {
    if dot.None? {
      ChainWords(items, Nil);
    } else {
      var d := dot.value;
      var ends := items[d..];
      assert items == items[..d] + ends && ends[..1] == [items[d]] && ends[..1][..0] == [];
      WordsInSplit(items[..d], ends);
      ChainWords(items[..d], items[d + 1]);
    }
  }

  /** Reading plain tokens makes no word that was not there. */
  lemma {:induction false} FormAtWords(ts: seq<Token>)
    requires Plain(ts) && FormAt(ts).Success?
    ensures var r := FormAt(ts).value; Words(r.form) + TokenWords(r.rest) <= TokenWords(ts) && Plain(r.rest)
    decreases |ts|, 0
  {
    if Peek(ts).typ == LParen {
      ItemsAtWords(ts[1..], [], None);
    }
  }

  lemma {:induction false} ItemsAtWords(ts: seq<Token>, items: seq<Form>, dot: Option<nat>)
    requires Plain(ts) && (dot.Some? ==> dot.value < |items|) && ItemsAt(ts, items, dot).Success?
    ensures var r := ItemsAt(ts, items, dot).value;
            Words(r.form) + TokenWords(r.rest) <= WordsIn(items) + TokenWords(ts) && Plain(r.rest)
    decreases |ts|, 1
  {
    hide Words, FormAt;
    var tok := Peek(ts);
    if tok.typ == RParen {
      BuiltWords(items, dot);
    } else if tok.typ == Dot {
      WordsInSplit(items, [Missing]);
      assert [Missing][..0] == [] && Words(Missing) == 0 by { MissingIsNoWord(); }
      ItemsAtWords(ts[1..], items + [Missing], Some(|items|));
    } else {
      FormAtWords(ts);
      var item := FormAt(ts).value;
      WordsInSplit(items, [item.form]);
      assert [item.form][..0] == [];
      ItemsAtWords(item.rest, items + [item.form], dot);
    }
  }

  lemma MissingIsNoWord()
    ensures Words(Missing) == 0
  {
  }

  predicate AllNoDot(forms: seq<Form>) { forall k :: 0 <= k < |forms| ==> NoDot(forms[k]) }

  lemma {:induction false} ChainNoDot(items: seq<Form>, tail: Form)
    requires AllNoDot(items) && NoDot(tail)
    ensures NoDot(ListToChain(items, tail))
    decreases |items|
  {
    if items != [] {
      ChainNoDot(items[..|items| - 1], Chain(items[|items| - 1], tail));
    }
  }

  /** Inside a list the reader never makes a dot symbol. */
  lemma {:induction false} FormAtNoDot(ts: seq<Token>)
    requires Plain(ts) && FormAt(ts).Success? && Peek(ts).typ != Dot
    ensures NoDot(FormAt(ts).value.form) && Plain(FormAt(ts).value.rest)
    decreases |ts|, 0
  {
    if Peek(ts).typ == LParen {
      ItemsAtNoDot(ts[1..], [], None);
    }
  }

  lemma {:induction false} ItemsAtNoDot(ts: seq<Token>, items: seq<Form>, dot: Option<nat>)
    requires Plain(ts) && AllNoDot(items) && (dot.Some? ==> dot.value < |items|)
    requires ItemsAt(ts, items, dot).Success?
    ensures NoDot(ItemsAt(ts, items, dot).value.form) && Plain(ItemsAt(ts, items, dot).value.rest)
    decreases |ts|, 1
  {
    hide FormAt;
    var tok := Peek(ts);
    if tok.typ == RParen {
      if dot.None? { ChainNoDot(items, Nil); } else { ChainNoDot(items[..dot.value], items[dot.value + 1]); }
    } else if tok.typ == Dot {
      ItemsAtNoDot(ts[1..], items + [Missing], Some(|items|));
    } else {
      FormAtNoDot(ts);
      ItemsAtNoDot(FormAt(ts).value.rest, items + [FormAt(ts).value.form], dot);
    }
  }

  // --- programs ---------------------------------------------------------------------------------

  function ProgramTokens(forms: seq<Form>): seq<Token>
    requires forall k :: 0 <= k < |forms| ==> Readable(forms[k])
  {
    if forms == [] then [] else FormTokens("", forms[0]) + ProgramTokens(forms[1..])
  }

  lemma {:induction false} ProgramLexes(forms: seq<Form>, marshal: string -> string)
    requires forall k :: 0 <= k < |forms| ==> Readable(forms[k])
    ensures Lexes(ProgramText(forms, marshal), ProgramTokens(forms), "")
  {
    hide Lexes, Text, FormTokens;
    if forms == [] {
      LexesNothing("");
    } else {
      var first, ts := Text(forms[0], marshal), FormTokens("", forms[0]);
      assert "" + first == first;
      if |forms| == 1 {
        FormLexes("", forms[0], "", marshal);
        assert ProgramTokens(forms[1..]) == [] && ts + [] == ts;
      } else {
        ProgramLexes(forms[1..], marshal);
        var others, us := ProgramText(forms[1..], marshal), ProgramTokens(forms[1..]);
        assert others + "" == others && [] + us == us;
        LexesSpace("\n", others);
        LexesThen("\n", [], others, us, "");
        FormLexes("", forms[0], "\n" + others, marshal);
        assert "\n" + others + "" == "\n" + others;
        LexesThen(first, ts, "\n" + others, us, "");
        assert first + "\n" + others == first + ("\n" + others);
      }
    }
  }

  lemma {:induction false} ProgramParses(forms: seq<Form>)
    requires forall k :: 0 <= k < |forms| ==> Readable(forms[k]) && ComesBack(forms[k])
    ensures FormsAt(ProgramTokens(forms) + [END]) == Success(forms)
  {
    hide FormAt, FormTokens, Readable, ComesBack;
    if forms != [] {
      var others := ProgramTokens(forms[1..]) + [END];
      assert ProgramTokens(forms) + [END] == FormTokens("", forms[0]) + others;
      FormParses(forms[0], others);
      FirstOfForm(forms[0], others);
      ProgramParses(forms[1..]);
      assert [forms[0]] + forms[1..] == forms;
    }
  }

  lemma FirstOfForm(form: Form, others: seq<Token>)
    requires Readable(form) && ComesBack(form)
    ensures Peek(FormTokens("", form) + others).typ != EOF
  {
    if form.Symbol? { SymbolToken(form.name); } else { FirstToken(form); }
  }

  lemma {:induction false} FormsAtWords(ts: seq<Token>)
    requires Plain(ts) && FormsAt(ts).Success?
    ensures WordsIn(FormsAt(ts).value) <= TokenWords(ts)
    decreases |ts|
  {
    if Peek(ts).typ != EOF {
      FormAtWords(ts);
      var first := FormAt(ts).value;
      FormsAtWords(first.rest);
      WordsInSplit([first.form], FormsAt(first.rest).value);
      assert [first.form][..0] == [];
    }
  }

  lemma {:induction false} ProgramLosesWord(forms: seq<Form>)
    requires forall k :: 0 <= k < |forms| ==> Readable(forms[k])
    ensures TokenWords(ProgramTokens(forms)) <= WordsIn(forms) && Plain(ProgramTokens(forms))
    ensures (exists k :: 0 <= k < |forms| && !NoPair(forms[k])) ==>
              TokenWords(ProgramTokens(forms)) < WordsIn(forms)
  {
    hide FormTokens, Words, Readable, NoPair;
    if forms != [] {
      PairLosesWord("", forms[0]);
      WrittenIsPlain("", forms[0]);
      ProgramLosesWord(forms[1..]);
      TokenWordsSplit(FormTokens("", forms[0]), ProgramTokens(forms[1..]));
      assert forms == [forms[0]] + forms[1..] && [forms[0]][..0] == [];
      WordsInSplit([forms[0]], forms[1..]);
      assert forall k :: 0 <= k < |forms| && k != 0 ==> forms[k] == forms[1..][k - 1];
    }
  }

  lemma {:induction false} ReadDotsAway(forms: seq<Form>)
    requires forall k :: 0 <= k < |forms| ==> Readable(forms[k]) && NoPair(forms[k])
    requires FormsAt(ProgramTokens(forms) + [END]) == Success(forms)
    ensures forall k :: 0 <= k < |forms| ==> ComesBack(forms[k])
  {
    hide FormAt, FormTokens, Readable, NoPair, NoDot;
    if forms != [] {
      var others := ProgramTokens(forms[1..]) + [END];
      var ts := FormTokens("", forms[0]) + others;
      assert ProgramTokens(forms) + [END] == ts;
      if !forms[0].Symbol? {
        FirstToken(forms[0]);
        NotADot(forms[0]);
        ProgramLosesWord(forms[1..]);
        WrittenIsPlain("", forms[0]);
        FormAtNoDot(ts);
      }
      FormParses(forms[0], others);
      ReadDotsAway(forms[1..]);
      assert forall k :: 0 <= k < |forms| && k != 0 ==> forms[k] == forms[1..][k - 1];
    }
  }

  lemma NotADot(form: Form)
    requires Readable(form) && !form.Symbol? && NoPair(form)
    ensures FormTokens("", form)[0].typ == LParen
  {
  }

  lemma ReadingIsParsing(forms: seq<Form>, marshal: string -> string)
    requires forall k :: 0 <= k < |forms| ==> Readable(forms[k])
    ensures ReadRaw(ProgramText(forms, marshal)) == FormsAt(ProgramTokens(forms) + [END])
  {
    ProgramLexes(forms, marshal);
    var text := ProgramText(forms, marshal);
    assert text + "" == text && Tokens("") == Success([END]);
  }

  lemma EndIsNoWord(ts: seq<Token>)
    ensures TokenWords(ts + [END]) == TokenWords(ts) && (Plain(ts) ==> Plain(ts + [END]))
  {
    TokenWordsSplit(ts, [END]);
    assert [END][1..] == [] && TokenWords([END]) == 0;
  }

  lemma ReadBackComesBack(forms: seq<Form>)
    requires forall k :: 0 <= k < |forms| ==> Readable(forms[k])
    requires FormsAt(ProgramTokens(forms) + [END]) == Success(forms)
    ensures forall k :: 0 <= k < |forms| ==> ComesBack(forms[k])
  {
    hide *;
    ProgramLosesWord(forms);
    EndIsNoWord(ProgramTokens(forms));
    FormsAtWords(ProgramTokens(forms) + [END]);
    ReadDotsAway(forms);
  }

  /** A written program reads back as itself exactly when each of its forms can come back. */
  lemma WrittenReadsBack(forms: seq<Form>, marshal: string -> string)
    requires forall k :: 0 <= k < |forms| ==> Readable(forms[k])
    ensures ReadRaw(ProgramText(forms, marshal)) == Success(forms)
       <==> forall k :: 0 <= k < |forms| ==> ComesBack(forms[k])
  {
    hide *;
    ReadingIsParsing(forms, marshal);
    if forall k :: 0 <= k < |forms| ==> ComesBack(forms[k]) {
      ProgramParses(forms);
    }
    if FormsAt(ProgramTokens(forms) + [END]) == Success(forms) {
      ReadBackComesBack(forms);
    }
  }

  /** The writer and the reader, as they run. */
  method WriteThenRead(forms: seq<Form>, marshal: string -> string) returns (read: Result<seq<Form>, SyntaxError>)
    requires forall k :: 0 <= k < |forms| ==> Readable(forms[k])
    ensures read == Success(forms) <==> forall k :: 0 <= k < |forms| ==> ComesBack(forms[k])
  {
    var text := WriteProgram(forms, marshal);
    WrittenReadsBack(forms, marshal);
    read := ReadSource(text);
  }
}

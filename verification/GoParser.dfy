/** The Go reader's parser (go-reader/parser.go), on the tokens that are left. */
module GoParser {
  import opened Wrappers
  import opened GoForm
  import opened GoLexer

  datatype SyntaxError =
    | LexError(error: Error)
    | UnexpectedClose | UnexpectedEnd | Unclosed | NoHeadBeforeDot | NotOneTailAfterDot

  function Peek(ts: seq<Token>): Token { if ts == [] then END else ts[0] }

  predicate IsSymbolToken(typ: TokenType) {
    || typ == BareSymbol || typ == QuotedSymbol || typ == RawQuotedSymbol
    || typ == MultilineSymbol || typ == RawMultilineSymbol
  }

  function QuoteIndex(s: string): nat { if s == "" || s[0] == '"' then 0 else 1 + QuoteIndex(s[1..]) }

  /** `splitTaggedLiteral` and `expandTaggedLiteral`: tag"text" stands for (tag (quote "text")). */
  function ExpandTagged(value: string): Form {
    var i := QuoteIndex(value);
    var (tag, literal) := if i == 0 || i >= |value| then ("", value) else (value[..i], value[i..]);
    Chain(Symbol(tag), Chain(Chain(Symbol("quote"), Chain(Symbol(literal), Nil)), Nil))
  }

  datatype Read = Read(form: Form, rest: seq<Token>)

  function FormAt(ts: seq<Token>): (r: Result<Read, SyntaxError>)
    ensures r.Success? ==> |r.value.rest| < |ts|
    decreases |ts|, 0
  {
    var tok := Peek(ts);
    if tok.typ == LParen then ItemsAt(ts[1..], [], None)
    else if IsSymbolToken(tok.typ) then Success(Read(Symbol(tok.value), ts[1..]))
    else if tok.typ == TaggedQuotedSymbol || tok.typ == TaggedMultilineSymbol then
      Success(Read(ExpandTagged(tok.value), ts[1..]))
    else if tok.typ == Dot then Success(Read(Symbol("."), ts[1..]))
    else if tok.typ == RParen then Failure(UnexpectedClose)
    else Failure(UnexpectedEnd)
  }

  /** The rest of a list, after `items`; `dot` is where the last dot stood. */
  function ItemsAt(ts: seq<Token>, items: seq<Form>, dot: Option<nat>): (r: Result<Read, SyntaxError>)
    requires dot.Some? ==> dot.value < |items|
    ensures r.Success? ==> |r.value.rest| < |ts|
    decreases |ts|, 1
  {
    var tok := Peek(ts);
    if tok.typ == RParen then
      var form :- Built(items, dot);
      Success(Read(form, ts[1..]))
    else if tok.typ == EOF then Failure(Unclosed)
    else if tok.typ == Dot then ItemsAt(ts[1..], items + [Missing], Some(|items|))
    else
      var item :- FormAt(ts);
      ItemsAt(item.rest, items + [item.form], dot)
  }

  function Built(items: seq<Form>, dot: Option<nat>): Result<Form, SyntaxError>
    requires dot.Some? ==> dot.value < |items|
  {
    if dot == None then Success(ListToChain(items, Nil))
    else if dot.value == 0 then Failure(NoHeadBeforeDot)
    else if dot.value != |items| - 2 then Failure(NotOneTailAfterDot)
    else Success(ListToChain(items[..dot.value], items[dot.value + 1]))
  }

  function FormsAt(ts: seq<Token>): Result<seq<Form>, SyntaxError>
    decreases |ts|
  {
    if Peek(ts).typ == EOF then Success([])
    else
      var first :- FormAt(ts);
      var others :- FormsAt(first.rest);
      Success([first.form] + others)
  }

  /** `ReadRaw`. */
  function ReadRaw(source: string): Result<seq<Form>, SyntaxError> {
    match Tokens(source)
    case Success(ts) => FormsAt(ts)
    case Failure(e) => Failure(LexError(e))
  }

  // --- the parser as written -----------------------------------------------------------------

  class Parser {
    const tokens: seq<Token>
    var pos: nat

    ghost predicate Valid()
      reads this
    {
      pos <= |tokens|
    }

    constructor (tokens: seq<Token>)
      ensures Valid() && pos == 0 && this.tokens == tokens
    {
      this.tokens := tokens;
      pos := 0;
    }

    function PeekToken(): (tok: Token)
      requires Valid()
      reads this
      ensures tok == Peek(tokens[pos..])
    {
      if pos >= |tokens| then END else tokens[pos]
    }

    method Advance() returns (tok: Token)
      requires Valid()
      modifies this
      ensures Valid() && tok == Peek(tokens[old(pos)..])
      ensures if tok.typ == EOF then pos == old(pos) else pos == old(pos) + 1
      ensures tok.typ != EOF ==> tokens[pos..] == tokens[old(pos)..][1..]
    {
      tok := PeekToken();
      if tok.typ != EOF {
        pos := pos + 1;
      }
    }

    ghost predicate Agrees(r: Result<Form, SyntaxError>, spec: Result<Read, SyntaxError>)
      reads this
    {
      match spec
      case Success(read) => r == Success(read.form) && pos <= |tokens| && tokens[pos..] == read.rest
      case Failure(e) => r == Failure(e)
    }

    method ParseForm() returns (r: Result<Form, SyntaxError>)
      requires Valid()
      modifies this
      ensures Valid() && Agrees(r, FormAt(tokens[old(pos)..]))
      decreases |tokens| - pos, 1
    {
      hide ItemsAt;
      var tok := PeekToken();
      match tok.typ
      case LParen =>
        r := ParseList();
      case BareSymbol | QuotedSymbol | RawQuotedSymbol | MultilineSymbol | RawMultilineSymbol =>
        var taken := Advance();
        return Success(Symbol(tok.value));
      case TaggedQuotedSymbol | TaggedMultilineSymbol =>
        var taken := Advance();
        return Success(ExpandTagged(tok.value));
      case Dot =>
        var taken := Advance();
        return Success(Symbol("."));
      case RParen => return Failure(UnexpectedClose);
      case EOF => return Failure(UnexpectedEnd);
    }

    method ParseList() returns (r: Result<Form, SyntaxError>)
      requires Valid() && Peek(tokens[pos..]).typ == LParen
      modifies this
      ensures Valid() && Agrees(r, FormAt(tokens[old(pos)..]))
      decreases |tokens| - pos, 0
    {
      ghost var whole := ItemsAt(tokens[pos..][1..], [], None);
      assert FormAt(tokens[pos..]) == whole;
      hide FormAt;
      var open := Advance();
      var items: seq<Form> := [];
      var dotIndex := -1;
      while true
        invariant Valid() && old(pos) < pos && -1 <= dotIndex < |items|
        invariant whole == ItemsAt(tokens[pos..], items, if dotIndex < 0 then None else Some(dotIndex))
        decreases |tokens| - pos
      {
        var tok := PeekToken();
        if tok.typ == RParen {
          var close := Advance();
          break;
        }
        if tok.typ == EOF {
          return Failure(Unclosed);
        }
        if tok.typ == Dot {
          var dot := Advance();
          dotIndex := |items|;
          items := items + [Missing];
          continue;
        }
        ghost var before := pos;
        var form :- ParseForm();
        assert |tokens[pos..]| < |tokens[before..]|;
        items := items + [form];
      }
      if dotIndex == -1 {
        return Success(ListToChain(items, Nil));
      }
      if dotIndex == 0 {
        return Failure(NoHeadBeforeDot);
      }
      if dotIndex != |items| - 2 {
        return Failure(NotOneTailAfterDot);
      }
      var heads: seq<Form> := [];
      for i := 0 to dotIndex
        invariant heads == items[..i]
      {
        heads := heads + [items[i]];
      }
      var result := items[dotIndex + 1];
      var k := |heads|;
      assert heads[..k] == heads;
      while k > 0
        invariant 0 <= k <= |heads|
        invariant ListToChain(heads[..k], result) == ListToChain(heads, items[dotIndex + 1])
      {
        k := k - 1;
        assert heads[..k + 1][..k] == heads[..k];
        result := Chain(heads[k], result);
      }
      return Success(result);
    }

    method ParseProgram() returns (r: Result<seq<Form>, SyntaxError>)
      requires Valid()
      modifies this
      ensures r == FormsAt(tokens[old(pos)..])
    {
      hide FormAt;
      ghost var whole := FormsAt(tokens[pos..]);
      var forms: seq<Form> := [];
      assert forms + (if whole.Success? then whole.value else []) == if whole.Success? then whole.value else [];
      while true
        invariant Valid() && whole == Prepended(forms, FormsAt(tokens[pos..]))
        decreases |tokens| - pos
      {
        var tok := PeekToken();
        if tok.typ == EOF {
          break;
        }
        ghost var before := pos;
        var form :- ParseForm();
        assert |tokens[pos..]| < |tokens[before..]|;
        ghost var others := FormsAt(tokens[pos..]);
        PrependedStep(forms, form, others);
        forms := forms + [form];
      }
      assert forms + [] == forms;
      return Success(forms);
    }
  }

  function Prepended(forms: seq<Form>, others: Result<seq<Form>, SyntaxError>): Result<seq<Form>, SyntaxError> {
    match others
    case Success(fs) => Success(forms + fs)
    case Failure(e) => Failure(e)
  }

  lemma PrependedStep(forms: seq<Form>, form: Form, others: Result<seq<Form>, SyntaxError>)
    ensures Prepended(forms, Prepended([form], others)) == Prepended(forms + [form], others)
  {
    if others.Success? {
      assert forms + ([form] + others.value) == forms + [form] + others.value;
    }
  }

  method ReadSource(source: string) returns (r: Result<seq<Form>, SyntaxError>)
    ensures r == ReadRaw(source)
  {
    var tokens := Tokenize(source);
    if tokens.Failure? {
      return Failure(LexError(tokens.error));
    }
    var p := new Parser(tokens.value);
    assert tokens.value[0..] == tokens.value;
    r := p.ParseProgram();
  }
}

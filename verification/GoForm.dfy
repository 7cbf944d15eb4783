/**
 Forms of the Go reader (go-reader/syntax.go) and the writer (go-reader/writer.go). Strings
 are sequences of runes. `marshal` is the JSON encoder that the writer falls back on.
 */
module GoForm {

  /** `Missing` is Go's nil interface, which the parser leaves in a list for an early dot. */
  datatype Form = Symbol(name: string) | Chain(head: Form, tail: Form) | Nil | Missing

  /** `ListToChainWithTail`. */
  function ListToChain(items: seq<Form>, tail: Form): Form {
    if items == [] then tail
    else ListToChain(items[..|items| - 1], Chain(items[|items| - 1], tail))
  }

  lemma ListToChainAppend(items: seq<Form>, head: Form, tail: Form)
    ensures ListToChain(items + [head], tail) == ListToChain(items, Chain(head, tail))
  {
    assert (items + [head])[..|items|] == items;
  }

  // --- text --------------------------------------------------------------------------------

  predicate IsStringSymbol(name: string) {
    (name != "" && name[0] == '"') || (|name| >= 2 && (name[0] == 'r' || name[0] == 'R') && name[1] == '"')
  }

  predicate ForbidsBare(r: char) {
    r == '(' || r == ')' || r == '"' || r == '\'' || r == ';' || r <= ' '
  }

  predicate CanWriteBare(name: string) {
    name != "" && forall k :: 0 <= k < |name| ==> !ForbidsBare(name[k])
  }

  function SymbolText(name: string, marshal: string -> string): string {
    if IsStringSymbol(name) || CanWriteBare(name) then name else marshal(name)
  }

  /** `Write`. A list of two whose first item prints as `quote` is printed with a quote sign. */
  function Text(form: Form, marshal: string -> string): string
    decreases form, 1
  {
    match form
    case Symbol(name) => SymbolText(name, marshal)
    case Chain(head, tail) =>
      if tail.Chain? && tail.tail.Nil? && Text(head, marshal) == "quote" then "'" + Text(tail.head, marshal)
      else if tail.Chain? && tail.tail.Nil? && Text(head, marshal) == "quasiquote" then "`" + Text(tail.head, marshal)
      else "(" + ItemsText(form, marshal) + ")"
    case Nil => "()"
    case Missing => "()"
  }

  function ItemsText(form: Form, marshal: string -> string): string
    requires form.Chain?
    decreases form, 0
  {
    Text(form.head, marshal) +
    match form.tail {
      case Nil => ""
      case Chain(_, _) => " " + ItemsText(form.tail, marshal)
      case _ => " . " + Text(form.tail, marshal)
    }
  }

  // --- the writer as written -------------------------------------------------------------------

  /** `strings.Join`. */
  function Join(parts: seq<string>, separator: string): string {
    if parts == [] then ""
    else if |parts| == 1 then parts[0]
    else Join(parts[..|parts| - 1], separator) + separator + parts[|parts| - 1]
  }

  method CanWriteBareLoop(name: string) returns (b: bool)
    ensures b == CanWriteBare(name)
  {
    if name == "" { return false; }
    for k := 0 to |name|
      invariant forall i :: 0 <= i < k ==> !ForbidsBare(name[i])
    {
      var r := name[k];
      if r == '(' || r == ')' || r == '"' || r == '\'' || r == ';' { return false; }
      if r <= ' ' { return false; }
    }
    return true;
  }

  method Write(form: Form, marshal: string -> string) returns (text: string)
    ensures text == Text(form, marshal)
    decreases form, 1
  {
    match form
    case Symbol(name) =>
      if IsStringSymbol(name) { return name; }
      var bare := CanWriteBareLoop(name);
      return if bare then name else marshal(name);
    case Chain(_, _) => text := WriteChain(form, marshal);
    case Nil => return "()";
    case Missing => return "()";
  }

  /** The items from `current` on, as they follow what has been joined before. */
  function Continued(before: seq<string>, current: Form, marshal: string -> string): string {
    match current
    case Chain(_, _) => Join(before, " ") + (if before == [] then "" else " ") + ItemsText(current, marshal)
    case Nil => Join(before, " ")
    case _ => Join(before, " ") + " . " + Text(current, marshal)
  }

  lemma ContinuedStep(before: seq<string>, current: Form, marshal: string -> string)
    requires current.Chain?
    ensures Continued(before, current, marshal)
         == Continued(before + [Text(current.head, marshal)], current.tail, marshal)
  {
    hide Text;
    var head := Text(current.head, marshal);
    var after := before + [head];
    assert after[..|after| - 1] == before;
    var lead := Join(before, " ") + (if before == [] then "" else " ");
    assert Join(after, " ") == lead + head;
    match current.tail
    case Chain(_, _) =>
      assert lead + (head + (" " + ItemsText(current.tail, marshal)))
          == lead + head + " " + ItemsText(current.tail, marshal);
    case Nil =>
      assert lead + (head + "") == lead + head;
    case _ =>
      var dotted := " . " + Text(current.tail, marshal);
      assert lead + (head + dotted) == lead + head + " . " + Text(current.tail, marshal);
  }

  method WriteChain(chain: Form, marshal: string -> string) returns (text: string)
    requires chain.Chain?
    ensures text == Text(chain, marshal)
    decreases chain, 0
  {
    hide Text, ItemsText, Join;
    var items: seq<string> := [];
    var current := chain;
    ghost var walked := 0;
    while current.Chain?
      invariant current == chain || current < chain
      invariant Continued(items, current, marshal) == Continued([], chain, marshal)
      invariant SameShape(chain, items, current, marshal)
      decreases current
    {
      var item := Write(current.head, marshal);
      ContinuedStep(items, current, marshal);
      items := items + [item];
      current := current.tail;
    }
    TextOfChain(chain, items, current, marshal);
    if !current.Nil? {
      var tail := Write(current, marshal);
      text := "(" + Join(items, " ") + " . " + tail + ")";
      assert text == "(" + (Join(items, " ") + " . " + tail) + ")";
      return;
    }
    if |items| == 2 && items[0] == "quote" { return "'" + items[1]; }
    if |items| == 2 && items[0] == "quasiquote" { return "`" + items[1]; }
    return "(" + Join(items, " ") + ")";
  }

  /** What the loop has collected, as far as the two-item shorthands look at it. */
  predicate SameShape(chain: Form, items: seq<string>, current: Form, marshal: string -> string)
    requires chain.Chain?
  {
    && (|items| == 0 ==> current == chain)
    && (|items| == 1 ==> current == chain.tail)
    && (|items| >= 1 ==> items[0] == Text(chain.head, marshal))
    && (|items| >= 2 ==> chain.tail.Chain? && items[1] == Text(chain.tail.head, marshal))
    && (|items| == 2 ==> current == chain.tail.tail)
    && (|items| >= 3 ==> chain.tail.tail.Chain?)
  }

  lemma TextOfChain(chain: Form, items: seq<string>, current: Form, marshal: string -> string)
    requires chain.Chain? && !current.Chain? && SameShape(chain, items, current, marshal)
    requires Continued(items, current, marshal) == Continued([], chain, marshal)
    ensures current.Nil? && |items| == 2 && items[0] == "quote" ==> Text(chain, marshal) == "'" + items[1]
    ensures current.Nil? && |items| == 2 && items[0] == "quasiquote" ==> Text(chain, marshal) == "`" + items[1]
    ensures !(current.Nil? && |items| == 2 && (items[0] == "quote" || items[0] == "quasiquote")) ==>
              Text(chain, marshal) == "(" + Continued(items, current, marshal) + ")"
  {
    assert Continued([], chain, marshal) == ItemsText(chain, marshal);
  }

  method WriteProgram(forms: seq<Form>, marshal: string -> string) returns (text: string)
    ensures text == ProgramText(forms, marshal)
  {
    var parts: seq<string> := [];
    for i := 0 to |forms|
      invariant |parts| == i && forall k :: 0 <= k < i ==> parts[k] == Text(forms[k], marshal)
    {
      var part := Write(forms[i], marshal);
      parts := parts + [part];
    }
    JoinIsProgramText(forms, parts, marshal);
    text := Join(parts, "\n");
  }

  function ProgramText(forms: seq<Form>, marshal: string -> string): string {
    if forms == [] then ""
    else if |forms| == 1 then Text(forms[0], marshal)
    else Text(forms[0], marshal) + "\n" + ProgramText(forms[1..], marshal)
  }

  lemma {:induction false} JoinIsProgramText(forms: seq<Form>, parts: seq<string>, marshal: string -> string)
    requires |parts| == |forms| && forall k :: 0 <= k < |forms| ==> parts[k] == Text(forms[k], marshal)
    ensures Join(parts, "\n") == ProgramText(forms, marshal)
  {
    hide Text;
    if |forms| > 1 {
      JoinIsProgramText(forms[1..], parts[1..], marshal);
      JoinFirst(parts, "\n");
    }
  }

  lemma {:induction false} JoinFirst(parts: seq<string>, separator: string)
    requires |parts| > 1
    ensures Join(parts, separator) == parts[0] + separator + Join(parts[1..], separator)
  {
    if |parts| > 2 {
      var front := parts[..|parts| - 1];
      JoinFirst(front, separator);
      assert front[1..] == parts[1..][..|parts| - 2];
      var mid, last := Join(front[1..], separator), parts[|parts| - 1];
      assert parts[0] + separator + mid + separator + last == parts[0] + separator + (mid + separator + last);
    } else {
      assert parts[..1] == [parts[0]] && parts[1..] == [parts[1]];
    }
  }
}

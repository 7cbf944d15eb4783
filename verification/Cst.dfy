/**
 The concrete syntax tree (qy/frontend/cst.py) and its text. Characters are compared one by
 one, so nothing depends on an encoding.
 */
module Cst {
  import opened Wrappers

  datatype Span = Span(startLine: nat, startColumn: nat, endLine: nat, endColumn: nat)

  datatype AtomKind = Bare | Quoted | RawQuoted | TaggedQuoted | Multiline | RawMultiline | TaggedMultiline

  datatype Node =
    | Atom(kind: AtomKind, text: string, span: Span, leading: string)
    | List(children: seq<Node>, span: Span, leading: string, dotTrivia: string, tail: Option<Node>, close: string)

  datatype Program = Program(children: seq<Node>, trailing: string, span: Span)

  function NodeText(node: Node): string
    decreases node
  {
    match node
    case Atom(_, text, _, leading) => leading + text
    case List(children, _, leading, dotTrivia, tail, close) =>
      leading + "(" + NodesText(children)
      + (if tail.Some? then dotTrivia + "." + NodeText(tail.value) else "")
      + close + ")"
  }

  function NodesText(nodes: seq<Node>): string
    decreases nodes
  {
    if nodes == [] then ""
    else NodesText(nodes[..|nodes| - 1]) + NodeText(nodes[|nodes| - 1])
  }

  function ProgramText(program: Program): string {
    NodesText(program.children) + program.trailing
  }

  function Join(parts: seq<string>): string {
    if parts == [] then "" else Join(parts[..|parts| - 1]) + parts[|parts| - 1]
  }

  /** The list of parts that the walk over the tree appends to. */
  class TextCollector {
    var parts: seq<string>

    constructor ()
      ensures parts == []
    {
      parts := [];
    }

    method Append(text: string)
      modifies this
      ensures Join(parts) == Join(old(parts)) + text
    {
      parts := parts + [text];
      assert parts[..|parts| - 1] == old(parts);
    }

    /** `Append`, as an extension of what was collected since some earlier point. */
    method AppendAfter(ghost before: string, ghost since: string, text: string)
      requires Join(parts) == before + since
      modifies this
      ensures Join(parts) == before + (since + text)
    {
      Append(text);
      assert before + since + text == before + (since + text);
    }

    /** `_collect_node`. */
    method CollectNode(node: Node)
      modifies this
      ensures Join(parts) == Join(old(parts)) + NodeText(node)
      decreases node
    {
      hide Join, NodesText;
      ghost var before := Join(parts);
      match node
      case Atom(_, text, _, leading) =>
        Append(leading);
        AppendAfter(before, leading, text);
      case List(children, _, leading, dotTrivia, tail, close) =>
        Append(leading);
        AppendAfter(before, leading, "(");
        ghost var since := leading + "(";
        CollectChildren(children);
        assert before + since + NodesText(children) == before + (since + NodesText(children));
        since := since + NodesText(children);
        ghost var dotted := "";
        if tail.Some? {
          Append(dotTrivia);
          Append(".");
          CollectNode(tail.value);
          dotted := dotTrivia + "." + NodeText(tail.value);
          assert before + since + dotTrivia + "." + NodeText(tail.value) == before + (since + dotted);
        } else {
          assert since + dotted == since;
        }
        AppendAfter(before, since + dotted, close);
        AppendAfter(before, since + dotted + close, ")");
        assert NodeText(node) == since + dotted + close + ")";
    }

    method CollectChildren(children: seq<Node>)
      modifies this
      ensures Join(parts) == Join(old(parts)) + NodesText(children)
      decreases children
    {
      hide Join, NodeText;
      ghost var before := Join(parts);
      for i := 0 to |children|
        invariant Join(parts) == before + NodesText(children[..i])
      {
        CollectNode(children[i]);
        assert children[..i + 1][..i] == children[..i];
        assert before + NodesText(children[..i]) + NodeText(children[i])
            == before + (NodesText(children[..i]) + NodeText(children[i]));
      }
      assert children[..|children|] == children;
    }
  }

  /** `collect_text`. */
  method CollectText(program: Program) returns (text: string)
    ensures text == ProgramText(program)
  {
    var collector := new TextCollector();
    collector.CollectChildren(program.children);
    collector.Append(program.trailing);
    text := Join(collector.parts);
  }
}

/** Properties of the overlay parser: which elements it skips and rejects, what
    it records on the `xmlPath` stack, and what every parsed element satisfies. */
module XshtdLoaderProperties {
  import opened Wrappers
  import opened Errors
  import opened Text
  import opened HighlightingTheme
  import opened XshtdElements
  import opened XshtdLoader

  /** The elements of `nodes` in the theme namespace, in order. */
  function InNamespace(nodes: seq<XmlNode>): seq<XmlNode>
    decreases nodes
  {
    if |nodes| == 0 then []
    else (if nodes[0].namespaceUri == Namespace then [nodes[0]] else []) + InNamespace(nodes[1..])
  }

  /** Elements of another namespace add nothing and change nothing: parsing the
      children is parsing their in-namespace elements alone. */
  lemma {:induction false} ForeignElementsSkipped(conv: Converters, nodes: seq<XmlNode>, path: seq<SyntaxRef>)
    ensures ParseNodes(conv, nodes, path) == ParseNodes(conv, InNamespace(nodes), path)
    decreases nodes
  {
    if |nodes| > 0 {
      ForeignElementsSkipped(conv, nodes[1..], path);
      if nodes[0].namespaceUri != Namespace {
        AfterNothing(ParseNodes(conv, nodes[1..], path));
        assert InNamespace(nodes) == [] + InNamespace(nodes[1..]) == InNamespace(nodes[1..]);
      } else {
        var kept := [nodes[0]] + InNamespace(nodes[1..]);
        assert kept[0] == nodes[0] && kept[1..] == InNamespace(nodes[1..]);
        var head := ParseNode(conv, nodes[0], path);
        if head.Success? {
          ForeignElementsSkipped(conv, nodes[1..], head.value.1);
        }
      }
    }
  }

  /** An in-namespace element that is neither a SyntaxDefinition nor a Color makes
      the walk fail, whatever precedes it. */
  lemma {:induction false} UnknownElementRejected(conv: Converters, nodes: seq<XmlNode>, path: seq<SyntaxRef>, k: nat)
    requires k < |nodes| && nodes[k].namespaceUri == Namespace
    requires nodes[k].name != "SyntaxDefinition" && nodes[k].name != "Color"
    ensures ParseNodes(conv, nodes, path).Failure?
    decreases k
  {
    var head := ParseNode(conv, nodes[0], path);
    if k > 0 && head.Success? {
      UnknownElementRejected(conv, nodes[1..], head.value.1, k - 1);
    }
  }

  /** A Color met before any SyntaxDefinition was started (only foreign elements
      before it, and an empty stack) fails on Peek of the empty stack. */
  lemma {:induction false} ColorOutsideSyntaxDefinitionRejected(conv: Converters, nodes: seq<XmlNode>, k: nat)
    requires k < |nodes| && nodes[k].namespaceUri == Namespace && nodes[k].name == "Color"
    requires forall j :: 0 <= j < k ==> nodes[j].namespaceUri != Namespace
    ensures ParseNodes(conv, nodes, []) == Failure(InvalidOperation(StackEmptyMessage))
    decreases k
  {
    if k > 0 {
      ColorOutsideSyntaxDefinitionRejected(conv, nodes[1..], k - 1);
    }
  }

  // ----- The stack records every syntax definition, in document order -----

  /** The stack entries of the syntax definitions in `es`, each before those of its
      children (document order). */
  function SyntaxRefsOf(es: seq<XshtdElement>): seq<SyntaxRef>
    decreases es
  {
    if |es| == 0 then [] else SyntaxRefsOfElement(es[0]) + SyntaxRefsOf(es[1..])
  }

  function SyntaxRefsOfElement(e: XshtdElement): seq<SyntaxRef>
    decreases e
  {
    match e
    case XshtdSyntaxDefinition(name, _, elements, lineNumber, _) => [SyntaxRef(name, lineNumber)] + SyntaxRefsOf(elements)
    case XshtdColor(_, _, _, _, _, _, _, _, _, _) => []
  }

  lemma SyntaxRefsOfCons(e: XshtdElement, es: seq<XshtdElement>)
    ensures SyntaxRefsOf([e] + es) == SyntaxRefsOfElement(e) + SyntaxRefsOf(es)
  {
    assert ([e] + es)[0] == e && ([e] + es)[1..] == es;
  }

  /** The walk only pushes, never pops: after a successful walk the stack is the
      one it started with, followed by one entry per parsed syntax definition, in
      document order, nested ones included. */
  lemma {:induction false} ParseNodesPushes(conv: Converters, nodes: seq<XmlNode>, path: seq<SyntaxRef>)
    ensures var r := ParseNodes(conv, nodes, path);
      r.Success? ==> r.value.1 == path + SyntaxRefsOf(r.value.0)
    decreases nodes, 2
  {
    if |nodes| > 0 {
      var head := ParseNode(conv, nodes[0], path);
      if head.Success? {
        ParseNodePushes(conv, nodes[0], path);
        var rest := ParseNodes(conv, nodes[1..], head.value.1);
        ParseNodesPushes(conv, nodes[1..], head.value.1);
        if rest.Success? {
          if head.value.0.Some? {
            SyntaxRefsOfCons(head.value.0.value, rest.value.0);
          } else {
            assert [] + rest.value.0 == rest.value.0;
          }
        }
      }
    }
  }

  lemma {:induction false} ParseNodePushes(conv: Converters, n: XmlNode, path: seq<SyntaxRef>)
    ensures var r := ParseNode(conv, n, path);
      r.Success? ==> r.value.1 == path + (if r.value.0.Some? then SyntaxRefsOfElement(r.value.0.value) else [])
    decreases n, 1
  {
    if n.namespaceUri == Namespace && n.name == "SyntaxDefinition" {
      ParseSyntaxDefinitionPushes(conv, n, path);
    }
  }

  lemma {:induction false} ParseSyntaxDefinitionPushes(conv: Converters, n: XmlNode, path: seq<SyntaxRef>)
    ensures var r := ParseSyntaxDefinitionSpec(conv, n, path);
      r.Success? ==> r.value.1 == path + SyntaxRefsOfElement(r.value.0)
    decreases n, 0
  {
    ParseNodesPushes(conv, n.children, path + [SyntaxRefOf(n)]);
  }

  // ----- What every parsed element satisfies -----

  /** A name CheckElementName accepts. */
  predicate ValidName(name: Option<string>) {
    name.None? || (name.value != "" && '/' !in name.value)
  }

  /** Every colour in the tree has a parent syntax definition and a valid name. */
  predicate WellFormed(es: seq<XshtdElement>)
    decreases es
  {
    forall i :: 0 <= i < |es| ==> ElementWellFormed(es[i])
  }

  predicate ElementWellFormed(e: XshtdElement)
    decreases e
  {
    match e
    case XshtdSyntaxDefinition(_, _, elements, _, _) => WellFormed(elements)
    case XshtdColor(syntax, name, _, _, _, _, _, _, _, _) => syntax.Some? && ValidName(name)
  }

  lemma {:induction false} ParseNodesWellFormed(conv: Converters, nodes: seq<XmlNode>, path: seq<SyntaxRef>)
    ensures var r := ParseNodes(conv, nodes, path);
      r.Success? ==> WellFormed(r.value.0)
    decreases nodes, 2
  {
    if |nodes| > 0 {
      var head := ParseNode(conv, nodes[0], path);
      if head.Success? {
        ParseNodeWellFormed(conv, nodes[0], path);
        var rest := ParseNodes(conv, nodes[1..], head.value.1);
        ParseNodesWellFormed(conv, nodes[1..], head.value.1);
        if rest.Success? {
          var h := if head.value.0.Some? then [head.value.0.value] else [];
          assert forall i :: |h| <= i < |h + rest.value.0| ==> (h + rest.value.0)[i] == rest.value.0[i - |h|];
        }
      }
    }
  }

  lemma {:induction false} ParseNodeWellFormed(conv: Converters, n: XmlNode, path: seq<SyntaxRef>)
    ensures var r := ParseNode(conv, n, path);
      r.Success? && r.value.0.Some? ==> ElementWellFormed(r.value.0.value)
    decreases n, 1
  {
    if n.namespaceUri == Namespace && n.name == "SyntaxDefinition" {
      ParseNodesWellFormed(conv, n.children, path + [SyntaxRefOf(n)]);
    }
  }

  /** A parsed syntax definition carries the `name` attribute and the `extensions`
      attribute split on ';', in order: no piece contains ';', joining the pieces
      with ';' gives the attribute back, and without the attribute the list is
      empty. It is positioned at line 0, column 0. */
  lemma ParsedSyntaxDefinition(conv: Converters, n: XmlNode, path: seq<SyntaxRef>)
    requires ParseSyntaxDefinitionSpec(conv, n, path).Success?
    ensures var e := ParseSyntaxDefinitionSpec(conv, n, path).value.0;
      && e.XshtdSyntaxDefinition?
      && e.name == GetAttribute(n, "name")
      && e.lineNumber == 0 && e.columnNumber == 0
      && (GetAttribute(n, "extensions").None? ==> e.extensions == [])
      && (GetAttribute(n, "extensions").Some? ==>
            && Join(e.extensions, ';') == GetAttribute(n, "extensions").value
            && forall k :: 0 <= k < |e.extensions| ==> ';' !in e.extensions[k])
  {
    var extensions := GetAttribute(n, "extensions");
    if extensions.Some? {
      JoinSplit(extensions.value, ';');
      SplitPiecesHaveNoSeparator(extensions.value, ';');
    }
  }

  /** Because nothing is popped, a colour that follows a nested syntax definition
      belongs to that nested definition, not to the one that encloses it. */
  lemma ColorAfterNestedDefinitionBelongsToIt(conv: Converters, outer: XmlNode, path: seq<SyntaxRef>)
    requires |outer.children| == 2
    requires outer.children[0].namespaceUri == Namespace && outer.children[0].name == "SyntaxDefinition"
    requires outer.children[0].children == []
    requires outer.children[1].namespaceUri == Namespace && outer.children[1].name == "Color"
    requires ParseSyntaxDefinitionSpec(conv, outer, path).Success?
    ensures var e := ParseSyntaxDefinitionSpec(conv, outer, path).value.0;
      && |e.elements| == 2 && e.elements[1].XshtdColor?
      && e.elements[1].syntax == Some(SyntaxRefOf(outer.children[0]))
  {
    var inner, color := outer.children[0], outer.children[1];
    var p1 := path + [SyntaxRefOf(outer)];
    var p2 := p1 + [SyntaxRefOf(inner)];
    var innerElement := XshtdSyntaxDefinition(GetAttribute(inner, "name"), ExtensionsOf(inner), [], 0, 0);
    assert ParseSyntaxDefinitionSpec(conv, inner, p1) == Success((innerElement, p2));
    assert ParseNode(conv, inner, p1) == Success((Some(innerElement), p2));
    assert outer.children[1..] == [color] && [color][0] == color && [color][1..] == [];
    var whole := ParseNodes(conv, outer.children, p1);
    assert whole.Success?;
    var afterInner := ParseNodes(conv, [color], p2);
    assert whole == After([innerElement], afterInner);
    assert afterInner.Success?;
    var colorResult := ParseNode(conv, color, p2);
    assert colorResult.Success?;
    var c := ParseNamedColor(conv, color, SyntaxRefOf(inner));
    assert colorResult == Success((Some(c.value), p2));
    assert afterInner == Success(([c.value] + [], p2));
  }
}

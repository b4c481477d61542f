/** XshtdLoader: the forward walk that turns an .xshtd document into the overlay
    tree. The XML reader is represented by the element tree it walks (namespace,
    qualified name, attributes, child elements, line information); the WPF
    converters and the SystemColors reflection are lookup tables. */
module XshtdLoader {
  import opened Wrappers
  import opened Errors
  import opened Text
  import opened HighlightingTheme
  import opened XshtdElements
  import opened Xshtd

  /** The namespace of version-2 theme files. */
  const Namespace := "http://icsharpcode.net/sharpdevelop/themesyntaxdefinition/2019"

  /** The message of the InvalidOperationException thrown by Peek on an empty stack. */
  const StackEmptyMessage := "Stack empty."

  const SystemColorsPrefix := "SystemColors."

  /** An element as the reader presents it: namespace URI, qualified name
      (`reader.Name`), attributes, child elements in document order, and the
      reader's line information when it has any. */
  datatype XmlNode = XmlNode(
    namespaceUri: string,
    name: string,
    attributes: map<string, string>,
    children: seq<XmlNode>,
    lineInfo: Option<LineInfo>)

  /** `reader.GetAttribute(a)`: null when the attribute is absent. */
  function GetAttribute(n: XmlNode, a: string): (r: Option<string>)
    ensures r.Some? <==> a in n.attributes
    ensures r.Some? ==> r.value == n.attributes[a]
  {
    if a in n.attributes then Some(n.attributes[a]) else None
  }

  /** The conversions the loader delegates to WPF: ColorConverter,
      FontWeightConverter, FontStyleConverter, the bool conversion behind
      GetBoolAttribute (each defined on the strings it accepts; any other string
      raises a FormatException), and the names of the SystemColors brush
      properties. */
  datatype Converters = Converters(
    colors: map<string, Color>,
    fontWeights: map<string, FontWeight>,
    fontStyles: map<string, FontStyle>,
    booleans: map<string, bool>,
    systemBrushes: set<string>)

  /** Error(reader, message): a HighlightingDefinitionInvalidException carrying the
      reader's position when it has line information. */
  function LoaderError(lineInfo: Option<LineInfo>, message: string): (e: Error)
    ensures e.HighlightingDefinitionInvalid? && e.message == message && e.at == lineInfo
  {
    HighlightingDefinitionInvalid(message, lineInfo)
  }

  // ----- Names and references -----

  /** CheckElementName: a null name passes; the empty string and any name
      containing '/' are rejected. */
  function CheckElementName(lineInfo: Option<LineInfo>, name: Option<string>): (r: Outcome<Error>)
    ensures r.Pass? <==> name.None? || (name.value != "" && '/' !in name.value)
    ensures r.Fail? && name.value == "" ==> r.error == LoaderError(lineInfo, "The empty string is not a valid name.")
    ensures r.Fail? && name.value != "" ==> r.error == LoaderError(lineInfo, "Element names must not contain a slash.")
  {
    if name.None? then Pass
    else if |name.value| == 0 then Fail(LoaderError(lineInfo, "The empty string is not a valid name."))
    else if IndexOf(name.value, '/') >= 0 then Fail(LoaderError(lineInfo, "Element names must not contain a slash."))
    else Pass
  }

  /** An XshdReference&lt;XshdRuleSet&gt;: the definition name and the rule set name. */
  datatype RuleSetReference = RuleSetReference(definition: Option<string>, referencedElement: Option<string>)

  /** ParseRuleSetReference: the `ruleSet` attribute split at its last '/'. The
      part after it is the rule set and never contains '/'; joining the parts with
      '/' gives the attribute back. Without a '/' the whole value names a rule set
      of the current definition; without the attribute the reference is empty. */
  function ParseRuleSetReference(n: XmlNode): (r: RuleSetReference)
    ensures GetAttribute(n, "ruleSet").None? ==> r == RuleSetReference(None, None)
    ensures GetAttribute(n, "ruleSet").Some? ==> r == SplitRuleSet(GetAttribute(n, "ruleSet").value)
  {
    var ruleSet := GetAttribute(n, "ruleSet");
    if ruleSet.Some? then SplitRuleSet(ruleSet.value) else RuleSetReference(None, None)
  }

  /** The split of a present `ruleSet` value at its last '/'. */
  function SplitRuleSet(s: string): (r: RuleSetReference)
    ensures r.referencedElement.Some? && '/' !in r.referencedElement.value
    ensures r.definition.None? <==> '/' !in s
    ensures r.definition.None? ==> r.referencedElement.value == s
    ensures r.definition.Some? ==> r.definition.value + "/" + r.referencedElement.value == s
  {
    var pos := LastIndexOf(s, '/');
    if pos >= 0 then
      var rest := s[pos + 1..];
      assert s == s[..pos] + "/" + rest;
      assert forall k :: 0 <= k < |rest| ==> rest[k] == s[pos + 1 + k];
      RuleSetReference(Some(s[..pos]), Some(rest))
    else RuleSetReference(None, Some(s))
  }

  // ----- Colour attributes -----

  /** GetSystemColorBrush: the SystemColors property named after the part of the
      spec behind "SystemColors.", with "Brush" appended; a missing property
      raises "Cannot find '...'.". */
  function GetSystemColorBrush(conv: Converters, lineInfo: Option<LineInfo>, name: string): (r: Result<HighlightingBrush, Error>)
    requires StartsWith(name, SystemColorsPrefix)
    ensures r.Success? <==> name[13..] + "Brush" in conv.systemBrushes
    ensures r.Success? ==> r.value == SystemColorBrush(name[13..] + "Brush")
    ensures r.Failure? ==> r.error == LoaderError(lineInfo, "Cannot find '" + name + "'.")
  {
    var property := name[13..] + "Brush";
    if property in conv.systemBrushes then Success(SystemColorBrush(property))
    else Failure(LoaderError(lineInfo, "Cannot find '" + name + "'."))
  }

  /** ParseColor: no brush for a null or empty spec; a system brush for a spec
      starting "SystemColors."; otherwise a fixed brush from the colour converter,
      which raises a FormatException for a spec it does not know. */
  function ParseColor(conv: Converters, lineInfo: Option<LineInfo>, color: Option<string>): (r: Result<Option<HighlightingBrush>, Error>)
    ensures r.Success? && r.value.None? <==> IsNullOrEmpty(color)
    ensures r.Success? && r.value.Some? && r.value.value.SystemColorBrush? ==>
      StartsWith(color.value, SystemColorsPrefix)
    ensures r.Success? && r.value.Some? && r.value.value.SimpleBrush? ==>
      !StartsWith(color.value, SystemColorsPrefix) && color.value in conv.colors && r.value.value.color == conv.colors[color.value]
    ensures r.Failure? ==>
      && !IsNullOrEmpty(color)
      && (if StartsWith(color.value, SystemColorsPrefix) then r.error.HighlightingDefinitionInvalid? else r.error == Format(color.value))
    ensures !IsNullOrEmpty(color) && StartsWith(color.value, SystemColorsPrefix) ==>
      && (r.Success? <==> color.value[13..] + "Brush" in conv.systemBrushes)
      && (r.Success? ==> r.value == Some(SystemColorBrush(color.value[13..] + "Brush")))
      && (r.Failure? ==> r.error == LoaderError(lineInfo, "Cannot find '" + color.value + "'."))
    ensures !IsNullOrEmpty(color) && !StartsWith(color.value, SystemColorsPrefix) ==>
      && (r.Success? <==> color.value in conv.colors)
      && (r.Success? ==> r.value == Some(SimpleBrush(conv.colors[color.value])))
  {
    if IsNullOrEmpty(color) then Success(None)
    else if StartsWith(color.value, SystemColorsPrefix) then
      var brush :- GetSystemColorBrush(conv, lineInfo, color.value);
      Success(Some(brush))
    else if color.value in conv.colors then Success(Some(SimpleBrush(conv.colors[color.value])))
    else Failure(Format(color.value))
  }

  /** ParseFontWeight: none for a null or empty attribute, else the converter's value. */
  function ParseFontWeight(conv: Converters, fontWeight: Option<string>): (r: Result<Option<FontWeight>, Error>)
    ensures r.Success? && r.value.None? <==> IsNullOrEmpty(fontWeight)
    ensures r.Success? && r.value.Some? ==> fontWeight.value in conv.fontWeights && conv.fontWeights[fontWeight.value] == r.value.value
    ensures r.Failure? <==> !IsNullOrEmpty(fontWeight) && fontWeight.value !in conv.fontWeights
  {
    if IsNullOrEmpty(fontWeight) then Success(None)
    else if fontWeight.value in conv.fontWeights then Success(Some(conv.fontWeights[fontWeight.value]))
    else Failure(Format(fontWeight.value))
  }

  /** ParseFontStyle: none for a null or empty attribute, else the converter's value. */
  function ParseFontStyle(conv: Converters, fontStyle: Option<string>): (r: Result<Option<FontStyle>, Error>)
    ensures r.Success? && r.value.None? <==> IsNullOrEmpty(fontStyle)
    ensures r.Success? && r.value.Some? ==> fontStyle.value in conv.fontStyles && conv.fontStyles[fontStyle.value] == r.value.value
    ensures r.Failure? <==> !IsNullOrEmpty(fontStyle) && fontStyle.value !in conv.fontStyles
  {
    if IsNullOrEmpty(fontStyle) then Success(None)
    else if fontStyle.value in conv.fontStyles then Success(Some(conv.fontStyles[fontStyle.value]))
    else Failure(Format(fontStyle.value))
  }

  /** GetBoolAttribute: none when the attribute is absent, else the bool conversion. */
  function GetBoolAttribute(conv: Converters, n: XmlNode, a: string): (r: Result<Option<bool>, Error>)
    ensures r.Success? && r.value.None? <==> a !in n.attributes
    ensures r.Success? && r.value.Some? ==> a in n.attributes && n.attributes[a] in conv.booleans && conv.booleans[n.attributes[a]] == r.value.value
    ensures r.Failure? <==> a in n.attributes && n.attributes[a] !in conv.booleans
  {
    var v := GetAttribute(n, a);
    if v.None? then Success(None)
    else if v.value in conv.booleans then Success(Some(conv.booleans[v.value]))
    else Failure(Format(v.value))
  }

  /** SetPosition: the reader's line and column, or 0 and 0 when it has no line information. */
  function Position(lineInfo: Option<LineInfo>): (p: (int, int))
    ensures lineInfo.Some? ==> p == (lineInfo.value.line, lineInfo.value.column)
    ensures lineInfo.None? ==> p == (0, 0)
  {
    if lineInfo.Some? then (lineInfo.value.line, lineInfo.value.column) else (0, 0)
  }

  /** The exception of the first step of ParseNamedColor that raises one, in
      source order: the foreground, background, font weight, font style and
      underline attributes, then the name check; none when every step succeeds. */
  function NamedColorError(conv: Converters, n: XmlNode): Option<Error> {
    var foreground := ParseColor(conv, n.lineInfo, GetAttribute(n, "foreground"));
    var background := ParseColor(conv, n.lineInfo, GetAttribute(n, "background"));
    var fontWeight := ParseFontWeight(conv, GetAttribute(n, "fontWeight"));
    var fontStyle := ParseFontStyle(conv, GetAttribute(n, "fontStyle"));
    var underline := GetBoolAttribute(conv, n, "underline");
    var check := CheckElementName(n.lineInfo, GetAttribute(n, "name"));
    if foreground.Failure? then Some(foreground.error)
    else if background.Failure? then Some(background.error)
    else if fontWeight.Failure? then Some(fontWeight.error)
    else if fontStyle.Failure? then Some(fontStyle.error)
    else if underline.Failure? then Some(underline.error)
    else if check.Fail? then Some(check.error)
    else None
  }

  /** ParseColorAttributes followed by the rest of ParseNamedColor: the colour's
      parent, position, foreground, background, font weight, font style and
      underline, in that order; then its name, which must pass CheckElementName,
      and its example text. */
  function ParseNamedColor(conv: Converters, n: XmlNode, syntax: SyntaxRef): (r: Result<XshtdElement, Error>)
    ensures r.Success? ==> r.value.XshtdColor? && r.value.syntax == Some(syntax)
    ensures r.Success? ==> r.value.name == GetAttribute(n, "name") && r.value.exampleText == GetAttribute(n, "exampleText")
    ensures r.Success? ==> CheckElementName(n.lineInfo, r.value.name).Pass?
    ensures r.Success? ==> (r.value.lineNumber, r.value.columnNumber) == Position(n.lineInfo)
    ensures r.Success? ==> Success(r.value.foreground) == ParseColor(conv, n.lineInfo, GetAttribute(n, "foreground"))
    ensures r.Success? ==> Success(r.value.background) == ParseColor(conv, n.lineInfo, GetAttribute(n, "background"))
    ensures r.Success? ==> Success(r.value.fontWeight) == ParseFontWeight(conv, GetAttribute(n, "fontWeight"))
    ensures r.Success? ==> Success(r.value.fontStyle) == ParseFontStyle(conv, GetAttribute(n, "fontStyle"))
    ensures r.Success? ==> Success(r.value.underline) == GetBoolAttribute(conv, n, "underline")
    ensures r.Failure? <==> NamedColorError(conv, n).Some?
    ensures r.Failure? ==> r.error == NamedColorError(conv, n).value
  {
    var foreground :- ParseColor(conv, n.lineInfo, GetAttribute(n, "foreground"));
    var background :- ParseColor(conv, n.lineInfo, GetAttribute(n, "background"));
    var fontWeight :- ParseFontWeight(conv, GetAttribute(n, "fontWeight"));
    var fontStyle :- ParseFontStyle(conv, GetAttribute(n, "fontStyle"));
    var underline :- GetBoolAttribute(conv, n, "underline");
    var name := GetAttribute(n, "name");
    var check := CheckElementName(n.lineInfo, name);
    if check.Fail? then Failure(check.error)
    else
      var pos := Position(n.lineInfo);
      Success(XshtdColor(Some(syntax), name, foreground, background, fontWeight, fontStyle, underline,
                         GetAttribute(n, "exampleText"), pos.0, pos.1))
  }

  // ----- The walk, as functions -----

  /** The `extensions` attribute split on ';', or no extensions without it. */
  function ExtensionsOf(n: XmlNode): seq<string> {
    var extensions := GetAttribute(n, "extensions");
    if extensions.None? then [] else Split(extensions.value, ';')
  }

  /** The entry ParseSyntaxDefinition pushes on `xmlPath`: the new definition, whose
      position is never set. */
  function SyntaxRefOf(n: XmlNode): SyntaxRef {
    SyntaxRef(GetAttribute(n, "name"), 0)
  }

  /** The outcome of a walk whose first elements `done` are already collected. */
  function After(done: seq<XshtdElement>, tail: Result<(seq<XshtdElement>, seq<SyntaxRef>), Error>)
    : Result<(seq<XshtdElement>, seq<SyntaxRef>), Error>
  {
    if tail.Success? then Success((done + tail.value.0, tail.value.1)) else tail
  }

  lemma AfterNothing(tail: Result<(seq<XshtdElement>, seq<SyntaxRef>), Error>)
    ensures After([], tail) == tail
  {
    if tail.Success? {
      assert [] + tail.value.0 == tail.value.0;
    }
  }

  lemma AfterAfter(c: seq<XshtdElement>, d: seq<XshtdElement>, tail: Result<(seq<XshtdElement>, seq<SyntaxRef>), Error>)
    ensures After(c, After(d, tail)) == After(c + d, tail)
  {
    if tail.Success? {
      assert c + (d + tail.value.0) == (c + d) + tail.value.0;
    }
  }

  /** The children of one element, in order, with the `xmlPath` stack threaded
      through: the parsed elements and the stack afterwards. */
  function ParseNodes(conv: Converters, nodes: seq<XmlNode>, path: seq<SyntaxRef>)
    : (r: Result<(seq<XshtdElement>, seq<SyntaxRef>), Error>)
    ensures r.Success? ==> |r.value.0| <= |nodes|
    decreases nodes, 2
  {
    if |nodes| == 0 then Success(([], path))
    else
      var head :- ParseNode(conv, nodes[0], path);
      After(if head.0.Some? then [head.0.value] else [], ParseNodes(conv, nodes[1..], head.1))
  }

  /** One iteration of ParseElements' loop: a foreign element is skipped with its
      content; "SyntaxDefinition" and "Color" are parsed (a colour belongs to the
      top of the stack, and Peek throws when it is empty); any other name is
      unknown. The switch is on the qualified name. */
  function ParseNode(conv: Converters, n: XmlNode, path: seq<SyntaxRef>)
    : (r: Result<(Option<XshtdElement>, seq<SyntaxRef>), Error>)
    ensures n.namespaceUri != Namespace ==> r == Success((None, path))
    ensures n.namespaceUri == Namespace && n.name != "SyntaxDefinition" && n.name != "Color" ==>
      r == Failure(NotSupported("Unknown element " + n.name))
    ensures r.Success? && n.namespaceUri == Namespace ==> r.value.0.Some?
    ensures r.Success? && r.value.0.Some? && r.value.0.value.XshtdColor? ==>
      |path| > 0 && r.value.0.value.syntax == Some(path[|path| - 1]) && r.value.1 == path
    decreases n, 1
  {
    if n.namespaceUri != Namespace then Success((None, path))
    else if n.name == "SyntaxDefinition" then
      var sd :- ParseSyntaxDefinitionSpec(conv, n, path);
      Success((Some(sd.0), sd.1))
    else if n.name == "Color" then
      if |path| == 0 then Failure(InvalidOperation(StackEmptyMessage))
      else
        var c :- ParseNamedColor(conv, n, path[|path| - 1]);
        Success((Some(c), path))
    else Failure(NotSupported("Unknown element " + n.name))
  }

  /** ParseSyntaxDefinition: name and extensions from the attributes, then the new
      definition is pushed and its children are parsed. Nothing is popped. */
  function ParseSyntaxDefinitionSpec(conv: Converters, n: XmlNode, path: seq<SyntaxRef>)
    : Result<(XshtdElement, seq<SyntaxRef>), Error>
    decreases n, 0
  {
    var children :- ParseNodes(conv, n.children, path + [SyntaxRefOf(n)]);
    Success((XshtdSyntaxDefinition(GetAttribute(n, "name"), ExtensionsOf(n), children.0, 0, 0), children.1))
  }

  /** The root element's content, parsed from an empty stack. */
  function ParsedElements(conv: Converters, root: XmlNode): Result<seq<XshtdElement>, Error> {
    var parsed :- ParseNodes(conv, root.children, []);
    Success(parsed.0)
  }

  // ----- The walk, as the source performs it -----

  /** The `Stack<XshtdElement> xmlPath` shared by the whole walk. */
  class SyntaxStack {
    var items: seq<SyntaxRef>

    constructor ()
      ensures items == []
    {
      items := [];
    }

    method Push(item: SyntaxRef)
      modifies this
      ensures items == old(items) + [item]
    {
      items := items + [item];
    }

    /** Peek: the top entry, or the empty-stack exception. */
    function Peek(): (r: Result<SyntaxRef, Error>)
      reads this
      ensures r.Success? <==> |items| > 0
      ensures r.Success? ==> r.value == items[|items| - 1]
      ensures r.Failure? ==> r.error == InvalidOperation(StackEmptyMessage)
    {
      if |items| == 0 then Failure(InvalidOperation(StackEmptyMessage))
      else Success(items[|items| - 1])
    }
  }

  /** ParseElements: the loop over one element's children, adding each parsed
      element to the collection and stopping at the first exception. */
  method ParseElements(conv: Converters, node: XmlNode, xmlPath: SyntaxStack) returns (r: Result<seq<XshtdElement>, Error>)
    modifies xmlPath
    decreases node, 0
    ensures var spec := ParseNodes(conv, node.children, old(xmlPath.items));
      && (r.Success? <==> spec.Success?)
      && (r.Success? ==> r.value == spec.value.0 && xmlPath.items == spec.value.1)
      && (r.Failure? ==> r.error == spec.error)
  {
    var c: seq<XshtdElement> := [];
    var i := 0;
    assert node.children[i..] == node.children;
    AfterNothing(ParseNodes(conv, node.children, xmlPath.items));
    while i < |node.children|
      invariant 0 <= i <= |node.children|
      invariant ParseNodes(conv, node.children, old(xmlPath.items)) == After(c, ParseNodes(conv, node.children[i..], xmlPath.items))
    {
      var child := node.children[i];
      assert node.children[i..][0] == child && node.children[i..][1..] == node.children[i + 1..];
      if child.namespaceUri != Namespace {
        // reader.Skip(): the foreign element and its content
        AfterAfter(c, [], ParseNodes(conv, node.children[i + 1..], xmlPath.items));
        assert c + [] == c;
      } else if child.name == "SyntaxDefinition" {
        var sd := ParseSyntaxDefinition(conv, child, xmlPath);
        if sd.Failure? {
          return Failure(sd.error);
        }
        AfterAfter(c, [sd.value], ParseNodes(conv, node.children[i + 1..], xmlPath.items));
        c := c + [sd.value];
      } else if child.name == "Color" {
        var parent := xmlPath.Peek();
        if parent.Failure? {
          return Failure(parent.error);
        }
        var color := ParseNamedColor(conv, child, parent.value);
        if color.Failure? {
          return Failure(color.error);
        }
        AfterAfter(c, [color.value], ParseNodes(conv, node.children[i + 1..], xmlPath.items));
        c := c + [color.value];
      } else {
        return Failure(NotSupported("Unknown element " + child.name));
      }
      i := i + 1;
    }
    assert node.children[i..] == [];
    r := Success(c);
  }

  /** ParseSyntaxDefinition, as the source performs it. */
  method ParseSyntaxDefinition(conv: Converters, node: XmlNode, xmlPath: SyntaxStack) returns (r: Result<XshtdElement, Error>)
    modifies xmlPath
    decreases node, 1
    ensures var spec := ParseSyntaxDefinitionSpec(conv, node, old(xmlPath.items));
      && (r.Success? <==> spec.Success?)
      && (r.Success? ==> r.value == spec.value.0 && xmlPath.items == spec.value.1)
      && (r.Failure? ==> r.error == spec.error)
  {
    var name := GetAttribute(node, "name");
    var extensions := GetAttribute(node, "extensions");
    var exts: seq<string> := [];
    if extensions.Some? {
      exts := Split(extensions.value, ';');
    }
    xmlPath.Push(SyntaxRef(name, 0));
    var elements := ParseElements(conv, node, xmlPath);
    if elements.Failure? {
      return Failure(elements.error);
    }
    r := Success(XshtdSyntaxDefinition(name, exts, elements.value, 0, 0));
  }

  /** ParseDefinition: a new document named after the root's `name` attribute,
      holding the root's parsed content. */
  method ParseDefinition(conv: Converters, root: XmlNode) returns (r: Result<XhstdThemeDefinition, Error>)
    ensures r.Success? <==> ParsedElements(conv, root).Success?
    ensures r.Success? ==> fresh(r.value)
    ensures r.Success? ==> r.value.name == GetAttribute(root, "name") && r.value.elements == ParsedElements(conv, root).value
    ensures r.Failure? ==> r.error == ParsedElements(conv, root).error
  {
    var def := new XhstdThemeDefinition();
    def.SetName(GetAttribute(root, "name"));
    var xmlPath := new SyntaxStack();
    var elements := ParseElements(conv, root, xmlPath);
    if elements.Failure? {
      return Failure(elements.error);
    }
    def.elements := elements.value;
    r := Success(def);
  }
}

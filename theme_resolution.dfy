/** The two visitor passes of XmlHighlightingThemeDefinition and the lazy colour
    fill of GetNamedSyntaxDefinition, as functions over the overlay tree. The
    resolver's dictionary of SyntaxDefinition objects is represented here by the
    map of their values; the classes in module Xshtd are proved against these
    functions. */
module ThemeResolution {
  import opened Wrappers
  import opened Errors
  import opened Text
  import opened HighlightingTheme
  import opened XshtdElements

  /** The resolver's grammar dictionary: grammar name to colour table. */
  type Defs = map<string, SyntaxDefinitionValue>

  const EmptyNameMessage := "Name must not be the empty string"
  const NullNameMessage := "Name must not be null"

  /** XmlHighlightingThemeDefinition.Error: a HighlightingDefinitionInvalidException
      whose message is prefixed with "Error at line N:\n" when the element's line
      number is positive, and is the bare message otherwise. */
  function ErrorAt(lineNumber: int, message: string): (e: Error)
    ensures e.HighlightingDefinitionInvalid? && e.at.None?
    ensures |message| <= |e.message| && e.message[|e.message| - |message|..] == message
    ensures lineNumber > 0 <==> |e.message| > |message|
    ensures lineNumber > 0 ==> StartsWith(e.message, "Error at line ")
    ensures lineNumber > 0 ==> e.message == "Error at line " + NatToString(lineNumber) + ":\n" + message
    ensures lineNumber <= 0 ==> e.message == message
  {
    if lineNumber > 0 then
      var prefix := "Error at line " + NatToString(lineNumber) + ":\n";
      var m := prefix + message;
      assert m[|m| - |message|..] == message;
      assert m[..|"Error at line "|] == "Error at line ";
      HighlightingDefinitionInvalid(m, None)
    else HighlightingDefinitionInvalid(message, None)
  }

  // ----- Pass 1: RegisterNamedElementsVisitor -----

  /** The check RegisterNamedElementsVisitor.VisitSyntaxDefinition makes before it
      descends: a null name registers nothing; an empty or already registered
      name throws; otherwise a fresh, empty SyntaxDefinition is added. */
  function RegisterSyntaxDefinitionName(st: Defs, name: Option<string>, lineNumber: int): Result<Defs, Error> {
    if name.None? then Success(st)
    else if name.value == "" then Failure(ErrorAt(lineNumber, EmptyNameMessage))
    else if name.value in st then
      Failure(ErrorAt(lineNumber, "Duplicate syntax definition name '" + name.value + "'."))
    else Success(st[name.value := EmptySyntaxDefinition()])
  }

  /** RegisterNamedElementsVisitor.VisitColor: a named colour adds a name-only
      placeholder to the table of the syntax definition it belongs to. */
  function RegisterColor(st: Defs, c: XshtdElement): Result<Defs, Error>
    requires c.XshtdColor?
  {
    if c.name.None? then Success(st)
    else if c.name.value == "" then Failure(ErrorAt(c.lineNumber, EmptyNameMessage))
    // Error(null, ...) reads the LineNumber of the missing syntax definition
    else if c.syntax.None? then Failure(NullReference)
    // TryGetValue(null, ...)
    else if c.syntax.value.name.None? then Failure(ArgumentNull("key"))
    else
      var sn := c.syntax.value.name.value;
      if sn !in st then
        Failure(ErrorAt(c.syntax.value.lineNumber, "Themed Syntax Definition does not exist '" + sn + "'."))
      else if c.name.value in st[sn].colors then
        Failure(ErrorAt(c.lineNumber, "Duplicate color name '" + c.name.value + "'."))
      else
        Success(st[sn := st[sn].(colors := st[sn].colors[c.name.value := NameOnlyColor(c.name)])])
  }

  /** XshtdElement.AcceptVisitor with the registering visitor. A syntax
      definition is checked, then its children are visited in order. */
  function RegisterVisit(st: Defs, e: XshtdElement): (r: Result<Defs, Error>)
    ensures r.Success? ==> st.Keys <= r.value.Keys
    decreases e
  {
    match e
    case XshtdSyntaxDefinition(name, _, elements, lineNumber, _) =>
      var st1 :- RegisterSyntaxDefinitionName(st, name, lineNumber);
      RegisterAll(st1, elements)
    case XshtdColor(_, _, _, _, _, _, _, _, _, _) => RegisterColor(st, e)
  }

  /** AcceptElements with the registering visitor: the elements in order, stopping
      at the first exception. */
  function RegisterAll(st: Defs, es: seq<XshtdElement>): (r: Result<Defs, Error>)
    ensures r.Success? ==> st.Keys <= r.value.Keys
    decreases es
  {
    if |es| == 0 then Success(st)
    else
      var st1 :- RegisterVisit(st, es[0]);
      RegisterAll(st1, es[1..])
  }

  // ----- Pass 2: TranslateElementVisitor -----

  /** XshtdElement.AcceptVisitor with the translating visitor. A named syntax
      definition gets its extensions appended to its registered entry (the
      indexer throws for a missing one); an unnamed one copies them into an
      object nobody keeps. A colour always throws: a named one because the null
      check is inverted, an unnamed one on the dereference of its null name.
      Children are not visited. */
  function TranslateVisit(st: Defs, e: XshtdElement): Result<Defs, Error> {
    match e
    case XshtdSyntaxDefinition(name, extensions, _, _, _) =>
      if name.None? then Success(st)
      else if name.value !in st then Failure(KeyNotFound(name.value))
      else Success(st[name.value := st[name.value].(extensions := st[name.value].extensions + extensions)])
    case XshtdColor(_, name, _, _, _, _, _, _, lineNumber, _) =>
      if name.Some? then Failure(ErrorAt(lineNumber, NullNameMessage)) else Failure(NullReference)
  }

  /** AcceptElements with the translating visitor over the top-level elements. */
  function TranslateAll(st: Defs, es: seq<XshtdElement>): (r: Result<Defs, Error>)
    ensures r.Success? ==> forall k :: 0 <= k < |es| ==> es[k].XshtdSyntaxDefinition?
    decreases es
  {
    if |es| == 0 then Success(st)
    else
      var st1 :- TranslateVisit(st, es[0]);
      TranslateAll(st1, es[1..])
  }

  /** The constructor's two passes over the document's elements, starting from the
      empty dictionary. */
  function Resolve(es: seq<XshtdElement>): (r: Result<Defs, Error>)
    ensures r.Success? ==> forall k :: 0 <= k < |es| ==> es[k].XshtdSyntaxDefinition?
  {
    var st1 :- RegisterAll(map[], es);
    TranslateAll(st1, es)
  }

  // ----- GetNamedSyntaxDefinition -----

  /** ConvertXshdColor: a new HighlightingColor with the element's name, foreground,
      background, underline, font style and font weight. */
  function ConvertXshdColor(c: XshtdElement): (h: HighlightingColor)
    requires c.XshtdColor?
    ensures h.name == c.name && h.foreground == c.foreground && h.background == c.background
    ensures h.underline == c.underline && h.fontStyle == c.fontStyle && h.fontWeight == c.fontWeight
  {
    HighlightingColor(c.name, c.foreground, c.background, c.underline, c.fontStyle, c.fontWeight)
  }

  /** `Elements.OfType<XshtdSyntaxDefinition>().First(i => i.Name == name)`, or
      None where First throws. */
  function FirstSyntaxDefinition(es: seq<XshtdElement>, name: string): (r: Option<nat>)
    ensures r.Some? ==> r.value < |es| && es[r.value].XshtdSyntaxDefinition? && es[r.value].name == Some(name)
    ensures r.Some? ==> forall k :: 0 <= k < r.value ==> !(es[k].XshtdSyntaxDefinition? && es[k].name == Some(name))
    ensures r.None? ==> forall k :: 0 <= k < |es| ==> !(es[k].XshtdSyntaxDefinition? && es[k].name == Some(name))
  {
    if |es| == 0 then None
    else if es[0].XshtdSyntaxDefinition? && es[0].name == Some(name) then Some(0)
    else
      var r := FirstSyntaxDefinition(es[1..], name);
      if r.None? then None else Some(r.value + 1)
  }

  /** The loop of GetNamedSyntaxDefinition: ColorReplace(item.Name, ConvertXshdColor(item))
      for each colour among `items`, in order. The table reached so far, and the
      ArgumentNullException of the first colour with a null name, if any. */
  function ReplaceColors(colors: map<string, HighlightingColor>, items: seq<XshtdElement>)
    : (r: (map<string, HighlightingColor>, Option<Error>))
    ensures colors.Keys <= r.0.Keys
    ensures r.1.Some? ==> r.1.value == ArgumentNull("key")
    ensures forall k :: k in colors && (forall j :: 0 <= j < |items| && items[j].XshtdColor? ==> items[j].name != Some(k)) ==>
      r.0[k] == colors[k]
    decreases items
  {
    if |items| == 0 then (colors, None)
    else if !items[0].XshtdColor? then ReplaceColors(colors, items[1..])
    else if items[0].name.None? then (colors, Some(ArgumentNull("key")))
    else ReplaceColors(colors[items[0].name.value := ConvertXshdColor(items[0])], items[1..])
  }

  /** The message of the InvalidOperationException thrown by `First` when nothing matches. */
  const NoMatchMessage := "Sequence contains no matching element"

  /** GetNamedSyntaxDefinition(n) on a resolved theme whose dictionary is `defs`
      and whose document's top-level elements are `es`: the dictionary afterwards,
      and the outcome, which is the exception raised, false for the null answer,
      or true when the entry filed under `n` comes back. A registered name gets
      its colours filled from the first top-level grammar element of that name. */
  function NamedLookup(defs: Defs, es: seq<XshtdElement>, n: Option<string>): (Defs, Result<bool, Error>) {
    if n.None? then (defs, Failure(ArgumentNull("key")))
    else if n.value !in defs then (defs, Success(false))
    else
      var first := FirstSyntaxDefinition(es, n.value);
      if first.None? then (defs, Failure(InvalidOperation(NoMatchMessage)))
      else
        var filled := ReplaceColors(defs[n.value].colors, es[first.value].elements);
        (defs[n.value := defs[n.value].(colors := filled.0)],
         if filled.1.Some? then Failure(filled.1.value) else Success(true))
  }

  /** No colour child of the first top-level grammar element named `n` has a null name. */
  predicate FillSucceeds(es: seq<XshtdElement>, n: string) {
    var first := FirstSyntaxDefinition(es, n);
    && first.Some?
    && forall k :: 0 <= k < |es[first.value].elements| ==>
         !(es[first.value].elements[k].XshtdColor? && es[first.value].elements[k].name.None?)
  }

  // ----- Queries over the tree used by the properties -----

  /** The non-null names of all syntax definitions in the tree, nested ones included. */
  function NamedSyntaxDefinitions(es: seq<XshtdElement>): set<string>
    decreases es
  {
    if |es| == 0 then {}
    else NamedSyntaxDefinitionsOf(es[0]) + NamedSyntaxDefinitions(es[1..])
  }

  function NamedSyntaxDefinitionsOf(e: XshtdElement): set<string>
    decreases e
  {
    match e
    case XshtdSyntaxDefinition(name, _, elements, _, _) =>
      (if name.Some? then {name.value} else {}) + NamedSyntaxDefinitions(elements)
    case XshtdColor(_, _, _, _, _, _, _, _, _, _) => {}
  }

  /** The extensions of the top-level syntax definitions named `n`, in order. */
  function ExtensionsFor(es: seq<XshtdElement>, n: string): seq<string>
    decreases es
  {
    if |es| == 0 then []
    else
      var own := if es[0].XshtdSyntaxDefinition? && es[0].name == Some(n) then es[0].extensions else [];
      own + ExtensionsFor(es[1..], n)
  }

  /** The last colour among `items` named `n`. */
  function LastColorNamed(items: seq<XshtdElement>, n: string): (r: Option<XshtdElement>)
    ensures r.Some? ==> r.value.XshtdColor? && r.value.name == Some(n)
    decreases items
  {
    if |items| == 0 then None
    else
      var later := LastColorNamed(items[1..], n);
      if later.Some? then later
      else if items[0].XshtdColor? && items[0].name == Some(n) then Some(items[0])
      else None
  }

  /** Every grammar table holds only what pass 1 puts there: no name, no
      extensions, and name-only placeholders filed under their own names. */
  predicate Placeholders(st: Defs) {
    forall k :: k in st ==> PlaceholderTable(st[k])
  }

  predicate PlaceholderTable(v: SyntaxDefinitionValue) {
    && v.name.None?
    && v.extensions == []
    && forall c :: c in v.colors ==> v.colors[c] == NameOnlyColor(Some(c))
  }
}

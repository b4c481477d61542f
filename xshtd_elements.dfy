/** The parsed overlay tree: the elements of an .xshtd document. */
module XshtdElements {
  import opened Wrappers
  import opened HighlightingTheme

  /** What a colour element keeps of the syntax definition it was parsed under:
      that definition's name and line number. */
  datatype SyntaxRef = SyntaxRef(name: Option<string>, lineNumber: int)

  /** An element of the overlay tree. Both kinds carry the source position that
      SetPosition recorded (0 when it was not set). */
  datatype XshtdElement =
    /** A &lt;SyntaxDefinition&gt; element: a grammar name, its ';'-separated
        extensions and its child elements, in document order. */
    | XshtdSyntaxDefinition(
        name: Option<string>,
        extensions: seq<string>,
        elements: seq<XshtdElement>,
        lineNumber: int,
        columnNumber: int)
    /** A &lt;Color&gt; element, with the syntax definition it belongs to. */
    | XshtdColor(
        syntax: Option<SyntaxRef>,
        name: Option<string>,
        foreground: Option<HighlightingBrush>,
        background: Option<HighlightingBrush>,
        fontWeight: Option<FontWeight>,
        fontStyle: Option<FontStyle>,
        underline: Option<bool>,
        exampleText: Option<string>,
        lineNumber: int,
        columnNumber: int)
}

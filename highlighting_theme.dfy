/** The theme-side data model: highlighting colours (AvalonEdit's
    HighlightingColor), the per-grammar colour table SyntaxDefinition and the
    freezable GlobalStyle record. */
module HighlightingTheme {
  import opened Wrappers
  import opened Errors
  import opened Text

  type byte = x: int | 0 <= x < 256

  /** System.Windows.Media.Color: alpha, red, green and blue channels. */
  datatype Color = Color(a: byte, r: byte, g: byte, b: byte)

  /** A highlighting brush: a SystemColors brush property, or a fixed colour. */
  datatype HighlightingBrush =
    | SystemColorBrush(property: string)
    | SimpleBrush(color: Color)

  /** System.Windows.FontWeight, by its OpenType weight. */
  datatype FontWeight = FontWeight(weight: int)

  /** System.Windows.FontStyle. */
  datatype FontStyle = Normal | Oblique | Italic

  /** The AvalonEdit HighlightingColor fields the theme pipeline reads and writes;
      every field may be null. */
  datatype HighlightingColor = HighlightingColor(
    name: Option<string>,
    foreground: Option<HighlightingBrush>,
    background: Option<HighlightingBrush>,
    underline: Option<bool>,
    fontStyle: Option<FontStyle>,
    fontWeight: Option<FontWeight>)

  /** `new HighlightingColor() { Name = name }`: the name and nothing else. */
  function NameOnlyColor(name: Option<string>): (c: HighlightingColor)
    ensures c.name == name
    ensures c.foreground.None? && c.background.None? && c.underline.None?
    ensures c.fontStyle.None? && c.fontWeight.None?
  {
    HighlightingColor(name, None, None, None, None, None)
  }

  /** The .NET default message of a parameterless InvalidOperationException. */
  const DefaultInvalidOperationMessage := "Operation is not valid due to the current state of the object."

  /** The message GlobalStyle's setters throw once the object is frozen. */
  const FrozenMessage := "Property is already frozen."

  /** What a SyntaxDefinition holds, as a value. */
  datatype SyntaxDefinitionValue = SyntaxDefinitionValue(
    name: Option<string>,
    extensions: seq<string>,
    colors: map<string, HighlightingColor>)

  /** The SyntaxDefinition created by the parameterless constructor. */
  function EmptySyntaxDefinition(): (v: SyntaxDefinitionValue)
    ensures v.name.None? && v.extensions == [] && v.colors == map[]
  {
    SyntaxDefinitionValue(None, [], map[])
  }

  /** SyntaxDefinition.ToString: "[SyntaxDefinition <name>]", with an empty
      name part for a null or empty name. */
  function SyntaxDefinitionText(name: Option<string>): (r: string)
    ensures StartsWith(r, "[SyntaxDefinition ") && r[|r| - 1] == ']'
    ensures r[18..|r| - 1] == if IsNullOrEmpty(name) then "" else name.value
  {
    "[SyntaxDefinition " + (if IsNullOrEmpty(name) then "" else name.value) + "]"
  }

  /** Two SyntaxDefinitions render the same text exactly when their names agree,
      where a null name and an empty name are not told apart. */
  lemma SyntaxDefinitionTextDistinguishesNames(a: Option<string>, b: Option<string>)
    ensures SyntaxDefinitionText(a) == SyntaxDefinitionText(b) <==>
      (IsNullOrEmpty(a) && IsNullOrEmpty(b)) || (!IsNullOrEmpty(a) && !IsNullOrEmpty(b) && a.value == b.value)
  {
    var ta, tb := SyntaxDefinitionText(a), SyntaxDefinitionText(b);
    if ta == tb {
      assert ta[18..|ta| - 1] == tb[18..|tb| - 1];
    }
  }

  /** A grammar's colour table within a highlighting theme (eg the colours of
      'C#' in 'True Blue'): a name, its file extensions and the named colours. */
  class SyntaxDefinition {
    var name: Option<string>
    var extensions: seq<string>
    var namedColors: map<string, HighlightingColor>
    var isFrozen: bool

    /** The object's state as a value. */
    function Value(): (v: SyntaxDefinitionValue)
      reads this
      ensures v.name == name && v.extensions == extensions && v.colors == namedColors
    {
      SyntaxDefinitionValue(name, extensions, namedColors)
    }

    /** A fresh definition has no name, no extensions and no colours. */
    constructor ()
      ensures Value() == EmptySyntaxDefinition() && !isFrozen
    {
      name := None;
      extensions := [];
      namedColors := map[];
      isFrozen := false;
    }

    /** `SyntaxDefinition(paramName)`: as the parameterless constructor, with the name set. */
    constructor Named(paramName: Option<string>)
      ensures name == paramName && extensions == [] && namedColors == map[] && !isFrozen
    {
      name := paramName;
      extensions := [];
      namedColors := map[];
      isFrozen := false;
    }

    /** The Name setter: refused once frozen, otherwise stores the value. */
    method SetName(value: Option<string>) returns (r: Outcome<Error>)
      modifies this
      ensures old(isFrozen) ==> r == Fail(InvalidOperation(DefaultInvalidOperationMessage)) && unchanged(this)
      ensures !old(isFrozen) ==> r.Pass? && name == value
      ensures extensions == old(extensions) && namedColors == old(namedColors) && isFrozen == old(isFrozen)
    {
      if isFrozen {
        return Fail(InvalidOperation(DefaultInvalidOperationMessage));
      }
      name := value;
      r := Pass;
    }

    /** `Extensions.Add(item)`; the extension list is not guarded by the frozen flag. */
    method AddExtension(item: string)
      modifies this
      ensures extensions == old(extensions) + [item]
      ensures name == old(name) && namedColors == old(namedColors) && isFrozen == old(isFrozen)
    {
      extensions := extensions + [item];
    }

    /** ColorGet: the colour stored under `n`, or null; a null `n` makes the
        dictionary lookup throw. */
    function ColorGet(n: Option<string>): (r: Result<Option<HighlightingColor>, Error>)
      reads this
      ensures n.None? <==> r.Failure?
      ensures n.None? ==> r.error == ArgumentNull("key")
      ensures n.Some? ==> (r.value.Some? <==> n.value in namedColors)
      ensures n.Some? && r.value.Some? ==> r.value.value == namedColors[n.value]
    {
      if n.None? then Failure(ArgumentNull("key"))
      else if n.value in namedColors then Success(Some(namedColors[n.value]))
      else Success(None)
    }

    /** ColorAdd: inserts `color` under its own name. A null name or a name already
        present throws and leaves the table as it was, so colour names stay unique.
        The frozen flag is not consulted. */
    method ColorAdd(color: HighlightingColor) returns (r: Outcome<Error>)
      modifies this
      ensures color.name.None? ==> r == Fail(ArgumentNull("key"))
      ensures color.name.Some? && color.name.value in old(namedColors) ==> r == Fail(DuplicateKey(color.name.value))
      ensures r.Pass? <==> color.name.Some? && color.name.value !in old(namedColors)
      ensures r.Pass? ==> namedColors == old(namedColors)[color.name.value := color]
      ensures r.Fail? ==> namedColors == old(namedColors)
      ensures name == old(name) && extensions == old(extensions) && isFrozen == old(isFrozen)
    {
      if color.name.None? {
        return Fail(ArgumentNull("key"));
      }
      var key := color.name.value;
      if key in namedColors {
        return Fail(DuplicateKey(key));
      }
      namedColors := namedColors[key := color];
      r := Pass;
    }

    /** ColorReplace: removes the entry for `n`, if any, then adds `themeColor` under
        `n`. Afterwards `n` holds exactly `themeColor` and every other entry is as
        before, whether or not `n` was present. A null `n` throws. */
    method ColorReplace(n: Option<string>, themeColor: HighlightingColor) returns (r: Outcome<Error>)
      modifies this
      ensures n.None? <==> r.Fail?
      ensures n.None? ==> r.error == ArgumentNull("key") && namedColors == old(namedColors)
      ensures n.Some? ==> namedColors == old(namedColors)[n.value := themeColor]
      ensures n.Some? ==> n.value in namedColors && namedColors[n.value] == themeColor
      ensures n.Some? ==> namedColors.Keys == old(namedColors).Keys + {n.value}
      ensures n.Some? ==> forall k :: k in old(namedColors) && k != n.value ==> namedColors[k] == old(namedColors)[k]
      ensures name == old(name) && extensions == old(extensions) && isFrozen == old(isFrozen)
    {
      if n.None? {
        return Fail(ArgumentNull("key"));
      }
      var removed := namedColors - {n.value};
      namedColors := removed[n.value := themeColor];
      r := Pass;
    }

    /** Freeze: prevents later changes to the name. */
    method Freeze()
      modifies this
      ensures isFrozen
      ensures Value() == old(Value())
    {
      isFrozen := true;
    }

    /** ToString */
    function ToString(): (r: string)
      reads this
      ensures StartsWith(r, "[SyntaxDefinition ") && r[|r| - 1] == ']'
      ensures r[18..|r| - 1] == if IsNullOrEmpty(name) then "" else name.value
    {
      SyntaxDefinitionText(name)
    }
  }

  /** What a GlobalStyle holds, as a value. */
  datatype GlobalStyleValue = GlobalStyleValue(
    typeName: Option<string>,
    foregroundColor: Option<Color>,
    backgroundColor: Option<Color>,
    borderColor: Option<Color>)

  /** GlobalStyle.ToString: the type name in brackets; a null or empty type name gives "[]". */
  function GlobalStyleText(typeName: Option<string>): (r: string)
    ensures |r| >= 2 && r[0] == '[' && r[|r| - 1] == ']'
    ensures r[1..|r| - 1] == if IsNullOrEmpty(typeName) then "" else typeName.value
  {
    "[" + (if IsNullOrEmpty(typeName) then "" else typeName.value) + "]"
  }

  /** Two GlobalStyles render the same text exactly when their type names agree,
      where a null and an empty type name are not told apart. */
  lemma GlobalStyleTextDistinguishesTypeNames(a: Option<string>, b: Option<string>)
    ensures GlobalStyleText(a) == GlobalStyleText(b) <==>
      (IsNullOrEmpty(a) && IsNullOrEmpty(b)) || (!IsNullOrEmpty(a) && !IsNullOrEmpty(b) && a.value == b.value)
  {
    var ta, tb := GlobalStyleText(a), GlobalStyleText(b);
    if ta == tb {
      assert ta[1..|ta| - 1] == tb[1..|tb| - 1];
    }
  }

  /** A style for editor chrome (eg 'DefaultStyle', 'Selection'): a type name
      and three optional colours, each guarded by the frozen flag. */
  class GlobalStyle {
    var typeName: Option<string>
    var foregroundColor: Option<Color>
    var backgroundColor: Option<Color>
    var borderColor: Option<Color>
    var isFrozen: bool

    /** The object's state as a value. */
    function Value(): (v: GlobalStyleValue)
      reads this
      ensures v.typeName == typeName && v.foregroundColor == foregroundColor
      ensures v.backgroundColor == backgroundColor && v.borderColor == borderColor
    {
      GlobalStyleValue(typeName, foregroundColor, backgroundColor, borderColor)
    }

    /** `GlobalStyle(typeName)`: the hidden constructor's defaults, then the type name. */
    constructor (typeName: Option<string>)
      ensures Value() == GlobalStyleValue(typeName, None, None, None) && !isFrozen
    {
      this.typeName := Some("");
      foregroundColor := None;
      backgroundColor := None;
      borderColor := None;
      isFrozen := false;
      new;
      this.typeName := typeName;
    }

    /** The hidden constructor: an empty type name and no colours. */
    constructor Hidden()
      ensures Value() == GlobalStyleValue(Some(""), None, None, None) && !isFrozen
    {
      typeName := Some("");
      foregroundColor := None;
      backgroundColor := None;
      borderColor := None;
      isFrozen := false;
    }

    /** The TypeName setter. */
    method SetTypeName(value: Option<string>) returns (r: Outcome<Error>)
      modifies this
      ensures old(isFrozen) ==> r == Fail(InvalidOperation(FrozenMessage)) && unchanged(this)
      ensures !old(isFrozen) ==> r.Pass? && Value() == old(Value()).(typeName := value) && !isFrozen
    {
      if isFrozen {
        return Fail(InvalidOperation(FrozenMessage));
      }
      typeName := value;
      r := Pass;
    }

    /** The foreground colour setter. */
    method SetForegroundColor(value: Option<Color>) returns (r: Outcome<Error>)
      modifies this
      ensures old(isFrozen) ==> r == Fail(InvalidOperation(FrozenMessage)) && unchanged(this)
      ensures !old(isFrozen) ==> r.Pass? && Value() == old(Value()).(foregroundColor := value) && !isFrozen
    {
      if isFrozen {
        return Fail(InvalidOperation(FrozenMessage));
      }
      foregroundColor := value;
      r := Pass;
    }

    /** The background colour setter. */
    method SetBackgroundColor(value: Option<Color>) returns (r: Outcome<Error>)
      modifies this
      ensures old(isFrozen) ==> r == Fail(InvalidOperation(FrozenMessage)) && unchanged(this)
      ensures !old(isFrozen) ==> r.Pass? && Value() == old(Value()).(backgroundColor := value) && !isFrozen
    {
      if isFrozen {
        return Fail(InvalidOperation(FrozenMessage));
      }
      backgroundColor := value;
      r := Pass;
    }

    /** The border colour setter. */
    method SetBorderColor(value: Option<Color>) returns (r: Outcome<Error>)
      modifies this
      ensures old(isFrozen) ==> r == Fail(InvalidOperation(FrozenMessage)) && unchanged(this)
      ensures !old(isFrozen) ==> r.Pass? && Value() == old(Value()).(borderColor := value) && !isFrozen
    {
      if isFrozen {
        return Fail(InvalidOperation(FrozenMessage));
      }
      borderColor := value;
      r := Pass;
    }

    /** Freeze: every later setter call throws. */
    method Freeze()
      modifies this
      ensures isFrozen && Value() == old(Value())
    {
      isFrozen := true;
    }

    /** ToString */
    function ToString(): (r: string)
      reads this
      ensures |r| >= 2 && r[0] == '[' && r[|r| - 1] == ']'
      ensures r[1..|r| - 1] == if IsNullOrEmpty(typeName) then "" else typeName.value
    {
      GlobalStyleText(typeName)
    }
  }
}

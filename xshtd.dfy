/** The overlay document object and the resolver built from it:
    XhstdThemeDefinition (name plus ordered elements, visited in order) and
    XmlHighlightingThemeDefinition (the grammar dictionary filled by the two
    visitor passes, and the lazy colour fill). Both live in one module, as in the
    source, because AcceptElements hands each element to the resolver's visitors. */
module Xshtd {
  import opened Wrappers
  import opened Errors
  import opened HighlightingTheme
  import opened XshtdElements
  import opened ThemeResolution

  /** The two visitors the resolver's constructor runs over a document. */
  datatype Visitor = RegisterNamedElements | TranslateElement

  /** What one visitor does to the grammar dictionary for one element. */
  function VisitSpec(v: Visitor, st: Defs, e: XshtdElement): Result<Defs, Error> {
    if v.RegisterNamedElements? then RegisterVisit(st, e) else TranslateVisit(st, e)
  }

  /** What one visitor does to the grammar dictionary for a list of elements. */
  function AcceptSpec(v: Visitor, st: Defs, es: seq<XshtdElement>): Result<Defs, Error> {
    if v.RegisterNamedElements? then RegisterAll(st, es) else TranslateAll(st, es)
  }

  /** `r` is the answer of GetNamedSyntaxDefinition(n) and `after` the grammar
      dictionary afterwards, as NamedLookup states them for the dictionary
      `before` and the document's top-level elements `es`; `dict` holds the
      entry objects. */
  predicate LookupAnswers(before: Defs, es: seq<XshtdElement>, n: Option<string>,
                          dict: map<string, SyntaxDefinition>, after: Defs,
                          r: Result<Option<SyntaxDefinition>, Error>)
  {
    var l := NamedLookup(before, es, n);
    && after == l.0
    && (l.1.Failure? ==> r == Failure(l.1.error))
    && (l.1 == Success(false) ==> r == Success(None))
    && (l.1 == Success(true) ==> n.Some? && n.value in dict && r == Success(Some(dict[n.value])))
  }

  /** A parsed overlay document: its name and its top-level elements in order. */
  class XhstdThemeDefinition {
    var name: Option<string>
    var elements: seq<XshtdElement>

    /** A new definition has no name and no elements. */
    constructor ()
      ensures name.None? && elements == []
    {
      name := None;
      elements := [];
    }

    /** The Name setter. */
    method SetName(value: Option<string>)
      modifies this
      ensures name == value && elements == old(elements)
    {
      name := value;
    }

    /** `Elements.Add(element)`. */
    method AddElement(element: XshtdElement)
      modifies this
      ensures elements == old(elements) + [element] && name == old(name)
    {
      elements := elements + [element];
    }

    /** AcceptElements: hands each top-level element, in list order, to `visitor`
        (one AcceptVisitor call each), stopping at the first exception. It does not
        descend into nested elements itself, and it changes neither the name nor
        the element list. */
    method AcceptElements(visitor: Visitor, def: XmlHighlightingThemeDefinition) returns (r: Outcome<Error>)
      requires def.Valid()
      modifies def, def.syntaxDefDict.Values
      ensures unchanged(this)
      ensures def.Valid() && def.name == old(def.name) && def.xshtd == old(def.xshtd)
      ensures def.propDict == old(def.propDict)
      ensures r.Fail? <==> AcceptSpec(visitor, old(def.Defs()), elements).Failure?
      ensures r.Fail? ==> r.error == AcceptSpec(visitor, old(def.Defs()), elements).error
      ensures r.Pass? ==> def.Defs() == AcceptSpec(visitor, old(def.Defs()), elements).value
      ensures forall k :: k in old(def.syntaxDefDict) ==> k in def.syntaxDefDict && def.syntaxDefDict[k] == old(def.syntaxDefDict[k])
      ensures forall k :: k in def.syntaxDefDict && k !in old(def.syntaxDefDict) ==> fresh(def.syntaxDefDict[k])
    {
      var i := 0;
      while i < |elements|
        invariant 0 <= i <= |elements|
        invariant def.Valid() && def.name == old(def.name) && def.xshtd == old(def.xshtd)
        invariant def.propDict == old(def.propDict)
        invariant AcceptSpec(visitor, def.Defs(), elements[i..]) == AcceptSpec(visitor, old(def.Defs()), elements)
        invariant forall k :: k in old(def.syntaxDefDict) ==> k in def.syntaxDefDict && def.syntaxDefDict[k] == old(def.syntaxDefDict[k])
        invariant forall k :: k in def.syntaxDefDict && k !in old(def.syntaxDefDict) ==> fresh(def.syntaxDefDict[k])
      {
        ghost var before := def.Defs();
        assert elements[i..][0] == elements[i] && elements[i..][1..] == elements[i + 1..];
        var step := def.Visit(visitor, elements[i]);
        if step.Fail? {
          return step;
        }
        assert AcceptSpec(visitor, def.Defs(), elements[i + 1..]) == AcceptSpec(visitor, before, elements[i..]);
        i := i + 1;
      }
      r := Pass;
    }
  }

  /** A resolved highlighting theme: one SyntaxDefinition object per grammar name,
      plus the document it was built from and its (always empty) properties. */
  class XmlHighlightingThemeDefinition {
    var name: Option<string>
    var syntaxDefDict: map<string, SyntaxDefinition>
    var xshtd: XhstdThemeDefinition?
    var propDict: map<string, string>

    /** No two grammar names share one SyntaxDefinition object. */
    ghost predicate Valid()
      reads this
    {
      forall a, b :: a in syntaxDefDict && b in syntaxDefDict && a != b ==> syntaxDefDict[a] != syntaxDefDict[b]
    }

    /** The grammar dictionary as values. */
    ghost function Defs(): Defs
      reads this, syntaxDefDict.Values
    {
      map k | k in syntaxDefDict :: syntaxDefDict[k].Value()
    }

    /** The protected constructor: an empty grammar dictionary. */
    constructor Empty()
      ensures Valid() && syntaxDefDict == map[] && Defs() == map[]
      ensures name.None? && xshtd == null && propDict == map[]
    {
      name := None;
      syntaxDefDict := map[];
      xshtd := null;
      propDict := map[];
    }

    /** The public constructor: the document's name, pass 1 and pass 2 over its
        elements, then the properties (the element model has no property
        declarations, so none are added). Any exception of either pass is the
        constructor's exception. Every SyntaxDefinition of the result is a new
        object, so two resolved themes share no mutable state. */
    static method Create(doc: XhstdThemeDefinition) returns (r: Result<XmlHighlightingThemeDefinition, Error>)
      ensures unchanged(doc)
      ensures r.Success? <==> Resolve(doc.elements).Success?
      ensures r.Failure? ==> r.error == Resolve(doc.elements).error
      ensures r.Success? ==> fresh(r.value) && r.value.Valid() && r.value.Defs() == Resolve(doc.elements).value
      ensures r.Success? ==> r.value.name == doc.name && r.value.xshtd == doc && r.value.propDict == map[]
      ensures r.Success? ==> forall k :: k in r.value.syntaxDefDict ==> fresh(r.value.syntaxDefDict[k])
    {
      var d := new XmlHighlightingThemeDefinition.Empty();
      d.name := doc.name;
      var pass1 := doc.AcceptElements(RegisterNamedElements, d);
      ghost var st1 := RegisterAll(map[], doc.elements);
      if pass1.Fail? {
        assert Resolve(doc.elements) == Failure(st1.error);
        return Failure(pass1.error);
      }
      assert d.Defs() == st1.value;
      var pass2 := doc.AcceptElements(TranslateElement, d);
      assert Resolve(doc.elements) == TranslateAll(st1.value, doc.elements);
      if pass2.Fail? {
        return Failure(pass2.error);
      }
      d.xshtd := doc;
      r := Success(d);
    }

    /** The Properties dictionary. */
    function Properties(): map<string, string>
      reads this
    {
      propDict
    }

    /** GetSyntaxDefinitionTheme: the registered entry for `n`, or null; a null `n`
        makes the lookup throw. */
    function GetSyntaxDefinitionTheme(n: Option<string>): (r: Result<Option<SyntaxDefinition>, Error>)
      reads this
      ensures n.None? <==> r.Failure?
      ensures n.None? ==> r.error == ArgumentNull("key")
      ensures n.Some? ==> (r.value.Some? <==> n.value in syntaxDefDict)
      ensures n.Some? && r.value.Some? ==> r.value.value == syntaxDefDict[n.value]
    {
      if n.None? then Failure(ArgumentNull("key"))
      else if n.value in syntaxDefDict then Success(Some(syntaxDefDict[n.value]))
      else Success(None)
    }

    /** XshtdElement.AcceptVisitor: dispatches on the visitor and the element kind. */
    method Visit(visitor: Visitor, e: XshtdElement) returns (r: Outcome<Error>)
      requires Valid()
      modifies this, syntaxDefDict.Values
      ensures Valid() && name == old(name) && xshtd == old(xshtd) && propDict == old(propDict)
      ensures r.Fail? <==> VisitSpec(visitor, old(Defs()), e).Failure?
      ensures r.Fail? ==> r.error == VisitSpec(visitor, old(Defs()), e).error
      ensures r.Pass? ==> Defs() == VisitSpec(visitor, old(Defs()), e).value
      ensures forall k :: k in old(syntaxDefDict) ==> k in syntaxDefDict && syntaxDefDict[k] == old(syntaxDefDict[k])
      ensures forall k :: k in syntaxDefDict && k !in old(syntaxDefDict) ==> fresh(syntaxDefDict[k])
      decreases e, 1
    {
      match visitor
      case RegisterNamedElements =>
        if e.XshtdSyntaxDefinition? {
          r := RegisterSyntaxDefinition(e);
        } else {
          r := RegisterColor(e);
        }
      case TranslateElement =>
        if e.XshtdSyntaxDefinition? {
          r := TranslateSyntaxDefinition(e);
        } else {
          r := TranslateColor(e);
        }
    }

    /** XshtdSyntaxDefinition.AcceptElements with the registering visitor: the
        children in order, stopping at the first exception. */
    method AcceptChildren(es: seq<XshtdElement>) returns (r: Outcome<Error>)
      requires Valid()
      modifies this, syntaxDefDict.Values
      ensures Valid() && name == old(name) && xshtd == old(xshtd) && propDict == old(propDict)
      ensures r.Fail? <==> RegisterAll(old(Defs()), es).Failure?
      ensures r.Fail? ==> r.error == RegisterAll(old(Defs()), es).error
      ensures r.Pass? ==> Defs() == RegisterAll(old(Defs()), es).value
      ensures forall k :: k in old(syntaxDefDict) ==> k in syntaxDefDict && syntaxDefDict[k] == old(syntaxDefDict[k])
      ensures forall k :: k in syntaxDefDict && k !in old(syntaxDefDict) ==> fresh(syntaxDefDict[k])
      decreases es, 2
    {
      var i := 0;
      while i < |es|
        invariant 0 <= i <= |es|
        invariant Valid() && name == old(name) && xshtd == old(xshtd) && propDict == old(propDict)
        invariant RegisterAll(Defs(), es[i..]) == RegisterAll(old(Defs()), es)
        invariant forall k :: k in old(syntaxDefDict) ==> k in syntaxDefDict && syntaxDefDict[k] == old(syntaxDefDict[k])
        invariant forall k :: k in syntaxDefDict && k !in old(syntaxDefDict) ==> fresh(syntaxDefDict[k])
      {
        ghost var before := Defs();
        assert es[i..][0] == es[i] && es[i..][1..] == es[i + 1..];
        var step := Visit(RegisterNamedElements, es[i]);
        if step.Fail? {
          return step;
        }
        assert RegisterAll(Defs(), es[i + 1..]) == RegisterAll(before, es[i..]);
        i := i + 1;
      }
      r := Pass;
    }

    /** RegisterNamedElementsVisitor.VisitSyntaxDefinition: a named grammar must be
        non-empty and new, and gets a fresh, empty SyntaxDefinition; then the
        children are visited. */
    method RegisterSyntaxDefinition(syntax: XshtdElement) returns (r: Outcome<Error>)
      requires Valid() && syntax.XshtdSyntaxDefinition?
      modifies this, syntaxDefDict.Values
      ensures Valid() && name == old(name) && xshtd == old(xshtd) && propDict == old(propDict)
      ensures r.Fail? <==> RegisterVisit(old(Defs()), syntax).Failure?
      ensures r.Fail? ==> r.error == RegisterVisit(old(Defs()), syntax).error
      ensures r.Pass? ==> Defs() == RegisterVisit(old(Defs()), syntax).value
      ensures forall k :: k in old(syntaxDefDict) ==> k in syntaxDefDict && syntaxDefDict[k] == old(syntaxDefDict[k])
      ensures forall k :: k in syntaxDefDict && k !in old(syntaxDefDict) ==> fresh(syntaxDefDict[k])
      decreases syntax, 0
    {
      if syntax.name.Some? {
        var n := syntax.name.value;
        if |n| == 0 {
          return Fail(ErrorAt(syntax.lineNumber, EmptyNameMessage));
        }
        if n in syntaxDefDict {
          return Fail(ErrorAt(syntax.lineNumber, "Duplicate syntax definition name '" + n + "'."));
        }
        AddEmptyDefinition(n);
      }
      r := AcceptChildren(syntax.elements);
    }

    /** `syntaxDefDict.Add(n, new SyntaxDefinition())` for a name not yet present. */
    method AddEmptyDefinition(n: string)
      requires Valid() && n !in syntaxDefDict
      modifies this
      ensures Valid() && name == old(name) && xshtd == old(xshtd) && propDict == old(propDict)
      ensures n in syntaxDefDict && fresh(syntaxDefDict[n])
      ensures syntaxDefDict == old(syntaxDefDict)[n := syntaxDefDict[n]]
      ensures Defs() == old(Defs())[n := EmptySyntaxDefinition()]
    {
      ghost var before := Defs();
      var sd := new SyntaxDefinition();
      syntaxDefDict := syntaxDefDict[n := sd];
      assert Defs() == before[n := EmptySyntaxDefinition()];
    }

    /** RegisterNamedElementsVisitor.VisitColor: a named colour must be non-empty,
        belong to a registered grammar and be new there; it then gets a name-only
        placeholder. */
    method RegisterColor(color: XshtdElement) returns (r: Outcome<Error>)
      requires Valid() && color.XshtdColor?
      modifies this, syntaxDefDict.Values
      ensures Valid() && name == old(name) && xshtd == old(xshtd) && propDict == old(propDict)
      ensures syntaxDefDict == old(syntaxDefDict)
      ensures r.Fail? <==> ThemeResolution.RegisterColor(old(Defs()), color).Failure?
      ensures r.Fail? ==> r.error == ThemeResolution.RegisterColor(old(Defs()), color).error
      ensures r.Pass? ==> Defs() == ThemeResolution.RegisterColor(old(Defs()), color).value
    {
      if color.name.None? {
        return Pass;
      }
      var n := color.name.value;
      if |n| == 0 {
        return Fail(ErrorAt(color.lineNumber, EmptyNameMessage));
      }
      if color.syntax.None? {
        return Fail(NullReference);
      }
      var syntax := color.syntax.value;
      var lookup := GetSyntaxDefinitionTheme(syntax.name);
      if lookup.Failure? {
        return Fail(lookup.error);
      }
      if lookup.value.None? {
        return Fail(ErrorAt(syntax.lineNumber, "Themed Syntax Definition does not exist '" + syntax.name.value + "'."));
      }
      var synDef := lookup.value.value;
      var existing := synDef.ColorGet(color.name);
      if existing.value.Some? {
        return Fail(ErrorAt(color.lineNumber, "Duplicate color name '" + n + "'."));
      }
      ghost var before := Defs();
      var added := synDef.ColorAdd(NameOnlyColor(color.name));
      var sn := syntax.name.value;
      assert Defs() == before[sn := before[sn].(colors := before[sn].colors[n := NameOnlyColor(color.name)])];
      r := Pass;
    }

    /** TranslateElementVisitor.VisitSyntaxDefinition: appends the element's
        extensions, in order, to its registered SyntaxDefinition (the indexer throws
        for an unregistered name). An unnamed element copies them into a new
        SyntaxDefinition that is not kept. */
    method TranslateSyntaxDefinition(syntax: XshtdElement) returns (r: Outcome<Error>)
      requires Valid() && syntax.XshtdSyntaxDefinition?
      modifies this, syntaxDefDict.Values
      ensures Valid() && name == old(name) && xshtd == old(xshtd) && propDict == old(propDict)
      ensures syntaxDefDict == old(syntaxDefDict)
      ensures r.Fail? <==> TranslateVisit(old(Defs()), syntax).Failure?
      ensures r.Fail? ==> r.error == TranslateVisit(old(Defs()), syntax).error
      ensures r.Pass? ==> Defs() == TranslateVisit(old(Defs()), syntax).value
    {
      var c: SyntaxDefinition;
      ghost var before := Defs();
      if syntax.name.Some? {
        if syntax.name.value !in syntaxDefDict {
          return Fail(KeyNotFound(syntax.name.value));
        }
        c := syntaxDefDict[syntax.name.value];
      } else {
        c := new SyntaxDefinition.Named(syntax.name);
      }
      CopyExtensions(c, syntax.extensions);
      if syntax.name.Some? {
        var n := syntax.name.value;
        assert Defs() == before[n := before[n].(extensions := before[n].extensions + syntax.extensions)];
      } else {
        assert Defs() == before;
      }
      r := Pass;
    }

    /** The foreach of TranslateElementVisitor.VisitSyntaxDefinition that adds
        each extension of the element to the grammar entry, in order. */
    static method CopyExtensions(c: SyntaxDefinition, exts: seq<string>)
      modifies c
      ensures c.extensions == old(c.extensions) + exts
      ensures c.name == old(c.name) && c.namedColors == old(c.namedColors)
    {
      var j := 0;
      while j < |exts|
        invariant 0 <= j <= |exts|
        invariant c.extensions == old(c.extensions) + exts[..j]
        invariant c.name == old(c.name) && c.namedColors == old(c.namedColors)
      {
        c.AddExtension(exts[j]);
        assert exts[..j + 1] == exts[..j] + [exts[j]];
        j := j + 1;
      }
      assert exts[..j] == exts;
    }

    /** TranslateElementVisitor.VisitColor: throws for every colour. Its null check
        is inverted, so a named colour is refused as if it were unnamed, and an
        unnamed one fails on its name's length. */
    method TranslateColor(color: XshtdElement) returns (r: Outcome<Error>)
      requires color.XshtdColor?
      ensures r.Fail?
      ensures r.error == TranslateVisit(map[], color).error
    {
      if color.name.Some? {
        return Fail(ErrorAt(color.lineNumber, NullNameMessage));
      }
      return Fail(NullReference);
    }

    /** The loop of GetNamedSyntaxDefinition over the colour children of one grammar
        element: ColorReplace with the converted colour, stopping at the first
        exception. */
    static method FillColors(s: SyntaxDefinition, items: seq<XshtdElement>) returns (failure: Option<Error>)
      modifies s
      ensures (s.namedColors, failure) == ReplaceColors(old(s.namedColors), items)
      ensures s.name == old(s.name) && s.extensions == old(s.extensions) && s.isFrozen == old(s.isFrozen)
    {
      var j := 0;
      while j < |items|
        invariant 0 <= j <= |items|
        invariant ReplaceColors(s.namedColors, items[j..]) == ReplaceColors(old(s.namedColors), items)
        invariant s.name == old(s.name) && s.extensions == old(s.extensions) && s.isFrozen == old(s.isFrozen)
      {
        assert items[j..][0] == items[j] && items[j..][1..] == items[j + 1..];
        var item := items[j];
        if item.XshtdColor? {
          var replaced := s.ColorReplace(item.name, ConvertXshdColor(item));
          if replaced.Fail? {
            return Some(replaced.error);
          }
        }
        j := j + 1;
      }
      failure := None;
    }

    /** GetNamedSyntaxDefinition: for a registered `n`, replaces the colours of that
        grammar's table with converted copies of the colour children of the first
        top-level grammar element named `n`, in order, and returns the table. An
        unregistered `n` gives null and changes nothing; a null `n`, a grammar that
        is registered only as a nested element, and a colour with a null name
        throw (replacements made before that colour stay). */
    method GetNamedSyntaxDefinition(n: Option<string>) returns (r: Result<Option<SyntaxDefinition>, Error>)
      requires Valid()
      modifies if n.Some? && n.value in syntaxDefDict then {syntaxDefDict[n.value]} else {}
      ensures n.None? ==> r == Failure(ArgumentNull("key"))
      ensures n.Some? && n.value !in syntaxDefDict ==> r == Success(None)
      ensures n.Some? && n.value in syntaxDefDict && xshtd == null ==>
        r == Success(Some(syntaxDefDict[n.value])) && Defs() == old(Defs())
      ensures n.Some? && n.value in syntaxDefDict && xshtd != null ==>
        var first := FirstSyntaxDefinition(xshtd.elements, n.value);
        && (first.None? ==> r == Failure(InvalidOperation(NoMatchMessage)) && Defs() == old(Defs()))
        && (first.Some? ==>
              var filled := ReplaceColors(old(Defs())[n.value].colors, xshtd.elements[first.value].elements);
              && Defs() == old(Defs())[n.value := old(Defs())[n.value].(colors := filled.0)]
              && r == if filled.1.Some? then Failure(filled.1.value) else Success(Some(syntaxDefDict[n.value])))
      ensures xshtd != null ==> LookupAnswers(old(Defs()), xshtd.elements, n, syntaxDefDict, Defs(), r)
    {
      var lookup := GetSyntaxDefinitionTheme(n);
      if lookup.Failure? {
        return Failure(lookup.error);
      }
      if lookup.value.None? {
        return Success(None);
      }
      var s := lookup.value.value;
      if xshtd != null {
        var first := FirstSyntaxDefinition(xshtd.elements, n.value);
        if first.None? {
          return Failure(InvalidOperation(NoMatchMessage));
        }
        ghost var before := Defs();
        var failure := FillColors(s, xshtd.elements[first.value].elements);
        assert forall k :: k in syntaxDefDict && k != n.value ==> syntaxDefDict[k] != s;
        assert Defs() == before[n.value := before[n.value].(colors := s.namedColors)];
        if failure.Some? {
          return Failure(failure.value);
        }
      }
      r := Success(Some(s));
    }
  }
}

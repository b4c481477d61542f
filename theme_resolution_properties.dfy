/** What the two resolver passes guarantee: uniqueness of grammar and colour
    names, the entries pass 1 creates, the extensions pass 2 copies, and the
    colour values the lazy fill installs. */
module ThemeResolutionProperties {
  import opened Wrappers
  import opened Errors
  import opened HighlightingTheme
  import opened XshtdElements
  import opened ThemeResolution

  // ----- Decomposition -----

  /** Pass 1 over `es` is pass 1 over a prefix followed by pass 1 over the rest. */
  lemma {:induction false} RegisterAllSplit(st: Defs, es: seq<XshtdElement>, k: nat)
    requires k <= |es|
    ensures RegisterAll(st, es) ==
      (var p := RegisterAll(st, es[..k]); if p.Failure? then p else RegisterAll(p.value, es[k..]))
    decreases k
  {
    if k == 0 {
      assert es[..0] == [] && es[0..] == es;
    } else {
      assert es[..k][0] == es[0] && es[..k][1..] == es[1..][..k - 1];
      var first := RegisterVisit(st, es[0]);
      if first.Success? {
        RegisterAllSplit(first.value, es[1..], k - 1);
        assert es[1..][k - 1..] == es[k..];
      }
    }
  }

  /** Pass 2 over `es` is pass 2 over a prefix followed by pass 2 over the rest. */
  lemma {:induction false} TranslateAllSplit(st: Defs, es: seq<XshtdElement>, k: nat)
    requires k <= |es|
    ensures TranslateAll(st, es) ==
      (var p := TranslateAll(st, es[..k]); if p.Failure? then p else TranslateAll(p.value, es[k..]))
    decreases k
  {
    if k == 0 {
      assert es[..0] == [] && es[0..] == es;
    } else {
      assert es[..k][0] == es[0] && es[..k][1..] == es[1..][..k - 1];
      var first := TranslateVisit(st, es[0]);
      if first.Success? {
        TranslateAllSplit(first.value, es[1..], k - 1);
        assert es[1..][k - 1..] == es[k..];
      }
    }
  }

  // ----- Pass 1 only ever adds -----

  /** `st2` keeps every grammar of `st` and every colour name of each. */
  predicate Grows(st: Defs, st2: Defs) {
    forall k :: k in st ==> k in st2 && st[k].colors.Keys <= st2[k].colors.Keys
  }

  lemma {:induction false} RegisterVisitGrows(st: Defs, e: XshtdElement)
    requires RegisterVisit(st, e).Success?
    ensures Grows(st, RegisterVisit(st, e).value)
    decreases e
  {
    if e.XshtdSyntaxDefinition? {
      var st1 := RegisterSyntaxDefinitionName(st, e.name, e.lineNumber).value;
      RegisterAllGrows(st1, e.elements);
    }
  }

  lemma {:induction false} RegisterAllGrows(st: Defs, es: seq<XshtdElement>)
    requires RegisterAll(st, es).Success?
    ensures Grows(st, RegisterAll(st, es).value)
    decreases es
  {
    if |es| > 0 {
      var st1 := RegisterVisit(st, es[0]).value;
      RegisterVisitGrows(st, es[0]);
      RegisterAllGrows(st1, es[1..]);
    }
  }

  /** Pass 1 registers exactly the non-null grammar names of the tree, nested ones
      included; a null-named grammar or colour adds no entry. */
  lemma {:induction false} RegisterVisitKeys(st: Defs, e: XshtdElement)
    requires RegisterVisit(st, e).Success?
    ensures RegisterVisit(st, e).value.Keys == st.Keys + NamedSyntaxDefinitionsOf(e)
    decreases e
  {
    if e.XshtdSyntaxDefinition? {
      var st1 := RegisterSyntaxDefinitionName(st, e.name, e.lineNumber).value;
      RegisterAllKeys(st1, e.elements);
    }
  }

  lemma {:induction false} RegisterAllKeys(st: Defs, es: seq<XshtdElement>)
    requires RegisterAll(st, es).Success?
    ensures RegisterAll(st, es).value.Keys == st.Keys + NamedSyntaxDefinitions(es)
    decreases es
  {
    if |es| > 0 {
      var st1 := RegisterVisit(st, es[0]).value;
      RegisterVisitKeys(st, es[0]);
      RegisterAllKeys(st1, es[1..]);
    }
  }

  /** Pass 1 creates unnamed, extension-less tables holding name-only placeholders. */
  lemma {:induction false} RegisterVisitKeepsPlaceholders(st: Defs, e: XshtdElement)
    requires Placeholders(st) && RegisterVisit(st, e).Success?
    ensures Placeholders(RegisterVisit(st, e).value)
    decreases e
  {
    if e.XshtdSyntaxDefinition? {
      var st1 := RegisterSyntaxDefinitionName(st, e.name, e.lineNumber).value;
      RegisterAllKeepsPlaceholders(st1, e.elements);
    }
  }

  lemma {:induction false} RegisterAllKeepsPlaceholders(st: Defs, es: seq<XshtdElement>)
    requires Placeholders(st) && RegisterAll(st, es).Success?
    ensures Placeholders(RegisterAll(st, es).value)
    decreases es
  {
    if |es| > 0 {
      var st1 := RegisterVisit(st, es[0]).value;
      RegisterVisitKeepsPlaceholders(st, es[0]);
      RegisterAllKeepsPlaceholders(st1, es[1..]);
    }
  }

  // ----- Uniqueness -----

  /** Two syntax definitions in the same element list with the same name make pass 1
      fail, whatever lies between or around them. */
  lemma DuplicateSyntaxDefinitionFails(st: Defs, es: seq<XshtdElement>, i: nat, j: nat, n: string)
    requires i < j < |es|
    requires es[i].XshtdSyntaxDefinition? && es[i].name == Some(n)
    requires es[j].XshtdSyntaxDefinition? && es[j].name == Some(n)
    ensures RegisterAll(st, es).Failure?
  {
    RegisterAllSplit(st, es, j);
    var p := RegisterAll(st, es[..j]);
    if p.Success? {
      var pre := es[..j];
      RegisterAllSplit(st, pre, i);
      var q := RegisterAll(st, pre[..i]);
      var rest := pre[i..];
      assert rest[0] == es[i];
      var s1 := RegisterVisit(q.value, es[i]);
      var named := RegisterSyntaxDefinitionName(q.value, Some(n), es[i].lineNumber).value;
      RegisterAllGrows(named, es[i].elements);
      RegisterAllGrows(s1.value, rest[1..]);
      assert n in p.value;
      assert es[j..][0] == es[j];
    }
  }

  /** Two colours in the same element list with the same name and the same syntax
      definition make pass 1 fail. */
  lemma DuplicateColorFails(st: Defs, es: seq<XshtdElement>, i: nat, j: nat)
    requires i < j < |es|
    requires es[i].XshtdColor? && es[j].XshtdColor?
    requires es[i].name.Some? && es[i].name == es[j].name && es[i].syntax == es[j].syntax
    ensures RegisterAll(st, es).Failure?
  {
    RegisterAllSplit(st, es, j);
    var p := RegisterAll(st, es[..j]);
    if p.Success? {
      var pre := es[..j];
      RegisterAllSplit(st, pre, i);
      var q := RegisterAll(st, pre[..i]);
      var rest := pre[i..];
      assert rest[0] == es[i];
      var s1 := RegisterVisit(q.value, es[i]);
      RegisterAllGrows(s1.value, rest[1..]);
      var sn := es[i].syntax.value.name.value;
      assert es[i].name.value in s1.value[sn].colors;
      assert es[j..][0] == es[j];
    }
  }

  /** Pass 1 succeeds only when the grammar names of an element list are pairwise distinct. */
  lemma RegisteredNamesUnique(st: Defs, es: seq<XshtdElement>)
    requires RegisterAll(st, es).Success?
    ensures forall i, j ::
      0 <= i < j < |es| && es[i].XshtdSyntaxDefinition? && es[j].XshtdSyntaxDefinition? && es[i].name.Some?
      ==> es[i].name != es[j].name
  {
    forall i, j | 0 <= i < j < |es| && es[i].XshtdSyntaxDefinition? && es[j].XshtdSyntaxDefinition? && es[i].name.Some?
      ensures es[i].name != es[j].name
    {
      if es[i].name == es[j].name {
        DuplicateSyntaxDefinitionFails(st, es, i, j, es[i].name.value);
      }
    }
  }

  /** A document with two top-level grammars of the same name does not resolve. */
  lemma ResolveRejectsDuplicateSyntaxDefinition(es: seq<XshtdElement>, i: nat, j: nat, n: string)
    requires i < j < |es|
    requires es[i].XshtdSyntaxDefinition? && es[i].name == Some(n)
    requires es[j].XshtdSyntaxDefinition? && es[j].name == Some(n)
    ensures Resolve(es).Failure?
  {
    DuplicateSyntaxDefinitionFails(map[], es, i, j, n);
  }

  /** A grammar holding two colours of the same name under the same syntax
      definition does not resolve. */
  lemma ResolveRejectsDuplicateColor(es: seq<XshtdElement>, k: nat, i: nat, j: nat)
    requires k < |es| && es[k].XshtdSyntaxDefinition?
    requires i < j < |es[k].elements|
    requires es[k].elements[i].XshtdColor? && es[k].elements[j].XshtdColor?
    requires es[k].elements[i].name.Some? && es[k].elements[i].name == es[k].elements[j].name
    requires es[k].elements[i].syntax == es[k].elements[j].syntax
    ensures Resolve(es).Failure?
  {
    RegisterAllSplit(map[], es, k);
    var p := RegisterAll(map[], es[..k]);
    if p.Success? {
      assert es[k..][0] == es[k];
      var named := RegisterSyntaxDefinitionName(p.value, es[k].name, es[k].lineNumber);
      if named.Success? {
        DuplicateColorFails(named.value, es[k].elements, i, j);
      }
    }
  }

  /** A Color among the top-level elements makes the document fail to resolve:
      pass 2 throws for every colour it visits. */
  lemma ResolveRejectsTopLevelColor(es: seq<XshtdElement>, k: nat)
    requires k < |es| && es[k].XshtdColor?
    ensures Resolve(es).Failure?
  {
    var st1 := RegisterAll(map[], es);
    if st1.Success? {
      TranslateAllSplit(st1.value, es, k);
      assert es[k..][0] == es[k];
    }
  }

  // ----- Pass 2 -----

  /** Pass 2 keeps the grammar set, and appends to each grammar's extensions those
      of the top-level syntax definitions with its name, in document order; names
      and colours stay as they were. */
  lemma {:induction false} TranslateAllEffect(st: Defs, es: seq<XshtdElement>)
    requires TranslateAll(st, es).Success?
    ensures TranslateAll(st, es).value.Keys == st.Keys
    ensures forall n :: n in st ==>
      TranslateAll(st, es).value[n] == st[n].(extensions := st[n].extensions + ExtensionsFor(es, n))
    decreases es
  {
    if |es| > 0 {
      var st1 := TranslateVisit(st, es[0]).value;
      TranslateAllEffect(st1, es[1..]);
      var r := TranslateAll(st, es).value;
      forall n | n in st
        ensures r[n] == st[n].(extensions := st[n].extensions + ExtensionsFor(es, n))
      {
        var own := if es[0].XshtdSyntaxDefinition? && es[0].name == Some(n) then es[0].extensions else [];
        assert ExtensionsFor(es, n) == own + ExtensionsFor(es[1..], n);
        assert st1[n] == st[n].(extensions := st[n].extensions + own);
        assert st[n].extensions + own + ExtensionsFor(es[1..], n) == st[n].extensions + (own + ExtensionsFor(es[1..], n));
      }
    }
  }

  /** With a single top-level grammar named `n`, the extensions collected for `n` are its own. */
  lemma {:induction false} ExtensionsForUnique(es: seq<XshtdElement>, i: nat, n: string)
    requires i < |es| && es[i].XshtdSyntaxDefinition? && es[i].name == Some(n)
    requires forall k :: 0 <= k < |es| && k != i ==> !(es[k].XshtdSyntaxDefinition? && es[k].name == Some(n))
    ensures ExtensionsFor(es, n) == es[i].extensions
  {
    if i == 0 {
      ExtensionsForAbsent(es[1..], n);
    } else {
      ExtensionsForUnique(es[1..], i - 1, n);
    }
  }

  /** With no top-level grammar named `n`, no extensions are collected for it. */
  lemma {:induction false} ExtensionsForAbsent(es: seq<XshtdElement>, n: string)
    requires forall k :: 0 <= k < |es| ==> !(es[k].XshtdSyntaxDefinition? && es[k].name == Some(n))
    ensures ExtensionsFor(es, n) == []
  {
    if |es| > 0 {
      ExtensionsForAbsent(es[1..], n);
    }
  }

  // ----- Both passes -----

  /** A resolved document holds one entry per non-null grammar name of the tree.
      Each entry has no name of its own, carries the extensions of the top-level
      grammars of that name (none for a grammar that is only nested), and holds
      name-only placeholder colours. */
  lemma ResolveShape(es: seq<XshtdElement>)
    requires Resolve(es).Success?
    ensures Resolve(es).value.Keys == NamedSyntaxDefinitions(es)
    ensures forall n :: n in Resolve(es).value ==>
      Resolve(es).value[n].extensions == ExtensionsFor(es, n) && Resolve(es).value[n].name.None? &&
      forall c :: c in Resolve(es).value[n].colors ==> Resolve(es).value[n].colors[c] == NameOnlyColor(Some(c))
  {
    var st1 := RegisterAll(map[], es).value;
    RegisterAllKeys(map[], es);
    RegisterAllKeepsPlaceholders(map[], es);
    TranslateAllEffect(st1, es);
    var r := Resolve(es).value;
    forall n | n in r
      ensures r[n].extensions == ExtensionsFor(es, n)
    {
      assert PlaceholderTable(st1[n]);
    }
  }

  /** A top-level grammar named `n` in a resolved document has an entry whose
      extensions are exactly the ones declared on it, in order. */
  lemma ResolvedExtensions(es: seq<XshtdElement>, i: nat, n: string)
    requires Resolve(es).Success?
    requires i < |es| && es[i].XshtdSyntaxDefinition? && es[i].name == Some(n)
    ensures n in Resolve(es).value && Resolve(es).value[n].extensions == es[i].extensions
  {
    ResolveShape(es);
    RegisteredNamesUnique(map[], es);
    assert n in NamedSyntaxDefinitionsOf(es[i]);
    NamedSyntaxDefinitionsHas(es, i);
    ExtensionsForUnique(es, i, n);
  }

  lemma {:induction false} NamedSyntaxDefinitionsHas(es: seq<XshtdElement>, i: nat)
    requires i < |es|
    ensures NamedSyntaxDefinitionsOf(es[i]) <= NamedSyntaxDefinitions(es)
  {
    if i > 0 {
      NamedSyntaxDefinitionsHas(es[1..], i - 1);
    }
  }

  // ----- The lazy colour fill -----

  /** The lazy fill: when no colour among `items` has a null name, the table ends up
      with every old name plus the name of every colour item, and each name named
      by an item holds the conversion of the LAST item of that name; the other
      entries are untouched. When some colour has a null name the fill stops there
      with an ArgumentNullException. */
  lemma {:induction false} ReplaceColorsEffect(colors: map<string, HighlightingColor>, items: seq<XshtdElement>)
    ensures ReplaceColors(colors, items).1.Some? <==>
      exists k :: 0 <= k < |items| && items[k].XshtdColor? && items[k].name.None?
    ensures ReplaceColors(colors, items).1.Some? ==> ReplaceColors(colors, items).1.value == ArgumentNull("key")
    ensures ReplaceColors(colors, items).1.None? ==> forall n ::
      (n in ReplaceColors(colors, items).0 <==> n in colors || LastColorNamed(items, n).Some?)
    ensures ReplaceColors(colors, items).1.None? ==> forall n :: n in ReplaceColors(colors, items).0 ==>
      ReplaceColors(colors, items).0[n] ==
        if LastColorNamed(items, n).Some? then ConvertXshdColor(LastColorNamed(items, n).value) else colors[n]
    decreases items
  {
    if |items| > 0 {
      var rest := items[1..];
      assert forall k :: 1 <= k < |items| ==> items[k] == rest[k - 1];
      if !items[0].XshtdColor? {
        ReplaceColorsEffect(colors, rest);
      } else if items[0].name.Some? {
        var m := items[0].name.value;
        var colors1 := colors[m := ConvertXshdColor(items[0])];
        ReplaceColorsEffect(colors1, rest);
      }
    }
  }

  /** GetNamedSyntaxDefinition's outcomes on a resolved dictionary: the entry comes
      back exactly when the name is registered and the first top-level grammar
      element of that name has no unnamed colour; null comes back exactly for an
      unregistered name. No entry is added or dropped, and only the requested one
      changes: it keeps its name and extensions, and after a successful fill each
      colour named in the element holds the conversion of the last colour of that
      name while every other colour is kept. */
  lemma NamedLookupCases(defs: Defs, es: seq<XshtdElement>, n: Option<string>)
    ensures NamedLookup(defs, es, n).1 == Success(true) <==> n.Some? && n.value in defs && FillSucceeds(es, n.value)
    ensures NamedLookup(defs, es, n).1 == Success(false) <==> n.Some? && n.value !in defs
    ensures n.None? ==> NamedLookup(defs, es, n).1 == Failure(ArgumentNull("key"))
    ensures n.Some? && n.value in defs && FirstSyntaxDefinition(es, n.value).None? ==>
      NamedLookup(defs, es, n).1 == Failure(InvalidOperation(NoMatchMessage))
    ensures NamedLookup(defs, es, n).0.Keys == defs.Keys
    ensures forall k :: k in defs && n != Some(k) ==> NamedLookup(defs, es, n).0[k] == defs[k]
    ensures NamedLookup(defs, es, n).1 == Success(true) ==>
      var before := defs[n.value];
      var after := NamedLookup(defs, es, n).0[n.value];
      var items := es[FirstSyntaxDefinition(es, n.value).value].elements;
      && after.name == before.name && after.extensions == before.extensions
      && (forall m :: m in after.colors <==> m in before.colors || LastColorNamed(items, m).Some?)
      && (forall m :: LastColorNamed(items, m).Some? ==> after.colors[m] == ConvertXshdColor(LastColorNamed(items, m).value))
      && (forall m :: m in before.colors && LastColorNamed(items, m).None? ==> after.colors[m] == before.colors[m])
  {
    if n.Some? && n.value in defs && FirstSyntaxDefinition(es, n.value).Some? {
      var items := es[FirstSyntaxDefinition(es, n.value).value].elements;
      ReplaceColorsEffect(defs[n.value].colors, items);
    }
  }

  /** ConvertXshdColor carries neither the example text nor the position nor the
      owning syntax definition. */
  lemma ConvertXshdColorIgnoresExampleText(c: XshtdElement, exampleText: Option<string>, line: int, column: int)
    requires c.XshtdColor?
    ensures ConvertXshdColor(c.(exampleText := exampleText, lineNumber := line, columnNumber := column)) == ConvertXshdColor(c)
  {
  }

  /** Resolving then filling a grammar's colours: the first top-level grammar called
      `n` is the grammar found, and a colour declared last under a name in it ends up
      with exactly the colour values declared, foreground included. */
  lemma ResolveThenFillColor(es: seq<XshtdElement>, i: nat, n: string, m: string)
    requires Resolve(es).Success?
    requires i < |es| && es[i].XshtdSyntaxDefinition? && es[i].name == Some(n)
    requires forall k :: 0 <= k < |es[i].elements| ==> !(es[i].elements[k].XshtdColor? && es[i].elements[k].name.None?)
    requires LastColorNamed(es[i].elements, m).Some?
    ensures FirstSyntaxDefinition(es, n) == Some(i)
    ensures n in Resolve(es).value
    ensures var filled := ReplaceColors(Resolve(es).value[n].colors, es[i].elements);
      filled.1.None? && m in filled.0 &&
      filled.0[m] == ConvertXshdColor(LastColorNamed(es[i].elements, m).value) &&
      filled.0[m].foreground == LastColorNamed(es[i].elements, m).value.foreground
    ensures var l := NamedLookup(Resolve(es).value, es, Some(n));
      && l.1 == Success(true)
      && l.0[n].colors[m] == ConvertXshdColor(LastColorNamed(es[i].elements, m).value)
  {
    ResolvedExtensions(es, i, n);
    RegisteredNamesUnique(map[], es);
    ReplaceColorsEffect(Resolve(es).value[n].colors, es[i].elements);
  }
}

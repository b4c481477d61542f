/** HLManager: the ThemedHighlightingManager of the HL library. It holds the
    Light baseline and the Dark and TrueBlue overlays keyed by theme key,
    forwards lookups and registrations to the current theme, and answers
    overlay queries on a theme's behalf. */
module HLManager {
  import opened Wrappers
  import opened Errors
  import opened HighlightingTheme
  import opened XshtdLoader
  import opened HLResources
  import opened XshtdElements
  import opened ThemeResolution
  import opened ThemeResolutionProperties
  import opened Xshtd
  import opened Manager

  /** HL_GENERIC_NAMESPACE_ROOT: where the Light grammars lie. */
  const GenericNamespaceRoot := "HL.Resources.Light"

  /** HL_THEMES_NAMESPACE_ROOT: where the Dark and TrueBlue overlays lie. */
  const ThemesNamespaceRoot := "HL.Resources.Themes"

  /** Whether the theme can hand back a grammar at all, as the two-argument
      GetThemeDefinition is written: the theme is asked for the grammar called
      `hlThemeName`, whatever `highlightingName` is. `grammars` are the names
      of the grammars the theme's resolved overlay holds. */
  predicate ThemeDefinitionFoundAsWritten(grammars: set<string>, hlThemeName: string, highlightingName: Option<string>)
  {
    hlThemeName in grammars
  }

  /** The same, as the method's doc comment intends: the theme is asked for the
      grammar called `highlightingName`. */
  predicate ThemeDefinitionFound(grammars: set<string>, hlThemeName: string, highlightingName: Option<string>)
  {
    highlightingName.Some? && highlightingName.value in grammars
  }

  /** As written, the highlighting name plays no part in the answer. */
  lemma AsWrittenIgnoresHighlightingName(grammars: set<string>, hlThemeName: string, h1: Option<string>, h2: Option<string>)
    ensures ThemeDefinitionFoundAsWritten(grammars, hlThemeName, h1) == ThemeDefinitionFoundAsWritten(grammars, hlThemeName, h2)
  {
  }

  /** The discrepancy: the Dark overlay defines the XML grammar, yet asking for
      ("Dark", "XML") looks up a grammar called "Dark", which it does not have. */
  lemma AsWrittenMissesRegisteredGrammar()
    ensures !ThemeDefinitionFoundAsWritten({"XML"}, "Dark", Some("XML"))
    ensures ThemeDefinitionFound({"XML"}, "Dark", Some("XML"))
  {
    assert "XML"[0] != "Dark"[0];
  }

  /** Corrected, a grammar can come back exactly when the overlay has a grammar
      of the requested highlighting name, whatever the theme is called. */
  lemma FoundIffGrammarDefined(grammars: set<string>, hlThemeName: string, g: string)
    ensures ThemeDefinitionFound(grammars, hlThemeName, Some(g)) <==> g in grammars
    ensures !ThemeDefinitionFound(grammars, hlThemeName, None)
  {
  }

  class ThemedHighlightingManager {
    const themes: map<string, HLTheme>
    /** The built-in table SetCurrentTheme registers, BuiltInHighlightings(). */
    const builtIns: seq<BuiltIn>
    var current: HLTheme

    /** Every theme is filed under its own key, and the current theme is one of them. */
    ghost predicate Valid()
      reads this, themes.Values, set k | k in themes :: themes[k].hlTheme
    {
      && (forall k :: k in themes ==> themes[k].key == k && themes[k].Valid())
      && current.key in themes && themes[current.key] == current
    }

    /** The constructor: Light, without an overlay, is current; Dark and TrueBlue
        are based on Light and take their colours from Dark.xshtd and
        TrueBlue.xshtd under HL_THEMES_NAMESPACE_ROOT, resolved on the
        manager's behalf. */
    constructor (store: ResourceStore, conv: Converters)
      ensures Valid()
      ensures themes.Keys == {"Dark", "Light", "TrueBlue"} && current == themes["Light"]
      ensures builtIns == BuiltInHighlightings()
      ensures forall k :: k in themes ==>
        && fresh(themes[k]) && themes[k].prefix == GenericNamespaceRoot
        && themes[k].State() == Registrations(map[], map[], []) && !themes[k].initialized
      ensures var l := themes["Light"];
        l.themeName == "Light" && l.displayName == "Light" && l.hlPrefix.None? && l.hlThemeName.None? && !l.hasResolver
      ensures var d := themes["Dark"];
        && d.themeName == "Light" && d.displayName == "Dark" && d.hasResolver
        && d.hlPrefix == Some(ThemesNamespaceRoot) && d.hlThemeName == Some("Dark.xshtd")
      ensures var t := themes["TrueBlue"];
        && t.themeName == "Light" && t.displayName == "True Blue" && t.hasResolver
        && t.hlPrefix == Some(ThemesNamespaceRoot) && t.hlThemeName == Some("TrueBlue.xshtd")
    {
      var dark := new HLTheme("Dark", GenericNamespaceRoot, "Light", "Dark",
                              Some(ThemesNamespaceRoot), Some("Dark.xshtd"), true, store, conv);
      var light := new HLTheme.Plain("Light", GenericNamespaceRoot, "Light", "Light", store, conv);
      var trueBlue := new HLTheme("TrueBlue", GenericNamespaceRoot, "Light", "True Blue",
                                  Some(ThemesNamespaceRoot), Some("TrueBlue.xshtd"), true, store, conv);
      var m := map["Dark" := dark, "Light" := light, "TrueBlue" := trueBlue];
      assert forall k :: k in m ==> k == "Dark" || k == "Light" || k == "TrueBlue";
      themes := m;
      current := light;
      builtIns := BuiltInHighlightings();
      new;
      forall k | k in themes
        ensures && fresh(themes[k]) && themes[k].prefix == GenericNamespaceRoot
                && themes[k].State() == Registrations(map[], map[], []) && !themes[k].initialized
                && themes[k].key == k && themes[k].Valid()
      {
        if k == "Dark" { assert themes[k] == dark; }
        else if k == "Light" { assert themes[k] == light; }
        else { assert themes[k] == trueBlue; }
      }
    }

    /** The current theme's list of all registrations. */
    function HighlightingDefinitions(): seq<HighlightingDefinition>
      reads this, current
    {
      current.HighlightingDefinitions()
    }

    /** GetDefinition: the current theme's definition registered under `name`. */
    method GetDefinition(name: Option<string>) returns (r: Result<Option<HighlightingDefinition>, Error>)
      requires Valid()
      modifies current
      ensures Valid() && current == old(current) && current.State() == old(current.State())
      ensures old(current.NextResolution()).Fail? ==> r == Failure(old(current.NextResolution()).error)
      ensures old(current.NextResolution()).Pass? ==>
        r == if name.None? then Failure(ArgumentNull("key")) else Success(ByName(current.State(), name.value))
    {
      r := current.GetDefinition(name);
    }

    /** GetDefinitionByExtension: the theme filed under the current theme's key
        answers; that theme is always the current one. */
    method GetDefinitionByExtension(extension: Option<string>) returns (r: Result<Option<HighlightingDefinition>, Error>)
      requires Valid()
      modifies current
      ensures Valid() && current == old(current) && current.State() == old(current.State())
      ensures old(current.NextResolution()).Fail? ==> r == Failure(old(current.NextResolution()).error)
      ensures old(current.NextResolution()).Pass? ==>
        r == if extension.None? then Failure(ArgumentNull("key")) else Success(ByExtension(current.State(), extension.value))
    {
      var theme := themes[current.key];
      r := theme.GetDefinitionByExtension(extension);
    }

    /** RegisterHighlighting: a null definition throws ArgumentNullException;
        otherwise it is registered into the current theme and no other. */
    method RegisterHighlighting(name: Option<string>, extensions: Option<seq<string>>,
                                highlighting: Option<HighlightingDefinition>) returns (r: Outcome<Error>)
      requires Valid()
      modifies current
      ensures Valid() && current == old(current)
      ensures highlighting.None? ==> r == Fail(ArgumentNull("highlighting")) && current.State() == old(current.State())
      ensures highlighting.Some? ==> r == Pass && current.State() == Register(old(current.State()), name, extensions, highlighting.value)
      ensures current.initialized == old(current.initialized) && current.hlTheme == old(current.hlTheme)
    {
      if highlighting.None? {
        return Fail(ArgumentNull("highlighting"));
      }
      current.RegisterHighlighting(name, extensions, highlighting.value);
      r := Pass;
    }

    /** RegisterHighlighting with a loader: a null loader throws
        ArgumentNullException; otherwise a delay-loaded definition under `name`
        is registered into the current theme. */
    method RegisterLazyHighlighting(name: Option<string>, extensions: Option<seq<string>>,
                                    lazyLoadedHighlighting: Option<string>) returns (r: Outcome<Error>)
      requires Valid()
      modifies current
      ensures Valid() && current == old(current)
      ensures lazyLoadedHighlighting.None? ==>
        r == Fail(ArgumentNull("lazyLoadedHighlighting")) && current.State() == old(current.State())
      ensures lazyLoadedHighlighting.Some? ==>
        && r == Pass
        && current.State() == Register(old(current.State()), name, extensions, DelayLoaded(name, lazyLoadedHighlighting.value))
    {
      if lazyLoadedHighlighting.None? {
        return Fail(ArgumentNull("lazyLoadedHighlighting"));
      }
      r := RegisterHighlighting(name, extensions, Some(DelayLoaded(name, lazyLoadedHighlighting.value)));
    }

    /** SetCurrentTheme: the indexer throws for a null or unknown key before
        anything changes; otherwise the theme filed under the key becomes
        current and the built-in table is registered into it. */
    method SetCurrentTheme(themeNameKey: Option<string>) returns (r: Outcome<Error>)
      requires Valid()
      modifies this, if themeNameKey.Some? && themeNameKey.value in themes then {themes[themeNameKey.value]} else {}
      ensures Valid()
      ensures themeNameKey.None? ==> r == Fail(ArgumentNull("key")) && current == old(current)
      ensures themeNameKey.Some? && themeNameKey.value !in themes ==>
        r == Fail(KeyNotFound(themeNameKey.value)) && current == old(current)
      ensures themeNameKey.Some? && themeNameKey.value in themes ==>
        && r == Pass && current == themes[themeNameKey.value]
        && current.State() == RegisterRows(old(themes[themeNameKey.value].State()), builtIns)
    {
      if themeNameKey.None? {
        return Fail(ArgumentNull("key"));
      }
      if themeNameKey.value !in themes {
        return Fail(KeyNotFound(themeNameKey.value));
      }
      current := themes[themeNameKey.value];
      RegisterBuiltInHighlightings(current, builtIns);
      r := Pass;
    }

    /** GetPrefix: the known theme's base prefix, null for an unknown key; a null
        key throws ArgumentNullException. */
    function GetPrefix(themeNameKey: Option<string>): (r: Result<Option<string>, Error>)
      reads this, themes.Values
      ensures themeNameKey.None? ==> r == Failure(ArgumentNull("key"))
      ensures themeNameKey.Some? ==> r.Success? && (r.value.Some? <==> themeNameKey.value in themes)
      ensures themeNameKey.Some? && themeNameKey.value in themes ==> r.value.value == themes[themeNameKey.value].prefix
    {
      if themeNameKey.None? then Failure(ArgumentNull("key"))
      else if themeNameKey.value in themes then Success(Some(themes[themeNameKey.value].prefix))
      else Success(None)
    }

    /** GetThemeDefinition(name): the current theme answers. */
    method GetThemeDefinition(name: Option<string>) returns (r: Result<Option<SyntaxDefinition>, Error>)
      requires Valid()
      modifies current, if current.hlTheme != null then current.hlTheme.syntaxDefDict.Values else {}
      ensures Valid() && current == old(current) && current.State() == old(current.State())
      ensures old(current.NextResolution()).Fail? ==> r == Failure(old(current.NextResolution()).error)
      ensures old(current.NextResolution()).Pass? && current.hlTheme == null ==> r == Failure(NullReference)
      ensures old(current.NextResolution()).Pass? && current.hlTheme != null ==>
        && (name.None? ==> r == Failure(ArgumentNull("key")))
        && (name.Some? && name.value !in current.hlTheme.syntaxDefDict ==> r == Success(None))
        && (r.Success? && r.value.Some? ==>
              name.Some? && name.value in current.hlTheme.syntaxDefDict
              && r.value.value == current.hlTheme.syntaxDefDict[name.value])
        && old(current.DefsAfterResolution()).Some?
        && LookupAnswers(old(current.DefsAfterResolution()).value, current.xshtd.elements, name,
                         current.hlTheme.syntaxDefDict, current.hlTheme.Defs(), r)
    {
      r := current.GetThemeDefinition(name);
    }

    /** GetThemeDefinition(hlThemeName, highlightingName) as written: null for an
        unknown theme, a null theme name throws; otherwise the theme is asked for
        the grammar called `hlThemeName`. */
    method GetThemeDefinitionAsWritten(hlThemeName: Option<string>, highlightingName: Option<string>)
      returns (r: Result<Option<SyntaxDefinition>, Error>)
      requires Valid()
      modifies if hlThemeName.Some? && hlThemeName.value in themes then {themes[hlThemeName.value]} else {}
      modifies if hlThemeName.Some? && hlThemeName.value in themes && themes[hlThemeName.value].hlTheme != null
               then themes[hlThemeName.value].hlTheme.syntaxDefDict.Values else {}
      ensures Valid()
      ensures hlThemeName.None? ==> r == Failure(ArgumentNull("key"))
      ensures hlThemeName.Some? && hlThemeName.value !in themes ==> r == Success(None)
      ensures hlThemeName.Some? && hlThemeName.value in themes ==>
        var t := themes[hlThemeName.value];
        && t.State() == old(t.State())
        && (old(t.NextResolution()).Fail? ==> r == Failure(old(t.NextResolution()).error))
        && (old(t.NextResolution()).Pass? && t.hlTheme == null ==> r == Failure(NullReference))
        && (old(t.NextResolution()).Pass? && t.hlTheme != null ==>
              && (!ThemeDefinitionFoundAsWritten(t.hlTheme.syntaxDefDict.Keys, hlThemeName.value, highlightingName) ==>
                    r == Success(None))
              && (r.Success? && r.value.Some? ==>
                    && ThemeDefinitionFoundAsWritten(t.hlTheme.syntaxDefDict.Keys, hlThemeName.value, highlightingName)
                    && r.value.value == t.hlTheme.syntaxDefDict[hlThemeName.value])
              && old(t.DefsAfterResolution()).Some?
              && LookupAnswers(old(t.DefsAfterResolution()).value, t.xshtd.elements, hlThemeName,
                               t.hlTheme.syntaxDefDict, t.hlTheme.Defs(), r))
    {
      if hlThemeName.None? {
        return Failure(ArgumentNull("key"));
      }
      if hlThemeName.value !in themes {
        return Success(None);
      }
      var theme := themes[hlThemeName.value];
      r := theme.GetThemeDefinition(hlThemeName);
    }

    /** GetThemeDefinition(hlThemeName, highlightingName) corrected: the theme
        is asked for the grammar called `highlightingName`. */
    method GetThemeDefinitionFor(hlThemeName: Option<string>, highlightingName: Option<string>)
      returns (r: Result<Option<SyntaxDefinition>, Error>)
      requires Valid()
      modifies if hlThemeName.Some? && hlThemeName.value in themes then {themes[hlThemeName.value]} else {}
      modifies if hlThemeName.Some? && hlThemeName.value in themes && themes[hlThemeName.value].hlTheme != null
               then themes[hlThemeName.value].hlTheme.syntaxDefDict.Values else {}
      ensures Valid()
      ensures hlThemeName.None? ==> r == Failure(ArgumentNull("key"))
      ensures hlThemeName.Some? && hlThemeName.value !in themes ==> r == Success(None)
      ensures hlThemeName.Some? && hlThemeName.value in themes ==>
        var t := themes[hlThemeName.value];
        && t.State() == old(t.State())
        && (old(t.NextResolution()).Fail? ==> r == Failure(old(t.NextResolution()).error))
        && (old(t.NextResolution()).Pass? && t.hlTheme == null ==> r == Failure(NullReference))
        && (old(t.NextResolution()).Pass? && t.hlTheme != null ==>
              && (highlightingName.None? ==> r == Failure(ArgumentNull("key")))
              && (highlightingName.Some? &&
                  !ThemeDefinitionFound(t.hlTheme.syntaxDefDict.Keys, hlThemeName.value, highlightingName) ==>
                    r == Success(None))
              && (r.Success? && r.value.Some? ==>
                    && ThemeDefinitionFound(t.hlTheme.syntaxDefDict.Keys, hlThemeName.value, highlightingName)
                    && r.value.value == t.hlTheme.syntaxDefDict[highlightingName.value])
              && (ThemeDefinitionFound(t.hlTheme.syntaxDefDict.Keys, hlThemeName.value, highlightingName) &&
                  FillSucceeds(t.xshtd.elements, highlightingName.value) ==>
                    r == Success(Some(t.hlTheme.syntaxDefDict[highlightingName.value])))
              && old(t.DefsAfterResolution()).Some?
              && LookupAnswers(old(t.DefsAfterResolution()).value, t.xshtd.elements, highlightingName,
                               t.hlTheme.syntaxDefDict, t.hlTheme.Defs(), r))
    {
      if hlThemeName.None? {
        return Failure(ArgumentNull("key"));
      }
      if hlThemeName.value !in themes {
        return Success(None);
      }
      var theme := themes[hlThemeName.value];
      ghost var before := theme.DefsAfterResolution();
      r := theme.GetThemeDefinition(highlightingName);
      if theme.hlTheme != null && before.Some? {
        assert theme.hlTheme.syntaxDefDict.Keys == before.value.Keys by {
          NamedLookupCases(before.value, theme.xshtd.elements, highlightingName);
        }
        NamedLookupCases(before.value, theme.xshtd.elements, highlightingName);
      }
    }
  }

  /** In a freshly built manager every theme's base prefix is
      HL.Resources.Light, and no other key has one. */
  lemma NewManagerPrefixes(m: ThemedHighlightingManager, k: string)
    requires m.themes.Keys == {"Dark", "Light", "TrueBlue"}
    requires forall j :: j in m.themes ==> m.themes[j].prefix == GenericNamespaceRoot
    ensures m.GetPrefix(Some("Dark")) == Success(Some("HL.Resources.Light"))
    ensures m.GetPrefix(Some("TrueBlue")) == Success(Some("HL.Resources.Light"))
    ensures k != "Dark" && k != "Light" && k != "TrueBlue" ==> m.GetPrefix(Some(k)) == Success(None)
  {
  }
}

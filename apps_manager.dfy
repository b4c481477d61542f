/** AppsManager: the ThemedHighlightingManager of the application library. It
    holds the Dark, Light and TrueBlue themes keyed by theme name and forwards
    every lookup and registration to the current theme. */
module AppsManager {
  import opened Wrappers
  import opened Errors
  import opened Text
  import opened XshtdLoader
  import opened HLResources
  import opened Manager

  /** HL_NAMESPACE_ROOT: the namespace under which the built-in grammar resources lie. */
  const NamespaceRoot := "HL.Resources"

  class ThemedHighlightingManager {
    const themes: map<string, HLTheme>
    /** The built-in table SetCurrentTheme registers, BuiltInHighlightings(). */
    const builtIns: seq<BuiltIn>
    var current: HLTheme

    /** Every theme is filed under its own theme name, and the current theme is
        one of them. */
    ghost predicate Valid()
      reads this, themes.Values, set k | k in themes :: themes[k].hlTheme
    {
      && (forall k :: k in themes ==> themes[k].themeName == k && themes[k].Valid())
      && current.themeName in themes && themes[current.themeName] == current
    }

    /** The constructor: Dark, Light and TrueBlue, all under HL_NAMESPACE_ROOT,
        none with an overlay; Light is current. */
    constructor (store: ResourceStore, conv: Converters)
      ensures Valid()
      ensures themes.Keys == {"Dark", "Light", "TrueBlue"} && current == themes["Light"]
      ensures builtIns == BuiltInHighlightings()
      ensures forall k :: k in themes ==> themes[k].prefix == NamespaceRoot && themes[k].key == k
      ensures themes["Dark"].displayName == "Dark" && themes["Light"].displayName == "Light"
      ensures themes["TrueBlue"].displayName == "True Blue"
      ensures forall k :: k in themes ==>
        && fresh(themes[k]) && themes[k].hlPrefix.None? && themes[k].hlThemeName.None? && !themes[k].hasResolver
        && themes[k].State() == Registrations(map[], map[], []) && !themes[k].initialized
    {
      var dark := new HLTheme.Plain("Dark", NamespaceRoot, "Dark", "Dark", store, conv);
      var light := new HLTheme.Plain("Light", NamespaceRoot, "Light", "Light", store, conv);
      var trueBlue := new HLTheme.Plain("TrueBlue", NamespaceRoot, "TrueBlue", "True Blue", store, conv);
      var m := map["Dark" := dark, "Light" := light, "TrueBlue" := trueBlue];
      assert forall k :: k in m ==> k == "Dark" || k == "Light" || k == "TrueBlue";
      themes := m;
      current := light;
      builtIns := BuiltInHighlightings();
      new;
      forall k | k in themes
        ensures && fresh(themes[k]) && themes[k].hlPrefix.None? && themes[k].hlThemeName.None? && !themes[k].hasResolver
                && themes[k].State() == Registrations(map[], map[], []) && !themes[k].initialized
                && themes[k].prefix == NamespaceRoot && themes[k].key == k
                && themes[k].themeName == k && themes[k].Valid()
      {
        if k == "Dark" { assert themes[k] == dark; }
        else if k == "Light" { assert themes[k] == light; }
        else { assert themes[k] == trueBlue; }
      }
    }

    /** The current theme's list of all registrations. */
    function HighlightingDefinitions(): seq<HighlightingDefinition>
      reads this, current
    {
      current.HighlightingDefinitions()
    }

    /** GetDefinition: the current theme's definition registered under `name`. */
    method GetDefinition(name: Option<string>) returns (r: Result<Option<HighlightingDefinition>, Error>)
      requires Valid()
      modifies current
      ensures Valid() && current == old(current) && current.State() == old(current.State())
      ensures old(current.NextResolution()).Fail? ==> r == Failure(old(current.NextResolution()).error)
      ensures old(current.NextResolution()).Pass? ==>
        r == if name.None? then Failure(ArgumentNull("key")) else Success(ByName(current.State(), name.value))
    {
      r := current.GetDefinition(name);
    }

    /** GetDefinitionByExtension: the theme filed under the current theme's name
        answers; that theme is always the current one. */
    method GetDefinitionByExtension(extension: Option<string>) returns (r: Result<Option<HighlightingDefinition>, Error>)
      requires Valid()
      modifies current
      ensures Valid() && current == old(current) && current.State() == old(current.State())
      ensures old(current.NextResolution()).Fail? ==> r == Failure(old(current.NextResolution()).error)
      ensures old(current.NextResolution()).Pass? ==>
        r == if extension.None? then Failure(ArgumentNull("key")) else Success(ByExtension(current.State(), extension.value))
    {
      var theme := themes[current.themeName];
      r := theme.GetDefinitionByExtension(extension);
    }

    /** RegisterHighlighting: a null definition throws ArgumentNullException;
        otherwise it is registered into the current theme and no other. */
    method RegisterHighlighting(name: Option<string>, extensions: Option<seq<string>>,
                                highlighting: Option<HighlightingDefinition>) returns (r: Outcome<Error>)
      requires Valid()
      modifies current
      ensures Valid() && current == old(current)
      ensures highlighting.None? ==> r == Fail(ArgumentNull("highlighting")) && current.State() == old(current.State())
      ensures highlighting.Some? ==> r == Pass && current.State() == Register(old(current.State()), name, extensions, highlighting.value)
      ensures current.initialized == old(current.initialized) && current.hlTheme == old(current.hlTheme)
    {
      if highlighting.None? {
        return Fail(ArgumentNull("highlighting"));
      }
      current.RegisterHighlighting(name, extensions, highlighting.value);
      r := Pass;
    }

    /** RegisterHighlighting with a loader: a null loader throws
        ArgumentNullException; otherwise a delay-loaded definition under `name`
        is registered into the current theme. */
    method RegisterLazyHighlighting(name: Option<string>, extensions: Option<seq<string>>,
                                    lazyLoadedHighlighting: Option<string>) returns (r: Outcome<Error>)
      requires Valid()
      modifies current
      ensures Valid() && current == old(current)
      ensures lazyLoadedHighlighting.None? ==>
        r == Fail(ArgumentNull("lazyLoadedHighlighting")) && current.State() == old(current.State())
      ensures lazyLoadedHighlighting.Some? ==>
        && r == Pass
        && current.State() == Register(old(current.State()), name, extensions, DelayLoaded(name, lazyLoadedHighlighting.value))
    {
      if lazyLoadedHighlighting.None? {
        return Fail(ArgumentNull("lazyLoadedHighlighting"));
      }
      r := RegisterHighlighting(name, extensions, Some(DelayLoaded(name, lazyLoadedHighlighting.value)));
    }

    /** SetCurrentTheme: an unknown or null name throws before anything changes;
        otherwise the named theme becomes current and the built-in table is
        registered into it. */
    method SetCurrentTheme(name: Option<string>) returns (r: Outcome<Error>)
      requires Valid()
      modifies this, if name.Some? && name.value in themes then {themes[name.value]} else {}
      ensures Valid()
      ensures name.None? ==> r == Fail(ArgumentNull("key")) && current == old(current)
      ensures name.Some? && name.value !in themes ==> r == Fail(KeyNotFound(name.value)) && current == old(current)
      ensures name.Some? && name.value in themes ==>
        && r == Pass && current == themes[name.value]
        && current.State() == RegisterRows(old(themes[name.value].State()), builtIns)
    {
      if name.None? {
        return Fail(ArgumentNull("key"));
      }
      if name.value !in themes {
        return Fail(KeyNotFound(name.value));
      }
      current := themes[name.value];
      RegisterBuiltInHighlightings(current, builtIns);
      r := Pass;
    }

    /** GetPrefix: the namespace of a known theme's resources, its prefix
        followed by '.' and the theme name; null for an unknown theme. */
    function GetPrefix(themeName: Option<string>): (r: Result<Option<string>, Error>)
      reads this, themes.Values
      ensures themeName.None? ==> r == Failure(ArgumentNull("key"))
      ensures themeName.Some? ==> r.Success? && (r.value.Some? <==> themeName.value in themes)
      ensures themeName.Some? && themeName.value in themes ==>
        r.value.value == ResourceKey(themes[themeName.value].prefix, themeName.value)
    {
      if themeName.None? then Failure(ArgumentNull("key"))
      else if themeName.value in themes then Success(Some(themes[themeName.value].prefix + "." + themeName.value))
      else Success(None)
    }
  }

  /** In a freshly built manager the three themes' resources lie under
      HL.Resources.Dark, HL.Resources.Light and HL.Resources.TrueBlue, no
      other theme name has a prefix, and no two themes share one. */
  lemma NewManagerPrefixes(m: ThemedHighlightingManager, t: string, u: string)
    requires m.themes.Keys == {"Dark", "Light", "TrueBlue"}
    requires forall k :: k in m.themes ==> m.themes[k].prefix == NamespaceRoot
    ensures m.GetPrefix(Some("Dark")) == Success(Some("HL.Resources.Dark"))
    ensures m.GetPrefix(Some("Light")) == Success(Some("HL.Resources.Light"))
    ensures m.GetPrefix(Some("TrueBlue")) == Success(Some("HL.Resources.TrueBlue"))
    ensures t != "Dark" && t != "Light" && t != "TrueBlue" ==> m.GetPrefix(Some(t)) == Success(None)
    ensures t in m.themes && u in m.themes && t != u ==> m.GetPrefix(Some(t)) != m.GetPrefix(Some(u))
  {
    assert NamespaceRoot + "." + "Dark" == "HL.Resources.Dark";
    assert NamespaceRoot + "." + "Light" == "HL.Resources.Light";
    assert NamespaceRoot + "." + "TrueBlue" == "HL.Resources.TrueBlue";
    if t in m.themes && u in m.themes && m.GetPrefix(Some(t)) == m.GetPrefix(Some(u)) {
      ResourceKeyInjective(NamespaceRoot, t, u);
    }
  }
}

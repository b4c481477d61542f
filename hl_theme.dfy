/** Manager: one highlighting theme (HLTheme). It keeps the grammars registered
    for the theme by name, by file extension and in registration order, and it
    resolves the theme's overlay at most once. */
module Manager {
  import opened Wrappers
  import opened Errors
  import opened Text
  import opened HighlightingTheme
  import opened XshtdElements
  import opened XshtdLoader
  import opened Xshtd
  import opened ThemeResolution
  import opened HLResources

  /** A registered highlighting definition: one the application supplies, or a
      DelayLoadedHighlightingDefinition that loads a grammar resource on first use. */
  datatype HighlightingDefinition =
    | Supplied(id: string)
    | DelayLoaded(name: Option<string>, resource: string)

  // ----- The three registration collections, as values -----

  /** `highlightingsByName`, `highlightingsByExtension` (keys stored folded, as
      StringComparer.OrdinalIgnoreCase compares them) and `allHighlightings`. */
  datatype Registrations = Registrations(
    byName: map<string, HighlightingDefinition>,
    byExtension: map<string, HighlightingDefinition>,
    all: seq<HighlightingDefinition>)

  /** The case-insensitive keys of `exts`. */
  function Folded(exts: seq<string>): set<string> {
    set e | e in exts :: CaseFold(e)
  }

  lemma FoldedCons(exts: seq<string>)
    requires |exts| > 0
    ensures Folded(exts) == {CaseFold(exts[0])} + Folded(exts[1..])
  {
    assert forall e :: e in exts <==> e == exts[0] || e in exts[1..];
  }

  /** The by-extension dictionary after `highlightingsByExtension[ext] = h` for
      each `ext` of `exts` in turn: every listed extension now maps to `h`, no
      other key changes, and no other key appears. */
  function WithExtensions(byExtension: map<string, HighlightingDefinition>, exts: seq<string>,
                          h: HighlightingDefinition): (r: map<string, HighlightingDefinition>)
    ensures r.Keys == byExtension.Keys + Folded(exts)
    ensures forall e :: e in exts ==> r[CaseFold(e)] == h
    ensures forall k :: k in byExtension && k !in Folded(exts) ==> r[k] == byExtension[k]
    decreases |exts|
  {
    if |exts| == 0 then byExtension
    else
      FoldedCons(exts);
      WithExtensions(byExtension[CaseFold(exts[0]) := h], exts[1..], h)
  }

  /** The collections after RegisterHighlighting(name, extensions, h). */
  function Register(r: Registrations, name: Option<string>, extensions: Option<seq<string>>,
                    h: HighlightingDefinition): (r': Registrations)
    ensures r.byName.Keys <= r'.byName.Keys && r.byExtension.Keys <= r'.byExtension.Keys
    ensures r'.all == r.all + [h]
    ensures forall k :: k in r.byName && name != Some(k) ==> r'.byName[k] == r.byName[k]
  {
    Registrations(
      if name.Some? then r.byName[name.value := h] else r.byName,
      if extensions.Some? then WithExtensions(r.byExtension, extensions.value, h) else r.byExtension,
      r.all + [h])
  }

  /** TryGetValue on the by-name dictionary (ordinal comparison). */
  function ByName(r: Registrations, name: string): Option<HighlightingDefinition> {
    if name in r.byName then Some(r.byName[name]) else None
  }

  /** TryGetValue on the by-extension dictionary (comparison ignoring case). */
  function ByExtension(r: Registrations, extension: string): Option<HighlightingDefinition> {
    var k := CaseFold(extension);
    if k in r.byExtension then Some(r.byExtension[k]) else None
  }

  /** A registration always appends, even under a name already registered; a
      non-null name then finds the latest registration and a null name changes no
      by-name lookup. */
  lemma RegisterByName(r: Registrations, name: Option<string>, extensions: Option<seq<string>>,
                       h: HighlightingDefinition, n: string)
    ensures Register(r, name, extensions, h).all == r.all + [h]
    ensures ByName(Register(r, name, extensions, h), n) ==
      if name == Some(n) then Some(h) else ByName(r, n)
  {
  }

  /** A listed extension, in any letter case, finds the latest registration;
      every other extension, and every extension when the list is null, finds
      what it found before. */
  lemma RegisterByExtension(r: Registrations, name: Option<string>, extensions: Option<seq<string>>,
                            h: HighlightingDefinition, e: string)
    ensures ByExtension(Register(r, name, extensions, h), e) ==
      if extensions.Some? && exists x :: x in extensions.value && CaseFold(x) == CaseFold(e) then Some(h)
      else ByExtension(r, e)
  {
    if extensions.Some? {
      if exists x :: x in extensions.value && CaseFold(x) == CaseFold(e) {
        var x :| x in extensions.value && CaseFold(x) == CaseFold(e);
        assert CaseFold(x) in Folded(extensions.value);
      } else {
        assert CaseFold(e) !in Folded(extensions.value);
      }
    }
  }

  /** Every definition a lookup can answer with is one of the registrations. */
  predicate Indexed(r: Registrations) {
    && (forall n :: n in r.byName ==> r.byName[n] in r.all)
    && (forall e :: e in r.byExtension ==> r.byExtension[e] in r.all)
  }

  /** RegisterHighlighting keeps every lookup answer among the registrations. */
  lemma RegisterKeepsIndexed(r: Registrations, name: Option<string>, extensions: Option<seq<string>>,
                             h: HighlightingDefinition)
    requires Indexed(r)
    ensures Indexed(Register(r, name, extensions, h))
  {
    var r' := Register(r, name, extensions, h);
    assert h in r'.all && forall d :: d in r.all ==> d in r'.all;
    if extensions.Some? {
      forall e | e in r'.byExtension
        ensures r'.byExtension[e] in r'.all
      {
        if e in Folded(extensions.value) {
          var x :| x in extensions.value && CaseFold(x) == e;
        }
      }
    }
  }

  /** A lookup answers only with a registered definition. */
  lemma IndexedLookups(r: Registrations, n: string, e: string)
    requires Indexed(r)
    ensures ByName(r, n).Some? ==> ByName(r, n).value in r.all
    ensures ByExtension(r, e).Some? ==> ByExtension(r, e).value in r.all
  {
  }

  // ----- Registering the built-in table -----

  /** What RegisterBuiltInHighlightings registers for one row: a delay-loaded
      definition under the row's name. */
  function BuiltInDefinition(b: BuiltIn): HighlightingDefinition {
    DelayLoaded(Some(b.name), b.resource)
  }

  /** A row's extensions, none for a null list. */
  function RowExtensions(b: BuiltIn): seq<string> {
    b.extensions.GetOr([])
  }

  /** The collections after registering `rows` in order. */
  function RegisterRows(r: Registrations, rows: seq<BuiltIn>): (r': Registrations)
    ensures r.byName.Keys <= r'.byName.Keys && r.byExtension.Keys <= r'.byExtension.Keys
    ensures |r'.all| == |r.all| + |rows| && r'.all[..|r.all|] == r.all
    decreases |rows|
  {
    if |rows| == 0 then r
    else RegisterRows(Register(r, Some(rows[0].name), rows[0].extensions, BuiltInDefinition(rows[0])), rows[1..])
  }

  /** No two rows share an extension, letter case ignored. */
  predicate ExtensionsDisjoint(rows: seq<BuiltIn>) {
    forall i, j :: 0 <= i < j < |rows| ==> Folded(RowExtensions(rows[i])) !! Folded(RowExtensions(rows[j]))
  }

  /** Registering rows appends one definition per row, in row order. */
  lemma {:induction false} RegisterRowsAppends(r: Registrations, rows: seq<BuiltIn>)
    ensures RegisterRows(r, rows).all == r.all + seq(|rows|, i requires 0 <= i < |rows| => BuiltInDefinition(rows[i]))
    decreases |rows|
  {
    if |rows| > 0 {
      var r1 := Register(r, Some(rows[0].name), rows[0].extensions, BuiltInDefinition(rows[0]));
      RegisterRowsAppends(r1, rows[1..]);
      var tail := seq(|rows| - 1, i requires 0 <= i < |rows| - 1 => BuiltInDefinition(rows[1..][i]));
      var whole := seq(|rows|, i requires 0 <= i < |rows| => BuiltInDefinition(rows[i]));
      assert whole == [BuiltInDefinition(rows[0])] + tail;
    }
  }

  /** A key that no row lists keeps its by-extension entry. */
  lemma {:induction false} RegisterRowsKeepsOtherExtensions(r: Registrations, rows: seq<BuiltIn>, k: string)
    requires forall i :: 0 <= i < |rows| ==> k !in Folded(RowExtensions(rows[i]))
    ensures k in RegisterRows(r, rows).byExtension <==> k in r.byExtension
    ensures k in r.byExtension ==> RegisterRows(r, rows).byExtension[k] == r.byExtension[k]
    decreases |rows|
  {
    if |rows| > 0 {
      var r1 := Register(r, Some(rows[0].name), rows[0].extensions, BuiltInDefinition(rows[0]));
      assert k !in Folded(RowExtensions(rows[0]));
      assert forall i :: 0 <= i < |rows| - 1 ==> rows[1..][i] == rows[i + 1];
      RegisterRowsKeepsOtherExtensions(r1, rows[1..], k);
    }
  }

  /** When no two rows share an extension, each listed extension, in any letter
      case, finds the definition of the one row that lists it, wherever that row
      stands in the table: the lookup does not depend on the order of the rows. */
  lemma {:induction false} RegisterRowsByExtension(r: Registrations, rows: seq<BuiltIn>, i: nat, e: string)
    requires ExtensionsDisjoint(rows)
    requires i < |rows| && e in RowExtensions(rows[i])
    ensures ByExtension(RegisterRows(r, rows), e) == Some(BuiltInDefinition(rows[i]))
    decreases |rows|
  {
    var r1 := Register(r, Some(rows[0].name), rows[0].extensions, BuiltInDefinition(rows[0]));
    assert forall a :: 0 <= a < |rows| - 1 ==> rows[1..][a] == rows[a + 1];
    if i == 0 {
      RegisterByExtension(r, Some(rows[0].name), rows[0].extensions, BuiltInDefinition(rows[0]), e);
      assert CaseFold(e) in Folded(RowExtensions(rows[0]));
      forall a | 0 <= a < |rows| - 1
        ensures CaseFold(e) !in Folded(RowExtensions(rows[1..][a]))
      {
        assert Folded(RowExtensions(rows[0])) !! Folded(RowExtensions(rows[a + 1]));
      }
      RegisterRowsKeepsOtherExtensions(r1, rows[1..], CaseFold(e));
    } else {
      RegisterRowsByExtension(r1, rows[1..], i - 1, e);
    }
  }

  // ----- Loading the overlay document -----

  /** The document ResolveHighLightingTheme(hLPrefix, hLThemeName) reads: none
      when either argument is null or empty, otherwise the resource stored under
      `hLPrefix + "." + hLThemeName`, or the FileNotFoundException for a missing one. */
  function OverlayRoot(store: ResourceStore, hlPrefix: Option<string>, hlThemeName: Option<string>): (r: Result<Option<XmlNode>, Error>)
    ensures IsNullOrEmpty(hlPrefix) || IsNullOrEmpty(hlThemeName) ==> r == Success(None)
    ensures !IsNullOrEmpty(hlPrefix) && !IsNullOrEmpty(hlThemeName) ==>
      (r.Success? <==> ResourceKey(hlPrefix.value, hlThemeName.value) in store)
    ensures r.Success? && r.value.Some? ==> r.value.value == store[ResourceKey(hlPrefix.value, hlThemeName.value)]
    ensures r.Failure? ==> r.error == FileNotFound("The resource file '" + hlThemeName.value + "' was not found.")
  {
    if IsNullOrEmpty(hlPrefix) || IsNullOrEmpty(hlThemeName) then Success(None)
    else
      var root :- OpenStream(store, hlPrefix.value, hlThemeName.value);
      Success(Some(root))
  }

  /** The elements of the overlay document, parsed by the loader. */
  function OverlayElements(store: ResourceStore, conv: Converters, hlPrefix: Option<string>,
                           hlThemeName: Option<string>): Result<Option<seq<XshtdElement>>, Error>
  {
    var root :- OverlayRoot(store, hlPrefix, hlThemeName);
    if root.None? then Success(None)
    else
      var es :- ParsedElements(conv, root.value);
      Success(Some(es))
  }

  /** What the first ResolveHighLightingTheme() call yields: the loader's
      exception, the resolver's exception, or nothing. */
  function FirstResolution(store: ResourceStore, conv: Converters, hlPrefix: Option<string>,
                           hlThemeName: Option<string>, hasResolver: bool): Outcome<Error>
  {
    var o := OverlayElements(store, conv, hlPrefix, hlThemeName);
    if o.Failure? then Fail(o.error)
    else if o.value.None? || !hasResolver then Pass
    else
      var resolved := Resolve(o.value.value);
      if resolved.Failure? then Fail(resolved.error) else Pass
  }

  /** The grammar dictionary of the theme the first ResolveHighLightingTheme()
      call builds, none when it builds no theme. */
  function FirstResolvedDefs(store: ResourceStore, conv: Converters, hlPrefix: Option<string>,
                             hlThemeName: Option<string>, hasResolver: bool): Option<Defs>
  {
    var o := OverlayElements(store, conv, hlPrefix, hlThemeName);
    if o.Failure? || o.value.None? || !hasResolver then None
    else
      var resolved := Resolve(o.value.value);
      if resolved.Failure? then None else Some(resolved.value)
  }

  /** A theme without an overlay (null or empty prefix or name) never fails to
      resolve, with or without a resolver. */
  lemma NoOverlayResolvesCleanly(store: ResourceStore, conv: Converters, hlPrefix: Option<string>,
                                 hlThemeName: Option<string>, hasResolver: bool)
    requires IsNullOrEmpty(hlPrefix) || IsNullOrEmpty(hlThemeName)
    ensures OverlayElements(store, conv, hlPrefix, hlThemeName) == Success(None)
    ensures FirstResolution(store, conv, hlPrefix, hlThemeName, hasResolver) == Pass
  {
  }

  /** An overlay whose resource is missing fails with the FileNotFoundException. */
  lemma MissingOverlayFails(store: ResourceStore, conv: Converters, hlPrefix: Option<string>,
                            hlThemeName: Option<string>, hasResolver: bool)
    requires !IsNullOrEmpty(hlPrefix) && !IsNullOrEmpty(hlThemeName)
    requires ResourceKey(hlPrefix.value, hlThemeName.value) !in store
    ensures FirstResolution(store, conv, hlPrefix, hlThemeName, hasResolver) ==
      Fail(FileNotFound("The resource file '" + hlThemeName.value + "' was not found."))
  {
  }

  // ----- The theme object -----

  class HLTheme {
    const key: string
    const prefix: string
    const themeName: string
    const displayName: string
    const hlPrefix: Option<string>
    const hlThemeName: Option<string>
    /** Whether the theme was given an IHighlightingThemeDefinitionReferenceResolver. */
    const hasResolver: bool
    /** The assembly's resources and the WPF converters the overlay is read with. */
    const store: ResourceStore
    const conv: Converters

    var byName: map<string, HighlightingDefinition>
    var byExtension: map<string, HighlightingDefinition>
    var all: seq<HighlightingDefinition>
    var initialized: bool
    var xshtd: XhstdThemeDefinition?
    var hlTheme: XmlHighlightingThemeDefinition?

    /** By-extension keys are stored folded; the document and the resolved theme
        exist only once resolution has started, and the resolved theme is built
        from that document. */
    ghost predicate Valid()
      reads this, hlTheme
    {
      && (forall k :: k in byExtension ==> CaseFold(k) == k)
      && (xshtd != null ==> initialized)
      && (hlTheme != null ==> initialized && xshtd != null && hlTheme.xshtd == xshtd && hlTheme.Valid())
    }

    ghost function State(): Registrations
      reads this
    {
      Registrations(byName, byExtension, all)
    }

    /** What the next ResolveHighLightingTheme() call yields. */
    ghost function NextResolution(): Outcome<Error>
      reads this
    {
      if hlTheme != null || initialized then Pass
      else FirstResolution(store, conv, hlPrefix, hlThemeName, hasResolver)
    }

    /** The resolved theme's grammar dictionary once the next
        ResolveHighLightingTheme() call is made, none when there is no resolved theme. */
    ghost function DefsAfterResolution(): Option<Defs>
      reads this, hlTheme, if hlTheme != null then hlTheme.syntaxDefDict.Values else {}
    {
      if hlTheme != null then Some(hlTheme.Defs())
      else if initialized then None
      else FirstResolvedDefs(store, conv, hlPrefix, hlThemeName, hasResolver)
    }

    /** The constructor taking an overlay and a resolver. */
    constructor (key: string, prefix: string, themeName: string, displayName: string,
                 hlPrefix: Option<string>, hlThemeName: Option<string>, hasResolver: bool,
                 store: ResourceStore, conv: Converters)
      ensures Valid() && State() == Registrations(map[], map[], [])
      ensures !initialized && xshtd == null && hlTheme == null
      ensures this.key == key && this.prefix == prefix && this.themeName == themeName && this.displayName == displayName
      ensures this.hlPrefix == hlPrefix && this.hlThemeName == hlThemeName && this.hasResolver == hasResolver
      ensures this.store == store && this.conv == conv
    {
      this.key := key;
      this.prefix := prefix;
      this.themeName := themeName;
      this.displayName := displayName;
      this.hlPrefix := hlPrefix;
      this.hlThemeName := hlThemeName;
      this.hasResolver := hasResolver;
      this.store := store;
      this.conv := conv;
      byName := map[];
      byExtension := map[];
      all := [];
      initialized := false;
      xshtd := null;
      hlTheme := null;
    }

    /** The constructor without an overlay: HLPrefix and HLThemeName stay null
        and there is no resolver. */
    constructor Plain(key: string, prefix: string, themeName: string, displayName: string,
                      store: ResourceStore, conv: Converters)
      ensures Valid() && State() == Registrations(map[], map[], [])
      ensures !initialized && xshtd == null && hlTheme == null
      ensures this.key == key && this.prefix == prefix && this.themeName == themeName && this.displayName == displayName
      ensures hlPrefix.None? && hlThemeName.None? && !hasResolver
      ensures this.store == store && this.conv == conv
    {
      this.key := key;
      this.prefix := prefix;
      this.themeName := themeName;
      this.displayName := displayName;
      this.hlPrefix := None;
      this.hlThemeName := None;
      this.hasResolver := false;
      this.store := store;
      this.conv := conv;
      byName := map[];
      byExtension := map[];
      all := [];
      initialized := false;
      xshtd := null;
      hlTheme := null;
    }

    /** A copy of all registrations, in registration order. */
    function HighlightingDefinitions(): seq<HighlightingDefinition>
      reads this
    {
      all
    }

    /** RegisterHighlighting: append `highlighting`, file it under a non-null
        name, and under each listed extension. */
    method RegisterHighlighting(name: Option<string>, extensions: Option<seq<string>>,
                                highlighting: HighlightingDefinition)
      requires Valid()
      modifies this
      ensures Valid() && State() == Register(old(State()), name, extensions, highlighting)
      ensures initialized == old(initialized) && xshtd == old(xshtd) && hlTheme == old(hlTheme)
    {
      all := all + [highlighting];
      if name.Some? {
        byName := byName[name.value := highlighting];
      }
      if extensions.Some? {
        var exts := extensions.value;
        var i := 0;
        while i < |exts|
          invariant 0 <= i <= |exts|
          invariant WithExtensions(byExtension, exts[i..], highlighting) == WithExtensions(old(byExtension), exts, highlighting)
          invariant forall k :: k in byExtension ==> CaseFold(k) == k
          invariant all == old(all) + [highlighting] && byName == Register(old(State()), name, extensions, highlighting).byName
          invariant initialized == old(initialized) && xshtd == old(xshtd) && hlTheme == old(hlTheme)
        {
          assert exts[i..][0] == exts[i] && exts[i..][1..] == exts[i + 1..];
          CaseFoldIdempotent(exts[i]);
          byExtension := byExtension[CaseFold(exts[i]) := highlighting];
          i := i + 1;
        }
      }
    }

    /** ResolveHighLightingTheme(hLPrefix, hLThemeName): null when either
        argument is null or empty; otherwise the document parsed from the
        resource under `hLPrefix + "." + hLThemeName`, or the exception of the
        resource lookup or of the loader. */
    method ResolveOverlayDocument(p: Option<string>, n: Option<string>) returns (r: Result<XhstdThemeDefinition?, Error>)
      ensures var o := OverlayElements(store, conv, p, n);
        && (o.Failure? ==> r == Failure(o.error))
        && (o.Success? && o.value.None? ==> r == Success(null))
        && (o.Success? && o.value.Some? ==>
              && r.Success? && r.value != null && fresh(r.value)
              && r.value.elements == o.value.value
              && r.value.name == GetAttribute(OverlayRoot(store, p, n).value.value, "name"))
    {
      if IsNullOrEmpty(p) || IsNullOrEmpty(n) {
        return Success(null);
      }
      var s := OpenStream(store, p.value, n.value);
      if s.Failure? {
        return Failure(s.error);
      }
      var d := ParseDefinition(conv, s.value);
      if d.Failure? {
        return Failure(d.error);
      }
      r := Success(d.value);
    }

    /** ResolveHighLightingTheme(): does nothing once a theme is resolved or an
        attempt was made; otherwise marks the attempt first, loads the document,
        and builds the resolved theme from it when there is a resolver. */
    method ResolveHighLightingTheme() returns (r: Outcome<Error>)
      requires Valid()
      modifies this
      ensures Valid() && initialized && State() == old(State())
      ensures r == old(NextResolution())
      ensures old(hlTheme != null || initialized) ==> xshtd == old(xshtd) && hlTheme == old(hlTheme)
      ensures !old(hlTheme != null || initialized) ==>
        var o := OverlayElements(store, conv, hlPrefix, hlThemeName);
        && (o.Failure? || o.value.None? ==> xshtd == null && hlTheme == null)
        && (o.Success? && o.value.Some? ==>
              && xshtd != null && fresh(xshtd) && xshtd.elements == o.value.value
              && (!hasResolver ==> hlTheme == null)
              && (hasResolver ==>
                    var resolved := Resolve(o.value.value);
                    && (resolved.Failure? ==> hlTheme == null)
                    && (resolved.Success? ==>
                          && hlTheme != null && fresh(hlTheme) && hlTheme.Defs() == resolved.value
                          && forall k :: k in hlTheme.syntaxDefDict ==> fresh(hlTheme.syntaxDefDict[k]))))
    {
      if hlTheme != null || initialized {
        return Pass;
      }
      initialized := true;
      var d := ResolveOverlayDocument(hlPrefix, hlThemeName);
      if d.Failure? {
        return Fail(d.error);
      }
      xshtd := d.value;
      if !hasResolver || xshtd == null {
        return Pass;
      }
      var created := XmlHighlightingThemeDefinition.Create(xshtd);
      if created.Failure? {
        return Fail(created.error);
      }
      hlTheme := created.value;
      r := Pass;
    }

    /** The HlTheme property: resolve, then the resolved theme (null when there is none). */
    method HlTheme() returns (r: Result<XmlHighlightingThemeDefinition?, Error>)
      requires Valid()
      modifies this
      ensures Valid() && initialized && State() == old(State())
      ensures old(NextResolution()).Fail? ==> r == Failure(old(NextResolution()).error)
      ensures old(NextResolution()).Pass? ==> r == Success(hlTheme)
    {
      var resolved := ResolveHighLightingTheme();
      if resolved.Fail? {
        return Failure(resolved.error);
      }
      r := Success(hlTheme);
    }

    /** GetDefinition: resolve, then the definition registered under `name`, or
        null; a null name throws ArgumentNullException. */
    method GetDefinition(name: Option<string>) returns (r: Result<Option<HighlightingDefinition>, Error>)
      requires Valid()
      modifies this
      ensures Valid() && initialized && State() == old(State())
      ensures old(NextResolution()).Fail? ==> r == Failure(old(NextResolution()).error)
      ensures old(NextResolution()).Pass? ==>
        r == if name.None? then Failure(ArgumentNull("key")) else Success(ByName(State(), name.value))
    {
      var resolved := ResolveHighLightingTheme();
      if resolved.Fail? {
        return Failure(resolved.error);
      }
      if name.None? {
        return Failure(ArgumentNull("key"));
      }
      if name.value in byName {
        r := Success(Some(byName[name.value]));
      } else {
        r := Success(None);
      }
    }

    /** GetDefinitionByExtension: resolve, then the definition registered for
        `extension` in any letter case, or null; a null extension throws. */
    method GetDefinitionByExtension(extension: Option<string>) returns (r: Result<Option<HighlightingDefinition>, Error>)
      requires Valid()
      modifies this
      ensures Valid() && initialized && State() == old(State())
      ensures old(NextResolution()).Fail? ==> r == Failure(old(NextResolution()).error)
      ensures old(NextResolution()).Pass? ==>
        r == if extension.None? then Failure(ArgumentNull("key")) else Success(ByExtension(State(), extension.value))
    {
      var resolved := ResolveHighLightingTheme();
      if resolved.Fail? {
        return Failure(resolved.error);
      }
      if extension.None? {
        return Failure(ArgumentNull("key"));
      }
      var k := CaseFold(extension.value);
      if k in byExtension {
        r := Success(Some(byExtension[k]));
      } else {
        r := Success(None);
      }
    }

    /** GetThemeDefinition: resolve, then ask the resolved theme for the named
        grammar (GetNamedSyntaxDefinition, which fills its colours from the
        overlay); with no resolved theme the call throws NullReferenceException. */
    method GetThemeDefinition(name: Option<string>) returns (r: Result<Option<SyntaxDefinition>, Error>)
      requires Valid()
      modifies this, if hlTheme != null then hlTheme.syntaxDefDict.Values else {}
      ensures Valid() && initialized && State() == old(State())
      ensures old(NextResolution()).Fail? ==> r == Failure(old(NextResolution()).error)
      ensures old(NextResolution()).Pass? && hlTheme == null ==> r == Failure(NullReference)
      ensures old(NextResolution()).Pass? && hlTheme != null ==>
        && (name.None? ==> r == Failure(ArgumentNull("key")))
        && (name.Some? && name.value !in hlTheme.syntaxDefDict ==> r == Success(None))
        && (r.Success? && r.value.Some? ==>
              name.Some? && name.value in hlTheme.syntaxDefDict && r.value.value == hlTheme.syntaxDefDict[name.value])
        && old(DefsAfterResolution()).Some?
        && LookupAnswers(old(DefsAfterResolution()).value, xshtd.elements, name, hlTheme.syntaxDefDict, hlTheme.Defs(), r)
    {
      var resolved := ResolveHighLightingTheme();
      if resolved.Fail? {
        return Failure(resolved.error);
      }
      if hlTheme == null {
        return Failure(NullReference);
      }
      assert hlTheme.Defs() == old(DefsAfterResolution()).value;
      r := hlTheme.GetNamedSyntaxDefinition(name);
    }
  }

  /** RegisterBuiltInHighlightings: each row of `rows` (the built-in table,
      BuiltInHighlightings()), in order, registered into `theme` as a
      delay-loaded definition under the row's name and extensions. */
  method RegisterBuiltInHighlightings(theme: HLTheme, rows: seq<BuiltIn>)
    requires theme.Valid()
    modifies theme
    ensures theme.Valid() && theme.State() == RegisterRows(old(theme.State()), rows)
    ensures theme.initialized == old(theme.initialized) && theme.xshtd == old(theme.xshtd) && theme.hlTheme == old(theme.hlTheme)
  {
    var i := 0;
    while i < |rows|
      invariant 0 <= i <= |rows|
      invariant theme.Valid()
      invariant RegisterRows(theme.State(), rows[i..]) == RegisterRows(old(theme.State()), rows)
      invariant theme.initialized == old(theme.initialized) && theme.xshtd == old(theme.xshtd) && theme.hlTheme == old(theme.hlTheme)
    {
      assert rows[i..][0] == rows[i] && rows[i..][1..] == rows[i + 1..];
      theme.RegisterHighlighting(Some(rows[i].name), rows[i].extensions, BuiltInDefinition(rows[i]));
      i := i + 1;
    }
  }
}

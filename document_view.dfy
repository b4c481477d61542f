/** DocumentView: what the demo's document view models do when the application
    theme changes, and how they take a highlighting from the highlighting menu.
    The manager is seen through what the view model asks of it: the current
    theme's GlobalStyles (none when CurrentTheme.HlTheme is null) and the
    current theme's registrations, which GetDefinition and
    GetDefinitionByExtension answer from. */
module DocumentView {
  import opened Wrappers
  import opened Errors
  import opened Text
  import opened HighlightingTheme
  import opened Manager
  import opened StyleDispatch

  datatype ManagerView = ManagerView(
    hlThemeStyles: Option<seq<GlobalStyleValue>>,
    registrations: Registrations)

  /** IHighlightingDefinition.Name: a delay-loaded definition carries the name it
      was registered under; an application-supplied one is named by its id. */
  function DefinitionName(h: HighlightingDefinition): Option<string>
  {
    match h
    case Supplied(id) => Some(id)
    case DelayLoaded(name, _) => name
  }

  /** The characters Path.GetExtension stops at: the directory and volume separators. */
  predicate IsSeparator(c: char) {
    c == '\\' || c == '/' || c == ':'
  }

  /** The position of the last '.' of path[..i] that no separator follows, or -1. */
  function LastDotBefore(path: string, i: nat): (j: int)
    requires i <= |path|
    ensures -1 <= j < i
    ensures j >= 0 ==> path[j] == '.'
    ensures j >= 0 ==> forall k :: j < k < i ==> path[k] != '.' && !IsSeparator(path[k])
    decreases i
  {
    if i == 0 then -1
    else if path[i - 1] == '.' then i - 1
    else if IsSeparator(path[i - 1]) then -1
    else LastDotBefore(path, i - 1)
  }

  /** `d` is a '.' of the file name with at least one character after it and no
      further '.' or separator. */
  predicate ExtensionDot(path: string, d: int) {
    && 0 <= d < |path| - 1 && path[d] == '.'
    && forall k :: d < k < |path| ==> path[k] != '.' && !IsSeparator(path[k])
  }

  /** Path.GetExtension: from the last '.' of the file name to the end, or the
      empty string when the name has no '.' or ends with one. */
  function Extension(path: string): (e: string)
    ensures e != "" ==>
      && 2 <= |e| <= |path| && e == path[|path| - |e|..] && e[0] == '.'
      && forall k :: 1 <= k < |e| ==> e[k] != '.' && !IsSeparator(e[k])
    ensures e == "" <==> forall d :: !ExtensionDot(path, d)
  {
    var j := LastDotBefore(path, |path|);
    LastDotIsExtensionDot(path);
    if j < 0 || j == |path| - 1 then "" else path[j..]
  }

  /** An extension dot is exactly what the backward search finds, when the dot is
      not the last character. */
  lemma LastDotIsExtensionDot(path: string)
    ensures (exists d :: ExtensionDot(path, d)) <==>
      (0 <= LastDotBefore(path, |path|) < |path| - 1)
  {
    if exists d :: ExtensionDot(path, d) {
      var d :| ExtensionDot(path, d);
      LastDotSkipsSuffix(path, d, |path|);
    } else {
      var j := LastDotBefore(path, |path|);
      if 0 <= j < |path| - 1 {
        assert ExtensionDot(path, j);
      }
    }
  }

  /** The extension of a file name with a final '.'-suffix is that suffix, whatever
      lies before it. */
  lemma ExtensionOfSuffix(stem: string, suffix: string)
    requires |suffix| > 0 && forall k :: 0 <= k < |suffix| ==> suffix[k] != '.' && !IsSeparator(suffix[k])
    ensures Extension(stem + "." + suffix) == "." + suffix
  {
    var path := stem + "." + suffix;
    LastDotSkipsSuffix(path, |stem|, |path|);
    assert path[|stem|..] == "." + suffix;
  }

  lemma {:induction false} LastDotSkipsSuffix(path: string, dot: nat, i: nat)
    requires dot < i <= |path| && path[dot] == '.'
    requires forall k :: dot < k < |path| ==> path[k] != '.' && !IsSeparator(path[k])
    ensures LastDotBefore(path, i) == dot
    decreases i
  {
    if i - 1 > dot {
      LastDotSkipsSuffix(path, dot, i - 1);
    }
  }

  /** A file name without '.' after its last separator has no extension. */
  lemma NoDotNoExtension(path: string)
    requires forall k :: 0 <= k < |path| ==> path[k] != '.'
    ensures Extension(path) == ""
  {
  }

  /** The re-fetch after a theme change. First try: the current definition's
      name (a null name throws ArgumentNullException); a hit ends the search.
      Second try: the extension of FilePath, only when the path and its
      extension are both non-empty. Whatever the first try left (null) stays
      otherwise. */
  function Refetched(m: Registrations, current: Option<HighlightingDefinition>, filePath: Option<string>)
    : (r: Result<Option<HighlightingDefinition>, Error>)
    ensures r.Failure? <==> current.Some? && DefinitionName(current.value).None?
    ensures r.Failure? ==> r.error == ArgumentNull("key")
    ensures r.Success? && r.value.Some? ==>
      (current.Some? && r.value == ByName(m, DefinitionName(current.value).value)) ||
      (filePath.Some? && r.value == ByExtension(m, Extension(filePath.value)))
  {
    if current.Some? && DefinitionName(current.value).None? then Failure(ArgumentNull("key"))
    else
      var byName := if current.Some? then ByName(m, DefinitionName(current.value).value) else None;
      if byName.Some? then Success(byName)
      else if IsNullOrEmpty(filePath) || Extension(filePath.value) == "" then Success(None)
      else Success(ByExtension(m, Extension(filePath.value)))
  }

  /** The lookup by name wins whenever it finds something; the file's extension
      is not consulted then. */
  lemma RefetchByNameFirst(m: Registrations, current: HighlightingDefinition, filePath: Option<string>)
    requires DefinitionName(current).Some? && ByName(m, DefinitionName(current).value).Some?
    ensures Refetched(m, Some(current), filePath) == Success(ByName(m, DefinitionName(current).value))
  {
  }

  /** Otherwise the extension decides, when there is one; without a file path
      or extension the definition becomes null. */
  lemma RefetchFallsBackToExtension(m: Registrations, current: Option<HighlightingDefinition>, filePath: Option<string>)
    requires current.None? || (DefinitionName(current.value).Some? && ByName(m, DefinitionName(current.value).value).None?)
    ensures !IsNullOrEmpty(filePath) && Extension(filePath.value) != "" ==>
      Refetched(m, current, filePath) == Success(ByExtension(m, Extension(filePath.value)))
    ensures IsNullOrEmpty(filePath) || Extension(filePath.value) == "" ==> Refetched(m, current, filePath) == Success(None)
  {
  }

  /** The re-fetch never invents a definition: what it finds is registered. */
  lemma RefetchedIsRegistered(m: Registrations, current: Option<HighlightingDefinition>, filePath: Option<string>)
    requires Indexed(m)
    ensures var r := Refetched(m, current, filePath);
      r.Success? && r.value.Some? ==> r.value.value in m.all
  {
    if current.Some? && DefinitionName(current.value).Some? {
      IndexedLookups(m, DefinitionName(current.value).value, "");
    }
    if filePath.Some? {
      IndexedLookups(m, "", Extension(filePath.value));
    }
  }

  /** OnAppThemeChanged with a manager: the GlobalStyles of the current theme's
      HlTheme are applied first (none when HlTheme is null); a style of unknown
      TypeName throws and the definition is not touched; otherwise the
      definition is re-fetched. The result is the new resource slots, the new
      definition and the outcome. */
  function ThemeChanged(m: ManagerView, slots: Resources, current: Option<HighlightingDefinition>, filePath: Option<string>)
    : (r: (Resources, Option<HighlightingDefinition>, Outcome<Error>))
    ensures r.2.Fail? ==> r.1 == current
    ensures r.2.Pass? <==> Refetched(m.registrations, current, filePath).Success? &&
                           (m.hlThemeStyles.None? || Plan(StyleOutcomes(m.hlThemeStyles.value)).1.None?)
    ensures r.2.Pass? ==> Refetched(m.registrations, current, filePath) == Success(r.1)
  {
    var styled := if m.hlThemeStyles.Some? then Plan(StyleOutcomes(m.hlThemeStyles.value)) else ([], None);
    var slots' := ApplyWrites(slots, styled.0);
    if styled.1.Some? then (slots', current, Fail(styled.1.value))
    else
      var f := Refetched(m.registrations, current, filePath);
      if f.Failure? then (slots', current, Fail(f.error)) else (slots', f.value, Pass)
  }

  /** With a null HlTheme no slot is touched, and the outcome is the re-fetch's. */
  lemma NoHlThemeTouchesNoSlot(m: ManagerView, slots: Resources, current: Option<HighlightingDefinition>, filePath: Option<string>)
    requires m.hlThemeStyles.None?
    ensures ThemeChanged(m, slots, current, filePath).0 == slots
    ensures var f := Refetched(m.registrations, current, filePath);
      ThemeChanged(m, slots, current, filePath).2 == if f.Failure? then Fail(f.error) else Pass
  {
  }

  /** Applying a theme change twice leaves the same slots as applying it once. */
  lemma ThemeChangedSlotsIdempotent(m: ManagerView, slots: Resources, current: Option<HighlightingDefinition>,
                                    filePath: Option<string>, current': Option<HighlightingDefinition>)
    ensures var once := ThemeChanged(m, slots, current, filePath).0;
      ThemeChanged(m, once, current', filePath).0 == once
  {
    var styled := if m.hlThemeStyles.Some? then Plan(StyleOutcomes(m.hlThemeStyles.value)) else ([], None);
    ApplyWritesIdempotent(slots, styled.0);
  }

  /** The command parameter: `p as object[]` is null, or an array whose items
      are each a highlighting definition or something else (null included). */
  datatype CommandParameter = NotAnArray | ObjectArray(items: seq<CommandItem>)
  datatype CommandItem = DefinitionItem(definition: HighlightingDefinition) | OtherItem

  /** HighlightingChangeCommand: the definition picked, when the parameter is a
      one-element array holding a definition; null (nothing to do) otherwise. */
  function CommandSelection(p: CommandParameter): (r: Option<HighlightingDefinition>)
    ensures r.Some? <==> p.ObjectArray? && |p.items| == 1 && p.items[0].DefinitionItem?
    ensures r.Some? ==> r.value == p.items[0].definition
  {
    if p.NotAnArray? then None
    else if |p.items| != 1 then None
    else if p.items[0].OtherItem? then None
    else Some(p.items[0].definition)
  }
}

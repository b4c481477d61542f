/** AppsDocumentViewModel: the application library demo's DocumentRootViewModel,
    reduced to the state a theme change and the highlighting menu touch: the
    file path and the current highlighting definition. */
module AppsDocumentViewModel {
  import opened Wrappers
  import opened Errors
  import opened Text
  import opened Manager
  import opened StyleDispatch
  import opened DocumentView

  class DocumentRootViewModel {
    var filePath: Option<string>
    var highlightingDefinition: Option<HighlightingDefinition>

    /** A new view model: no file and no highlighting. */
    constructor ()
      ensures filePath.None? && highlightingDefinition.None?
    {
      filePath := None;
      highlightingDefinition := None;
    }

    /** OnAppThemeChanged(hlManager): nothing with a null manager; otherwise
        the theme's GlobalStyles are applied to the editor's resources and the
        highlighting definition is re-fetched. */
    method OnAppThemeChanged(hlManager: Option<ManagerView>, res: AppResources) returns (r: Outcome<Error>)
      modifies this, res
      ensures filePath == old(filePath)
      ensures hlManager.None? ==>
        r == Pass && highlightingDefinition == old(highlightingDefinition) && res.slots == old(res.slots)
      ensures hlManager.Some? ==>
        (res.slots, highlightingDefinition, r) ==
          ThemeChanged(hlManager.value, old(res.slots), old(highlightingDefinition), filePath)
    {
      if hlManager.None? {
        return Pass;
      }
      var m := hlManager.value;
      if m.hlThemeStyles.Some? {
        var styled := res.ApplyGlobalStyles(m.hlThemeStyles.value);
        if styled.Fail? {
          return styled;
        }
      }
      if highlightingDefinition.Some? {
        var name := DefinitionName(highlightingDefinition.value);
        if name.None? {
          return Fail(ArgumentNull("key"));
        }
        highlightingDefinition := ByName(m.registrations, name.value);
        if highlightingDefinition.Some? {
          return Pass;
        }
      }
      if IsNullOrEmpty(filePath) {
        return Pass;
      }
      var extension := Extension(filePath.value);
      if extension == "" {
        return Pass;
      }
      highlightingDefinition := ByExtension(m.registrations, extension);
      r := Pass;
    }

    /** HighlightingChangeCommand: takes the definition out of a one-element
        array holding one; any other parameter changes nothing. */
    method HighlightingChange(p: CommandParameter)
      modifies this
      ensures filePath == old(filePath)
      ensures highlightingDefinition == if CommandSelection(p).Some? then CommandSelection(p) else old(highlightingDefinition)
    {
      if p.NotAnArray? {
        return;
      }
      if |p.items| != 1 {
        return;
      }
      var param := p.items[0];
      if param.OtherItem? {
        return;
      }
      highlightingDefinition := Some(param.definition);
    }
  }
}

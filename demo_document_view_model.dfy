/** DemoDocumentViewModel: the themed demo's DocumentRootViewModel. Besides the
    theme change and the highlighting menu it loads a text file: the byte order
    mark picks the encoding the reader starts from, the read-only attribute sets
    the read-only state, and the file's extension picks the highlighting. */
module DemoDocumentViewModel {
  import opened Wrappers
  import opened Text
  import opened HighlightingTheme
  import opened Manager
  import opened StyleDispatch
  import opened DocumentView

  /** The System.Text.Encoding values the load can produce. */
  datatype Encoding = UTF7 | UTF8 | Unicode | BigEndianUnicode | UTF32 | Default

  /** GetEncoding reads the first four bytes into a zeroed buffer: a shorter file
      leaves zeros behind its last byte. */
  function Bom(bytes: seq<byte>): (bom: seq<byte>)
    ensures |bom| == 4
    ensures forall k :: 0 <= k < 4 ==> bom[k] == if k < |bytes| then bytes[k] else 0
  {
    var padded := bytes + [0, 0, 0, 0];
    padded[..4]
  }

  /** GetEncoding: the byte order mark analysed in a fixed order; the first check
      that matches decides, Encoding.Default when none does. */
  function GetEncoding(bytes: seq<byte>): (e: Encoding)
    ensures e == UTF7 <==> [0x2b, 0x2f, 0x76] <= bytes
    ensures e == UTF8 <==> [0xef, 0xbb, 0xbf] <= bytes
    ensures e == Unicode <==> [0xff, 0xfe] <= bytes
    ensures e == BigEndianUnicode <==> [0xfe, 0xff] <= bytes
    ensures e == UTF32 <==> [0, 0, 0xfe, 0xff] <= bytes
  {
    var bom := Bom(bytes);
    if bom[0] == 0x2b && bom[1] == 0x2f && bom[2] == 0x76 then UTF7
    else if bom[0] == 0xef && bom[1] == 0xbb && bom[2] == 0xbf then UTF8
    else if bom[0] == 0xff && bom[1] == 0xfe then Unicode
    else if bom[0] == 0xfe && bom[1] == 0xff then BigEndianUnicode
    else if bom[0] == 0 && bom[1] == 0 && bom[2] == 0xfe && bom[3] == 0xff then UTF32
    else Default
  }

  /** The byte order marks as a table, most specific use first. */
  function BomTable(): seq<(seq<byte>, Encoding)>
  {
    [([0x2b, 0x2f, 0x76], UTF7),
     ([0xef, 0xbb, 0xbf], UTF8),
     ([0xff, 0xfe], Unicode),
     ([0xfe, 0xff], BigEndianUnicode),
     ([0, 0, 0xfe, 0xff], UTF32)]
  }

  /** The encoding of the first table row whose mark starts `bom`. */
  function FirstMatch(table: seq<(seq<byte>, Encoding)>, bom: seq<byte>): (e: Encoding)
    ensures e == Default || exists k :: 0 <= k < |table| && table[k].1 == e
  {
    if |table| == 0 then Default
    else if table[0].0 <= bom then table[0].1
    else FirstMatch(table[1..], bom)
  }

  /** The chain of checks is the first match of the zero-padded mark against the
      table. */
  lemma GetEncodingFollowsTable(bytes: seq<byte>)
    ensures GetEncoding(bytes) == FirstMatch(BomTable(), Bom(bytes))
  {
    var bom := Bom(bytes);
    var t: seq<(seq<byte>, Encoding)> := BomTable();
    assert t[0].0 <= bom <==> bom[0] == 0x2b && bom[1] == 0x2f && bom[2] == 0x76;
    assert t[1].0 <= bom <==> bom[0] == 0xef && bom[1] == 0xbb && bom[2] == 0xbf;
    assert t[2].0 <= bom <==> bom[0] == 0xff && bom[1] == 0xfe;
    assert t[3].0 <= bom <==> bom[0] == 0xfe && bom[1] == 0xff;
    assert t[4].0 <= bom <==> bom[0] == 0 && bom[1] == 0 && bom[2] == 0xfe && bom[3] == 0xff;
    assert t[1..][0] == t[1] && t[1..][1..][0] == t[2] && t[1..][1..][1..][0] == t[3];
    assert t[1..][1..][1..][1..][0] == t[4] && t[1..][1..][1..][1..][1..] == [];
    assert FirstMatch(t[1..][1..][1..][1..], bom) == if t[4].0 <= bom then UTF32 else Default;
    assert FirstMatch(t[1..][1..][1..], bom) == if t[3].0 <= bom then BigEndianUnicode else FirstMatch(t[1..][1..][1..][1..], bom);
    assert FirstMatch(t[1..][1..], bom) == if t[2].0 <= bom then Unicode else FirstMatch(t[1..][1..][1..], bom);
    assert FirstMatch(t[1..], bom) == if t[1].0 <= bom then UTF8 else FirstMatch(t[1..][1..], bom);
  }

  /** A file that starts with a mark of the table is read with that mark's
      encoding, whatever follows it, unless an earlier row also matches. */
  lemma MarkedFileEncoding(mark: seq<byte>, rest: seq<byte>, k: nat)
    requires k < |BomTable()| && mark == BomTable()[k].0
    requires forall j :: 0 <= j < k ==> !(BomTable()[j].0 <= Bom(mark + rest))
    ensures GetEncoding(mark + rest) == BomTable()[k].1
  {
    var bom := Bom(mark + rest);
    assert mark <= bom by {
      forall i | 0 <= i < |mark| ensures mark[i] == bom[i] {
        assert (mark + rest)[i] == mark[i];
      }
    }
    GetEncodingFollowsTable(mark + rest);
    FirstMatchAt(BomTable(), bom, k);
  }

  lemma {:induction false} FirstMatchAt(table: seq<(seq<byte>, Encoding)>, bom: seq<byte>, k: nat)
    requires k < |table| && table[k].0 <= bom
    requires forall j :: 0 <= j < k ==> !(table[j].0 <= bom)
    ensures FirstMatch(table, bom) == table[k].1
  {
    if k > 0 {
      assert forall j :: 0 <= j < k - 1 ==> table[1..][j] == table[j + 1];
      FirstMatchAt(table[1..], bom, k - 1);
    }
  }

  /** A UTF-32 little-endian mark (FF FE 00 00) reads as UTF-16 little-endian,
      and an empty file as Encoding.Default. */
  lemma LittleEndianUtf32ReadsAsUnicode()
    ensures GetEncoding([0xff, 0xfe, 0, 0]) == Unicode
    ensures GetEncoding([]) == Default
  {
  }

  /** What LoadDocument sees of the file system: whether the file exists, its
      read-only attribute, its bytes, and what reading it with a given starting
      encoding yields: the text and the reader's final encoding, or the
      message of the exception raised. */
  datatype FileState =
    | Missing
    | Present(readOnly: bool, bytes: seq<byte>, read: Encoding -> Result<(string, Encoding), string>)

  const ReadOnlyMessage := "This file cannot be edit because another process is currently writting to it.\nChange the file access permissions or save the file in a different location if you want to edit it."

  /** The state of the view model that LoadDocument writes. */
  datatype ViewState = ViewState(
    filePath: Option<string>,
    text: string,
    isDirty: bool,
    isReadOnly: bool,
    isReadOnlyReason: string,
    fileEncoding: Encoding,
    isContentLoaded: bool,
    highlightingDefinition: Option<HighlightingDefinition>)

  /** LoadDocument: nothing changes and false is returned for a null path or a
      missing file. Otherwise the dirty flag is cleared, the read-only flag
      follows the attribute, and the file is read starting from the encoding
      its mark suggests. A read that succeeds sets the text, the reader's
      encoding, the path, the loaded flag and the highlighting for the file's
      extension (null without a manager) and returns true; one that throws
      makes the document read-only with the exception's message as the
      reason, clears the text, the path, the loaded flag and the highlighting,
      and returns false. */
  function Load(s: ViewState, hasManager: bool, path: Option<string>, file: FileState, m: ManagerView)
    : (r: (ViewState, bool))
    ensures path.None? || file.Missing? ==> r == (s, false)
    ensures path.Some? && file.Present? ==>
      r.0.isReadOnly == (file.readOnly || !r.1) && !r.0.isDirty && (r.1 <==> file.read(GetEncoding(file.bytes)).Success?)
    ensures r.1 ==>
      && r.0.filePath == path && r.0.isContentLoaded
      && r.0.text == file.read(GetEncoding(file.bytes)).value.0
      && r.0.fileEncoding == file.read(GetEncoding(file.bytes)).value.1
      && r.0.highlightingDefinition == (if hasManager then ByExtension(m.registrations, Extension(path.value)) else None)
    ensures path.Some? && file.Present? && !r.1 ==>
      && r.0.filePath == Some("") && !r.0.isContentLoaded && r.0.text == "" && r.0.highlightingDefinition.None?
      && r.0.isReadOnlyReason == file.read(GetEncoding(file.bytes)).error
  {
    if path.None? || file.Missing? then (s, false)
    else
      var reason := if file.readOnly then ReadOnlyMessage else s.isReadOnlyReason;
      var outcome := file.read(GetEncoding(file.bytes));
      if outcome.Failure? then
        (s.(isDirty := false, isReadOnly := true, isReadOnlyReason := outcome.error, text := "",
            filePath := Some(""), isContentLoaded := false, highlightingDefinition := None), false)
      else
        var found := if hasManager then ByExtension(m.registrations, Extension(path.value)) else None;
        (s.(isDirty := false, isReadOnly := file.readOnly, isReadOnlyReason := reason,
            text := outcome.value.0, fileEncoding := outcome.value.1,
            filePath := path, isContentLoaded := true, highlightingDefinition := found), true)
  }

  /** A successful load of a read-only file gives the attribute's reason; the
      reason of a writable file is left as it was. */
  lemma LoadReadOnlyReason(s: ViewState, hasManager: bool, path: string, file: FileState, m: ManagerView)
    requires file.Present? && file.read(GetEncoding(file.bytes)).Success?
    ensures var r := Load(s, hasManager, Some(path), file, m);
      r.0.isReadOnlyReason == if file.readOnly then ReadOnlyMessage else s.isReadOnlyReason
  {
  }

  /** The highlighting a load picks is one the manager has registered. */
  lemma LoadedHighlightingIsRegistered(s: ViewState, hasManager: bool, path: Option<string>, file: FileState, m: ManagerView)
    requires Indexed(m.registrations) && s.highlightingDefinition.None?
    ensures var r := Load(s, hasManager, path, file, m);
      r.0.highlightingDefinition.Some? ==> r.0.highlightingDefinition.value in m.registrations.all
  {
    if path.Some? {
      IndexedLookups(m.registrations, "", Extension(path.value));
    }
  }

  class DocumentRootViewModel {
    /** Whether the view model was built with a highlighting manager; the field is readonly. */
    const hasManager: bool
    var filePath: Option<string>
    var text: string
    var isDirty: bool
    var isReadOnly: bool
    var isReadOnlyReason: string
    var fileEncoding: Encoding
    var isContentLoaded: bool
    var highlightingDefinition: Option<HighlightingDefinition>

    function State(): ViewState
      reads this
    {
      ViewState(filePath, text, isDirty, isReadOnly, isReadOnlyReason, fileEncoding, isContentLoaded, highlightingDefinition)
    }

    /** A new view model: an empty document in Encoding.Default, no file, no
        highlighting. */
    constructor (hasManager: bool)
      ensures this.hasManager == hasManager
      ensures State() == ViewState(None, "", false, false, "", Default, false, None)
    {
      this.hasManager := hasManager;
      filePath := None;
      text := "";
      isDirty := false;
      isReadOnly := false;
      isReadOnlyReason := "";
      fileEncoding := Default;
      isContentLoaded := false;
      highlightingDefinition := None;
    }

    /** LoadDocument(paramFilePath), with the file system as `file` and the
        manager's current registrations as `m`. */
    method LoadDocument(path: Option<string>, file: FileState, m: ManagerView) returns (loaded: bool)
      modifies this
      ensures (State(), loaded) == Load(old(State()), hasManager, path, file, m)
    {
      if path.None? || file.Missing? {
        return false;
      }
      isDirty := false;
      isReadOnly := false;
      if file.readOnly {
        isReadOnly := true;
        isReadOnlyReason := ReadOnlyMessage;
      }
      var encoding := GetEncoding(file.bytes);
      var outcome := file.read(encoding);
      if outcome.Failure? {
        isReadOnly := true;
        isReadOnlyReason := outcome.error;
        text := "";
        filePath := Some("");
        isContentLoaded := false;
        highlightingDefinition := None;
        return false;
      }
      text := outcome.value.0;
      fileEncoding := outcome.value.1;
      filePath := path;
      isContentLoaded := true;
      highlightingDefinition := None;
      if hasManager {
        var extension := Extension(path.value);
        highlightingDefinition := ByExtension(m.registrations, extension);
      }
      loaded := true;
    }

    /** OnAppThemeChanged: nothing without a manager; otherwise the current
        theme's GlobalStyles reach the editor's resources and the highlighting
        is re-fetched, as DocumentView.ThemeChanged states. */
    method OnAppThemeChanged(m: ManagerView, res: AppResources) returns (r: Outcome<Errors.Error>)
      modifies this, res
      ensures filePath == old(filePath)
      ensures !hasManager ==>
        r == Pass && highlightingDefinition == old(highlightingDefinition) && res.slots == old(res.slots)
      ensures hasManager ==>
        (res.slots, highlightingDefinition, r) == ThemeChanged(m, old(res.slots), old(highlightingDefinition), filePath)
    {
      if !hasManager {
        return Pass;
      }
      if m.hlThemeStyles.Some? {
        var styled := res.ApplyGlobalStyles(m.hlThemeStyles.value);
        if styled.Fail? {
          return styled;
        }
      }
      if highlightingDefinition.Some? {
        var name := DefinitionName(highlightingDefinition.value);
        if name.None? {
          return Fail(Errors.ArgumentNull("key"));
        }
        highlightingDefinition := ByName(m.registrations, name.value);
        if highlightingDefinition.Some? {
          return Pass;
        }
      }
      if IsNullOrEmpty(filePath) {
        return Pass;
      }
      var extension := Extension(filePath.value);
      if extension == "" {
        return Pass;
      }
      highlightingDefinition := ByExtension(m.registrations, extension);
      r := Pass;
    }

    /** HighlightingChangeCommand: a one-element array holding a definition
        selects it; any other parameter changes nothing. */
    method HighlightingChange(p: CommandParameter)
      modifies this
      ensures State() == old(State()).(highlightingDefinition :=
        if CommandSelection(p).Some? then CommandSelection(p) else old(highlightingDefinition))
    {
      if p.NotAnArray? {
        return;
      }
      if |p.items| != 1 {
        return;
      }
      var param := p.items[0];
      if param.OtherItem? {
        return;
      }
      highlightingDefinition := Some(param.definition);
    }
  }
}

# AvalonEdit highlighting themes: the theme-overlay pipeline in Dafny

This project models the core of AvalonEditHighlightingThemes, a library that
lets an AvalonEdit text editor switch between highlighting themes (Light, Dark,
True Blue). A theme is a set of registered grammars (`.xshd` definitions) plus,
optionally, an overlay document (`.xshtd`) that gives other colours to the named
tokens of each grammar and global styles for the editor chrome.

The model follows the pipeline from end to end:

- **Data model** (`highlighting_theme.dfy`, `xshtd_elements.dfy`, `xshtd.dfy`):
  `SyntaxDefinition` (a named colour dictionary with unique-name add and
  replace-by-name, a freeze-guarded name), `GlobalStyle` (a freezable record of
  a type name and three optional colours) and `XhstdThemeDefinition` (the
  ordered element list and its in-order visit).
- **Overlay parser** (`xshtd_loader.dfy`, `xshtd_loader_properties.dfy`): the
  forward walk of `XshtdLoader` over an abstract XML tree, with foreign
  namespaces skipped, unknown elements rejected, colours outside a
  SyntaxDefinition rejected, name checks, `extensions` split on `;`, colour
  specs classified and rule-set references split at the last `/`.
- **Resolver** (`theme_resolution.dfy`, `theme_resolution_properties.dfy`,
  `xshtd.dfy`): `XmlHighlightingThemeDefinition` with its two visitor passes
  (names and placeholder colours, then extensions) and the lazy filling of
  colours by `GetNamedSyntaxDefinition` through `ColorReplace`.
- **Registry** (`hl_resources.dfy`, `xml_extension_list.dfy`, `hl_theme.dfy`,
  `apps_manager.dfy`, `hl_manager.dfy`): `HLTheme` with its by-name, by-extension (letter case
  ignored) and ordered collections and its resolve-at-most-once overlay; the two
  `ThemedHighlightingManager` versions (the application library's, keyed by
  theme name, and the HL library's, keyed by key with Dark and TrueBlue
  overlays); the built-in grammar table (with the XML grammar's extension
  literal and its split) and the resource-name composition.
- **View models** (`style_dispatch.dfy`, `document_view.dfy`,
  `apps_document_view_model.dfy`, `demo_document_view_model.dfy`): the
  GlobalStyle type-name to editor-brush dispatch, `ApplyToDynamicResource`, the
  re-fetch after a theme change (by name first, then by file extension), the
  highlighting command's argument filter, the byte-order-mark classifier and
  `LoadDocument`.

Imperative code is modelled as classes whose methods are proved against pure
functions of the old state (for example `HLTheme.RegisterHighlighting` against
`Register`, the manager's `SetCurrentTheme` against `RegisterRows` over the
built-in table, `ApplyGlobalStyles` against `ApplyWrites` of `Plan`); the
properties are then lemmas about those functions. Exceptions are modelled as
`Result`/`Outcome` values carrying an `Error` that names the .NET exception and
its message.

The file system, the embedded resources, the XML reader and the WPF converters
are parameters: a `ResourceStore` map from manifest resource name to XML tree, a
`Converters` record of partial functions, and for `LoadDocument` a `FileState`
that says whether the file exists, whether it is read-only, its bytes and what
reading it with a given encoding yields.

Where the code and the documentation of the library disagree, the model follows
the code: `HLTheme.GetThemeDefinition` throws a NullReferenceException for a theme
without a resolved overlay rather than answering null, and the two-argument
`GetThemeDefinition` of the HL manager passes the theme name where the highlighting
name is meant (see Findings).

## Model

| member | source | states |
|---|---|---|
| HighlightingTheme.NameOnlyColor | source/Apps/HL/Xshtd/XmlHighlightingThemeDefinition.cs:200 | the placeholder colour pass 1 adds carries the name and no foreground, background, underline, font style or font weight |
| HighlightingTheme.EmptySyntaxDefinition | source/Apps/HL/HighlightingTheme/SyntaxDefinition.cs:29-33 | a fresh definition has no name, no extensions and no colours |
| HighlightingTheme.SyntaxDefinitionText | source/Apps/HL/HighlightingTheme/SyntaxDefinition.cs:83-86 | the text starts "[SyntaxDefinition ", ends with "]", and between them holds the name, or nothing for a null or empty name |
| HighlightingTheme.SyntaxDefinitionTextDistinguishesNames | source/Apps/HL/HighlightingTheme/SyntaxDefinition.cs:83-86 | two texts are equal exactly when both names are null-or-empty or both are the same non-empty string |
| HighlightingTheme.SyntaxDefinition.Value | source/Apps/HL/HighlightingTheme/SyntaxDefinition.cs:40-70 | the value view holds exactly the name, the extensions and the colour table |
| HighlightingTheme.SyntaxDefinition.constructor | source/Apps/HL/HighlightingTheme/SyntaxDefinition.cs:29-33 | the new object is the empty definition and is not frozen |
| HighlightingTheme.SyntaxDefinition.Named | source/Apps/HL/HighlightingTheme/SyntaxDefinition.cs:20-24 | the name is the argument; no extensions, no colours, not frozen |
| HighlightingTheme.SyntaxDefinition.SetName | source/Apps/HL/HighlightingTheme/SyntaxDefinition.cs:46-52 | when frozen it throws InvalidOperationException and nothing changes; otherwise the name becomes the value; extensions, colours and the flag never change |
| HighlightingTheme.SyntaxDefinition.AddExtension | source/Apps/HL/HighlightingTheme/SyntaxDefinition.cs:58 | the item is appended to the extensions; nothing else changes |
| HighlightingTheme.SyntaxDefinition.ColorGet | source/Apps/HL/HighlightingTheme/SyntaxDefinition.cs:88-95 | a null name throws; otherwise the result is Some exactly when the name is in the table, and then it is the stored colour |
| HighlightingTheme.SyntaxDefinition.ColorAdd | source/Apps/HL/HighlightingTheme/SyntaxDefinition.cs:97-100 | it succeeds exactly when the colour's name is non-null and absent; the table then gains that one entry; a null or duplicate name throws and leaves the table as it was; the frozen flag is not consulted |
| HighlightingTheme.SyntaxDefinition.ColorReplace | source/Apps/HL/HighlightingTheme/SyntaxDefinition.cs:102-106 | a null name throws; otherwise the name maps to the new colour, the key set gains at most that name, and every other entry keeps its value |
| HighlightingTheme.SyntaxDefinition.Freeze | source/Apps/HL/HighlightingTheme/SyntaxDefinition.cs:77-80 | the object is frozen and its value is unchanged |
| HighlightingTheme.SyntaxDefinition.ToString | source/Apps/HL/HighlightingTheme/SyntaxDefinition.cs:83-86 | the text of the definition's current name |
| HighlightingTheme.GlobalStyleText | source/Apps/HL/HighlightingTheme/GlobalStyle.cs:125-128 | the text is "[", then the type name or nothing for a null or empty one, then "]" |
| HighlightingTheme.GlobalStyleTextDistinguishesTypeNames | source/Apps/HL/HighlightingTheme/GlobalStyle.cs:125-128 | two texts are equal exactly when both type names are null-or-empty or both are the same non-empty string |
| HighlightingTheme.GlobalStyle.Value | source/Apps/HL/HighlightingTheme/GlobalStyle.cs:45-112 | the value view holds exactly the type name and the three colours |
| HighlightingTheme.GlobalStyle.constructor | source/Apps/HL/HighlightingTheme/GlobalStyle.cs:20-35 | the type name is the argument and all three colours are null |
| HighlightingTheme.GlobalStyle.Hidden | source/Apps/HL/HighlightingTheme/GlobalStyle.cs:29-35 | the type name is the empty string and all three colours are null |
| HighlightingTheme.GlobalStyle.SetTypeName | source/Apps/HL/HighlightingTheme/GlobalStyle.cs:51-57 | when frozen it throws "Property is already frozen." and nothing changes; otherwise only the type name changes |
| HighlightingTheme.GlobalStyle.SetForegroundColor | source/Apps/HL/HighlightingTheme/GlobalStyle.cs:69-75 | when frozen it throws and nothing changes; otherwise only the foreground colour changes |
| HighlightingTheme.GlobalStyle.SetBackgroundColor | source/Apps/HL/HighlightingTheme/GlobalStyle.cs:87-93 | when frozen it throws and nothing changes; otherwise only the background colour changes |
| HighlightingTheme.GlobalStyle.SetBorderColor | source/Apps/HL/HighlightingTheme/GlobalStyle.cs:105-111 | when frozen it throws and nothing changes; otherwise only the border colour changes |
| HighlightingTheme.GlobalStyle.Freeze | source/Apps/HL/HighlightingTheme/GlobalStyle.cs:119-122 | the object is frozen and its value is unchanged |
| HighlightingTheme.GlobalStyle.ToString | source/Apps/HL/HighlightingTheme/GlobalStyle.cs:125-128 | the text of the style's current type name |
| ThemeResolution.ErrorAt | source/Apps/HL/Xshtd/XmlHighlightingThemeDefinition.cs:104-111 | a HighlightingDefinitionInvalidException whose message ends with the given message, is longer than it exactly when the line number is positive, and then starts with "Error at line " |
| ThemeResolution.ConvertXshdColor | source/Apps/HL/Xshtd/XmlHighlightingThemeDefinition.cs:132-144 | the new colour has exactly the element's name, foreground, background, underline, font style and font weight |
| ThemeResolution.FirstSyntaxDefinition | source/Apps/HL/Xshtd/XmlHighlightingThemeDefinition.cs:120 | the index of the first top-level grammar element with that name, no earlier one has it, and None when no element has it (where First throws) |
| ThemeResolutionProperties.RegisterAllGrows | source/Apps/HL/Xshtd/XmlHighlightingThemeDefinition.cs:184-218 | a successful pass 1 keeps every grammar and every colour name it started with |
| ThemeResolutionProperties.RegisterAllKeys | source/Apps/HL/Xshtd/XmlHighlightingThemeDefinition.cs:207-220 | a successful pass 1 adds exactly the non-null grammar names of the tree, nested ones included; unnamed grammars and colours add no entry |
| ThemeResolution.RegisterVisit | source/Apps/HL/Xshtd/XmlHighlightingThemeDefinition.cs:207-220 | a successful visit of one element never removes a registered grammar |
| ThemeResolution.RegisterAll | source/Apps/HL/Xshtd/XmlHighlightingThemeDefinition.cs:33 | pass 1 over a list of elements, stopping at the first exception, never removes a registered grammar |
| ThemeResolutionProperties.RegisterAllKeepsPlaceholders | source/Apps/HL/Xshtd/XmlHighlightingThemeDefinition.cs:199-217 | after pass 1 every grammar entry is unnamed and extension-less, and each colour is a name-only placeholder filed under its own name |
| ThemeResolutionProperties.DuplicateSyntaxDefinitionFails | source/Apps/HL/Xshtd/XmlHighlightingThemeDefinition.cs:214-215 | two grammar elements of one list with the same name make pass 1 throw |
| ThemeResolutionProperties.DuplicateColorFails | source/Apps/HL/Xshtd/XmlHighlightingThemeDefinition.cs:198-201 | two colours of one list with the same name and grammar make pass 1 throw |
| ThemeResolutionProperties.RegisteredNamesUnique | source/Apps/HL/Xshtd/XmlHighlightingThemeDefinition.cs:207-218 | after a successful pass 1 the named grammar elements of the list have pairwise distinct names |
| ThemeResolutionProperties.ResolveRejectsDuplicateSyntaxDefinition | source/Apps/HL/Xshtd/XmlHighlightingThemeDefinition.cs:214-215 | a document with two top-level grammars of the same name does not resolve |
| ThemeResolutionProperties.ResolveRejectsDuplicateColor | source/Apps/HL/Xshtd/XmlHighlightingThemeDefinition.cs:198-220 | a grammar with two colours of the same name and grammar does not resolve |
| ThemeResolutionProperties.ResolveRejectsTopLevelColor | source/Apps/HL/Xshtd/XmlHighlightingThemeDefinition.cs:245-251 | a Color among the top-level elements makes resolution throw, in pass 1 or in pass 2's inverted null check |
| ThemeResolutionProperties.TranslateAllEffect | source/Apps/HL/Xshtd/XmlHighlightingThemeDefinition.cs:279-297 | a successful pass 2 keeps the grammar set and appends to each grammar the extensions of the top-level grammars of its name, in order |
| ThemeResolution.TranslateAll | source/Apps/HL/Xshtd/XmlHighlightingThemeDefinition.cs:36 | a pass 2 that completes saw only grammar elements at the top level, since a top-level Color always throws |
| ThemeResolution.Resolve | source/Apps/HL/Xshtd/XmlHighlightingThemeDefinition.cs:26-42 | a document that resolves has no Color among its top-level elements |
| ThemeResolutionProperties.ResolveShape | source/Apps/HL/Xshtd/XmlHighlightingThemeDefinition.cs:26-42 | a resolved document has one entry per non-null grammar name, each unnamed, with placeholder colours and the extensions its top-level elements list |
| ThemeResolutionProperties.ResolvedExtensions | source/Apps/HL/Xshtd/XmlHighlightingThemeDefinition.cs:279-297 | a top-level grammar named n in a resolved document has an entry whose extensions are exactly that element's |
| ThemeResolutionProperties.ReplaceColorsEffect | source/Apps/HL/Xshtd/XmlHighlightingThemeDefinition.cs:122-125 | the fill stops with ArgumentNullException exactly when some colour has a null name; otherwise the table holds the old names plus the colours' names, each named one holding the conversion of its last colour and the rest untouched |
| ThemeResolution.ReplaceColors | source/Apps/HL/Xshtd/XmlHighlightingThemeDefinition.cs:122-125 | the fill never drops a colour name, its only exception is ArgumentNullException("key"), and a name no colour element carries keeps its colour |
| ThemeResolutionProperties.ConvertXshdColorIgnoresExampleText | source/Apps/HL/Xshtd/XmlHighlightingThemeDefinition.cs:132-144 | the conversion does not depend on the example text or the position |
| ThemeResolutionProperties.ResolveThenFillColor | source/Apps/HL/Xshtd/XmlHighlightingThemeDefinition.cs:113-130 | after resolution, filling grammar n finds its top-level element and gives a colour declared last under a name exactly the declared values |
| Xshtd.XhstdThemeDefinition.constructor | source/Apps/HL/Xshtd/XhstdThemeDefinition.cs:33-36 | no name and an empty element list |
| Xshtd.XhstdThemeDefinition.SetName | source/Apps/HL/Xshtd/XhstdThemeDefinition.cs:41 | the name becomes the value; the elements are unchanged |
| Xshtd.XhstdThemeDefinition.AddElement | source/Apps/HL/Xshtd/XhstdThemeDefinition.cs:46 | the element is appended; the name is unchanged |
| Xshtd.XhstdThemeDefinition.AcceptElements | source/Apps/HL/Xshtd/XhstdThemeDefinition.cs:51-56 | the resolver ends as the visitor's pass over the top-level elements in order leaves it, or with that pass's first exception; the document itself is unchanged |
| Xshtd.XmlHighlightingThemeDefinition.Empty | source/Apps/HL/Xshtd/XmlHighlightingThemeDefinition.cs:47-50 | an empty grammar dictionary, no name, no document, no properties |
| Xshtd.XmlHighlightingThemeDefinition.Create | source/Apps/HL/Xshtd/XmlHighlightingThemeDefinition.cs:26-42 | succeeds exactly when both passes do, with their exception otherwise; the result's dictionary is the two passes' outcome, its name is the document's, and all its grammar objects are new |
| Xshtd.XmlHighlightingThemeDefinition.GetSyntaxDefinitionTheme | source/Apps/HL/Xshtd/XmlHighlightingThemeDefinition.cs:72-78 | a null name throws; otherwise the registered entry, present exactly when the name is registered |
| Xshtd.XmlHighlightingThemeDefinition.Visit | source/Apps/HL/Xshtd/XmlHighlightingThemeDefinition.cs:184-297 | the dictionary ends as the visitor's step for the element says, or fails with the step's exception; existing entries keep their objects and new ones are new |
| Xshtd.XmlHighlightingThemeDefinition.AcceptChildren | source/Apps/HL/Xshtd/XmlHighlightingThemeDefinition.cs:220 | pass 1 over a grammar's children in order, stopping at the first exception |
| Xshtd.XmlHighlightingThemeDefinition.RegisterSyntaxDefinition | source/Apps/HL/Xshtd/XmlHighlightingThemeDefinition.cs:207-223 | the grammar's name check and new empty entry, then its children, as pass 1's step states |
| Xshtd.XmlHighlightingThemeDefinition.RegisterColor | source/Apps/HL/Xshtd/XmlHighlightingThemeDefinition.cs:184-205 | the colour's checks and placeholder, as pass 1's step states; the dictionary's objects are unchanged |
| Xshtd.XmlHighlightingThemeDefinition.TranslateSyntaxDefinition | source/Apps/HL/Xshtd/XmlHighlightingThemeDefinition.cs:279-297 | the named grammar's extensions are appended to its entry, an unregistered name throws, an unnamed grammar changes nothing kept |
| Xshtd.XmlHighlightingThemeDefinition.CopyExtensions | source/Apps/HL/Xshtd/XmlHighlightingThemeDefinition.cs:292-294 | the entry's extensions become the old ones followed by the element's, in order; its name and colours are untouched |
| Xshtd.XmlHighlightingThemeDefinition.TranslateColor | source/Apps/HL/Xshtd/XmlHighlightingThemeDefinition.cs:245-251 | always throws: "Name must not be null" for a named colour, NullReferenceException for an unnamed one |
| Xshtd.XmlHighlightingThemeDefinition.FillColors | source/Apps/HL/Xshtd/XmlHighlightingThemeDefinition.cs:122-125 | the table ends as ReplaceColors states, with the first null-name exception; name, extensions and flag unchanged |
| Xshtd.XmlHighlightingThemeDefinition.GetNamedSyntaxDefinition | source/Apps/HL/Xshtd/XmlHighlightingThemeDefinition.cs:113-130 | null name throws; an unregistered name gives null and changes nothing; a registered one has its colours replaced by those of the first top-level grammar of that name, where First throws if there is none and a null colour name throws after the earlier replacements |
| Text.IndexOf | source/Apps/HL/Manager/XshtdLoader.cs:188 | the first position of the character, or -1 exactly when it does not occur |
| Text.LastIndexOf | source/Apps/HL/Manager/XshtdLoader.cs:166 | the last position of the character, or -1 exactly when it does not occur |
| Text.Split | source/Apps/HL/Manager/XshtdLoader.cs:72 | string.Split always gives at least one piece |
| Text.SplitPiecesHaveNoSeparator | source/Apps/HL/Manager/XshtdLoader.cs:72 | no piece of a split on ';' contains ';' |
| Text.JoinSplit | source/Apps/HL/Manager/XshtdLoader.cs:72 | joining the pieces of a split with the separator gives the string back |
| Text.SplitJoin | source/Apps/HL/Resources/HLResources.cs:57-61 | splitting a join of separator-free pieces gives the pieces back |
| Text.CaseFold | source/Apps/HL/Manager/HLTheme.cs:25 | the key under which a case-insensitive dictionary files a string: same length, each ASCII letter upper-cased and every other character kept |
| Text.CaseFoldIdempotent | source/Apps/HL/Manager/HLTheme.cs:25 | folding a folded key changes nothing |
| Text.NatToString | source/Apps/HL/Xshtd/XmlHighlightingThemeDefinition.cs:108 | a non-empty string of decimal digits |
| XshtdLoader.GetAttribute | source/Apps/HL/Manager/XshtdLoader.cs:68-69 | the attribute's value, null exactly when the attribute is absent |
| XshtdLoader.LoaderError | source/Apps/HL/Manager/XshtdLoader.cs:134-145 | a HighlightingDefinitionInvalidException with the message and the reader's line information, when it has any |
| XshtdLoader.CheckElementName | source/Apps/HL/Manager/XshtdLoader.cs:182-191 | passes exactly for null or for a non-empty name without '/'; the empty name and a name with '/' fail with their two messages |
| XshtdLoader.ParseRuleSetReference | source/Apps/HL/Manager/XshtdLoader.cs:160-180 | without the ruleSet attribute an empty reference; with it, the split at its last '/' |
| XshtdLoader.SplitRuleSet | source/Apps/HL/Manager/XshtdLoader.cs:166-174 | the rule set part has no '/'; there is no definition part exactly when the value has no '/', and then the rule set is the whole value; otherwise definition + "/" + rule set is the value |
| XshtdLoader.GetSystemColorBrush | source/Apps/HL/Manager/XshtdLoader.cs:236-244 | succeeds exactly when SystemColors has the property named after the text behind "SystemColors." plus "Brush", otherwise throws "Cannot find '<name>'." |
| XshtdLoader.ParseColor | source/Apps/HL/Manager/XshtdLoader.cs:226-251 | null exactly for a null or empty spec; a system brush only for a "SystemColors." spec; a fixed brush only from the literal converter; the failures of those two lookups |
| XshtdLoader.ParseFontWeight | source/Apps/HL/Manager/XshtdLoader.cs:253-258 | null exactly for a null or empty attribute, else the converter's value; fails exactly when the converter refuses it |
| XshtdLoader.ParseFontStyle | source/Apps/HL/Manager/XshtdLoader.cs:260-265 | null exactly for a null or empty attribute, else the converter's value; fails exactly when the converter refuses it |
| XshtdLoader.GetBoolAttribute | source/Apps/HL/Manager/XshtdLoader.cs:217 | null exactly when the attribute is absent, else the boolean conversion; fails exactly when the conversion refuses it |
| XshtdLoader.Position | source/Apps/HL/Manager/XshtdLoader.cs:150-158 | the reader's line and column, or 0 and 0 without line information |
| XshtdLoader.ParseNamedColor | source/Apps/HL/Manager/XshtdLoader.cs:194-220 | a colour of the given grammar with the name and example text attributes, the reader's position and the parsed foreground and background; a name CheckElementName refuses makes it fail |
| XshtdLoader.AfterAfter | source/Apps/HL/Manager/XshtdLoader.cs:103-114 | adding collected elements in two steps is adding them at once |
| XshtdLoader.SyntaxStack.constructor | source/Apps/HL/Manager/XshtdLoader.cs:52 | the stack starts empty |
| XshtdLoader.SyntaxStack.Push | source/Apps/HL/Manager/XshtdLoader.cs:74 | the entry goes on top |
| XshtdLoader.SyntaxStack.Peek | source/Apps/HL/Manager/XshtdLoader.cs:110 | the top entry, or InvalidOperationException exactly when the stack is empty |
| XshtdLoader.ParseElements | source/Apps/HL/Manager/XshtdLoader.cs:83-132 | the collected elements and the stack afterwards are those of the walk over the children, with its first exception |
| XshtdLoader.ParseSyntaxDefinition | source/Apps/HL/Manager/XshtdLoader.cs:62-81 | the parsed grammar and the stack are those of the walk's grammar step: name and split extensions, pushed, then the children |
| XshtdLoader.ParseDefinition | source/Apps/HL/Manager/XshtdLoader.cs:45-60 | a new document named after the root's name attribute holding the walk's elements, or the walk's exception |
| XshtdLoaderProperties.ForeignElementsSkipped | source/Apps/HL/Manager/XshtdLoader.cs:93-98 | walking a list gives the same result as walking its elements of the theme namespace alone |
| XshtdLoaderProperties.UnknownElementRejected | source/Apps/HL/Manager/XshtdLoader.cs:100-129 | an in-namespace element other than SyntaxDefinition or Color makes the walk fail |
| XshtdLoaderProperties.ColorOutsideSyntaxDefinitionRejected | source/Apps/HL/Manager/XshtdLoader.cs:109-112 | a Color before any SyntaxDefinition fails with the empty-stack exception of Peek |
| XshtdLoaderProperties.ParseNodesPushes | source/Apps/HL/Manager/XshtdLoader.cs:74-110 | the walk never pops: afterwards the stack is the old one plus one entry per parsed grammar, in document order |
| XshtdLoader.ParseNode | source/Apps/HL/Manager/XshtdLoader.cs:92-130 | a foreign element is skipped with the stack unchanged; an unknown name throws NotSupportedException with the element's name; a parsed Color belongs to the top of the stack and leaves it as it was |
| XshtdLoader.ParseNodes | source/Apps/HL/Manager/XshtdLoader.cs:84-132 | the loop yields at most one element per child node |
| XshtdLoaderProperties.ParseNodesWellFormed | source/Apps/HL/Manager/XshtdLoader.cs:109-115 | every parsed colour has a grammar and a name CheckElementName accepts |
| XshtdLoaderProperties.ParsedSyntaxDefinition | source/Apps/HL/Manager/XshtdLoader.cs:66-72 | a parsed grammar has the name attribute, the extensions attribute split on ';' (pieces free of ';' that join back to it, none without it) and position 0 |
| XshtdLoaderProperties.ColorAfterNestedDefinitionBelongsToIt | source/Apps/HL/Manager/XshtdLoader.cs:74-110 | a Color following a nested SyntaxDefinition belongs to the nested one, since nothing is popped |
| HLResources.ResourceKey | source/Apps/HL/Resources/HLResources.cs:17 | the manifest resource name is the prefix, one '.', then the name |
| HLResources.ResourceKeyInjective | source/Apps/HL/Resources/HLResources.cs:17 | under one prefix, different names give different resource names |
| HLResources.OpenStream | source/Apps/HL/Resources/HLResources.cs:15-22 | the stream is found exactly when the store holds prefix.name, and is that resource; otherwise FileNotFoundException with the source's message naming the file |
| XmlExtensionList.XmlExtensionsAreSplit | source/Apps/HL/Resources/HLResources.cs:57-60 | splitting the XML grammar's ';'-separated literal, written as in the source, gives the 27 extensions in order |
| HLResources.BuiltInHighlightings | source/Apps/HL/Resources/HLResources.cs:32-79 | the built-in table has 32 registrations |
| HLResources.BuiltInRows | source/Apps/HL/Resources/HLResources.cs:37-61 | XmlDoc comes first with no extensions; C#, HTML, C++ and XML have the source's extensions and resource files |
| Manager.FoldedCons | source/Apps/HL/Manager/HLTheme.cs:25 | the folded key set of a list is its first extension's folded key plus the rest's |
| Manager.WithExtensions | source/Apps/HL/Manager/HLTheme.cs:196-202 | every listed extension, folded, maps to the new definition; every other key keeps its old entry; the key set grows by exactly the folded extensions |
| Manager.RegisterByName | source/Apps/HL/Manager/HLTheme.cs:188-208 | a registration always appends to the list; a non-null name maps to the new definition and other names keep their lookup |
| Manager.Register | source/Apps/HL/Manager/HLTheme.cs:188-208 | a registration appends the definition to the list, never removes a name or extension key, and leaves every other name's entry alone |
| Manager.RegisterRows | source/Apps/HL/Resources/HLResources.cs:32-79 | registering the table keeps every old key and the old list as a prefix, and adds one definition per row |
| Manager.RegisterByExtension | source/Apps/HL/Manager/HLTheme.cs:196-202 | a listed extension, in any ASCII letter case, finds the new definition; an extension not listed keeps its lookup |
| Manager.RegisterKeepsIndexed | source/Apps/HL/Manager/HLTheme.cs:188-208 | if every lookup answer is among the registrations before, it still is after a registration |
| Manager.IndexedLookups | source/Apps/HL/Manager/HLTheme.cs:137-180 | under that invariant, a by-name or by-extension hit is a registered definition |
| Manager.RegisterRowsAppends | source/Apps/HL/Resources/HLResources.cs:32-79 | registering the table appends one delay-loaded definition per row, in row order |
| Manager.RegisterRowsKeepsOtherExtensions | source/Apps/HL/Resources/HLResources.cs:32-79 | an extension no row lists keeps its old entry, and gains none |
| Manager.RegisterRowsByExtension | source/Apps/HL/Resources/HLResources.cs:32-79 | when no two rows share an extension, each row's extension, in any ASCII letter case, finds that row's definition |
| Manager.OverlayRoot | source/Apps/HL/Manager/HLTheme.cs:237-249 | no document for a null or empty prefix or name; otherwise the stored resource under prefix.name, or FileNotFoundException |
| Manager.NoOverlayResolvesCleanly | source/Apps/HL/Manager/HLTheme.cs:214-228 | a theme without an overlay resolves without an exception |
| Manager.MissingOverlayFails | source/Apps/HL/Manager/HLTheme.cs:214-249 | an overlay whose resource is missing makes resolution fail with FileNotFoundException naming the file |
| Manager.HLTheme.constructor | source/Apps/HL/Manager/HLTheme.cs:35-50 | a new theme stores its key, prefix, names, overlay location and resolver, has no registrations and is not yet resolved |
| Manager.HLTheme.Plain | source/Apps/HL/Manager/HLTheme.cs:59-69 | the same without an overlay: HLPrefix and HLThemeName stay null, no resolver |
| Manager.HLTheme.RegisterHighlighting | source/Apps/HL/Manager/HLTheme.cs:188-208 | the collections become Register of the old ones; the resolution state is unchanged |
| Manager.HLTheme.ResolveOverlayDocument | source/Apps/HL/Manager/HLTheme.cs:237-249 | null without an overlay, the loader's error or document otherwise, as OverlayElements |
| Manager.HLTheme.ResolveHighLightingTheme | source/Apps/HL/Manager/HLTheme.cs:214-228 | the theme is resolved at most once: later calls change nothing; the first fills xshtd and HlTheme from the overlay, or fails with the loader's error; registrations are untouched |
| Manager.HLTheme.HlTheme | source/Apps/HL/Manager/HLTheme.cs:122-130 | resolve first; a resolution error is passed on; otherwise the resolved theme, null when there is none |
| Manager.HLTheme.GetDefinition | source/Apps/HL/Manager/HLTheme.cs:137-149 | resolve first; a null name throws ArgumentNullException; otherwise the by-name lookup |
| Manager.HLTheme.GetDefinitionByExtension | source/Apps/HL/Manager/HLTheme.cs:168-180 | resolve first; a null extension throws ArgumentNullException; otherwise the lookup with ASCII letter case ignored |
| Manager.HLTheme.GetThemeDefinition | source/Apps/HL/Manager/HLTheme.cs:154-162 | resolve first; without a resolved theme NullReferenceException; otherwise the resolved theme's definition of that name |
| Manager.RegisterBuiltInHighlightings | source/Apps/HL/Resources/HLResources.cs:32-79 | the theme's collections become those after registering every row in order; the resolution state is unchanged |
| AppsManager.ThemedHighlightingManager.constructor | source/Apps/HL/Manager/ThemedHighlightingManager.cs:33-47 | Dark, Light and TrueBlue under HL.Resources, filed by name, without overlays or registrations; Light is current |
| AppsManager.ThemedHighlightingManager.GetDefinition | source/Apps/HL/Manager/ThemedHighlightingManager.cs:74-83 | the current theme answers, resolution errors and null names included |
| AppsManager.ThemedHighlightingManager.GetDefinitionByExtension | source/Apps/HL/Manager/ThemedHighlightingManager.cs:106-118 | the theme filed under the current theme's name, which is the current theme, answers |
| AppsManager.ThemedHighlightingManager.RegisterHighlighting | source/Apps/HL/Manager/ThemedHighlightingManager.cs:126-138 | a null definition throws ArgumentNullException and changes nothing; otherwise the current theme, and only it, registers it |
| AppsManager.ThemedHighlightingManager.RegisterLazyHighlighting | source/Apps/HL/Manager/ThemedHighlightingManager.cs:146-152 | a null loader throws ArgumentNullException; otherwise a delay-loaded definition under the name is registered into the current theme |
| AppsManager.ThemedHighlightingManager.SetCurrentTheme | source/Apps/HL/Manager/ThemedHighlightingManager.cs:161-166 | null or unknown names throw and leave the current theme; a known one becomes current with the built-in table registered into it |
| AppsManager.ThemedHighlightingManager.GetPrefix | source/Apps/HL/Manager/ThemedHighlightingManager.cs:175-184 | null throws; a known theme gives prefix.name; an unknown theme gives null |
| AppsManager.NewManagerPrefixes | source/Apps/HL/Manager/ThemedHighlightingManager.cs:33-47 | a new manager's prefixes are HL.Resources.Dark, .Light and .TrueBlue, null for any other name, and no two themes share a prefix |
| HLManager.AsWrittenIgnoresHighlightingName | source/HL/Manager/ThemedHighlightingManager.cs:220-233 | as written, whether a grammar comes back does not depend on the highlighting name |
| HLManager.AsWrittenMissesRegisteredGrammar | source/HL/Manager/ThemedHighlightingManager.cs:229 | the Dark overlay defines XML, yet asking for ("Dark", "XML") as written finds nothing, while the intended lookup finds it |
| HLManager.FoundIffGrammarDefined | source/HL/Manager/ThemedHighlightingManager.cs:214-233 | corrected, a grammar comes back exactly when the overlay defines the requested highlighting name; never for a null name |
| HLManager.ThemedHighlightingManager.constructor | source/HL/Manager/ThemedHighlightingManager.cs:44-59 | Light without overlay is current; Dark and TrueBlue are based on Light and take their colours from Dark.xshtd and TrueBlue.xshtd under HL.Resources.Themes |
| HLManager.ThemedHighlightingManager.GetDefinition | source/HL/Manager/ThemedHighlightingManager.cs:86-95 | the current theme answers, resolution errors and null names included |
| HLManager.ThemedHighlightingManager.GetDefinitionByExtension | source/HL/Manager/ThemedHighlightingManager.cs:119-131 | the theme filed under the current key, which is the current theme, answers |
| HLManager.ThemedHighlightingManager.RegisterHighlighting | source/HL/Manager/ThemedHighlightingManager.cs:139-151 | a null definition throws ArgumentNullException; otherwise only the current theme registers it |
| HLManager.ThemedHighlightingManager.RegisterLazyHighlighting | source/HL/Manager/ThemedHighlightingManager.cs:159-165 | a null loader throws; otherwise a delay-loaded definition is registered into the current theme |
| HLManager.ThemedHighlightingManager.SetCurrentTheme | source/HL/Manager/ThemedHighlightingManager.cs:174-179 | null or unknown keys throw and leave the current theme; a known key becomes current with the built-in table registered into it |
| HLManager.ThemedHighlightingManager.GetPrefix | source/HL/Manager/ThemedHighlightingManager.cs:188-197 | null throws; a known key gives its base prefix; an unknown key gives null |
| HLManager.ThemedHighlightingManager.GetThemeDefinition | source/HL/Manager/ThemedHighlightingManager.cs:203-212 | the current theme answers: resolution errors, NullReferenceException without an overlay, or the overlay's grammar of that name |
| HLManager.ThemedHighlightingManager.GetThemeDefinitionAsWritten | source/HL/Manager/ThemedHighlightingManager.cs:220-233 | a null theme key throws; an unknown key gives null; a known theme is asked for the grammar named by the theme key |
| HLManager.ThemedHighlightingManager.GetThemeDefinitionFor | source/HL/Manager/ThemedHighlightingManager.cs:220-233 | the same, but the known theme is asked for the grammar named by the highlighting name |
| HLManager.NewManagerPrefixes | source/HL/Manager/ThemedHighlightingManager.cs:44-59 | every theme of a new manager has base prefix HL.Resources.Light; unknown keys give null |
| StyleDispatch.TargetsPartitionSlots | source/ThemedDemo/ViewModels/DocumentRootViewModel.cs:370-401 | exactly six type names are handled; each slot is recoloured by exactly one of them |
| StyleDispatch.Targets | source/ThemedDemo/ViewModels/DocumentRootViewModel.cs:370-401 | a known style writes at least one slot, and only slots that belong to that style |
| StyleDispatch.StyleWrites | source/ThemedDemo/ViewModels/DocumentRootViewModel.cs:370-401 | a style raises exactly when its type name is unsupported, and then ArgumentOutOfRangeException with the source's message |
| StyleDispatch.ApplyWritesSnoc | source/ThemedDemo/ViewModels/DocumentRootViewModel.cs:368-402 | applying one more call after a run is applying it to the run's result |
| StyleDispatch.ApplyWritesSlot | source/ThemedDemo/ViewModels/DocumentRootViewModel.cs:438-453 | a run of calls never adds or removes keys; a brush slot ends with the last non-null colour offered to it, and anything else is untouched |
| StyleDispatch.ApplyWritesIdempotent | source/ThemedDemo/ViewModels/DocumentRootViewModel.cs:368-402 | applying the same run of calls twice leaves what applying it once leaves |
| StyleDispatch.StyleOutcomes | source/ThemedDemo/ViewModels/DocumentRootViewModel.cs:368 | one outcome per style, in order |
| StyleDispatch.PlanStops | source/ThemedDemo/ViewModels/DocumentRootViewModel.cs:400-401 | once a style has raised, the later styles add no calls |
| StyleDispatch.PlanStep | source/ThemedDemo/ViewModels/DocumentRootViewModel.cs:368-402 | after an exception-free prefix a style either raises its error or appends its calls |
| StyleDispatch.PlanAllSucceed | source/ThemedDemo/ViewModels/DocumentRootViewModel.cs:368-402 | when no style raises, nothing is raised |
| StyleDispatch.FirstUnsupportedStyleRaises | source/ThemedDemo/ViewModels/DocumentRootViewModel.cs:400-401 | the first unsupported style raises, and the calls made are those of the styles before it |
| StyleDispatch.StylesSupported | source/ThemedDemo/ViewModels/DocumentRootViewModel.cs:368-402 | a theme whose styles are all supported raises nothing |
| StyleDispatch.AppResources.constructor | source/ThemedDemo/ViewModels/DocumentRootViewModel.cs:438-453 | the dictionary starts with the given slots |
| StyleDispatch.AppResources.ApplyToDynamicResource | source/ThemedDemo/ViewModels/DocumentRootViewModel.cs:438-453 | a brush slot takes a non-null colour; a null colour, a missing key or a non-brush resource leaves the dictionary unchanged; no other slot changes |
| StyleDispatch.AppResources.ApplyGlobalStyles | source/ThemedDemo/ViewModels/DocumentRootViewModel.cs:368-402 | the slots end as the planned calls leave them, and the first unsupported style's exception is returned |
| StyleDispatch.AppResources.ApplyStyle | source/ThemedDemo/ViewModels/DocumentRootViewModel.cs:370-401 | a supported TypeName makes exactly that style's calls, in order; an unsupported one changes nothing and is reported |
| DocumentView.LastDotBefore | source/ThemedDemo/ViewModels/DocumentRootViewModel.cs:422 | the position found holds a '.', and no '.' or separator follows it |
| DocumentView.Extension | source/ThemedDemo/ViewModels/DocumentRootViewModel.cs:422 | a non-empty extension is a suffix of the path, starts with '.', has at least one more character and no further '.' or separator |
| DocumentView.ExtensionOfSuffix | source/ThemedDemo/ViewModels/DocumentRootViewModel.cs:422 | a name ending in '.' and a suffix without '.' or separator has that suffix as extension |
| DocumentView.LastDotSkipsSuffix | source/ThemedDemo/ViewModels/DocumentRootViewModel.cs:422 | the search from any point past the last '.' finds that '.' |
| DocumentView.NoDotNoExtension | source/ThemedDemo/ViewModels/DocumentRootViewModel.cs:422 | a path without '.' has no extension |
| DocumentView.RefetchByNameFirst | source/ThemedDemo/ViewModels/DocumentRootViewModel.cs:408-416 | a hit by the current definition's name ends the re-fetch with that definition |
| DocumentView.RefetchFallsBackToExtension | source/ThemedDemo/ViewModels/DocumentRootViewModel.cs:418-429 | otherwise the file's extension decides; without a path or extension the definition becomes null |
| DocumentView.RefetchedIsRegistered | source/ThemedDemo/ViewModels/DocumentRootViewModel.cs:408-429 | whatever the re-fetch finds is a registered definition |
| DocumentView.Refetched | source/ThemedDemo/ViewModels/DocumentRootViewModel.cs:408-429 | the only exception is ArgumentNullException("key") for a current definition without a name; a definition found comes from the lookup by the current name or by the file's extension |
| DocumentView.NoHlThemeTouchesNoSlot | source/ThemedDemo/ViewModels/DocumentRootViewModel.cs:364 | with a null HlTheme no slot changes and the outcome is the re-fetch's |
| DocumentView.ThemeChanged | source/ThemedDemo/ViewModels/DocumentRootViewModel.cs:358-430 | on an exception the definition is not touched; the change completes exactly when every style is supported and the re-fetch does not throw, and then the definition is the re-fetched one |
| DocumentView.ThemeChangedSlotsIdempotent | source/ThemedDemo/ViewModels/DocumentRootViewModel.cs:358-430 | a second theme change with the same theme leaves the slots as the first left them |
| DocumentView.CommandSelection | source/ThemedDemo/ViewModels/DocumentRootViewModel.cs:195-210 | a definition is picked exactly when the parameter is a one-element array holding one, and it is that definition |
| AppsDocumentViewModel.DocumentRootViewModel.constructor | source/Apps/ThemedDemo/ViewModels/DocumentRootViewModel.cs:36-39 | no file and no highlighting |
| AppsDocumentViewModel.DocumentRootViewModel.OnAppThemeChanged | source/Apps/ThemedDemo/ViewModels/DocumentRootViewModel.cs:235-305 | a null manager changes nothing; otherwise slots, definition and outcome are those of ThemeChanged, and the file path is kept |
| AppsDocumentViewModel.DocumentRootViewModel.HighlightingChange | source/Apps/ThemedDemo/ViewModels/DocumentRootViewModel.cs:161-187 | a picked definition replaces the current one; any other parameter leaves it |
| DemoDocumentViewModel.Bom | source/ThemedDemo/ViewModels/DocumentRootViewModel.cs:327-333 | four bytes: the file's first bytes, zero where the file is shorter |
| DemoDocumentViewModel.FirstMatch | source/ThemedDemo/ViewModels/DocumentRootViewModel.cs:335-350 | the encoding is Default or one the table lists |
| DemoDocumentViewModel.GetEncodingFollowsTable | source/ThemedDemo/ViewModels/DocumentRootViewModel.cs:325-351 | the chain of checks is the first match of the padded mark in the table of byte order marks |
| DemoDocumentViewModel.GetEncoding | source/ThemedDemo/ViewModels/DocumentRootViewModel.cs:325-351 | each encoding other than Default is chosen exactly when the file starts with its byte order mark (a file too short for the mark never matches it) |
| DemoDocumentViewModel.MarkedFileEncoding | source/ThemedDemo/ViewModels/DocumentRootViewModel.cs:335-350 | a file starting with a listed mark that no earlier row matches gets that mark's encoding |
| DemoDocumentViewModel.FirstMatchAt | source/ThemedDemo/ViewModels/DocumentRootViewModel.cs:335-350 | the first matching row decides |
| DemoDocumentViewModel.LittleEndianUtf32ReadsAsUnicode | source/ThemedDemo/ViewModels/DocumentRootViewModel.cs:339-349 | FF FE 00 00 reads as Unicode, because the UTF-16 check comes first; an empty file reads as Default |
| DemoDocumentViewModel.Load | source/ThemedDemo/ViewModels/DocumentRootViewModel.cs:257-314 | a null path or missing file changes nothing and gives false; otherwise the read-only flag, the content, encoding and highlighting on success, and the cleared state with the error as reason on failure |
| DemoDocumentViewModel.LoadReadOnlyReason | source/ThemedDemo/ViewModels/DocumentRootViewModel.cs:265-270 | a successful load of a read-only file gives the fixed read-only message, and an empty reason otherwise |
| DemoDocumentViewModel.LoadedHighlightingIsRegistered | source/ThemedDemo/ViewModels/DocumentRootViewModel.cs:293-297 | the highlighting a load picks is a registered definition |
| DemoDocumentViewModel.DocumentRootViewModel.constructor | source/ThemedDemo/ViewModels/DocumentRootViewModel.cs:39-52 | an empty, clean, writable document in Encoding.Default, not loaded, without file or highlighting |
| DemoDocumentViewModel.DocumentRootViewModel.LoadDocument | source/ThemedDemo/ViewModels/DocumentRootViewModel.cs:257-314 | the new state and result are those of Load |
| DemoDocumentViewModel.DocumentRootViewModel.OnAppThemeChanged | source/ThemedDemo/ViewModels/DocumentRootViewModel.cs:358-430 | without a manager nothing happens; otherwise slots, definition and outcome are those of ThemeChanged, and the file path is kept |
| DemoDocumentViewModel.DocumentRootViewModel.HighlightingChange | source/ThemedDemo/ViewModels/DocumentRootViewModel.cs:189-215 | a picked definition replaces the current one; nothing else changes |

## Left out

- File, stream and resource I/O: `OpenStream`'s manifest lookup is a map lookup, `GetEncoding` classifies a given byte sequence, and `LoadDocument` sees the file through a `FileState` value; the reader's own encoding detection (`reader.CurrentEncoding`) is part of that value's `read` function.
- The XML reader, `XmlTextReader` positions and XSD schema validation: the loader walks an abstract tree of elements with namespace, name, attributes and optional line information; `reader.Skip` and validation errors are not modelled.
- The WPF converters (`ColorConverter`, `FontWeightConverter`, `FontStyleConverter`) and the `SystemColors` reflection lookup are partial functions given as parameters; colours are opaque values.
- All `lock` blocks: every call is modelled as sequential.
- `DefaultHighlightingManager` of both libraries (AvalonEdit's `HighlightingLoader` and `DelayLoadedHighlightingDefinition` wrappers): a built-in registration is a delay-loaded definition named by its grammar and resource file, and the grammars registered by that manager's own constructor are not modelled. `SetCurrentTheme` registers the built-in table into `DefaultHighlightingManager.Instance`; the model takes the manager at hand to be that instance, so the table goes into its new current theme.
- `HighlightingThemeDefinitionTypeConverter`, the interface files, `ThemeDefinition`, `ThemeDefinitionViewModel`, `ResourceKeys` and `MainWindow`: framework glue and signatures without behaviour of their own.
- `NotifyPropertyChanged` calls: property-change notification has no effect on the modelled state.
- `Application.Current.Resources` is a map from the editor's brush keys to a resource that is a SolidColorBrush of a colour or something else.
- `LoadDocument` of the application library demo (source/Apps/ThemedDemo/ViewModels/DocumentRootViewModel.cs:192-230) is not modelled: its lookup by extension is the same as the other demo's, whose `LoadDocument` is modelled in full.
- The theme constructors the managers call do not match the arity of the constructors in the HLTheme file: the application library's three-argument call is read as (key, prefix, display name) with the theme name equal to the key, and the HL library's six-argument call as (key, base theme name, display name, overlay prefix, overlay file, resolver), with every HL theme's base prefix `HL.Resources.Light` (what `HLBasePrefix` is taken to be).
- The branches of the managers that handle a null current theme (`HighlightingDefinitions` returning an empty list, `GetDefinitionByExtension` and the one-argument `GetThemeDefinition` returning null) cannot be reached: the constructors set a current theme, `SetCurrentTheme` only assigns known themes, and the managers' `Valid` invariant states this.
- HLTheme.HighlightingDefinitions has no contract of its own: it is the registration list of `State()`, whose contents `Manager.RegisterByName` and `Manager.RegisterRowsAppends` state.
- Manager.RegisterRowsByExtension: its premise that no two rows share an extension is not proved for the concrete 32-row table, so the order-independence of lookups after the built-in registration is stated for any disjoint table only.
- The table's independence from `namespaceBase` and `currentTheme` holds by construction: `RegisterBuiltInHighlightings` takes only the theme and the rows.
- The built-in table is held by each manager as `builtIns` (set to `BuiltInHighlightings()` by the constructor) rather than rebuilt on every `SetCurrentTheme`.
- Null elements inside an extension array given to `RegisterHighlighting` (a null dictionary key throws in .NET) are not modelled: extensions are strings.
- `XshtdLoader.LoadXshd` and its `HighlightingLoader` caller are taken to be `ParseDefinition` over the overlay document; the resource store and the converters are parameters of each theme.
- `TranslateElementVisitor.VisitColor` is modelled only as what it does: it throws for any Color among the top-level elements (its null check is inverted), so such a document never resolves; it is not a path by which colours are filled.
- In the view models the manager is seen through `ManagerView`, the current theme's GlobalStyles and registrations; an exception thrown while the theme resolves during a lookup is not modelled there. In `LoadDocument` such an exception would be caught by the same catch block as a read failure.
- A definition supplied by the application (not a built-in) is named by its id when the re-fetch asks for its `Name`.
- StyleDispatch.StyleWrites: its contract states when a style raises and with what error; the calls it makes for a supported style (the slot table) are stated by `StyleDispatch.TargetsPartitionSlots` and the body of `Targets`.
- The demo's UTF-32 check (00 00 FE FF) returns `Encoding.UTF32`, which is .NET's little-endian UTF-32, although that mark is the big-endian one; the model keeps the code's choice.
- Text.CaseFold: folds only the ASCII letters 'a' to 'z', whereas `StringComparer.OrdinalIgnoreCase` also folds non-ASCII letters, so ".É" and ".é" are one key in the source and two in the model; every built-in extension is ASCII. The letter-case claims of `Manager.RegisterByExtension`, `Manager.RegisterRowsByExtension` and `Manager.HLTheme.GetDefinitionByExtension` inherit this.
- Integer widths: line numbers and positions are unbounded naturals.

## Findings

| source | as written | input that shows it | evidently intended | confidence | as-written member | corrected member |
|---|---|---|---|---|---|---|
| source/HL/Manager/ThemedHighlightingManager.cs:229 | the theme found under `hlThemeName` is asked for the grammar called `hlThemeName`, so `highlightingName` is never used | the Dark overlay defines the grammar "XML"; asking for ("Dark", "XML") looks up a grammar called "Dark" and gets null | the theme is asked for the grammar called `highlightingName`, so ("Dark", "XML") gives the Dark colours of XML | high, not executed | HLManager.ThemedHighlightingManager.GetThemeDefinitionAsWritten, HLManager.AsWrittenMissesRegisteredGrammar | HLManager.ThemedHighlightingManager.GetThemeDefinitionFor, HLManager.FoundIffGrammarDefined |

/** HLResources: the embedded-resource lookup and the fixed table of built-in
    grammars. The assembly's manifest resources are a map from resource key to the
    XML document stored under it. */
module HLResources {
  import opened Wrappers
  import opened Errors
  import opened Text
  import opened XshtdLoader
  import opened XmlExtensionList

  /** The assembly's embedded resources, by manifest resource name. */
  type ResourceStore = map<string, XmlNode>

  /** The manifest resource name of `name` under the namespace `prefix`. */
  function ResourceKey(prefix: string, name: string): (k: string)
    ensures |k| == |prefix| + 1 + |name|
    ensures k[..|prefix|] == prefix && k[|prefix|] == '.' && k[|prefix| + 1..] == name
  {
    prefix + "." + name
  }

  /** Two keys with the same prefix differ when the names differ. */
  lemma ResourceKeyInjective(prefix: string, a: string, b: string)
    requires ResourceKey(prefix, a) == ResourceKey(prefix, b)
    ensures a == b
  {
    assert a == ResourceKey(prefix, a)[|prefix| + 1..];
  }

  /** OpenStream: the resource stored under `prefix + "." + name`, or a
      FileNotFoundException naming `name` when there is none. */
  function OpenStream(store: ResourceStore, prefix: string, name: string): (r: Result<XmlNode, Error>)
    ensures r.Success? <==> ResourceKey(prefix, name) in store
    ensures r.Success? ==> r.value == store[ResourceKey(prefix, name)]
    ensures r.Failure? ==> r.error == FileNotFound("The resource file '" + name + "' was not found.")
  {
    var key := ResourceKey(prefix, name);
    if key in store then Success(store[key])
    else Failure(FileNotFound("The resource file '" + name + "' was not found."))
  }

  /** One row of the built-in table: grammar name, file extensions (null for
      XmlDoc) and the resource holding the grammar. */
  datatype BuiltIn = BuiltIn(name: string, extensions: Option<seq<string>>, resource: string)

  /** The registrations of RegisterBuiltInHighlightings, in call order. Its
      `namespaceBase` and `currentTheme` parameters are never read, so the table
      takes none. */
  function BuiltInHighlightings(): (t: seq<BuiltIn>)
    ensures |t| == 32
  {
    seq(32, i requires 0 <= i < 32 => BuiltInRow(i))
  }

  /** Row `i` of the table: the `i`-th RegisterHighlighting call (the last,
      row 31, is the `_` case). */
  function BuiltInRow(i: int): BuiltIn
    requires 0 <= i < 32
  {
    match i
    case 0 => BuiltIn("XmlDoc", None, "XmlDoc.xshd")
    case 1 => BuiltIn("C#", Some([".cs"]), "CSharp-Mode.xshd")
    case 2 => BuiltIn("JavaScript", Some([".js"]), "JavaScript-Mode.xshd")
    case 3 => BuiltIn("HTML", Some([".htm", ".html"]), "HTML-Mode.xshd")
    case 4 => BuiltIn("ASP/XHTML", Some([".asp", ".aspx", ".asax", ".asmx", ".ascx", ".master"]), "ASPX.xshd")
    case 5 => BuiltIn("Boo", Some([".boo"]), "Boo.xshd")
    case 6 => BuiltIn("Coco", Some([".atg"]), "Coco-Mode.xshd")
    case 7 => BuiltIn("CSS", Some([".css"]), "CSS-Mode.xshd")
    case 8 => BuiltIn("C++", Some([".c", ".h", ".cc", ".cpp", ".hpp"]), "CPP-Mode.xshd")
    case 9 => BuiltIn("Java", Some([".java"]), "Java-Mode.xshd")
    case 10 => BuiltIn("Patch", Some([".patch", ".diff"]), "Patch-Mode.xshd")
    case 11 => BuiltIn("PowerShell", Some([".ps1", ".psm1", ".psd1"]), "PowerShell.xshd")
    case 12 => BuiltIn("PHP", Some([".php"]), "PHP-Mode.xshd")
    case 13 => BuiltIn("Python", Some([".py", ".pyw"]), "Python-Mode.xshd")
    case 14 => BuiltIn("TeX", Some([".tex"]), "Tex-Mode.xshd")
    case 15 => BuiltIn("TSQL", Some([".sql"]), "TSQL-Mode.xshd")
    case 16 => BuiltIn("VB", Some([".vb"]), "VB-Mode.xshd")
    case 17 => BuiltIn("XML", Some(XmlExtensions), "XML-Mode.xshd")
    case 18 => BuiltIn("MarkDown", Some([".md"]), "MarkDown-Mode.xshd")
    case 19 => BuiltIn("ActionScript3", Some([".as"]), "AS3.xshd")
    case 20 => BuiltIn("BAT", Some([".bat", ".dos"]), "DOSBATCH.xshd")
    case 21 => BuiltIn("F#", Some([".fs"]), "FSharp-Mode.xshd")
    case 22 => BuiltIn("HLSL", Some([".fx"]), "HLSL.xshd")
    case 23 => BuiltIn("INI", Some([".cfg", ".conf", ".ini", ".iss"]), "INI.xshd")
    case 24 => BuiltIn("LOG", Some([".log"]), "Log.xshd")
    case 25 => BuiltIn("Pascal", Some([".pas"]), "Pascal.xshd")
    case 26 => BuiltIn("PLSQL", Some([".plsql"]), "PLSQL.xshd")
    case 27 => BuiltIn("Ruby", Some([".rb"]), "Ruby.xshd")
    case 28 => BuiltIn("Scheme", Some([".sls", ".sps", ".ss", ".scm"]), "scheme.xshd")
    case 29 => BuiltIn("Squirrel", Some([".nut"]), "squirrel.xshd")
    case 30 => BuiltIn("TXT", Some([".txt"]), "TXT.xshd")
    case _ => BuiltIn("VTL", Some([".vtl", ".vm"]), "vtl.xshd")
  }

  /** Some rows of the table: XmlDoc comes first and has no extensions; C#, HTML,
      C++ and XML have the extensions the source lists. */
  lemma BuiltInRows()
    ensures BuiltInHighlightings()[0] == BuiltIn("XmlDoc", None, "XmlDoc.xshd")
    ensures BuiltInHighlightings()[1] == BuiltIn("C#", Some([".cs"]), "CSharp-Mode.xshd")
    ensures BuiltInHighlightings()[3] == BuiltIn("HTML", Some([".htm", ".html"]), "HTML-Mode.xshd")
    ensures BuiltInHighlightings()[8] == BuiltIn("C++", Some([".c", ".h", ".cc", ".cpp", ".hpp"]), "CPP-Mode.xshd")
    ensures BuiltInHighlightings()[17] == BuiltIn("XML", Some(XmlExtensions), "XML-Mode.xshd")
  {
  }
}

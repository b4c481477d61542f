/** The extension list of the built-in XML grammar, which the registration
    table writes as one ';'-separated literal and splits at run time. */
module XmlExtensionList {
  import opened Text

  /** The pieces of the literal, in the literal's order. */
  const XmlExtensions: seq<string> := [
    ".xml", ".xsl", ".xslt", ".xsd", ".manifest", ".config", ".addin",
    ".xshd", ".wxs", ".wxi", ".wxl", ".proj", ".csproj", ".vbproj", ".ilproj",
    ".booproj", ".build", ".xfrm", ".targets", ".xaml", ".xpt",
    ".xft", ".map", ".wsdl", ".disco", ".ps1xml", ".nuspec"]

  /** The literal the XML registration splits on ';', with each ';' written as
      its own piece. */
  const XmlExtensionLiteral: string :=
    ".xml" + ";" + ".xsl" + ";" + ".xslt" + ";" + ".xsd" + ";" + ".manifest" + ";" + ".config" + ";" + ".addin" + ";" +
    ".xshd" + ";" + ".wxs" + ";" + ".wxi" + ";" + ".wxl" + ";" + ".proj" + ";" + ".csproj" + ";" + ".vbproj" + ";" + ".ilproj" + ";" +
    ".booproj" + ";" + ".build" + ";" + ".xfrm" + ";" + ".targets" + ";" + ".xaml" + ";" + ".xpt" + ";" +
    ".xft" + ";" + ".map" + ";" + ".wsdl" + ";" + ".disco" + ";" + ".ps1xml" + ";" + ".nuspec"

  /** Splitting the literal on ';' gives the 27 extensions back, in order. */
  lemma XmlExtensionsAreSplit()
    ensures Split(XmlExtensionLiteral, ';') == XmlExtensions
    ensures |Split(XmlExtensionLiteral, ';')| == 27
  {
    SplitPieces6(".xml" + ";" + ".xsl" + ";" + ".xslt" + ";" + ".xsd" + ";" + ".manifest" + ";" + ".config" + ";" + ".addin" + ";" + ".xshd" + ";" + ".wxs" + ";" + ".wxi" + ";" + ".wxl" + ";" + ".proj" + ";" + ".csproj" + ";" + ".vbproj" + ";" + ".ilproj" + ";" + ".booproj" + ";" + ".build" + ";" + ".xfrm" + ";" + ".targets" + ";" + ".xaml" + ";" + ".xpt" + ";" + ".xft" + ";" + ".map" + ";" + ".wsdl" + ";" + ".disco");
    SplitPieces5(".xml" + ";" + ".xsl" + ";" + ".xslt" + ";" + ".xsd" + ";" + ".manifest" + ";" + ".config" + ";" + ".addin" + ";" + ".xshd" + ";" + ".wxs" + ";" + ".wxi" + ";" + ".wxl" + ";" + ".proj" + ";" + ".csproj" + ";" + ".vbproj" + ";" + ".ilproj" + ";" + ".booproj" + ";" + ".build" + ";" + ".xfrm" + ";" + ".targets" + ";" + ".xaml" + ";" + ".xpt");
    SplitPieces4(".xml" + ";" + ".xsl" + ";" + ".xslt" + ";" + ".xsd" + ";" + ".manifest" + ";" + ".config" + ";" + ".addin" + ";" + ".xshd" + ";" + ".wxs" + ";" + ".wxi" + ";" + ".wxl" + ";" + ".proj" + ";" + ".csproj" + ";" + ".vbproj" + ";" + ".ilproj" + ";" + ".booproj" + ";" + ".build");
    SplitPieces3(".xml" + ";" + ".xsl" + ";" + ".xslt" + ";" + ".xsd" + ";" + ".manifest" + ";" + ".config" + ";" + ".addin" + ";" + ".xshd" + ";" + ".wxs" + ";" + ".wxi" + ";" + ".wxl" + ";" + ".proj" + ";" + ".csproj");
    SplitPieces2(".xml" + ";" + ".xsl" + ";" + ".xslt" + ";" + ".xsd" + ";" + ".manifest" + ";" + ".config" + ";" + ".addin" + ";" + ".xshd" + ";" + ".wxs");
    SplitPieces1(".xml" + ";" + ".xsl" + ";" + ".xslt" + ";" + ".xsd" + ";" + ".manifest");
    SplitPieces0(".xml");
    SplitFirstPiece();
    PiecesAreExtensions();
  }

  /** The first extension has no ';' and splits to itself. */
  lemma SplitFirstPiece()
    ensures Split(".xml", ';') == [".xml"]
  {
    assert IndexOf(".xml", ';') < 0;
  }

  /** The one-element lists the split produces add up to the extension list. */
  lemma PiecesAreExtensions()
    ensures [".xml"] + [".xsl"] + [".xslt"] + [".xsd"] + [".manifest"] + [".config"] + [".addin"] + [".xshd"] + [".wxs"] + [".wxi"] + [".wxl"] + [".proj"] + [".csproj"] + [".vbproj"] + [".ilproj"] + [".booproj"] + [".build"] + [".xfrm"] + [".targets"] + [".xaml"] + [".xpt"] + [".xft"] + [".map"] + [".wsdl"] + [".disco"] + [".ps1xml"] + [".nuspec"] == XmlExtensions
  {
  }

  /** Appending the pieces .xsl to .manifest to a string, each after a ';', adds
      them, in order, to the string's split. */
  lemma SplitPieces0(p: string)
    ensures Split(p + ";" + ".xsl" + ";" + ".xslt" + ";" + ".xsd" + ";" + ".manifest", ';')
            == Split(p, ';') + [".xsl"] + [".xslt"] + [".xsd"] + [".manifest"]
  {
    SplitAround(p, ".xsl", ';');
    SplitAround(p + ";" + ".xsl", ".xslt", ';');
    SplitAround(p + ";" + ".xsl" + ";" + ".xslt", ".xsd", ';');
    SplitAround(p + ";" + ".xsl" + ";" + ".xslt" + ";" + ".xsd", ".manifest", ';');
  }

  /** Appending the pieces .config to .wxs to a string, each after a ';', adds
      them, in order, to the string's split. */
  lemma SplitPieces1(p: string)
    ensures Split(p + ";" + ".config" + ";" + ".addin" + ";" + ".xshd" + ";" + ".wxs", ';')
            == Split(p, ';') + [".config"] + [".addin"] + [".xshd"] + [".wxs"]
  {
    SplitAround(p, ".config", ';');
    SplitAround(p + ";" + ".config", ".addin", ';');
    SplitAround(p + ";" + ".config" + ";" + ".addin", ".xshd", ';');
    SplitAround(p + ";" + ".config" + ";" + ".addin" + ";" + ".xshd", ".wxs", ';');
  }

  /** Appending the pieces .wxi to .csproj to a string, each after a ';', adds
      them, in order, to the string's split. */
  lemma SplitPieces2(p: string)
    ensures Split(p + ";" + ".wxi" + ";" + ".wxl" + ";" + ".proj" + ";" + ".csproj", ';')
            == Split(p, ';') + [".wxi"] + [".wxl"] + [".proj"] + [".csproj"]
  {
    SplitAround(p, ".wxi", ';');
    SplitAround(p + ";" + ".wxi", ".wxl", ';');
    SplitAround(p + ";" + ".wxi" + ";" + ".wxl", ".proj", ';');
    SplitAround(p + ";" + ".wxi" + ";" + ".wxl" + ";" + ".proj", ".csproj", ';');
  }

  /** Appending the pieces .vbproj to .build to a string, each after a ';', adds
      them, in order, to the string's split. */
  lemma SplitPieces3(p: string)
    ensures Split(p + ";" + ".vbproj" + ";" + ".ilproj" + ";" + ".booproj" + ";" + ".build", ';')
            == Split(p, ';') + [".vbproj"] + [".ilproj"] + [".booproj"] + [".build"]
  {
    SplitAround(p, ".vbproj", ';');
    SplitAround(p + ";" + ".vbproj", ".ilproj", ';');
    SplitAround(p + ";" + ".vbproj" + ";" + ".ilproj", ".booproj", ';');
    SplitAround(p + ";" + ".vbproj" + ";" + ".ilproj" + ";" + ".booproj", ".build", ';');
  }

  /** Appending the pieces .xfrm to .xpt to a string, each after a ';', adds
      them, in order, to the string's split. */
  lemma SplitPieces4(p: string)
    ensures Split(p + ";" + ".xfrm" + ";" + ".targets" + ";" + ".xaml" + ";" + ".xpt", ';')
            == Split(p, ';') + [".xfrm"] + [".targets"] + [".xaml"] + [".xpt"]
  {
    SplitAround(p, ".xfrm", ';');
    SplitAround(p + ";" + ".xfrm", ".targets", ';');
    SplitAround(p + ";" + ".xfrm" + ";" + ".targets", ".xaml", ';');
    SplitAround(p + ";" + ".xfrm" + ";" + ".targets" + ";" + ".xaml", ".xpt", ';');
  }

  /** Appending the pieces .xft to .disco to a string, each after a ';', adds
      them, in order, to the string's split. */
  lemma SplitPieces5(p: string)
    ensures Split(p + ";" + ".xft" + ";" + ".map" + ";" + ".wsdl" + ";" + ".disco", ';')
            == Split(p, ';') + [".xft"] + [".map"] + [".wsdl"] + [".disco"]
  {
    SplitAround(p, ".xft", ';');
    SplitAround(p + ";" + ".xft", ".map", ';');
    SplitAround(p + ";" + ".xft" + ";" + ".map", ".wsdl", ';');
    SplitAround(p + ";" + ".xft" + ";" + ".map" + ";" + ".wsdl", ".disco", ';');
  }

  /** Appending the pieces .ps1xml to .nuspec to a string, each after a ';', adds
      them, in order, to the string's split. */
  lemma SplitPieces6(p: string)
    ensures Split(p + ";" + ".ps1xml" + ";" + ".nuspec", ';')
            == Split(p, ';') + [".ps1xml"] + [".nuspec"]
  {
    SplitAround(p, ".ps1xml", ';');
    SplitAround(p + ";" + ".ps1xml", ".nuspec", ';');
  }
}

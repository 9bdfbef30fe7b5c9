/** The web front end's pure helpers: which uploaded file names are accepted,
    the name of the annotated file sent back, and how the requested hand size
    becomes the seven hand-size switches. */
module Upload {
  import opened Text
  import opened Notes
  import opened Options

  /** Extensions accepted for upload, compared in lower case. */
  const AllowedExtensions: set<string> := {"mid", "midi", "xml", "musicxml", "mscz", "mscx"}

  /** `allowed_file`: the name has a '.', and the text after its last '.',
      lower-cased, is one of the accepted extensions. */
  predicate AllowedFile(filename: string) {
    '.' in filename &&
    Lower(filename[RFind(filename, '.') + 1..]) in AllowedExtensions
  }

  /** Only the text after the last '.' decides, whatever comes before it. */
  lemma AllowedByLastExtension(root: string, ext: string)
    requires '.' !in ext
    ensures AllowedFile(root + "." + ext) <==> Lower(ext) in AllowedExtensions
  {
    var f := root + "." + ext;
    assert f[|root| + 1..] == ext;
    RFindAt(f, '.', |root|);
    assert f[|root|] == '.';
  }

  /** A name without '.' is never accepted. */
  lemma NoDotRejected(filename: string)
    requires '.' !in filename
    ensures !AllowedFile(filename)
  {
  }

  /** Upper-case extensions are accepted. */
  lemma UpperCaseAccepted()
    ensures AllowedFile("Song.MID")
  {
    AllowedByLastExtension("Song", "MID");
    assert "Song" + "." + "MID" == "Song.MID";
    assert Lower("MID") == "mid";
  }

  /** A second '.' does not matter. */
  lemma TwoDotsAccepted()
    ensures AllowedFile("a.b.xml")
  {
    AllowedByLastExtension("a.b", "xml");
    assert "a.b" + "." + "xml" == "a.b.xml";
    assert Lower("xml") == "xml";
  }

  /** Only the last extension counts: `a.mid.txt` is refused. */
  lemma LastExtensionCounts()
    ensures !AllowedFile("a.mid.txt")
  {
    AllowedByLastExtension("a.mid", "txt");
    assert "a.mid" + "." + "txt" == "a.mid.txt";
    assert Lower("txt") == "txt";
    assert "txt" !in AllowedExtensions;
  }

  /** A name ending in '.' has an empty extension and is refused. */
  lemma EmptyExtensionRejected()
    ensures !AllowedFile("x.")
  {
    AllowedByLastExtension("x", "");
    assert "x" + "." + "" == "x.";
    assert Lower("") == "";
  }

  /** Extensions outside the accepted set are refused. */
  lemma TxtRejected()
    ensures !AllowedFile("a.txt")
  {
    AllowedByLastExtension("a", "txt");
    assert "a" + "." + "txt" == "a.txt";
    assert Lower("txt") == "txt";
    assert "txt" !in AllowedExtensions;
  }

  lemma AbcRejected()
    ensures !AllowedFile("a.abc")
  {
    AllowedByLastExtension("a", "abc");
    assert "a" + "." + "abc" == "a.abc";
    assert Lower("abc") == "abc";
    assert "abc" !in AllowedExtensions;
  }

  /** Accepted is not the same as supported: the upload check ignores case
      but the pipeline's substring tests do not, so `Song.MID` is accepted
      and then classified as unsupported. */
  lemma AcceptedButUnsupported()
    ensures AllowedFile("Song.MID") && Classify("Song.MID") == Unsupported
  {
    UpperCaseAccepted();
    UpperCaseUnsupported("Song", ".MID");
    assert "Song" + ".MID" == "Song.MID";
  }

  /** The name of the annotated file: `annotated_`, the upload's name without
      its extension, and `.xml`. */
  function OutputName(filename: string): (out: string)
    ensures |out| >= 14 && out[..10] == "annotated_" && out[|out| - 4..] == ".xml"
  {
    "annotated_" + SplitExt(filename).0 + ".xml"
  }

  /** Whatever the upload's extension, the output is a score and never the
      tabular PIG file. */
  lemma OutputNameNeverTabular(filename: string)
    ensures !IsTabularOutput(OutputName(filename))
  {
    var root := "annotated_" + SplitExt(filename).0;
    assert OutputName(filename) == root + ".xml";
    SplitExtOfSuffix(root, ".xml");
  }

  /** For a plain name the stem is kept and the extension replaced. */
  lemma OutputNamePlain(stem: string, ext: string)
    requires stem != [] && '.' !in stem && '/' !in stem && '.' !in ext && '/' !in ext
    ensures OutputName(stem + "." + ext) == "annotated_" + stem + ".xml"
  {
    SplitExtPlain(stem, ext);
  }

  /** Only the last extension is replaced: `a.b.mid` gives `annotated_a.b.xml`. */
  lemma OutputNameKeepsInnerDots()
    ensures OutputName("a.b.mid") == "annotated_a.b.xml"
  {
    assert "a.b" + "." + "mid" == "a.b.mid";
    assert RFind("a.b", '/') == -1;
    SplitExtAtLastDot("a.b", "mid", 0);
  }

  /** The requested size: the form's `handSize` field, "M" when absent. */
  function RequestedSize(form: map<string, string>): string {
    if "handSize" in form then form["handSize"] else "M"
  }

  /** The seven switches for a requested size: each is on exactly when the
      request names its size. */
  function FlagsFor(code: string): HandSizeFlags {
    HandSizeFlags(code == "XXS", code == "XS", code == "S", code == "M",
                  code == "L", code == "XL", code == "XXL")
  }

  function SizeName(h: HandSize): string {
    match h
    case XXS => "XXS"
    case XS => "XS"
    case S => "S"
    case M => "M"
    case L => "L"
    case XL => "XL"
    case XXL => "XXL"
  }

  /** At most one switch is on, and it is the one the request names. */
  lemma AtMostOneFlag(code: string, g: HandSize, h: HandSize)
    requires FlagSet(FlagsFor(code), g) && FlagSet(FlagsFor(code), h)
    ensures g == h && code == SizeName(g)
  {
  }

  /** A size named in the request is the size the pipeline selects. */
  lemma RequestedSizeSelected(h: HandSize)
    ensures SelectedSize(FlagsFor(SizeName(h))) == h
  {
  }

  /** A request that names no size turns every switch off, so the pipeline
      falls back to M. */
  lemma UnknownSizeFallsBackToM(code: string)
    requires forall h: HandSize :: code != SizeName(h)
    ensures forall h: HandSize :: !FlagSet(FlagsFor(code), h)
    ensures SelectedSize(FlagsFor(code)) == M
  {
    assert code != SizeName(XXS) && code != SizeName(XS) && code != SizeName(S) &&
           code != SizeName(M) && code != SizeName(L) && code != SizeName(XL) &&
           code != SizeName(XXL);
  }

  /** Without a `handSize` field the request asks for M. */
  lemma MissingSizeIsM(form: map<string, string>)
    requires "handSize" !in form
    ensures SelectedSize(FlagsFor(RequestedSize(form))) == M
  {
  }
}

/** The decisions `annotate` takes before any fingering is computed: the hand
    size from the command-line flags, the kind of input from substrings of its
    name, the MusicXML path the score is read from, and whether the output is
    the tabular PIG file or an annotated score. */
module Options {
  import opened Text
  import opened Notes

  // ---------------------------------------------------------------------------
  // Hand size

  /** The seven `hand_size_*` switches. */
  datatype HandSizeFlags = HandSizeFlags(xxs: bool, xs: bool, s: bool, m: bool,
                                         l: bool, xl: bool, xxl: bool)

  /** Position of a size, smallest first. */
  function Order(h: HandSize): nat {
    match h
    case XXS => 0
    case XS => 1
    case S => 2
    case M => 3
    case L => 4
    case XL => 5
    case XXL => 6
  }

  /** The switch that asks for size `h` is on. */
  predicate FlagSet(f: HandSizeFlags, h: HandSize) {
    match h
    case XXS => f.xxs
    case XS => f.xs
    case S => f.s
    case M => f.m
    case L => f.l
    case XL => f.xl
    case XXL => f.xxl
  }

  /** The size `annotate` settles on: the largest size whose switch is on, and
      M when no switch is on. */
  function SelectedSize(f: HandSizeFlags): (h: HandSize)
    ensures forall g: HandSize :: FlagSet(f, g) ==> Order(g) <= Order(h)
    ensures FlagSet(f, h) || (h == M && forall g: HandSize :: !FlagSet(f, g))
  {
    if f.xxl then XXL
    else if f.xl then XL
    else if f.l then L
    else if f.m then M
    else if f.s then S
    else if f.xs then XS
    else if f.xxs then XXS
    else M
  }

  /** The chain of overwrites in `annotate`: start from M and let every switch
      that is on, taken smallest first, overwrite the choice. */
  method ResolveHandSize(f: HandSizeFlags) returns (handSize: HandSize)
    ensures handSize == SelectedSize(f)
  {
    handSize := M;
    if f.xxs { handSize := XXS; }
    if f.xs { handSize := XS; }
    if f.s { handSize := S; }
    if f.m { handSize := M; }
    if f.l { handSize := L; }
    if f.xl { handSize := XL; }
    if f.xxl { handSize := XXL; }
  }

  // ---------------------------------------------------------------------------
  // Input dispatch

  datatype InputKind = MuseScore | PigText | Midi | MusicXml | Unsupported

  /** The substring tests of `annotate`, in their order: `.msc`, then `.txt`,
      then any of `.mid`, `.midi`, `.xml`, `.musicxml`, where `.mid`/`.midi`
      asks for a conversion from MIDI. */
  function Classify(f: string): (k: InputKind)
    ensures k == MuseScore <==> Contains(f, ".msc")
    ensures k == PigText <==> !Contains(f, ".msc") && Contains(f, ".txt")
    ensures k == Midi <==> !Contains(f, ".msc") && !Contains(f, ".txt") && Contains(f, ".mid")
    ensures k == MusicXml <==>
              !Contains(f, ".msc") && !Contains(f, ".txt") && !Contains(f, ".mid") &&
              (Contains(f, ".xml") || Contains(f, ".musicxml"))
  {
    MidiNamesContainMid(f);
    if Contains(f, ".msc") then MuseScore
    else if Contains(f, ".txt") then PigText
    else if Contains(f, ".mid") || Contains(f, ".midi") || Contains(f, ".xml") || Contains(f, ".musicxml") then
      if Contains(f, ".mid") || Contains(f, ".midi") then Midi else MusicXml
    else Unsupported
  }

  /** A name containing `.midi` contains `.mid`, so the `.midi` test never
      decides anything on its own. */
  lemma MidiNamesContainMid(f: string)
    ensures Contains(f, ".midi") ==> Contains(f, ".mid")
  {
    if Contains(f, ".midi") {
      var i: nat :| i <= |f| - 5 && OccursAt(f, ".midi", i);
      assert f[i..i + 4] == f[i..i + 5][..4];
      assert OccursAt(f, ".mid", i);
    }
  }

  /** The names of all four outcomes other than `Unsupported`. */
  lemma UnsupportedIffNoKnownSubstring(f: string)
    ensures Classify(f) == Unsupported <==>
              !Contains(f, ".msc") && !Contains(f, ".txt") && !Contains(f, ".mid") &&
              !Contains(f, ".xml") && !Contains(f, ".musicxml")
  {
  }

  /** The path the score is read from: a MuseScore file is converted next to
      itself with `.xml` in place of `.mscz`/`.mscx`, a MIDI file next to
      itself with `.musicxml` in place of `.mid` and then of `.midi`; other
      inputs are read where they are. */
  function XmlPath(f: string): string {
    match Classify(f)
    case MuseScore => Replace(Replace(f, ".mscz", ".xml"), ".mscx", ".xml")
    case Midi => Replace(Replace(f, ".mid", ".musicxml"), ".midi", ".musicxml")
    case _ => f
  }

  // ---------------------------------------------------------------------------
  // Plain file names: a stem without '.' and one extension

  /** In a text whose only '.' is its first character, a pattern starting with
      '.' occurs exactly when it is a prefix. */
  lemma DottedPrefix(t: string, sub: string)
    requires |t| > 0 && t[0] == '.' && '.' !in t[1..]
    requires |sub| > 0 && sub[0] == '.'
    ensures Contains(t, sub) <==> |sub| <= |t| && t[..|sub|] == sub
  {
    if Contains(t, sub) {
      var i: nat :| i <= |t| - |sub| && OccursAt(t, sub, i);
      assert t[i] == sub[0];
    }
    if |sub| <= |t| && t[..|sub|] == sub {
      assert OccursAt(t, sub, 0);
    }
  }

  /** For `stem + ext` with a dotless stem and an extension whose only '.' is
      its first character, each dotted test looks at the extension alone. */
  lemma PlainContains(stem: string, ext: string, sub: string)
    requires '.' !in stem && |ext| > 0 && ext[0] == '.' && '.' !in ext[1..]
    requires |sub| > 0 && sub[0] == '.'
    ensures Contains(stem + ext, sub) <==> |sub| <= |ext| && ext[..|sub|] == sub
  {
    ContainsAfterStem(stem, ext, sub);
    DottedPrefix(ext, sub);
  }

  /** The seven documented extensions are dispatched as intended when the
      stem has no '.'. */
  lemma DispatchPlain(stem: string, ext: string)
    requires '.' !in stem
    requires ext in {".mscz", ".mscx", ".txt", ".mid", ".midi", ".xml", ".musicxml"}
    ensures Classify(stem + ext) ==
              if ext in {".mscz", ".mscx"} then MuseScore
              else if ext == ".txt" then PigText
              else if ext in {".mid", ".midi"} then Midi
              else MusicXml
  {
    PlainContains(stem, ext, ".msc");
    PlainContains(stem, ext, ".txt");
    PlainContains(stem, ext, ".mid");
    PlainContains(stem, ext, ".xml");
    PlainContains(stem, ext, ".musicxml");
  }

  /** The tests are case-sensitive: upper-case extensions are unsupported. */
  lemma UpperCaseUnsupported(stem: string, ext: string)
    requires '.' !in stem
    requires ext in {".MSCZ", ".MSCX", ".TXT", ".MID", ".MIDI", ".XML", ".MUSICXML"}
    ensures Classify(stem + ext) == Unsupported
  {
    assert 'A' <= ext[1] <= 'Z';
    PlainContains(stem, ext, ".msc");
    PlainContains(stem, ext, ".txt");
    PlainContains(stem, ext, ".mid");
    PlainContains(stem, ext, ".xml");
    PlainContains(stem, ext, ".musicxml");
  }

  /** `.txt` is looked for before `.xml`: `song.txt.xml` is read as PIG text. */
  lemma TxtBeforeXml(stem: string)
    requires '.' !in stem
    ensures Classify(stem + ".txt.xml") == PigText
  {
    var t := ".txt.xml";
    assert stem + ".txt.xml" == stem + t;
    ContainsAfterStem(stem, t, ".msc");
    ContainsAfterStem(stem, t, ".txt");
    assert OccursAt(t, ".txt", 0);
    forall i: nat | i <= 4 ensures !OccursAt(t, ".msc", i) {
      assert t[i..i + 4][1] == t[i + 1] && t[i..i + 4][2] == t[i + 2];
    }
  }

  /** `.mid` is looked for before `.xml`: `song.mid.xml` is converted from MIDI. */
  lemma MidBeforeXml(stem: string)
    requires '.' !in stem
    ensures Classify(stem + ".mid.xml") == Midi
  {
    var t := ".mid.xml";
    assert stem + ".mid.xml" == stem + t;
    ContainsAfterStem(stem, t, ".msc");
    ContainsAfterStem(stem, t, ".txt");
    ContainsAfterStem(stem, t, ".mid");
    assert OccursAt(t, ".mid", 0);
    forall i: nat | i <= 4 ensures !OccursAt(t, ".msc", i) && !OccursAt(t, ".txt", i) {
      assert t[i..i + 4][1] == t[i + 1] && t[i..i + 4][2] == t[i + 2];
    }
  }

  /** The MuseScore paths: `.mscz` and `.mscx` both become `.xml`. */
  lemma MuseScorePaths(stem: string)
    requires '.' !in stem
    ensures XmlPath(stem + ".mscz") == stem + ".xml"
    ensures XmlPath(stem + ".mscx") == stem + ".xml"
  {
    DispatchPlain(stem, ".mscz");
    DispatchPlain(stem, ".mscx");
    ReplaceSkipsStem(stem, ".mscz", ".mscz", ".xml");
    ReplaceFront([], ".mscz", ".xml");
    ReplaceSkipsStem(stem, ".xml", ".mscx", ".xml");
    ReplaceAbsent(".xml", ".mscx", ".xml");
    ReplaceSkipsStem(stem, ".mscx", ".mscz", ".xml");
    DottedPrefix(".mscx", ".mscz");
    assert ".mscx"[..5][4] != ".mscz"[4];
    ReplaceAbsent(".mscx", ".mscz", ".xml");
    ReplaceSkipsStem(stem, ".mscx", ".mscx", ".xml");
    ReplaceFront([], ".mscx", ".xml");
    assert ".mscz" + [] == ".mscz" && ".mscx" + [] == ".mscx" && ".xml" + [] == ".xml";
  }

  /** `.mid` becomes `.musicxml`. */
  lemma MidPath(stem: string)
    requires '.' !in stem
    ensures XmlPath(stem + ".mid") == stem + ".musicxml"
  {
    DispatchPlain(stem, ".mid");
    ReplaceSkipsStem(stem, ".mid", ".mid", ".musicxml");
    ReplaceFront([], ".mid", ".musicxml");
    assert ".mid" + [] == ".mid" && ".musicxml" + [] == ".musicxml";
    ReplaceSkipsStem(stem, ".musicxml", ".midi", ".musicxml");
    MusicXmlHasNoMidi();
  }

  lemma MusicXmlHasNoMidi()
    ensures Replace(".musicxml", ".midi", ".musicxml") == ".musicxml"
  {
    DottedPrefix(".musicxml", ".midi");
    assert ".musicxml"[..5][2] != ".midi"[2];
    ReplaceAbsent(".musicxml", ".midi", ".musicxml");
  }

  /** `.mid` matches at the front of `.midi` and leaves the `i` behind. */
  lemma MidiFirstReplace(stem: string)
    requires '.' !in stem
    ensures Replace(stem + ".midi", ".mid", ".musicxml") == stem + ".musicxmli"
  {
    ReplaceSkipsStem(stem, ".midi", ".mid", ".musicxml");
    assert ".mid" + "i" == ".midi";
    ReplaceFront("i", ".mid", ".musicxml");
    assert ".musicxml" + "i" == ".musicxmli";
  }

  /** No `.midi` is left for the second replacement. */
  lemma MidiSecondReplace(stem: string)
    requires '.' !in stem
    ensures Replace(stem + ".musicxmli", ".midi", ".musicxml") == stem + ".musicxmli"
  {
    ReplaceSkipsStem(stem, ".musicxmli", ".midi", ".musicxml");
    DottedPrefix(".musicxmli", ".midi");
    assert ".musicxmli"[..5][2] != ".midi"[2];
    ReplaceAbsent(".musicxmli", ".midi", ".musicxml");
  }

  /** `.midi` becomes `.musicxmli`: `.mid` is replaced first and leaves the
      `i` behind, and the `.midi` replacement then finds nothing. */
  lemma MidiPath(stem: string)
    requires '.' !in stem
    ensures XmlPath(stem + ".midi") == stem + ".musicxmli"
  {
    DispatchPlain(stem, ".midi");
    MidiFirstReplace(stem);
    MidiSecondReplace(stem);
  }

  /** MusicXML and PIG inputs are read where they are. */
  lemma DirectPaths(stem: string)
    requires '.' !in stem
    ensures XmlPath(stem + ".xml") == stem + ".xml"
    ensures XmlPath(stem + ".musicxml") == stem + ".musicxml"
    ensures XmlPath(stem + ".txt") == stem + ".txt"
  {
    DispatchPlain(stem, ".xml");
    DispatchPlain(stem, ".musicxml");
    DispatchPlain(stem, ".txt");
  }

  // ---------------------------------------------------------------------------
  // Output kind

  /** The tabular PIG file is written exactly when the output path's extension,
      as `os.path.splitext` finds it, is `.txt`. */
  predicate IsTabularOutput(outputfile: string) {
    SplitExt(outputfile).1 == ".txt"
  }

  /** For a plain name `stem.ext`, the tabular file is chosen exactly for
      the extension `txt`. */
  lemma PlainTabular(stem: string, ext: string)
    requires stem != [] && '.' !in stem && '/' !in stem && '.' !in ext && '/' !in ext
    ensures IsTabularOutput(stem + "." + ext) <==> ext == "txt"
  {
    SplitExtPlain(stem, ext);
    assert ("." + ext)[1..] == ext;
    assert ".txt"[1..] == "txt";
  }

  /** A hidden file named `.txt` has no extension, so it is not tabular. */
  lemma HiddenTxtNotTabular()
    ensures !IsTabularOutput(".txt")
  {
    RFindAbsent(".txt", '/');
    RFindAt(".txt", '.', 0);
    assert !HasNonDot(".txt", 0, 0);
  }
}

/** `annotate`: the command-line pipeline. It settles the hand size, decides
    from the input name how the score is obtained, reads and fingers each hand
    that is not switched off, and writes either the sorted tabular PIG file or
    the score with the fingering written into it. */
module Pipeline {
  import opened Wrappers
  import opened Notes
  import opened MusicXml
  import opened XmlAnnotation
  import opened AnnotationProperties
  import opened Pig
  import opened Options

  /** The options `annotate` reads. `leftOnly` switches the right hand off and
      `rightOnly` the left hand; `belowBeam` asks for fingering as lyrics. */
  datatype Args = Args(filename: string, outputfile: Option<string>, rbeam: int, lbeam: int,
                       belowBeam: bool, leftOnly: bool, rightOnly: bool, sizes: HandSizeFlags)

  /** The ways a run ends early: an unrecognised input name (exit status 1),
      a MuseScore file the converter could not turn into a score (exit status
      0 after a message), a score or PIG file that cannot be read, and a
      score file that is not well-formed XML. */
  datatype Failure =
    | UnsupportedFormat(filename: string)
    | ConversionFailed(path: string)
    | ReadFailed(path: string)
    | XmlParseFailed(path: string)

  /** What a successful run writes: nothing without an output name, the
      numbered rows of the tabular file, or the annotated score and where it
      goes. */
  datatype Artifact = NoOutput | Tabular(rows: seq<Row>) | Score(path: string, doc: Document)

  // ---------------------------------------------------------------------------
  // What the run reads, stated per hand

  /** The notes one hand is read with, before fingering: the PIG reader reads
      the text file itself with that hand's beam, every other input goes
      through the score loaded from the converted path. */
  function HandInput<S>(args: Args, loadScore: string -> Option<S>,
                        readScore: (S, int) -> seq<NoteEvent>,
                        readPig: (string, int) -> Option<seq<NoteEvent>>,
                        beam: int): Option<seq<NoteEvent>>
  {
    if Classify(args.filename) == PigText then readPig(args.filename, beam)
    else match loadScore(XmlPath(args.filename))
      case None => None
      case Some(score) => Some(readScore(score, beam))
  }

  /** Every input the run needs could be read: for a PIG file, each hand that
      is not switched off; for a score, the converted score itself, even when
      both hands are switched off. */
  predicate InputsRead<S>(args: Args, loadScore: string -> Option<S>,
                          readScore: (S, int) -> seq<NoteEvent>,
                          readPig: (string, int) -> Option<seq<NoteEvent>>)
  {
    if Classify(args.filename) == PigText then
      (args.leftOnly || readPig(args.filename, args.rbeam).Some?) &&
      (args.rightOnly || readPig(args.filename, args.lbeam).Some?)
    else loadScore(XmlPath(args.filename)).Some?
  }

  /** One hand after fingering, empty when the hand is switched off or its
      notes could not be read. */
  function FingeredHand<S>(args: Args, loadScore: string -> Option<S>,
                           readScore: (S, int) -> seq<NoteEvent>,
                           readPig: (string, int) -> Option<seq<NoteEvent>>,
                           generate: (seq<NoteEvent>, HandSize, bool) -> seq<NoteEvent>,
                           isRight: bool): seq<NoteEvent>
  {
    var skipped := if isRight then args.leftOnly else args.rightOnly;
    var beam := if isRight then args.rbeam else args.lbeam;
    if skipped then []
    else match HandInput(args, loadScore, readScore, readPig, beam)
      case None => []
      case Some(notes) => generate(notes, SelectedSize(args.sizes), isRight)
  }

  /** The failure a run reports when the input cannot be read: a MuseScore
      conversion failure, or the path that could not be read. */
  function ReadFailure(filename: string): Failure {
    match Classify(filename)
    case MuseScore => ConversionFailed(XmlPath(filename))
    case _ => ReadFailed(XmlPath(filename))
  }

  // ---------------------------------------------------------------------------
  // The pipeline

  /** `annotate`. The converter and music21 loader (`loadScore`), the score
      reader (`readScore`), the PIG reader (`readPig`), the fingering
      optimizer (`generate`) and the XML parser (`parseXml`) are parameters. */
  method Annotate<S>(args: Args, loadScore: string -> Option<S>,
                     readScore: (S, int) -> seq<NoteEvent>,
                     readPig: (string, int) -> Option<seq<NoteEvent>>,
                     generate: (seq<NoteEvent>, HandSize, bool) -> seq<NoteEvent>,
                     parseXml: string -> Option<Document>)
    returns (r: Result<Artifact, Failure>)
    // an unrecognised name fails first, and only it fails that way
    ensures r == Failure(UnsupportedFormat(args.filename)) <==> Classify(args.filename) == Unsupported
    // a recognised name whose inputs cannot be read fails with the read failure
    ensures Classify(args.filename) != Unsupported &&
            !InputsRead(args, loadScore, readScore, readPig) ==>
              r == Failure(ReadFailure(args.filename))
    // once read, only the score output can still fail, when its XML does not parse
    ensures Classify(args.filename) != Unsupported &&
            InputsRead(args, loadScore, readScore, readPig) ==>
              (r.Failure? <==>
                 args.outputfile.Some? && !IsTabularOutput(args.outputfile.value) &&
                 parseXml(XmlPath(args.filename)).None?) &&
              (r.Failure? ==> r.error == XmlParseFailed(XmlPath(args.filename)))
    ensures r.Success? ==> (r.value.NoOutput? <==> args.outputfile.None?)
    ensures r.Success? && r.value.Tabular? ==>
              args.outputfile.Some? && IsTabularOutput(args.outputfile.value) &&
              r.value.rows ==
                TsvRows(PigRecords(FingeredHand(args, loadScore, readScore, readPig, generate, true), true),
                        PigRecords(FingeredHand(args, loadScore, readScore, readPig, generate, false), false))
    ensures r.Success? && r.value.Score? ==>
              args.outputfile.Some? && !IsTabularOutput(args.outputfile.value) &&
              r.value.path == args.outputfile.value &&
              parseXml(XmlPath(args.filename)).Some? &&
              r.value.doc ==
                Annotation(Annotation(parseXml(XmlPath(args.filename)).value,
                                      FingeredHand(args, loadScore, readScore, readPig, generate, true),
                                      args.rbeam + 1, args.belowBeam).out,
                           FingeredHand(args, loadScore, readScore, readPig, generate, false),
                           args.lbeam + 1, args.belowBeam).out
  {
    var handSize := ResolveHandSize(args.sizes);
    var kind := Classify(args.filename);
    if kind == Unsupported {
      return Failure(UnsupportedFormat(args.filename));
    }
    var xmlfn := XmlPath(args.filename);

    // read each hand that is not switched off
    var rhNotes: seq<NoteEvent> := [];
    var lhNotes: seq<NoteEvent> := [];
    if kind == PigText {
      if !args.leftOnly {
        var read := readPig(args.filename, args.rbeam);
        if read.None? {
          return Failure(ReadFailed(args.filename));
        }
        rhNotes := read.value;
      }
      if !args.rightOnly {
        var read := readPig(args.filename, args.lbeam);
        if read.None? {
          return Failure(ReadFailed(args.filename));
        }
        lhNotes := read.value;
      }
    } else {
      var score := loadScore(xmlfn);
      if score.None? {
        return Failure(if kind == MuseScore then ConversionFailed(xmlfn) else ReadFailed(xmlfn));
      }
      if !args.leftOnly {
        rhNotes := readScore(score.value, args.rbeam);
      }
      if !args.rightOnly {
        lhNotes := readScore(score.value, args.lbeam);
      }
    }

    // finger each hand
    var rh: seq<NoteEvent> := [];
    var lh: seq<NoteEvent> := [];
    if !args.leftOnly {
      rh := generate(rhNotes, handSize, true);
    }
    if !args.rightOnly {
      lh := generate(lhNotes, handSize, false);
    }
    assert rh == FingeredHand(args, loadScore, readScore, readPig, generate, true);
    assert lh == FingeredHand(args, loadScore, readScore, readPig, generate, false);

    if args.outputfile.None? {
      return Success(NoOutput);
    }
    var outputfile := args.outputfile.value;
    if IsTabularOutput(outputfile) {
      var rhRecords: seq<PigRecord> := [];
      var lhRecords: seq<PigRecord> := [];
      if !args.leftOnly {
        rhRecords := AnnotatePig(rh, true);
      }
      if !args.rightOnly {
        lhRecords := AnnotatePig(lh, false);
      }
      return Success(Tabular(TsvRows(rhRecords, lhRecords)));
    }

    var parsed := parseXml(xmlfn);
    if parsed.None? {
      return Failure(XmlParseFailed(xmlfn));
    }
    var tree := parsed.value;
    if !args.leftOnly {
      tree := AnnotateFingersXmlDirect(tree, rh, args.rbeam + 1, args.belowBeam);
    } else {
      EmptyHandChangesNothing(tree, args.rbeam + 1, args.belowBeam);
    }
    if !args.rightOnly {
      tree := AnnotateFingersXmlDirect(tree, lh, args.lbeam + 1, args.belowBeam);
    } else {
      EmptyHandChangesNothing(tree, args.lbeam + 1, args.belowBeam);
    }
    return Success(Score(outputfile, tree));
  }

  // ---------------------------------------------------------------------------
  // What the two passes over the score guarantee together

  /** The right hand's pass and then the left hand's never remove anything
      from the score, and a note on neither hand's staff (or a chord
      continuation or rest) comes out exactly as it went in. */
  lemma TwoPassesGrow(tree: Document, rh: seq<NoteEvent>, lh: seq<NoteEvent>,
                      rStaff: int, lStaff: int, lyrics: bool)
    ensures var first := Annotation(tree, rh, rStaff, lyrics).out;
            var second := Annotation(first, lh, lStaff, lyrics).out;
            |second| == |tree| &&
            forall p :: 0 <= p < |tree| ==>
              |second[p]| == |tree[p]| &&
              forall m :: 0 <= m < |tree[p]| ==>
                |second[p][m]| == |tree[p][m]| &&
                forall j :: 0 <= j < |tree[p][m]| ==>
                  NoteGrows(tree[p][m][j], second[p][m][j]) &&
                  (Skipped(tree[p][m][j], rStaff) && Skipped(tree[p][m][j], lStaff) ==>
                     second[p][m][j] == tree[p][m][j])
  {
    var first := Annotation(tree, rh, rStaff, lyrics).out;
    var second := Annotation(first, lh, lStaff, lyrics).out;
    AnnotationPreserves(tree, rh, rStaff, lyrics);
    AnnotationPreserves(first, lh, lStaff, lyrics);
    forall p, m, j | 0 <= p < |tree| && 0 <= m < |tree[p]| && 0 <= j < |tree[p][m]|
      ensures NoteGrows(tree[p][m][j], second[p][m][j])
      ensures Skipped(tree[p][m][j], rStaff) && Skipped(tree[p][m][j], lStaff) ==>
                second[p][m][j] == tree[p][m][j]
    {
      var a, b, c := tree[p][m][j], first[p][m][j], second[p][m][j];
      assert NotesGrow(tree[p][m], first[p][m], rStaff);
      assert NotesGrow(first[p][m], second[p][m], lStaff);
      NoteGrowsTransitive(a, b, c);
      GrowthKeepsSkipping(a, b, lStaff);
    }
  }

  /** With fingering written as technical marks, the annotated score holds
      exactly one more fingering mark per label either pass wrote, and no more
      marks than the two hands have notes. */
  lemma TwoPassesAddFingerings(tree: Document, rh: seq<NoteEvent>, lh: seq<NoteEvent>,
                               rStaff: int, lStaff: int)
    ensures var first := Annotation(tree, rh, rStaff, false);
            var second := Annotation(first.out, lh, lStaff, false);
            DocumentFingerings(second.out) == DocumentFingerings(tree) + first.labels + second.labels &&
            DocumentFingerings(second.out) <= DocumentFingerings(tree) + |rh| + |lh|
  {
    var first := Annotation(tree, rh, rStaff, false);
    AnnotationAddsOneFingeringPerLabel(tree, rh, rStaff);
    AnnotationAddsOneFingeringPerLabel(first.out, lh, lStaff);
    AnnotationBounds(tree, rh, rStaff, false);
    AnnotationBounds(first.out, lh, lStaff, false);
  }

  // ---------------------------------------------------------------------------
  // What the tabular file holds

  /** A record of the merged list is a note of the hand its channel names. */
  lemma RecordOfHands(rh: seq<NoteEvent>, lh: seq<NoteEvent>, rec: PigRecord)
    requires rec in multiset(PigRecords(rh, true) + PigRecords(lh, false))
    ensures IsRight(rec) ==> NoteOf(rec) in rh
    ensures !IsRight(rec) ==> NoteOf(rec) in lh
  {
    var right, left := PigRecords(rh, true), PigRecords(lh, false);
    assert rec in right + left;
    if rec in right {
      var k :| 0 <= k < |right| && right[k] == rec;
      assert NoteOf(right[k]) == rh[k];
    } else {
      assert rec in left;
      var k :| 0 <= k < |left| && left[k] == rec;
      assert NoteOf(left[k]) == lh[k];
    }
  }

  /** Every row of the tabular file is a note of the hand its channel names,
      read back with its fingering, and there is one row per note of both
      hands. */
  lemma RowsComeFromTheirHand(rh: seq<NoteEvent>, lh: seq<NoteEvent>)
    ensures var rows := TsvRows(PigRecords(rh, true), PigRecords(lh, false));
            |rows| == |rh| + |lh| &&
            forall i :: 0 <= i < |rows| ==>
              (IsRight(rows[i].record) ==> NoteOf(rows[i].record) in rh) &&
              (!IsRight(rows[i].record) ==> NoteOf(rows[i].record) in lh)
  {
    var rows := TsvRows(PigRecords(rh, true), PigRecords(lh, false));
    forall i | 0 <= i < |rows|
      ensures IsRight(rows[i].record) ==> NoteOf(rows[i].record) in rh
      ensures !IsRight(rows[i].record) ==> NoteOf(rows[i].record) in lh
    {
      assert Records(rows)[i] == rows[i].record;
      assert rows[i].record in multiset(Records(rows));
      RecordOfHands(rh, lh, rows[i].record);
    }
  }

  /** A run with the left hand switched off writes only right-hand rows. */
  lemma RightHandOnlyRows(rh: seq<NoteEvent>)
    ensures var rows := TsvRows(PigRecords(rh, true), PigRecords([], false));
            forall i :: 0 <= i < |rows| ==> IsRight(rows[i].record) && NoteOf(rows[i].record) in rh
  {
    RowsComeFromTheirHand(rh, []);
  }
}

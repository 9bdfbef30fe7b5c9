/** `annotate_fingers_xml_direct`: walk the parts, measures and notes of a
    score in document order alongside one hand's fingered note sequence, and
    write the fingering of the notes the exposure heuristic selects. */
module XmlAnnotation {
  import opened Wrappers
  import opened Text
  import opened Notes
  import opened Exposure
  import opened MusicXml
  import opened Seqs

  /** The state carried across the whole walk (never reset between measures or
      parts): the position in the hand's note sequence and the fingering and
      pitch of the last note consumed. */
  datatype Cursor = Cursor(noteIdx: nat, prevFingering: Option<int>, prevPitch: Option<int>)

  const Start := Cursor(0, None, None)

  /** What a walk produces: the patched elements, the state afterwards and the
      number of labels written. */
  datatype Walk<T> = Walk(out: T, cursor: Cursor, labels: nat)

  /** Notes the walk passes over without consuming a position of the hand:
      another staff's notes (only when a staff is asked for and the note names
      one), chord continuations and rests. */
  predicate Skipped(n: Note, staffNumber: int) {
    (staffNumber > 0 && n.staff.Some? && n.staff.value != staffNumber) || n.chord || n.rest
  }

  /** The notes of one measure. `measureStart` holds until a note is consumed.
      When the hand is exhausted at an eligible note the rest of the measure is
      left as it is. */
  function WalkNotes(ns: seq<Note>, hand: seq<NoteEvent>, staffNumber: int, lyrics: bool,
                     c: Cursor, measureStart: bool): Walk<seq<Note>>
    decreases |ns|
  {
    if ns == [] then Walk([], c, 0)
    else if Skipped(ns[0], staffNumber) then
      var rest := WalkNotes(ns[1..], hand, staffNumber, lyrics, c, measureStart);
      Walk([ns[0]] + rest.out, rest.cursor, rest.labels)
    else if c.noteIdx >= |hand| then Walk(ns, c, 0)
    else
      var e := hand[c.noteIdx];
      var show := Shows(measureStart, e.fingering, e.pitch, c.prevFingering, c.prevPitch);
      var n := if show then Label(ns[0], IntToString(e.fingering), lyrics) else ns[0];
      var next := Cursor(c.noteIdx + 1, Some(e.fingering), Some(e.pitch));
      var rest := WalkNotes(ns[1..], hand, staffNumber, lyrics, next, false);
      Walk([n] + rest.out, rest.cursor, rest.labels + (if show then 1 else 0))
  }

  /** The measures of one part; each starts with `measureStart` set. */
  function WalkMeasures(ms: seq<Measure>, hand: seq<NoteEvent>, staffNumber: int, lyrics: bool,
                        c: Cursor): (w: Walk<seq<Measure>>)
    ensures |w.out| == |ms|
    decreases |ms|
  {
    if ms == [] then Walk([], c, 0)
    else
      var first := WalkNotes(ms[0], hand, staffNumber, lyrics, c, true);
      var rest := WalkMeasures(ms[1..], hand, staffNumber, lyrics, first.cursor);
      Walk([first.out] + rest.out, rest.cursor, first.labels + rest.labels)
  }

  /** The parts of the score, in order. */
  function WalkParts(ps: Document, hand: seq<NoteEvent>, staffNumber: int, lyrics: bool,
                     c: Cursor): (w: Walk<Document>)
    ensures |w.out| == |ps|
    decreases |ps|
  {
    if ps == [] then Walk([], c, 0)
    else
      var first := WalkMeasures(ps[0], hand, staffNumber, lyrics, c);
      var rest := WalkParts(ps[1..], hand, staffNumber, lyrics, first.cursor);
      Walk([first.out] + rest.out, rest.cursor, first.labels + rest.labels)
  }

  /** The whole walk, from the initial state. */
  function Annotation(tree: Document, hand: seq<NoteEvent>, staffNumber: int, lyrics: bool): (w: Walk<Document>)
    ensures |w.out| == |tree|
  {
    WalkParts(tree, hand, staffNumber, lyrics, Start)
  }

  /** One visit of the note loop, unfolded at position `j`: a skipped note is
      copied and the state is kept ... */
  lemma VisitSkipped(ns: seq<Note>, j: nat, hand: seq<NoteEvent>, staffNumber: int, lyrics: bool,
                     c: Cursor, measureStart: bool)
    requires j < |ns| && Skipped(ns[j], staffNumber)
    ensures var here := WalkNotes(ns[j..], hand, staffNumber, lyrics, c, measureStart);
            var rest := WalkNotes(ns[j + 1..], hand, staffNumber, lyrics, c, measureStart);
            here.out == [ns[j]] + rest.out && here.cursor == rest.cursor
  {
    assert ns[j..][0] == ns[j];
    assert ns[j..][1..] == ns[j + 1..];
  }

  /** ... an eligible note met once the hand is exhausted ends the measure ... */
  lemma VisitExhausted(ns: seq<Note>, j: nat, hand: seq<NoteEvent>, staffNumber: int, lyrics: bool,
                       c: Cursor, measureStart: bool)
    requires j < |ns| && !Skipped(ns[j], staffNumber) && c.noteIdx >= |hand|
    ensures var here := WalkNotes(ns[j..], hand, staffNumber, lyrics, c, measureStart);
            here.out == ns[j..] && here.cursor == c
  {
    assert ns[j..][0] == ns[j];
  }

  /** ... and any other eligible note consumes one position of the hand. */
  lemma VisitConsumed(ns: seq<Note>, j: nat, hand: seq<NoteEvent>, staffNumber: int, lyrics: bool,
                      c: Cursor, measureStart: bool, show: bool)
    requires j < |ns| && !Skipped(ns[j], staffNumber) && c.noteIdx < |hand|
    requires show == Shows(measureStart, hand[c.noteIdx].fingering, hand[c.noteIdx].pitch,
                           c.prevFingering, c.prevPitch)
    ensures var e := hand[c.noteIdx];
            var n := if show then Label(ns[j], IntToString(e.fingering), lyrics) else ns[j];
            var here := WalkNotes(ns[j..], hand, staffNumber, lyrics, c, measureStart);
            var rest := WalkNotes(ns[j + 1..], hand, staffNumber, lyrics,
                                  Cursor(c.noteIdx + 1, Some(e.fingering), Some(e.pitch)), false);
            here.out == [n] + rest.out && here.cursor == rest.cursor
  {
    assert ns[j..][0] == ns[j];
    assert ns[j..][1..] == ns[j + 1..];
  }

  /** The loop invariant of `AnnotateMeasure` survives a skipped note. */
  lemma SkipStep(measure: Measure, notes: Measure, j: nat, hand: seq<NoteEvent>, staffNumber: int,
                 lyrics: bool, c: Cursor, measureStart: bool, whole: Walk<seq<Note>>)
    requires j < |notes| == |measure| && notes[j..] == measure[j..] && Skipped(measure[j], staffNumber)
    requires var rest := WalkNotes(measure[j..], hand, staffNumber, lyrics, c, measureStart);
             whole.out == notes[..j] + rest.out && whole.cursor == rest.cursor
    ensures notes[j + 1..] == measure[j + 1..]
    ensures var rest := WalkNotes(measure[j + 1..], hand, staffNumber, lyrics, c, measureStart);
            whole.out == notes[..j + 1] + rest.out && whole.cursor == rest.cursor
  {
    VisitSkipped(measure, j, hand, staffNumber, lyrics, c, measureStart);
    var rest := WalkNotes(measure[j + 1..], hand, staffNumber, lyrics, c, measureStart);
    assert notes[j] == measure[j..][0];
    assert notes[..j + 1] == notes[..j] + [measure[j]];
    AppendAssoc(notes[..j], [measure[j]], rest.out);
  }

  /** ... and survives a consumed note, labelled or not. */
  lemma ConsumeStep(measure: Measure, notes: Measure, j: nat, hand: seq<NoteEvent>, staffNumber: int,
                    lyrics: bool, c: Cursor, measureStart: bool, whole: Walk<seq<Note>>)
    requires j < |notes| == |measure| && notes[j..] == measure[j..]
    requires !Skipped(measure[j], staffNumber) && c.noteIdx < |hand|
    requires var rest := WalkNotes(measure[j..], hand, staffNumber, lyrics, c, measureStart);
             whole.out == notes[..j] + rest.out && whole.cursor == rest.cursor
    ensures var e := hand[c.noteIdx];
            var show := Shows(measureStart, e.fingering, e.pitch, c.prevFingering, c.prevPitch);
            var notes' := if show then notes[j := Label(notes[j], IntToString(e.fingering), lyrics)] else notes;
            var rest := WalkNotes(measure[j + 1..], hand, staffNumber, lyrics,
                                  Cursor(c.noteIdx + 1, Some(e.fingering), Some(e.pitch)), false);
            notes'[j + 1..] == measure[j + 1..] &&
            whole.out == notes'[..j + 1] + rest.out && whole.cursor == rest.cursor
  {
    var e := hand[c.noteIdx];
    var show := Shows(measureStart, e.fingering, e.pitch, c.prevFingering, c.prevPitch);
    VisitConsumed(measure, j, hand, staffNumber, lyrics, c, measureStart, show);
    assert notes[j] == measure[j..][0];
    var labelled := if show then Label(measure[j], IntToString(e.fingering), lyrics) else measure[j];
    var notes' := if show then notes[j := Label(notes[j], IntToString(e.fingering), lyrics)] else notes;
    var rest := WalkNotes(measure[j + 1..], hand, staffNumber, lyrics,
                          Cursor(c.noteIdx + 1, Some(e.fingering), Some(e.pitch)), false);
    assert notes'[..j + 1] == notes[..j] + [labelled];
    assert notes'[j + 1..] == notes[j + 1..];
    AppendAssoc(notes[..j], [labelled], rest.out);
  }

  /** The body of the note loop for one measure: `measureStart` is set when the
      measure begins and cleared by the first consumed note. */
  method AnnotateMeasure(measure: Measure, hand: seq<NoteEvent>, staffNumber: int, lyrics: bool,
                         noteIdx0: nat, prevFingering0: Option<int>, prevPitch0: Option<int>)
    returns (notes: Measure, noteIdx: nat, prevFingering: Option<int>, prevPitch: Option<int>)
    ensures var w := WalkNotes(measure, hand, staffNumber, lyrics,
                               Cursor(noteIdx0, prevFingering0, prevPitch0), true);
            notes == w.out && Cursor(noteIdx, prevFingering, prevPitch) == w.cursor
  {
    ghost var whole := WalkNotes(measure, hand, staffNumber, lyrics,
                                 Cursor(noteIdx0, prevFingering0, prevPitch0), true);
    noteIdx, prevFingering, prevPitch := noteIdx0, prevFingering0, prevPitch0;
    var measureStart := true;
    notes := measure;
    for j := 0 to |notes|
      invariant |notes| == |measure| && notes[j..] == measure[j..]
      invariant var rest := WalkNotes(measure[j..], hand, staffNumber, lyrics,
                                      Cursor(noteIdx, prevFingering, prevPitch), measureStart);
                whole.out == notes[..j] + rest.out && whole.cursor == rest.cursor
    {
      ghost var here := Cursor(noteIdx, prevFingering, prevPitch);
      var note := notes[j];
      if staffNumber > 0 && note.staff.Some? && note.staff.value != staffNumber {
        SkipStep(measure, notes, j, hand, staffNumber, lyrics, here, measureStart, whole);
        continue;
      }
      if note.chord {
        SkipStep(measure, notes, j, hand, staffNumber, lyrics, here, measureStart, whole);
        continue;
      }
      if note.rest {
        SkipStep(measure, notes, j, hand, staffNumber, lyrics, here, measureStart, whole);
        continue;
      }
      if noteIdx >= |hand| {
        VisitExhausted(measure, j, hand, staffNumber, lyrics, here, measureStart);
        assert notes[..j] + measure[j..] == notes;
        break;
      }
      var noteData := hand[noteIdx];
      var fingering := noteData.fingering;
      var currentPitch := noteData.pitch;
      noteIdx := noteIdx + 1;
      // The cascade; its first rule is the one that clears the flag, and it
      // fires on every consumed note while the flag is set.
      var showFingering := Shows(measureStart, fingering, currentPitch, prevFingering, prevPitch);
      ConsumeStep(measure, notes, j, hand, staffNumber, lyrics, here, measureStart, whole);
      measureStart := false;
      if showFingering {
        notes := notes[j := Label(notes[j], IntToString(fingering), lyrics)];
      }
      prevFingering := Some(fingering);
      prevPitch := Some(currentPitch);
    }
  }

  /** The loop invariant over the measures of a part survives one measure. */
  lemma MeasureStep(ms: seq<Measure>, part: seq<Measure>, m: nat, hand: seq<NoteEvent>,
                    staffNumber: int, lyrics: bool, c: Cursor, whole: Walk<seq<Measure>>)
    requires m < |part| == |ms| && part[m..] == ms[m..]
    requires var rest := WalkMeasures(ms[m..], hand, staffNumber, lyrics, c);
             whole.out == part[..m] + rest.out && whole.cursor == rest.cursor
    ensures var first := WalkNotes(ms[m], hand, staffNumber, lyrics, c, true);
            var part' := part[m := first.out];
            var rest := WalkMeasures(ms[m + 1..], hand, staffNumber, lyrics, first.cursor);
            part'[m + 1..] == ms[m + 1..] &&
            whole.out == part'[..m + 1] + rest.out && whole.cursor == rest.cursor
  {
    assert ms[m..][0] == ms[m];
    assert ms[m..][1..] == ms[m + 1..];
    var first := WalkNotes(ms[m], hand, staffNumber, lyrics, c, true);
    var rest := WalkMeasures(ms[m + 1..], hand, staffNumber, lyrics, first.cursor);
    var part' := part[m := first.out];
    assert part'[..m + 1] == part[..m] + [first.out];
    assert part'[m + 1..] == part[m + 1..];
    AppendAssoc(part[..m], [first.out], rest.out);
  }

  /** The loop invariant over the parts survives one part. */
  lemma PartStep(ps: Document, result: Document, p: nat, hand: seq<NoteEvent>,
                 staffNumber: int, lyrics: bool, c: Cursor, whole: Walk<Document>)
    requires p < |result| == |ps| && result[p..] == ps[p..]
    requires whole.out == result[..p] + WalkParts(ps[p..], hand, staffNumber, lyrics, c).out
    ensures var first := WalkMeasures(ps[p], hand, staffNumber, lyrics, c);
            var result' := result[p := first.out];
            result'[p + 1..] == ps[p + 1..] &&
            whole.out == result'[..p + 1] + WalkParts(ps[p + 1..], hand, staffNumber, lyrics, first.cursor).out
  {
    assert ps[p..][0] == ps[p];
    assert ps[p..][1..] == ps[p + 1..];
    var first := WalkMeasures(ps[p], hand, staffNumber, lyrics, c);
    var rest := WalkParts(ps[p + 1..], hand, staffNumber, lyrics, first.cursor);
    var result' := result[p := first.out];
    assert result'[..p + 1] == result[..p] + [first.out];
    assert result'[p + 1..] == result[p + 1..];
    AppendAssoc(result[..p], [first.out], rest.out);
  }

  /** The annotator itself: loops over parts and measures that carry the note
      index and the previous fingering and pitch from measure to measure, and
      patch the selected notes. */
  method AnnotateFingersXmlDirect(tree: Document, hand: seq<NoteEvent>, staffNumber: int, lyrics: bool)
    returns (result: Document)
    ensures result == Annotation(tree, hand, staffNumber, lyrics).out
  {
    ghost var whole := Annotation(tree, hand, staffNumber, lyrics);
    var noteIdx: nat := 0;
    var prevFingering: Option<int> := None;
    var prevPitch: Option<int> := None;
    result := tree;
    for p := 0 to |tree|
      invariant |result| == |tree| && result[p..] == tree[p..]
      invariant whole.out == result[..p] + WalkParts(tree[p..], hand, staffNumber, lyrics,
                                                     Cursor(noteIdx, prevFingering, prevPitch)).out
    {
      ghost var partEntry := Cursor(noteIdx, prevFingering, prevPitch);
      ghost var walked := WalkMeasures(tree[p], hand, staffNumber, lyrics, partEntry);
      PartStep(tree, result, p, hand, staffNumber, lyrics, partEntry, whole);
      var part := result[p];
      for m := 0 to |part|
        invariant |part| == |tree[p]| && part[m..] == tree[p][m..]
        invariant var rest := WalkMeasures(tree[p][m..], hand, staffNumber, lyrics,
                                           Cursor(noteIdx, prevFingering, prevPitch));
                  walked.out == part[..m] + rest.out && walked.cursor == rest.cursor
      {
        MeasureStep(tree[p], part, m, hand, staffNumber, lyrics,
                    Cursor(noteIdx, prevFingering, prevPitch), walked);
        var notes;
        notes, noteIdx, prevFingering, prevPitch :=
          AnnotateMeasure(part[m], hand, staffNumber, lyrics, noteIdx, prevFingering, prevPitch);
        part := part[m := notes];
      }
      assert tree[p][|part|..] == [];
      assert part == walked.out && Cursor(noteIdx, prevFingering, prevPitch) == walked.cursor;
      result := result[p := part];
    }
    assert tree[|tree|..] == [];
  }
}

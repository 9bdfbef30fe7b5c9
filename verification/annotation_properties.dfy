/** What the annotation walk guarantees: it consumes one position of the hand
    per eligible note until the hand runs out, it labels a consumed note exactly
    when the rule cascade shows it and leaves every other note as it was, it
    writes at most one label per consumed note, it stops labelling once the hand is exhausted,
    it never removes anything from the score, the first consumed note of every
    measure is labelled, and the previous fingering and pitch it compares
    against are always those of the previous note of the hand, across measure
    and part boundaries. */
module AnnotationProperties {
  import opened Wrappers
  import opened Text
  import opened Notes
  import opened Exposure
  import opened MusicXml
  import opened XmlAnnotation

  // ---------------------------------------------------------------------------
  // Bounds: positions consumed and labels written

  lemma {:induction false} NotesBounds(ns: seq<Note>, hand: seq<NoteEvent>, staffNumber: int,
                                       lyrics: bool, c: Cursor, measureStart: bool)
    requires c.noteIdx <= |hand|
    ensures var w := WalkNotes(ns, hand, staffNumber, lyrics, c, measureStart);
            c.noteIdx <= w.cursor.noteIdx <= |hand| && w.labels <= w.cursor.noteIdx - c.noteIdx
    decreases |ns|
  {
    if ns == [] {
    } else if Skipped(ns[0], staffNumber) {
      NotesBounds(ns[1..], hand, staffNumber, lyrics, c, measureStart);
    } else if c.noteIdx < |hand| {
      var e := hand[c.noteIdx];
      NotesBounds(ns[1..], hand, staffNumber, lyrics,
                  Cursor(c.noteIdx + 1, Some(e.fingering), Some(e.pitch)), false);
    }
  }

  lemma {:induction false} MeasuresBounds(ms: seq<Measure>, hand: seq<NoteEvent>, staffNumber: int,
                                          lyrics: bool, c: Cursor)
    requires c.noteIdx <= |hand|
    ensures var w := WalkMeasures(ms, hand, staffNumber, lyrics, c);
            c.noteIdx <= w.cursor.noteIdx <= |hand| && w.labels <= w.cursor.noteIdx - c.noteIdx
    decreases |ms|
  {
    if ms != [] {
      NotesBounds(ms[0], hand, staffNumber, lyrics, c, true);
      var first := WalkNotes(ms[0], hand, staffNumber, lyrics, c, true);
      MeasuresBounds(ms[1..], hand, staffNumber, lyrics, first.cursor);
    }
  }

  lemma {:induction false} PartsBounds(ps: Document, hand: seq<NoteEvent>, staffNumber: int,
                                       lyrics: bool, c: Cursor)
    requires c.noteIdx <= |hand|
    ensures var w := WalkParts(ps, hand, staffNumber, lyrics, c);
            c.noteIdx <= w.cursor.noteIdx <= |hand| && w.labels <= w.cursor.noteIdx - c.noteIdx
    decreases |ps|
  {
    if ps != [] {
      MeasuresBounds(ps[0], hand, staffNumber, lyrics, c);
      var first := WalkMeasures(ps[0], hand, staffNumber, lyrics, c);
      PartsBounds(ps[1..], hand, staffNumber, lyrics, first.cursor);
    }
  }

  /** Over the whole score: the walk consumes at most the whole hand, and
      writes at most one label per consumed note. */
  lemma AnnotationBounds(tree: Document, hand: seq<NoteEvent>, staffNumber: int, lyrics: bool)
    ensures var w := Annotation(tree, hand, staffNumber, lyrics);
            w.cursor.noteIdx <= |hand| && w.labels <= w.cursor.noteIdx
  {
    PartsBounds(tree, hand, staffNumber, lyrics, Start);
  }

  // ---------------------------------------------------------------------------
  // Consumption: one position of the hand per eligible note, until it runs out

  function Min(a: int, b: int): int {
    if a <= b then a else b
  }

  /** Consuming `b` then `c` more positions, capped at `h`, is consuming `b + c`. */
  lemma MinChain(h: int, a: int, b: nat, c: nat, x: int, y: int)
    requires a <= h && x == Min(h, a + b) && y == Min(h, x + c)
    ensures y == Min(h, a + (b + c))
  {
  }

  /** The notes of a measure that are not skipped for the staff. */
  function Eligible(ns: seq<Note>, staffNumber: int): nat
    decreases |ns|
  {
    if ns == [] then 0
    else (if Skipped(ns[0], staffNumber) then 0 else 1) + Eligible(ns[1..], staffNumber)
  }

  function MeasuresEligible(ms: seq<Measure>, staffNumber: int): nat
    decreases |ms|
  {
    if ms == [] then 0 else Eligible(ms[0], staffNumber) + MeasuresEligible(ms[1..], staffNumber)
  }

  function DocumentEligible(ps: Document, staffNumber: int): nat
    decreases |ps|
  {
    if ps == [] then 0 else MeasuresEligible(ps[0], staffNumber) + DocumentEligible(ps[1..], staffNumber)
  }

  lemma {:induction false} NotesConsume(ns: seq<Note>, hand: seq<NoteEvent>, staffNumber: int,
                                        lyrics: bool, c: Cursor, measureStart: bool)
    requires c.noteIdx <= |hand|
    ensures WalkNotes(ns, hand, staffNumber, lyrics, c, measureStart).cursor.noteIdx ==
            Min(|hand|, c.noteIdx + Eligible(ns, staffNumber))
    decreases |ns|
  {
    if ns == [] {
    } else if Skipped(ns[0], staffNumber) {
      NotesConsume(ns[1..], hand, staffNumber, lyrics, c, measureStart);
    } else if c.noteIdx < |hand| {
      var e := hand[c.noteIdx];
      NotesConsume(ns[1..], hand, staffNumber, lyrics,
                   Cursor(c.noteIdx + 1, Some(e.fingering), Some(e.pitch)), false);
    }
  }

  lemma {:induction false} MeasuresConsume(ms: seq<Measure>, hand: seq<NoteEvent>, staffNumber: int,
                                           lyrics: bool, c: Cursor)
    requires c.noteIdx <= |hand|
    ensures WalkMeasures(ms, hand, staffNumber, lyrics, c).cursor.noteIdx ==
            Min(|hand|, c.noteIdx + MeasuresEligible(ms, staffNumber))
    decreases |ms|
  {
    if ms != [] {
      var first := WalkNotes(ms[0], hand, staffNumber, lyrics, c, true);
      NotesConsume(ms[0], hand, staffNumber, lyrics, c, true);
      NotesBounds(ms[0], hand, staffNumber, lyrics, c, true);
      MeasuresConsume(ms[1..], hand, staffNumber, lyrics, first.cursor);
      var rest := WalkMeasures(ms[1..], hand, staffNumber, lyrics, first.cursor);
      MinChain(|hand|, c.noteIdx, Eligible(ms[0], staffNumber), MeasuresEligible(ms[1..], staffNumber),
               first.cursor.noteIdx, rest.cursor.noteIdx);
    }
  }

  lemma {:induction false} PartsConsume(ps: Document, hand: seq<NoteEvent>, staffNumber: int,
                                        lyrics: bool, c: Cursor)
    requires c.noteIdx <= |hand|
    ensures WalkParts(ps, hand, staffNumber, lyrics, c).cursor.noteIdx ==
            Min(|hand|, c.noteIdx + DocumentEligible(ps, staffNumber))
    decreases |ps|
  {
    if ps != [] {
      var first := WalkMeasures(ps[0], hand, staffNumber, lyrics, c);
      MeasuresConsume(ps[0], hand, staffNumber, lyrics, c);
      MeasuresBounds(ps[0], hand, staffNumber, lyrics, c);
      PartsConsume(ps[1..], hand, staffNumber, lyrics, first.cursor);
      var rest := WalkParts(ps[1..], hand, staffNumber, lyrics, first.cursor);
      MinChain(|hand|, c.noteIdx, MeasuresEligible(ps[0], staffNumber), DocumentEligible(ps[1..], staffNumber),
               first.cursor.noteIdx, rest.cursor.noteIdx);
    }
  }

  /** Over the whole score the walk consumes one position of the hand per
      eligible note, and stops only when the hand runs out. */
  lemma AnnotationConsumes(tree: Document, hand: seq<NoteEvent>, staffNumber: int, lyrics: bool)
    ensures Annotation(tree, hand, staffNumber, lyrics).cursor.noteIdx ==
            Min(|hand|, DocumentEligible(tree, staffNumber))
  {
    PartsConsume(tree, hand, staffNumber, lyrics, Start);
  }

  // ---------------------------------------------------------------------------
  // Exhaustion: once the hand is used up nothing changes any more

  lemma {:induction false} NotesExhausted(ns: seq<Note>, hand: seq<NoteEvent>, staffNumber: int,
                                          lyrics: bool, c: Cursor, measureStart: bool)
    requires c.noteIdx >= |hand|
    ensures WalkNotes(ns, hand, staffNumber, lyrics, c, measureStart) == Walk(ns, c, 0)
    decreases |ns|
  {
    if ns != [] && Skipped(ns[0], staffNumber) {
      NotesExhausted(ns[1..], hand, staffNumber, lyrics, c, measureStart);
      assert [ns[0]] + ns[1..] == ns;
    }
  }

  lemma {:induction false} MeasuresExhausted(ms: seq<Measure>, hand: seq<NoteEvent>, staffNumber: int,
                                             lyrics: bool, c: Cursor)
    requires c.noteIdx >= |hand|
    ensures WalkMeasures(ms, hand, staffNumber, lyrics, c) == Walk(ms, c, 0)
    decreases |ms|
  {
    if ms != [] {
      NotesExhausted(ms[0], hand, staffNumber, lyrics, c, true);
      MeasuresExhausted(ms[1..], hand, staffNumber, lyrics, c);
      assert [ms[0]] + ms[1..] == ms;
    }
  }

  /** Once every position of the hand is consumed, the remaining parts are
      left exactly as they are and no label is written. */
  lemma {:induction false} PartsExhausted(ps: Document, hand: seq<NoteEvent>, staffNumber: int,
                                          lyrics: bool, c: Cursor)
    requires c.noteIdx >= |hand|
    ensures WalkParts(ps, hand, staffNumber, lyrics, c) == Walk(ps, c, 0)
    decreases |ps|
  {
    if ps != [] {
      MeasuresExhausted(ps[0], hand, staffNumber, lyrics, c);
      PartsExhausted(ps[1..], hand, staffNumber, lyrics, c);
      assert [ps[0]] + ps[1..] == ps;
    }
  }

  /** With an empty hand the score comes back unchanged. */
  lemma EmptyHandChangesNothing(tree: Document, staffNumber: int, lyrics: bool)
    ensures Annotation(tree, [], staffNumber, lyrics) == Walk(tree, Start, 0)
  {
    PartsExhausted(tree, [], staffNumber, lyrics, Start);
  }

  /** A measure holding only skipped notes consumes nothing and changes nothing. */
  lemma {:induction false} SkippedMeasureUntouched(ns: seq<Note>, hand: seq<NoteEvent>, staffNumber: int,
                                                   lyrics: bool, c: Cursor, measureStart: bool)
    requires forall k :: 0 <= k < |ns| ==> Skipped(ns[k], staffNumber)
    ensures WalkNotes(ns, hand, staffNumber, lyrics, c, measureStart) == Walk(ns, c, 0)
    decreases |ns|
  {
    if ns != [] {
      SkippedMeasureUntouched(ns[1..], hand, staffNumber, lyrics, c, measureStart);
      assert [ns[0]] + ns[1..] == ns;
    }
  }

  /** A note without a `staff` child is never filtered by staff: whatever staff
      is asked for, an ordinary note consumes the next position of the hand. */
  lemma UnstaffedNoteConsumed(n: Note, hand: seq<NoteEvent>, staffNumber: int, lyrics: bool,
                              c: Cursor, measureStart: bool)
    requires n.staff.None? && !n.chord && !n.rest && c.noteIdx < |hand|
    ensures var w := WalkNotes([n], hand, staffNumber, lyrics, c, measureStart);
            w.cursor == Cursor(c.noteIdx + 1, Some(hand[c.noteIdx].fingering), Some(hand[c.noteIdx].pitch))
  {
    assert [n][1..] == [];
  }

  // ---------------------------------------------------------------------------
  // Nothing is removed: every note keeps its children; skipped notes are untouched

  predicate NotesGrow(a: seq<Note>, b: seq<Note>, staffNumber: int) {
    |a| == |b| &&
    forall i :: 0 <= i < |a| ==> NoteGrows(a[i], b[i]) && (Skipped(a[i], staffNumber) ==> b[i] == a[i])
  }

  predicate MeasuresGrow(a: seq<Measure>, b: seq<Measure>, staffNumber: int) {
    |a| == |b| && forall i :: 0 <= i < |a| ==> NotesGrow(a[i], b[i], staffNumber)
  }

  predicate DocumentGrows(a: Document, b: Document, staffNumber: int) {
    |a| == |b| && forall i :: 0 <= i < |a| ==> MeasuresGrow(a[i], b[i], staffNumber)
  }

  lemma NotesGrowReflexive(ns: seq<Note>, staffNumber: int)
    ensures NotesGrow(ns, ns, staffNumber)
  {
    forall i | 0 <= i < |ns| ensures NoteGrows(ns[i], ns[i]) {
      NoteGrowsReflexive(ns[i]);
    }
  }

  /** Prepending one grown note to grown notes. */
  lemma NotesGrowCons(a: Note, b: Note, as_: seq<Note>, bs: seq<Note>, staffNumber: int)
    requires NoteGrows(a, b) && (Skipped(a, staffNumber) ==> b == a) && NotesGrow(as_, bs, staffNumber)
    ensures NotesGrow([a] + as_, [b] + bs, staffNumber)
  {
    var x, y := [a] + as_, [b] + bs;
    forall i | 0 <= i < |x| ensures NoteGrows(x[i], y[i]) && (Skipped(x[i], staffNumber) ==> y[i] == x[i]) {
      if i > 0 {
        assert x[i] == as_[i - 1] && y[i] == bs[i - 1];
      }
    }
  }

  lemma {:induction false} NotesPreserved(ns: seq<Note>, hand: seq<NoteEvent>, staffNumber: int,
                                          lyrics: bool, c: Cursor, measureStart: bool)
    ensures NotesGrow(ns, WalkNotes(ns, hand, staffNumber, lyrics, c, measureStart).out, staffNumber)
    decreases |ns|
  {
    if ns == [] {
    } else if Skipped(ns[0], staffNumber) {
      NotesPreserved(ns[1..], hand, staffNumber, lyrics, c, measureStart);
      NoteGrowsReflexive(ns[0]);
      var rest := WalkNotes(ns[1..], hand, staffNumber, lyrics, c, measureStart);
      NotesGrowCons(ns[0], ns[0], ns[1..], rest.out, staffNumber);
      assert [ns[0]] + ns[1..] == ns;
    } else if c.noteIdx >= |hand| {
      NotesGrowReflexive(ns, staffNumber);
    } else {
      var e := hand[c.noteIdx];
      var show := Shows(measureStart, e.fingering, e.pitch, c.prevFingering, c.prevPitch);
      var n := if show then Label(ns[0], IntToString(e.fingering), lyrics) else ns[0];
      var next := Cursor(c.noteIdx + 1, Some(e.fingering), Some(e.pitch));
      NotesPreserved(ns[1..], hand, staffNumber, lyrics, next, false);
      if show { LabelSpec(ns[0], IntToString(e.fingering), lyrics); } else { NoteGrowsReflexive(ns[0]); }
      var rest := WalkNotes(ns[1..], hand, staffNumber, lyrics, next, false);
      NotesGrowCons(ns[0], n, ns[1..], rest.out, staffNumber);
      assert [ns[0]] + ns[1..] == ns;
    }
  }

  lemma {:induction false} MeasuresPreserved(ms: seq<Measure>, hand: seq<NoteEvent>, staffNumber: int,
                                             lyrics: bool, c: Cursor)
    ensures MeasuresGrow(ms, WalkMeasures(ms, hand, staffNumber, lyrics, c).out, staffNumber)
    decreases |ms|
  {
    if ms != [] {
      var first := WalkNotes(ms[0], hand, staffNumber, lyrics, c, true);
      var rest := WalkMeasures(ms[1..], hand, staffNumber, lyrics, first.cursor);
      NotesPreserved(ms[0], hand, staffNumber, lyrics, c, true);
      MeasuresPreserved(ms[1..], hand, staffNumber, lyrics, first.cursor);
      var out := [first.out] + rest.out;
      forall i | 0 <= i < |ms| ensures NotesGrow(ms[i], out[i], staffNumber) {
        if i > 0 {
          assert ms[i] == ms[1..][i - 1] && out[i] == rest.out[i - 1];
        }
      }
    }
  }

  lemma {:induction false} PartsPreserved(ps: Document, hand: seq<NoteEvent>, staffNumber: int,
                                          lyrics: bool, c: Cursor)
    ensures DocumentGrows(ps, WalkParts(ps, hand, staffNumber, lyrics, c).out, staffNumber)
    decreases |ps|
  {
    if ps != [] {
      var first := WalkMeasures(ps[0], hand, staffNumber, lyrics, c);
      var rest := WalkParts(ps[1..], hand, staffNumber, lyrics, first.cursor);
      MeasuresPreserved(ps[0], hand, staffNumber, lyrics, c);
      PartsPreserved(ps[1..], hand, staffNumber, lyrics, first.cursor);
      var out := [first.out] + rest.out;
      forall i | 0 <= i < |ps| ensures MeasuresGrow(ps[i], out[i], staffNumber) {
        if i > 0 {
          assert ps[i] == ps[1..][i - 1] && out[i] == rest.out[i - 1];
        }
      }
    }
  }

  /** The annotated score has the same parts, measures and notes; every note
      keeps its staff, chord and rest markers and all of its children; notes
      the walk skips are not modified at all. */
  lemma AnnotationPreserves(tree: Document, hand: seq<NoteEvent>, staffNumber: int, lyrics: bool)
    ensures DocumentGrows(tree, Annotation(tree, hand, staffNumber, lyrics).out, staffNumber)
  {
    PartsPreserved(tree, hand, staffNumber, lyrics, Start);
  }

  /** Labelling never changes which notes are skipped, so a second pass over an
      annotated score (the other hand) sees the same eligible notes. */
  lemma GrowthKeepsSkipping(a: Note, b: Note, staffNumber: int)
    requires NoteGrows(a, b)
    ensures Skipped(a, staffNumber) <==> Skipped(b, staffNumber)
  {
  }

  // ---------------------------------------------------------------------------
  // The carried state: previous fingering and pitch are those of the previous
  // note of the hand, whatever measure or part it was in

  predicate Coherent(c: Cursor, hand: seq<NoteEvent>) {
    c.noteIdx <= |hand| &&
    if c.noteIdx == 0 then c.prevFingering.None? && c.prevPitch.None?
    else c.prevFingering == Some(hand[c.noteIdx - 1].fingering) &&
         c.prevPitch == Some(hand[c.noteIdx - 1].pitch)
  }

  lemma {:induction false} NotesCoherent(ns: seq<Note>, hand: seq<NoteEvent>, staffNumber: int,
                                         lyrics: bool, c: Cursor, measureStart: bool)
    requires Coherent(c, hand)
    ensures Coherent(WalkNotes(ns, hand, staffNumber, lyrics, c, measureStart).cursor, hand)
    decreases |ns|
  {
    if ns == [] {
    } else if Skipped(ns[0], staffNumber) {
      NotesCoherent(ns[1..], hand, staffNumber, lyrics, c, measureStart);
    } else if c.noteIdx < |hand| {
      var e := hand[c.noteIdx];
      NotesCoherent(ns[1..], hand, staffNumber, lyrics,
                    Cursor(c.noteIdx + 1, Some(e.fingering), Some(e.pitch)), false);
    }
  }

  lemma {:induction false} MeasuresCoherent(ms: seq<Measure>, hand: seq<NoteEvent>, staffNumber: int,
                                            lyrics: bool, c: Cursor)
    requires Coherent(c, hand)
    ensures Coherent(WalkMeasures(ms, hand, staffNumber, lyrics, c).cursor, hand)
    decreases |ms|
  {
    if ms != [] {
      NotesCoherent(ms[0], hand, staffNumber, lyrics, c, true);
      var first := WalkNotes(ms[0], hand, staffNumber, lyrics, c, true);
      MeasuresCoherent(ms[1..], hand, staffNumber, lyrics, first.cursor);
    }
  }

  lemma {:induction false} PartsCoherent(ps: Document, hand: seq<NoteEvent>, staffNumber: int,
                                         lyrics: bool, c: Cursor)
    requires Coherent(c, hand)
    ensures Coherent(WalkParts(ps, hand, staffNumber, lyrics, c).cursor, hand)
    decreases |ps|
  {
    if ps != [] {
      MeasuresCoherent(ps[0], hand, staffNumber, lyrics, c);
      var first := WalkMeasures(ps[0], hand, staffNumber, lyrics, c);
      PartsCoherent(ps[1..], hand, staffNumber, lyrics, first.cursor);
    }
  }

  /** Measure `m` of a part is walked from the state the measures before it
      left behind: the cursor is carried, not reset, at a measure boundary. */
  lemma {:induction false} MeasureEntry(ms: seq<Measure>, hand: seq<NoteEvent>, staffNumber: int,
                                        lyrics: bool, c: Cursor, m: nat)
    requires m < |ms|
    ensures var entry := WalkMeasures(ms[..m], hand, staffNumber, lyrics, c).cursor;
            WalkMeasures(ms, hand, staffNumber, lyrics, c).out[m] ==
            WalkNotes(ms[m], hand, staffNumber, lyrics, entry, true).out
    decreases m
  {
    if m > 0 {
      var first := WalkNotes(ms[0], hand, staffNumber, lyrics, c, true);
      MeasureEntry(ms[1..], hand, staffNumber, lyrics, first.cursor, m - 1);
      assert ms[..m][0] == ms[0];
      assert ms[..m][1..] == ms[1..][..m - 1];
      assert ms[1..][m - 1] == ms[m];
    } else {
      assert ms[..0] == [];
    }
  }

  /** Part `p` is walked from the state the parts before it left behind. */
  lemma {:induction false} PartEntry(ps: Document, hand: seq<NoteEvent>, staffNumber: int,
                                     lyrics: bool, c: Cursor, p: nat)
    requires p < |ps|
    ensures var entry := WalkParts(ps[..p], hand, staffNumber, lyrics, c).cursor;
            WalkParts(ps, hand, staffNumber, lyrics, c).out[p] ==
            WalkMeasures(ps[p], hand, staffNumber, lyrics, entry).out
    decreases p
  {
    if p > 0 {
      var first := WalkMeasures(ps[0], hand, staffNumber, lyrics, c);
      PartEntry(ps[1..], hand, staffNumber, lyrics, first.cursor, p - 1);
      assert ps[..p][0] == ps[0];
      assert ps[..p][1..] == ps[1..][..p - 1];
      assert ps[1..][p - 1] == ps[p];
    } else {
      assert ps[..0] == [];
    }
  }

  /** Every measure of the score is entered with a state that records the
      hand's previous note (or none at the very start). */
  lemma MeasureEntryCoherent(tree: Document, hand: seq<NoteEvent>, staffNumber: int, lyrics: bool,
                             p: nat, m: nat)
    requires p < |tree| && m < |tree[p]|
    ensures var partEntry := WalkParts(tree[..p], hand, staffNumber, lyrics, Start).cursor;
            var entry := WalkMeasures(tree[p][..m], hand, staffNumber, lyrics, partEntry).cursor;
            Coherent(entry, hand) &&
            |Annotation(tree, hand, staffNumber, lyrics).out[p]| == |tree[p]| &&
            Annotation(tree, hand, staffNumber, lyrics).out[p][m] ==
            WalkNotes(tree[p][m], hand, staffNumber, lyrics, entry, true).out
  {
    var partEntry := WalkParts(tree[..p], hand, staffNumber, lyrics, Start).cursor;
    PartsCoherent(tree[..p], hand, staffNumber, lyrics, Start);
    MeasuresCoherent(tree[p][..m], hand, staffNumber, lyrics, partEntry);
    PartEntry(tree, hand, staffNumber, lyrics, Start, p);
    MeasureEntry(tree[p], hand, staffNumber, lyrics, partEntry, m);
  }

  // ---------------------------------------------------------------------------
  // Measure starts

  /** The first eligible note of a measure is labelled with the fingering of
      the next position of the hand, as long as the hand is not exhausted. */
  lemma {:induction false} MeasureOpensLabelled(ns: seq<Note>, hand: seq<NoteEvent>, staffNumber: int,
                                                lyrics: bool, c: Cursor, i: nat)
    requires i < |ns| && !Skipped(ns[i], staffNumber)
    requires forall k :: 0 <= k < i ==> Skipped(ns[k], staffNumber)
    requires c.noteIdx < |hand|
    ensures var w := WalkNotes(ns, hand, staffNumber, lyrics, c, true);
            i < |w.out| && w.out[i] == Label(ns[i], IntToString(hand[c.noteIdx].fingering), lyrics)
    decreases i
  {
    NotesPreserved(ns, hand, staffNumber, lyrics, c, true);
    if i > 0 {
      MeasureOpensLabelled(ns[1..], hand, staffNumber, lyrics, c, i - 1);
    }
  }

  // ---------------------------------------------------------------------------
  // Which notes are labelled: the cascade decides, note by note

  /** What the walk makes of one note, given the state the notes before it
      left: a skipped note, or any note once the hand is exhausted, is kept as
      it is; otherwise the note takes the next position of the hand and is
      labelled with its fingering exactly when the cascade shows it, and kept
      as it is when the cascade hides it. */
  function NoteOutcome(n: Note, hand: seq<NoteEvent>, staffNumber: int, lyrics: bool,
                       pre: Cursor, measureStart: bool): Note
  {
    if Skipped(n, staffNumber) || pre.noteIdx >= |hand| then n
    else
      var e := hand[pre.noteIdx];
      if Shows(measureStart, e.fingering, e.pitch, pre.prevFingering, pre.prevPitch)
      then Label(n, IntToString(e.fingering), lyrics)
      else n
  }

  /** Note `i` of a measure comes out as `NoteOutcome` says, from the state
      the notes before it left; the measure-start flag still holds there
      exactly when no note before it was consumed. */
  lemma {:induction false} NoteOutcomeAt(ns: seq<Note>, hand: seq<NoteEvent>, staffNumber: int,
                                         lyrics: bool, c: Cursor, measureStart: bool, i: nat)
    requires i < |ns|
    ensures var w := WalkNotes(ns, hand, staffNumber, lyrics, c, measureStart);
            var pre := WalkNotes(ns[..i], hand, staffNumber, lyrics, c, measureStart).cursor;
            |w.out| == |ns| &&
            w.out[i] == NoteOutcome(ns[i], hand, staffNumber, lyrics, pre,
                                    measureStart && pre.noteIdx == c.noteIdx)
    decreases i
  {
    NotesPreserved(ns, hand, staffNumber, lyrics, c, measureStart);
    if i == 0 {
      assert ns[..0] == [];
    } else {
      assert ns[..i][0] == ns[0];
      assert ns[..i][1..] == ns[1..][..i - 1];
      assert ns[1..][i - 1] == ns[i];
      if Skipped(ns[0], staffNumber) {
        NoteOutcomeAt(ns[1..], hand, staffNumber, lyrics, c, measureStart, i - 1);
      } else if c.noteIdx >= |hand| {
        NotesExhausted(ns[..i], hand, staffNumber, lyrics, c, measureStart);
      } else {
        var e := hand[c.noteIdx];
        var next := Cursor(c.noteIdx + 1, Some(e.fingering), Some(e.pitch));
        NoteOutcomeAt(ns[1..], hand, staffNumber, lyrics, next, false, i - 1);
        NotesBounds(ns[1..][..i - 1], hand, staffNumber, lyrics, next, false);
      }
    }
  }

  /** Over the whole score: note `i` of measure `m` of part `p` comes out as
      `NoteOutcome` says, from the state the score before it left. That state
      records the hand's previous note, so the cascade compares against the
      fingering and pitch of `hand[k - 1]` when it labels note `k`; a note the
      cascade hides is left exactly as it was. */
  lemma AnnotationNoteOutcome(tree: Document, hand: seq<NoteEvent>, staffNumber: int, lyrics: bool,
                              p: nat, m: nat, i: nat)
    requires p < |tree| && m < |tree[p]| && i < |tree[p][m]|
    ensures var partEntry := WalkParts(tree[..p], hand, staffNumber, lyrics, Start).cursor;
            var entry := WalkMeasures(tree[p][..m], hand, staffNumber, lyrics, partEntry).cursor;
            var pre := WalkNotes(tree[p][m][..i], hand, staffNumber, lyrics, entry, true).cursor;
            var out := Annotation(tree, hand, staffNumber, lyrics).out;
            Coherent(pre, hand) &&
            |out[p]| == |tree[p]| && |out[p][m]| == |tree[p][m]| &&
            out[p][m][i] == NoteOutcome(tree[p][m][i], hand, staffNumber, lyrics, pre,
                                        pre.noteIdx == entry.noteIdx)
  {
    var partEntry := WalkParts(tree[..p], hand, staffNumber, lyrics, Start).cursor;
    var entry := WalkMeasures(tree[p][..m], hand, staffNumber, lyrics, partEntry).cursor;
    MeasureEntryCoherent(tree, hand, staffNumber, lyrics, p, m);
    NotesCoherent(tree[p][m][..i], hand, staffNumber, lyrics, entry, true);
    NoteOutcomeAt(tree[p][m], hand, staffNumber, lyrics, entry, true, i);
  }

  // ---------------------------------------------------------------------------
  // Technical mode: the label count is the number of fingerings added

  function Fingerings(n: Note): nat {
    |TechnicalChildren(n)|
  }

  function MeasureFingerings(ns: seq<Note>): nat
    decreases |ns|
  {
    if ns == [] then 0 else Fingerings(ns[0]) + MeasureFingerings(ns[1..])
  }

  function PartFingerings(ms: seq<Measure>): nat
    decreases |ms|
  {
    if ms == [] then 0 else MeasureFingerings(ms[0]) + PartFingerings(ms[1..])
  }

  function DocumentFingerings(ps: Document): nat
    decreases |ps|
  {
    if ps == [] then 0 else PartFingerings(ps[0]) + DocumentFingerings(ps[1..])
  }

  lemma {:induction false} NotesAddFingerings(ns: seq<Note>, hand: seq<NoteEvent>, staffNumber: int,
                                              c: Cursor, measureStart: bool)
    ensures var w := WalkNotes(ns, hand, staffNumber, false, c, measureStart);
            MeasureFingerings(w.out) == MeasureFingerings(ns) + w.labels
    decreases |ns|
  {
    if ns == [] {
    } else if Skipped(ns[0], staffNumber) {
      var rest := WalkNotes(ns[1..], hand, staffNumber, false, c, measureStart);
      NotesAddFingerings(ns[1..], hand, staffNumber, c, measureStart);
      assert ([ns[0]] + rest.out)[1..] == rest.out;
    } else if c.noteIdx < |hand| {
      var e := hand[c.noteIdx];
      var show := Shows(measureStart, e.fingering, e.pitch, c.prevFingering, c.prevPitch);
      var n := if show then Label(ns[0], IntToString(e.fingering), false) else ns[0];
      var next := Cursor(c.noteIdx + 1, Some(e.fingering), Some(e.pitch));
      var rest := WalkNotes(ns[1..], hand, staffNumber, false, next, false);
      NotesAddFingerings(ns[1..], hand, staffNumber, next, false);
      if show { PatchTechnicalSpec(ns[0], IntToString(e.fingering)); }
      assert ([n] + rest.out)[1..] == rest.out;
    }
  }

  lemma {:induction false} MeasuresAddFingerings(ms: seq<Measure>, hand: seq<NoteEvent>, staffNumber: int,
                                                 c: Cursor)
    ensures var w := WalkMeasures(ms, hand, staffNumber, false, c);
            PartFingerings(w.out) == PartFingerings(ms) + w.labels
    decreases |ms|
  {
    if ms != [] {
      var first := WalkNotes(ms[0], hand, staffNumber, false, c, true);
      var rest := WalkMeasures(ms[1..], hand, staffNumber, false, first.cursor);
      NotesAddFingerings(ms[0], hand, staffNumber, c, true);
      MeasuresAddFingerings(ms[1..], hand, staffNumber, first.cursor);
      assert ([first.out] + rest.out)[1..] == rest.out;
    }
  }

  lemma {:induction false} PartsAddFingerings(ps: Document, hand: seq<NoteEvent>, staffNumber: int,
                                              c: Cursor)
    ensures var w := WalkParts(ps, hand, staffNumber, false, c);
            DocumentFingerings(w.out) == DocumentFingerings(ps) + w.labels
    decreases |ps|
  {
    if ps != [] {
      var first := WalkMeasures(ps[0], hand, staffNumber, false, c);
      var rest := WalkParts(ps[1..], hand, staffNumber, false, first.cursor);
      MeasuresAddFingerings(ps[0], hand, staffNumber, c);
      PartsAddFingerings(ps[1..], hand, staffNumber, first.cursor);
      assert ([first.out] + rest.out)[1..] == rest.out;
    }
  }

  /** In technical mode the score gains exactly one `fingering` element per
      label the walk decides to show. */
  lemma AnnotationAddsOneFingeringPerLabel(tree: Document, hand: seq<NoteEvent>, staffNumber: int)
    ensures var w := Annotation(tree, hand, staffNumber, false);
            DocumentFingerings(w.out) == DocumentFingerings(tree) + w.labels
  {
    PartsAddFingerings(tree, hand, staffNumber, Start);
  }

  // ---------------------------------------------------------------------------
  // A worked measure

  /** Fingers 1, 2, 1, 3 on pitches 60, 62, 60, 67 in one measure: the first
      note opens the measure, the second is hidden, the third is a thumb shift
      and the fourth is hidden. */
  lemma FourNoteMeasure()
    ensures var n := Note(Some(1), false, false, []);
            var hand := [NoteEvent(0, 1, 60, 1, 0.0, 0), NoteEvent(1, 1, 62, 2, 0.0, 1),
                         NoteEvent(2, 1, 60, 1, 0.0, 2), NoteEvent(3, 1, 67, 3, 0.0, 3)];
            var w := WalkNotes([n, n, n, n], hand, 1, false, Start, true);
            w.out == [Label(n, "1", false), n, Label(n, "1", false), n] &&
            w.labels == 2 && w.cursor == Cursor(4, Some(3), Some(67))
  {
    FingerLabel(1);
    assert IntToString(1) == "1";
    var n := Note(Some(1), false, false, []);
    var hand := [NoteEvent(0, 1, 60, 1, 0.0, 0), NoteEvent(1, 1, 62, 2, 0.0, 1),
                 NoteEvent(2, 1, 60, 1, 0.0, 2), NoteEvent(3, 1, 67, 3, 0.0, 3)];
    var ns := [n, n, n, n];
    assert [n][1..] == [];
    assert WalkNotes([], hand, 1, false, Cursor(4, Some(3), Some(67)), false) == Walk([], Cursor(4, Some(3), Some(67)), 0);
    var w3 := WalkNotes([n], hand, 1, false, Cursor(3, Some(1), Some(60)), false);
    assert !Shows(false, 3, 67, Some(1), Some(60));
    assert !Skipped(n, 1);
    assert hand[3].fingering == 3 && hand[3].pitch == 67;
    assert w3.out == [n] + WalkNotes([n][1..], hand, 1, false, Cursor(4, Some(3), Some(67)), false).out;
    assert w3.out == [n];
    assert w3.cursor == Cursor(4, Some(3), Some(67));
    assert w3.labels == 0;
    assert w3 == Walk([n], Cursor(4, Some(3), Some(67)), 0);
    assert [n, n][1..] == [n];
    var w2 := WalkNotes([n, n], hand, 1, false, Cursor(2, Some(2), Some(62)), false);
    assert Shows(false, 1, 60, Some(2), Some(62));
    assert hand[2].fingering == 1 && hand[2].pitch == 60;
    assert w2.out == [Label(n, "1", false)] + w3.out;
    assert w2.cursor == w3.cursor && w2.labels == 1;
    assert [Label(n, "1", false)] + [n] == [Label(n, "1", false), n];
    assert w2 == Walk([Label(n, "1", false), n], Cursor(4, Some(3), Some(67)), 1);
    assert [n, n, n][1..] == [n, n];
    var w1 := WalkNotes([n, n, n], hand, 1, false, Cursor(1, Some(1), Some(60)), false);
    assert !Shows(false, 2, 62, Some(1), Some(60));
    assert hand[1].fingering == 2 && hand[1].pitch == 62;
    assert w1.out == [n] + w2.out;
    assert w1.cursor == w2.cursor && w1.labels == 1;
    assert [n] + [Label(n, "1", false), n] == [n, Label(n, "1", false), n];
    assert w1 == Walk([n, Label(n, "1", false), n], Cursor(4, Some(3), Some(67)), 1);
    assert ns[1..] == [n, n, n];
    assert hand[0].fingering == 1 && hand[0].pitch == 60;
    assert Shows(true, 1, 60, None, None);
    assert [Label(n, "1", false)] + [n, Label(n, "1", false), n] == [Label(n, "1", false), n, Label(n, "1", false), n];
  }
}

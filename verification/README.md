# pianoplayer annotation core, modelled in Dafny

pianoplayer computes piano fingerings for a score and writes them back out. The
fingering optimizer itself is not modelled here. The model covers the core
around it:

- **The command-line pipeline, `annotate`.** It settles one hand size from
  seven switches. It decides from the input file name how the score is
  obtained: a MuseScore file is converted, a PIG text file is read directly, a
  MIDI file is converted to MusicXML, and a MusicXML file is read where it
  is. It then reads and fingers each hand that is not switched off. Finally it
  writes one of two outputs:
  - a tabular PIG file, with the records of both hands sorted by onset,
    channel and pitch and numbered from 0;
  - the MusicXML score with the fingering written into it.
- **The score annotator, `annotate_fingers_xml_direct`.** It walks the parts,
  measures and notes of the score in document order alongside one hand's
  fingered notes. It passes over rests, chord continuations and other staves'
  notes. It writes a fingering only where a rule cascade finds one worth
  showing: the first note of a measure, a thumb shift, a pinky stretch, a leap
  of more than an octave, or a thumb crossing. The fingering goes in as a
  lyric or as a technical `fingering` mark.
- **`annotate_PIG`**, which turns one hand's notes into PIG records.
- **The web front end's helpers:**
  - which uploaded file names are accepted;
  - the name of the annotated file sent back;
  - how a requested hand size becomes the seven switches.

## Layout

| file | module | contents |
|---|---|---|
| wrappers.dfy | `Wrappers` | `Option`, `Result` |
| seqs.dfy | `Seqs` | associativity of `+` on sequences |
| text.dfy | `Text` | the Python string operations the core relies on: `in`, `str.replace`, `rfind`, `os.path.splitext`, `lower`, `str(int)` |
| notes.dfy | `Notes` | the optimizer's note record and the hand sizes |
| exposure.dfy | `Exposure` | the rule cascade deciding which fingerings are shown |
| musicxml.dfy | `MusicXml` | the score tree and the two ways of writing a fingering into a note |
| xml_annotation.dfy | `XmlAnnotation` | the walk as a specification function, and the annotator as nested loops proved against it |
| annotation_properties.dfy | `AnnotationProperties` | what the walk guarantees |
| pig.dfy | `Pig` | PIG records, the stable sort and the numbered rows |
| options.dfy | `Options` | hand-size selection, input dispatch, converted path, output kind |
| pipeline.dfy | `Pipeline` | `annotate` end to end |
| upload.dfy | `Upload` | the web front end's helpers |

Conventions:

- **Times** are integers in ten-thousandths of a second. That is the
  resolution of the tabular file, so the four-decimal formatting and the
  `float(...)` parse of the sort key are both the identity.
- **The score** is a value: a sequence of parts, each a sequence of measures,
  each a sequence of notes. The annotator returns the patched score instead of
  mutating it in place.
- **A skipped hand** is an empty note sequence. The proof of `Annotate` shows
  that annotating with an empty hand changes nothing, and an empty hand
  contributes no records.

## Model

| member | source | states |
|---|---|---|
| Exposure.Decide | pianoplayer/core.py:125-149 | the rule chosen for a note fires, and no rule earlier in the cascade fires; the fall-through is Hidden |
| Exposure.Shows | pianoplayer/core.py:126-151 | a fingering is written exactly when the cascade picks a rule other than Hidden; `ShowsIffSomeRuleFires` states when that is |
| Exposure.ShowsIffSomeRuleFires | pianoplayer/core.py:126-149 | a fingering is shown exactly when at least one rule's trigger holds, so the cascade order decides only which rule is reported |
| Exposure.OctaveBoundary | pianoplayer/core.py:139 | a leap of exactly 12 semitones is not shown; 13 up or 13 down is a large leap |
| MusicXml.FindTag | pianoplayer/core.py:103 | the position found is the first child with the tag; None means no child has it |
| MusicXml.PatchLyric | pianoplayer/core.py:154-163 | the staff, chord and rest markers are kept, and afterwards the note has a lyric child; the full contract is `PatchLyricSpec` |
| MusicXml.PatchLyricSpec | pianoplayer/core.py:154-163 | afterwards the first lyric's text is the finger string; an existing first lyric is reused with its tag, attributes and text, and in it only the first `text` child changes, and only its text (a missing one is appended); no other child of the note changes; otherwise one lyric numbered 1 holding only that text is appended; nothing is removed |
| MusicXml.PatchTechnical | pianoplayer/core.py:164-175 | the staff, chord and rest markers are kept, and afterwards the note has a notations child; the full contract is `PatchTechnicalSpec` |
| MusicXml.PatchTechnicalSpec | pianoplayer/core.py:164-175 | the note's technical marks are the old ones plus exactly one new fingering element; an existing notations child is reused with its tag, attributes and text, and in it only the first `technical` child changes, gaining only that fingering (a missing one is appended holding just it); no other child of the note changes; otherwise a notations child holding just that is appended; nothing is removed |
| MusicXml.Label | pianoplayer/core.py:151-175 | writes the mark as a lyric or as a technical fingering; `LabelSpec` states its contract |
| MusicXml.LabelSpec | pianoplayer/core.py:151-175 | writing a label in either mode keeps every element of the note, with its tag and attributes, in place, and adds no staff, chord or rest child; in lyric mode the mark is the lyric text, in technical mode it is one more technical fingering |
| MusicXml.NoteGrowsTransitive | pianoplayer/core.py:305-309 | two labelling passes in a row still keep every element of the note |
| XmlAnnotation.Annotation | pianoplayer/core.py:96-97 | the walk returns as many parts as the score has; `AnnotationNoteOutcome` states what becomes of each note and `AnnotationConsumes` how much of the hand is used |
| XmlAnnotation.WalkParts | pianoplayer/core.py:96 | the walk of the parts returns one part per part given, carrying the state from each part into the next |
| XmlAnnotation.Skipped | pianoplayer/core.py:101-114 | a note is passed over when a staff is asked for and the note names another one, or it is a chord continuation, or a rest; `SkippedMeasureUntouched` and `NotesPreserved` state what that leaves unchanged |
| XmlAnnotation.WalkMeasures | pianoplayer/core.py:97-98 | the walk of a part returns as many measures as it was given |
| XmlAnnotation.WalkNotes | pianoplayer/core.py:100-178 | the walk of one measure; `NoteOutcomeAt` states what becomes of each note, `NotesConsume` how many positions of the hand it takes, `NotesPreserved` that skipped notes are unchanged, `NotesExhausted` that an exhausted hand leaves the rest alone |
| XmlAnnotation.AnnotateMeasure | pianoplayer/core.py:100-178 | the inner loop over one measure's notes produces exactly the walk of that measure from the carried state: the same patched notes, the same state afterwards |
| XmlAnnotation.AnnotateFingersXmlDirect | pianoplayer/core.py:76-180 | the nested loops over parts, measures and notes produce exactly the specified walk of the whole score |
| AnnotationProperties.NotesBounds | pianoplayer/core.py:117-123 | within a measure, the position in the hand only moves forward and never past the hand's end, and labels written never exceed positions consumed |
| AnnotationProperties.AnnotationBounds | pianoplayer/core.py:100-123 | over the whole score at most the hand's length of notes is consumed, and no more labels are written than notes consumed |
| AnnotationProperties.NotesConsume | pianoplayer/core.py:100-123 | within a measure the walk takes exactly one position of the hand per note that is not skipped, until the hand runs out |
| AnnotationProperties.MeasuresConsume | pianoplayer/core.py:97-123 | over a part, one position per eligible note of every measure, until the hand runs out |
| AnnotationProperties.PartsConsume | pianoplayer/core.py:96-123 | over a sequence of parts, one position per eligible note, until the hand runs out |
| AnnotationProperties.AnnotationConsumes | pianoplayer/core.py:90-123 | over the whole score the walk takes the smaller of the hand's length and the number of eligible notes |
| AnnotationProperties.PartsExhausted | pianoplayer/core.py:117-118 | once the hand is used up, every later part comes out unchanged and no label is written |
| AnnotationProperties.MeasuresExhausted | pianoplayer/core.py:117-118 | once the hand is used up, every later measure comes out unchanged |
| AnnotationProperties.NotesExhausted | pianoplayer/core.py:117-118 | once the hand is used up, the rest of the measure is left as it is |
| AnnotationProperties.EmptyHandChangesNothing | pianoplayer/core.py:117-118 | an empty hand leaves the score unchanged and writes nothing |
| AnnotationProperties.SkippedMeasureUntouched | pianoplayer/core.py:101-114 | a measure holding only other-staff notes, chord continuations and rests consumes no position and changes nothing |
| AnnotationProperties.UnstaffedNoteConsumed | pianoplayer/core.py:102-105 | a note without a staff child is never filtered by staff: whatever staff is asked for, an ordinary note consumes the next position and records its fingering and pitch |
| AnnotationProperties.NotesPreserved | pianoplayer/core.py:100-175 | within a measure every note keeps all its children, and skipped notes come out unchanged |
| AnnotationProperties.AnnotationPreserves | pianoplayer/core.py:96-175 | the annotated score has the same shape as the input; every note keeps all its children; notes of other staves, chord continuations and rests are unchanged |
| AnnotationProperties.GrowthKeepsSkipping | pianoplayer/core.py:101-114 | labelling a note never changes whether a later pass skips it |
| AnnotationProperties.PartsCoherent | pianoplayer/core.py:177-178 | after any prefix of the score, the previous fingering and pitch are those of the last consumed note of the hand, or none before the first |
| AnnotationProperties.MeasureEntry | pianoplayer/core.py:98 | each measure is walked from the state the measures before it left: only the measure-start flag is reset at a measure boundary, the position and previous values carry over |
| AnnotationProperties.PartEntry | pianoplayer/core.py:96 | each part is walked from the state the parts before it left |
| AnnotationProperties.MeasureEntryCoherent | pianoplayer/core.py:96-178 | every measure of the score is entered with the previous note of the hand as its previous values, across measure and part boundaries |
| AnnotationProperties.MeasureOpensLabelled | pianoplayer/core.py:128-131 | the first eligible note of a measure is labelled with the next finger of the hand, unless the hand is exhausted |
| AnnotationProperties.NoteOutcomeAt | pianoplayer/core.py:100-178 | each note of a measure, given the state the notes before it left, is kept as it is when skipped or when the hand is exhausted, and otherwise labelled with the next fingering exactly when the cascade shows it and kept as it is when the cascade hides it; the measure-start flag still holds exactly when no earlier note of the measure was consumed |
| AnnotationProperties.AnnotationNoteOutcome | pianoplayer/core.py:90-178 | the same for every note of the score, with the state the score before it left, whose previous fingering and pitch are those of the hand's previous note: the cascade decides which consumed notes are labelled, and every other note comes out unchanged |
| AnnotationProperties.AnnotationAddsOneFingeringPerLabel | pianoplayer/core.py:164-175 | in technical mode the score gains exactly one fingering mark per label written |
| AnnotationProperties.FourNoteMeasure | pianoplayer/core.py:125-149 | fingers 1, 2, 1, 3 on pitches 60, 62, 60, 67 in one measure show the first and third fingerings only, and leave the state at the fourth note |
| Pig.PigRecords | pianoplayer/core.py:183-196 | one record per note in the hand's order; each reads back as its note of its hand; the channel is 0 for the right hand and 1 for the left; the finger is negated for the left hand; both velocities are "None"; the offset is time plus duration |
| Pig.ToPig | pianoplayer/core.py:186-195 | the record of one note; `PigRoundTrip` and `FingerSignTellsHand` state that the hand and the note are recovered from it |
| Pig.AnnotatePig | pianoplayer/core.py:183-196 | the appending loop builds exactly those records |
| Pig.PigRoundTrip | pianoplayer/core.py:184-196 | a record says which hand it came from, and the note, with its fingering, is recovered from it |
| Pig.FingerSignTellsHand | pianoplayer/core.py:190-191 | for fingers 1 to 5, the recorded finger number is positive exactly for the right hand and negative exactly for the left, and its magnitude is the finger |
| Pig.KeyOrder | pianoplayer/core.py:294 | the sort key order on (onset, channel, pitch) is a strict total order |
| Pig.SortRecords | pianoplayer/core.py:294 | the sorted records are a permutation of the input, ordered by the key |
| Pig.SortStable | pianoplayer/core.py:294 | records with equal keys keep their relative order |
| Pig.SortedStableUnique | pianoplayer/core.py:294 | two key-ordered sequences that agree on the order of every group of equal keys are equal |
| Pig.SortRecordsIsStableSort | pianoplayer/core.py:294 | any sequence ordered by the key, permuting the input, and keeping equal keys in input order equals the sort's result: it is the stable sort |
| Pig.TsvRows | pianoplayer/core.py:284-296 | one row per record of both hands, numbered 0 to N-1; the records in row order are the stable sort of the right hand's records followed by the left hand's, so ordered by the key and a permutation of them |
| Pig.TsvRowsStable | pianoplayer/core.py:284-294 | rows with equal keys appear in merged order, right hand first, each hand in its own order |
| Pig.RightHandFirstAtSameOnset | pianoplayer/core.py:294 | at equal onsets, right-hand rows (channel 0) come before left-hand rows |
| Pig.MergeExample | pianoplayer/core.py:284-296 | two right-hand notes at one onset and an earlier left-hand note come out as the left-hand note, then the right-hand notes by ascending pitch, numbered 0, 1, 2 |
| Options.SelectedSize | pianoplayer/core.py:200-207 | the chosen size is the largest whose switch is on, or M when none is on |
| Options.ResolveHandSize | pianoplayer/core.py:200-207 | the chain of overwrites ends on the selected size |
| Options.Classify | pianoplayer/core.py:209-253 | the substring tests in their order: MuseScore iff `.msc` occurs; PIG text iff not and `.txt` occurs; MIDI iff neither and `.mid` occurs; MusicXML iff none of those and `.xml` or `.musicxml` occurs |
| Options.MidiNamesContainMid | pianoplayer/core.py:231-233 | a name containing `.midi` contains `.mid`, so the `.midi` test never decides anything on its own |
| Options.UnsupportedIffNoKnownSubstring | pianoplayer/core.py:250-253 | a name is unsupported exactly when none of the five substrings occurs in it |
| Options.DispatchPlain | pianoplayer/core.py:209-253 | for a plain name with one of the seven documented extensions, the kind is the one that extension names |
| Options.XmlPath | pianoplayer/core.py:209-240 | the path the score is read from; `MuseScorePaths`, `MidPath`, `MidiPath` and `DirectPaths` state it per kind |
| Options.UpperCaseUnsupported | pianoplayer/core.py:209-253 | the tests are case-sensitive: `.MSCZ`, `.TXT`, `.MID`, `.XML` and `.MUSICXML` names are unsupported |
| Options.TxtBeforeXml | pianoplayer/core.py:225-231 | a name containing both `.txt` and `.xml` is read as PIG text |
| Options.MidBeforeXml | pianoplayer/core.py:231-234 | a name containing both `.mid` and `.xml` is converted from MIDI |
| Options.MuseScorePaths | pianoplayer/core.py:212 | a MuseScore file `stem.mscz` or `stem.mscx` is converted to `stem.xml` |
| Options.MidPath | pianoplayer/core.py:234 | `stem.mid` is converted to `stem.musicxml` |
| Options.MidiPath | pianoplayer/core.py:234 | `stem.midi` is converted to `stem.musicxmli`, because `.mid` is replaced first and the second replacement finds no `.midi` |
| Options.DirectPaths | pianoplayer/core.py:238-240 | a MusicXML or PIG input is read from its own path |
| Options.PlainTabular | pianoplayer/core.py:281-283 | for a plain `stem.ext`, the tabular file is written exactly when the extension is `txt`, so `name.TXT` and `name.xml` select the score |
| Options.HiddenTxtNotTabular | pianoplayer/core.py:281-283 | a file named `.txt` has no extension, so it selects the score |
| Options.IsTabularOutput | pianoplayer/core.py:281-283 | the tabular file is chosen exactly when splitext finds the extension `.txt`; `PlainTabular`, `HiddenTxtNotTabular` and `Upload.OutputNameNeverTabular` state it on names |
| Pipeline.Annotate | pianoplayer/core.py:199-312 | an unsupported name fails first and only it fails that way; unreadable inputs fail with the conversion or read failure; once read, only an unparsable score output fails; without an output name nothing is written; the tabular output is the numbered sorted rows of both fingered hands; the score output is the parsed score annotated by the right hand on staff rbeam+1, then by the left hand on staff lbeam+1 |
| Pipeline.HandInput | pianoplayer/core.py:209-248 | the notes a hand is read with: the PIG reader on the input for a PIG file, the score reader on the converted score otherwise; `Annotate` states how a missing input ends the run |
| Pipeline.InputsRead | pianoplayer/core.py:209-248 | every input the run needs could be read; `Annotate` fails with the read failure exactly when not |
| Pipeline.FingeredHand | pianoplayer/core.py:255-278 | a hand switched off is empty, otherwise its notes fingered for the selected hand size; `Annotate` writes exactly these hands |
| Pipeline.TwoPassesGrow | pianoplayer/core.py:303-309 | the two passes keep the score's shape and every note's children, and a note on neither hand's staff comes out exactly as it went in |
| Pipeline.TwoPassesAddFingerings | pianoplayer/core.py:303-309 | in technical mode the output holds one new fingering mark per label of either pass, and no more than the two hands have notes |
| Pipeline.RecordOfHands | pianoplayer/core.py:284-289 | a record of the merged list is a note of the hand its channel names |
| Pipeline.RowsComeFromTheirHand | pianoplayer/core.py:284-296 | there is one row per note of both hands, and each row reads back as a note of the hand its channel names |
| Pipeline.RightHandOnlyRows | pianoplayer/core.py:285-289 | with the left hand switched off, every row is a right-hand note |
| Text.RFind | app.py:14 | the index of the last occurrence of the character, or -1 when it does not occur |
| Text.Contains | pianoplayer/core.py:210-231 | Python's substring test; `ContainsAfterStem` states that a stem without '.' cannot hold a match of a dotted pattern |
| Text.Replace | pianoplayer/core.py:212-234 | Python's `str.replace`; `ReplaceAbsent`, `ReplaceSkipsStem` and `ReplaceFront` state which occurrences are replaced |
| Text.SplitExt | pianoplayer/core.py:281 | the root and extension concatenate to the path; the extension is empty or a single '.' followed by no '.' or '/'; a non-empty extension has some non-dot character of the final component before it; an empty one means every '.' of the final component has only dots before it there |
| Text.SplitExtAtLastDot | pianoplayer/core.py:281 | `root.ext` splits at the '.' before `ext` whenever the final component of `root` holds a non-dot character, however many dots `root` contains |
| Text.Lower | app.py:14 | same length, each ASCII capital lowered, every other character kept |
| Text.IntToStringRoundTrip | pianoplayer/core.py:152 | the decimal text of the fingering reads back as that fingering |
| Text.IntToString | pianoplayer/core.py:152 | the text is never empty and starts with '-' exactly for a negative number; `IntToStringRoundTrip` states it reads back as the number |
| Text.FingerLabel | pianoplayer/core.py:152 | fingers 1 to 5 are written as a single digit |
| Upload.AllowedByLastExtension | app.py:13-14 | only the text after the last '.' decides acceptance, compared in lower case with the accepted set |
| Upload.AllowedFile | app.py:13-14 | the upload check; `AllowedByLastExtension` and `NoDotRejected` state what decides it |
| Upload.NoDotRejected | app.py:14 | a name without '.' is never accepted |
| Upload.UpperCaseAccepted | app.py:11-14 | `Song.MID` is accepted |
| Upload.TwoDotsAccepted | app.py:11-14 | `a.b.xml` is accepted |
| Upload.LastExtensionCounts | app.py:14 | `a.mid.txt` is refused |
| Upload.EmptyExtensionRejected | app.py:11-14 | `x.` is refused |
| Upload.TxtRejected | app.py:11-14 | `a.txt` is refused |
| Upload.AbcRejected | app.py:11-14 | `a.abc` is refused |
| Upload.AcceptedButUnsupported | app.py:14 | `Song.MID` is accepted by the upload check but classified as unsupported by the case-sensitive pipeline |
| Upload.OutputName | app.py:42 | the name starts with `annotated_` and ends with `.xml` |
| Upload.OutputNameNeverTabular | app.py:42 | whatever the upload's name, the output selects the score, never the tabular file |
| Upload.OutputNamePlain | app.py:42 | for `stem.ext` the output is `annotated_stem.xml` |
| Upload.OutputNameKeepsInnerDots | app.py:42 | only the last extension is replaced: `a.b.mid` gives `annotated_a.b.xml` |
| Upload.RequestedSize | app.py:39 | the form's `handSize`, "M" when absent; `MissingSizeIsM` states that M is then selected |
| Upload.FlagsFor | app.py:62-68 | the seven switches of a request; `AtMostOneFlag`, `RequestedSizeSelected` and `UnknownSizeFallsBackToM` state what they select |
| Upload.AtMostOneFlag | app.py:62-68 | at most one hand-size switch is on, and it is the one the request names |
| Upload.RequestedSizeSelected | app.py:62-68 | a requested size is the size the pipeline selects |
| Upload.UnknownSizeFallsBackToM | app.py:62-68 | an unrecognised size turns every switch off, so the pipeline selects M |
| Upload.MissingSizeIsM | app.py:39 | a request without a size selects M |

## Left out

- External programs are not modelled: the `musescore`/`mscore` conversions,
  the `os.path.exists` test before a MIDI conversion, and the viewer launched
  at the end. Converting and loading the score becomes one parameter,
  `loadScore`, which may fail.
- `sys.exit` is not modelled. Its two uses become failure results: the
  unsupported-name exit and the failed MuseScore conversion. Exceptions from
  reading a score or PIG file, or from parsing the XML, are modelled the same
  way.
- music21's loader and `reader`, the PIG reader and the fingering optimizer
  (`Hand`, `Hand.generate`) are not part of this model. They appear as the
  function parameters `loadScore`, `readScore`, `readPig` and `generate`.
  Depth, start measure, number of measures and verbosity are folded into
  `generate`.
- Pipeline.Annotate: a PIG input is read per hand through `readPig`, as the
  source does. A score input is loaded once through `loadScore`.
- XML text I/O is left out: parsing becomes the parameter `parseXml`, and
  writing the tree is not modelled.
- A `staff` child whose text is not an integer is left out; the staff is an
  optional integer.
- The `.//part`, `.//measure` and `.//note` searches are modelled on the flat
  score structure only. Notes nested deeper than a measure's children are not
  represented.
- Floating-point times and costs are not modelled, nor the `{:.4f}`
  formatting and the CSV/TSV writing. Times are integer ticks, the cost is a
  real carried unchanged, and rows are values.
- The virtual keyboard and sound playback, argument parsing and the
  `run_annotate` argument packing are left out.
- The Flask routes are left out: saving and removing files, `send_file`,
  cleanup, and `secure_filename`. The output name is computed from the name
  as given.
- The web front end's call into the core is not modelled. It imports
  `annotate_with_args`, which `pianoplayer/core.py` does not define.
- Text.Lower: lowers ASCII letters only. The one non-ASCII character that
  lowers to an ASCII letter, the Kelvin sign, does not occur in any accepted
  extension.
- A note's `staff`, `chord` and `rest` children are kept as the fields of
  `Note`, apart from its other children, so where an appended `lyric` or
  `notations` lands relative to them is not represented. `WellFormedNote`
  says no generic child carries those tags, and `Label` keeps it.
- Text.SplitExt: models the POSIX `os.path.splitext` only; on Windows the
  function also splits at a backslash and after a drive letter, which is not
  modelled.
- Updating the tree in place is modelled as returning a new value, so
  aliasing of the tree between calls is not captured.

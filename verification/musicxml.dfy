/** The part of a MusicXML tree the annotator walks and patches. A note keeps
    what the walk tests (its first `staff` child read as a number, whether it
    has a `chord` or a `rest` child) and the rest of its children as generic
    elements, in document order. */
module MusicXml {
  import opened Wrappers

  /** A generic XML element: tag, attributes, text and children. */
  datatype Element = Element(tag: string, attrs: map<string, string>, text: Option<string>,
                             children: seq<Element>)

  datatype Note = Note(staff: Option<int>, chord: bool, rest: bool, children: seq<Element>)

  type Measure = seq<Note>
  type Part = seq<Measure>
  /** The parts of the score, each a sequence of measures, in document order. */
  type Document = seq<Part>

  /** A freshly created child (`ET.SubElement`): no attributes, no text. */
  function Fresh(tag: string, children: seq<Element>): Element {
    Element(tag, map[], None, children)
  }

  function FingeringElement(mark: string): Element {
    Element("fingering", map[], Some(mark), [])
  }

  /** `find('./tag')`: the index of the first child with the given tag. */
  function FindTag(cs: seq<Element>, tag: string): (r: Option<nat>)
    ensures r.Some? ==> r.value < |cs| && cs[r.value].tag == tag &&
                        forall k :: 0 <= k < r.value ==> cs[k].tag != tag
    ensures r.None? ==> forall k :: 0 <= k < |cs| ==> cs[k].tag != tag
    decreases |cs|
  {
    if cs == [] then None
    else if cs[0].tag == tag then Some(0)
    else match FindTag(cs[1..], tag)
      case None => None
      case Some(i) => Some(i + 1)
  }

  /** The contract of `FindTag` pins its result down. */
  lemma FindTagAt(cs: seq<Element>, tag: string, i: nat)
    requires i < |cs| && cs[i].tag == tag && forall k :: 0 <= k < i ==> cs[k].tag != tag
    ensures FindTag(cs, tag) == Some(i)
  {
  }

  /** The first child with the given tag, if any. */
  function Child(cs: seq<Element>, tag: string): Option<Element> {
    match FindTag(cs, tag)
    case None => None
    case Some(i) => Some(cs[i])
  }

  /** The text a reader finds at `lyric/text`: first lyric, its first text child. */
  function LyricText(n: Note): Option<string> {
    match Child(n.children, "lyric")
    case None => None
    case Some(lyric) =>
      match Child(lyric.children, "text")
      case None => None
      case Some(t) => t.text
  }

  /** The children of `notations/technical`, empty when either is missing. */
  function TechnicalChildren(n: Note): seq<Element> {
    match Child(n.children, "notations")
    case None => []
    case Some(notations) =>
      match Child(notations.children, "technical")
      case None => []
      case Some(technical) => technical.children
  }

  /** `b` is `a` with possibly more children appended at some levels and
      possibly new text: every element of `a` is still there, at the same
      position, with the same tag and attributes. */
  predicate Grows(a: Element, b: Element)
    decreases a
  {
    a.tag == b.tag && a.attrs == b.attrs && |a.children| <= |b.children| &&
    forall k :: 0 <= k < |a.children| ==> Grows(a.children[k], b.children[k])
  }

  /** The same for a note: its staff, chord and rest markers are unchanged and
      every existing child survives in place. */
  predicate NoteGrows(a: Note, b: Note) {
    a.staff == b.staff && a.chord == b.chord && a.rest == b.rest &&
    |a.children| <= |b.children| &&
    forall k :: 0 <= k < |a.children| ==> Grows(a.children[k], b.children[k])
  }

  lemma {:induction false} GrowsReflexive(e: Element)
    ensures Grows(e, e)
    decreases e
  {
    forall k | 0 <= k < |e.children| ensures Grows(e.children[k], e.children[k]) {
      GrowsReflexive(e.children[k]);
    }
  }

  lemma NoteGrowsReflexive(n: Note)
    ensures NoteGrows(n, n)
  {
    forall k | 0 <= k < |n.children| ensures Grows(n.children[k], n.children[k]) {
      GrowsReflexive(n.children[k]);
    }
  }

  /** Growth composes: two patches in a row still keep every element. */
  lemma {:induction false} GrowsTransitive(a: Element, b: Element, c: Element)
    requires Grows(a, b) && Grows(b, c)
    ensures Grows(a, c)
    decreases a
  {
    forall k | 0 <= k < |a.children| ensures Grows(a.children[k], c.children[k]) {
      GrowsTransitive(a.children[k], b.children[k], c.children[k]);
    }
  }

  lemma NoteGrowsTransitive(a: Note, b: Note, c: Note)
    requires NoteGrows(a, b) && NoteGrows(b, c)
    ensures NoteGrows(a, c)
  {
    forall k | 0 <= k < |a.children| ensures Grows(a.children[k], c.children[k]) {
      GrowsTransitive(a.children[k], b.children[k], c.children[k]);
    }
  }

  /** Appending children, and growing one child, keeps every existing element. */
  lemma GrowsByUpdate(cs: seq<Element>, i: nat, e: Element)
    requires i < |cs| && Grows(cs[i], e)
    ensures forall k :: 0 <= k < |cs| ==> Grows(cs[k], cs[i := e][k])
  {
    forall k | 0 <= k < |cs| ensures Grows(cs[k], cs[i := e][k]) {
      if k != i { GrowsReflexive(cs[k]); }
    }
  }

  lemma GrowsByAppend(cs: seq<Element>, extra: seq<Element>)
    ensures forall k :: 0 <= k < |cs| ==> Grows(cs[k], (cs + extra)[k])
  {
    forall k | 0 <= k < |cs| ensures Grows(cs[k], (cs + extra)[k]) {
      GrowsReflexive(cs[k]);
    }
  }

  /** Sets the text of the lyric's first `text` child, creating it if missing. */
  function SetLyricText(lyric: Element, mark: string): Element {
    match FindTag(lyric.children, "text")
    case None => lyric.(children := lyric.children + [Element("text", map[], Some(mark), [])])
    case Some(j) => lyric.(children := lyric.children[j := lyric.children[j].(text := Some(mark))])
  }

  /** Lyric mode: reuse the first `lyric` child or append one numbered "1",
      then write the mark as its text. */
  function PatchLyric(n: Note, mark: string): (r: Note)
    ensures r.staff == n.staff && r.chord == n.chord && r.rest == n.rest
    ensures Child(r.children, "lyric").Some?
  {
    match FindTag(n.children, "lyric")
    case None =>
      var lyric := Element("lyric", map["number" := "1"], None, []);
      var cs := n.children + [SetLyricText(lyric, mark)];
      FindTagAt(cs, "lyric", |n.children|);
      n.(children := cs)
    case Some(i) =>
      var cs := n.children[i := SetLyricText(n.children[i], mark)];
      FindTagAt(cs, "lyric", i);
      n.(children := cs)
  }

  /** Appends a fingering under the first `technical` child, creating it if missing. */
  function AddFingering(notations: Element, mark: string): Element {
    match FindTag(notations.children, "technical")
    case None =>
      notations.(children := notations.children + [Fresh("technical", [FingeringElement(mark)])])
    case Some(j) =>
      var technical := notations.children[j];
      notations.(children := notations.children[j := technical.(children := technical.children + [FingeringElement(mark)])])
  }

  /** Technical mode: reuse or create `notations`, then `technical`, and always
      append one new `fingering` child holding the mark. */
  function PatchTechnical(n: Note, mark: string): (r: Note)
    ensures r.staff == n.staff && r.chord == n.chord && r.rest == n.rest
    ensures Child(r.children, "notations").Some?
  {
    match FindTag(n.children, "notations")
    case None =>
      var cs := n.children + [AddFingering(Fresh("notations", []), mark)];
      FindTagAt(cs, "notations", |n.children|);
      n.(children := cs)
    case Some(i) =>
      var cs := n.children[i := AddFingering(n.children[i], mark)];
      FindTagAt(cs, "notations", i);
      n.(children := cs)
  }

  /** A note whose staff, chord and rest markers live only in the fields
      `staff`, `chord` and `rest`, never among its generic children. */
  predicate WellFormedNote(n: Note) {
    forall k :: 0 <= k < |n.children| ==>
      n.children[k].tag != "staff" && n.children[k].tag != "chord" && n.children[k].tag != "rest"
  }

  /** Writes the mark in the mode the caller asked for. */
  function Label(n: Note, mark: string, lyrics: bool): Note {
    if lyrics then PatchLyric(n, mark) else PatchTechnical(n, mark)
  }

  /** After lyric patching a reader finds the mark at `lyric/text`; nothing is
      removed; only the first lyric changes, and inside it only the text of
      its first `text` child (or a `text` child is appended); a created lyric
      is numbered "1" and appended after the existing children. */
  lemma PatchLyricSpec(n: Note, mark: string)
    ensures var r := PatchLyric(n, mark);
      && LyricText(r) == Some(mark)
      && NoteGrows(n, r)
      && (Child(n.children, "lyric").Some? ==>
            var i := FindTag(n.children, "lyric").value;
            var lyric, lyric' := n.children[i], r.children[i];
            |r.children| == |n.children| &&
            (forall k :: 0 <= k < |n.children| && k != i ==> r.children[k] == n.children[k]) &&
            lyric'.tag == lyric.tag && lyric'.attrs == lyric.attrs && lyric'.text == lyric.text &&
            (Child(lyric.children, "text").Some? ==>
               var j := FindTag(lyric.children, "text").value;
               |lyric'.children| == |lyric.children| &&
               (forall k :: 0 <= k < |lyric.children| && k != j ==> lyric'.children[k] == lyric.children[k]) &&
               lyric'.children[j] == lyric.children[j].(text := Some(mark))) &&
            (Child(lyric.children, "text").None? ==>
               lyric'.children == lyric.children + [Element("text", map[], Some(mark), [])]))
      && (Child(n.children, "lyric").None? ==>
            r.children[..|n.children|] == n.children &&
            r.children[|n.children|] == Element("lyric", map["number" := "1"], None,
                                                [Element("text", map[], Some(mark), [])]) &&
            |r.children| == |n.children| + 1)
  {
    var r := PatchLyric(n, mark);
    match FindTag(n.children, "lyric")
    case None =>
      var lyric := Element("lyric", map["number" := "1"], None, []);
      assert SetLyricText(lyric, mark).children == [Element("text", map[], Some(mark), [])];
      GrowsByAppend(n.children, [SetLyricText(lyric, mark)]);
      FindTagAt(r.children, "lyric", |n.children|);
      assert FindTag(SetLyricText(lyric, mark).children, "text") == Some(0);
    case Some(i) =>
      var lyric := n.children[i];
      var lyric' := SetLyricText(lyric, mark);
      FindTagAt(r.children, "lyric", i);
      match FindTag(lyric.children, "text")
      case None =>
        GrowsByAppend(lyric.children, [Element("text", map[], Some(mark), [])]);
        assert Grows(lyric, lyric');
        FindTagAt(lyric'.children, "text", |lyric.children|);
        GrowsByUpdate(n.children, i, lyric');
      case Some(j) =>
        var t := lyric.children[j];
        GrowsReflexive(t);
        assert Grows(t, t.(text := Some(mark)));
        GrowsByUpdate(lyric.children, j, t.(text := Some(mark)));
        assert Grows(lyric, lyric');
        assert FindTag(lyric'.children, "text") == Some(j);
        GrowsByUpdate(n.children, i, lyric');
  }

  /** After technical patching `notations/technical` holds its former children
      followed by exactly one new fingering with the mark; nothing is removed;
      no child outside the first `notations` changes, and inside it no child
      other than the first `technical`, which only gains the fingering. */
  lemma PatchTechnicalSpec(n: Note, mark: string)
    ensures var r := PatchTechnical(n, mark);
      && TechnicalChildren(r) == TechnicalChildren(n) + [FingeringElement(mark)]
      && NoteGrows(n, r)
      && (Child(n.children, "notations").Some? ==>
            var i := FindTag(n.children, "notations").value;
            var notations, notations' := n.children[i], r.children[i];
            |r.children| == |n.children| &&
            (forall k :: 0 <= k < |n.children| && k != i ==> r.children[k] == n.children[k]) &&
            notations'.tag == notations.tag && notations'.attrs == notations.attrs &&
            notations'.text == notations.text &&
            (Child(notations.children, "technical").Some? ==>
               var j := FindTag(notations.children, "technical").value;
               var technical := notations.children[j];
               |notations'.children| == |notations.children| &&
               (forall k :: 0 <= k < |notations.children| && k != j ==>
                  notations'.children[k] == notations.children[k]) &&
               notations'.children[j] ==
                 technical.(children := technical.children + [FingeringElement(mark)])) &&
            (Child(notations.children, "technical").None? ==>
               notations'.children ==
                 notations.children + [Fresh("technical", [FingeringElement(mark)])]))
      && (Child(n.children, "notations").None? ==>
            r.children[..|n.children|] == n.children &&
            r.children[|n.children|] == Fresh("notations", [Fresh("technical", [FingeringElement(mark)])]) &&
            |r.children| == |n.children| + 1)
  {
    var r := PatchTechnical(n, mark);
    match FindTag(n.children, "notations")
    case None =>
      var notations' := AddFingering(Fresh("notations", []), mark);
      assert notations'.children == [Fresh("technical", [FingeringElement(mark)])];
      GrowsByAppend(n.children, [notations']);
      FindTagAt(r.children, "notations", |n.children|);
      assert FindTag(notations'.children, "technical") == Some(0);
    case Some(i) =>
      var notations := n.children[i];
      var notations' := AddFingering(notations, mark);
      FindTagAt(r.children, "notations", i);
      match FindTag(notations.children, "technical")
      case None =>
        GrowsByAppend(notations.children, [Fresh("technical", [FingeringElement(mark)])]);
        assert Grows(notations, notations');
        FindTagAt(notations'.children, "technical", |notations.children|);
        GrowsByUpdate(n.children, i, notations');
      case Some(j) =>
        var technical := notations.children[j];
        var technical' := technical.(children := technical.children + [FingeringElement(mark)]);
        GrowsByAppend(technical.children, [FingeringElement(mark)]);
        assert Grows(technical, technical');
        GrowsByUpdate(notations.children, j, technical');
        assert Grows(notations, notations');
        assert FindTag(notations'.children, "technical") == Some(j);
        GrowsByUpdate(n.children, i, notations');
  }

  /** Either mode keeps every existing element of the note and adds no staff,
      chord or rest child; in lyric mode a reader finds the mark at
      `lyric/text`, in technical mode it is one more technical fingering. */
  lemma LabelSpec(n: Note, mark: string, lyrics: bool)
    ensures var r := Label(n, mark, lyrics);
      && NoteGrows(n, r)
      && (WellFormedNote(n) ==> WellFormedNote(r))
      && (lyrics ==> LyricText(r) == Some(mark))
      && (!lyrics ==> TechnicalChildren(r) == TechnicalChildren(n) + [FingeringElement(mark)])
  {
    if lyrics { PatchLyricSpec(n, mark); } else { PatchTechnicalSpec(n, mark); }
  }
}

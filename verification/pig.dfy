/** The extended PIG output: one record per fingered note of each hand, merged,
    ordered by onset, channel and pitch with ties kept in their original order
    (a stable sort), and numbered from 0. */
module Pig {
  import opened Notes
  import opened Seqs

  /** One record of the tabular output, before numbering. Times are in the
      integer ticks of `NoteEvent`; the channel is 0 for the right hand and 1
      for the left. */
  datatype PigRecord = PigRecord(onset: int, offset: int, pitch: int,
                                 onsetVelocity: string, offsetVelocity: string,
                                 channel: nat, finger: int, cost: real, noteID: int)

  /** The record of one note: the left hand's finger numbers are negated. */
  function ToPig(n: NoteEvent, isRight: bool): PigRecord {
    PigRecord(n.time, n.time + n.duration, n.pitch, "None", "None",
              if isRight then 0 else 1,
              if isRight then n.fingering else -n.fingering,
              n.cost, n.noteID)
  }

  /** Reading a record back: which hand it belongs to and the note it came from. */
  predicate IsRight(r: PigRecord) {
    r.channel == 0
  }

  function NoteOf(r: PigRecord): NoteEvent {
    NoteEvent(r.onset, r.offset - r.onset, r.pitch,
              if IsRight(r) then r.finger else -r.finger, r.cost, r.noteID)
  }

  /** A record loses nothing: the hand and the note can be read back from it. */
  lemma PigRoundTrip(n: NoteEvent, isRight: bool)
    ensures IsRight(ToPig(n, isRight)) == isRight
    ensures NoteOf(ToPig(n, isRight)) == n
  {
  }

  /** For a real finger number (1 to 5) the sign of the written finger tells
      the hand, and its magnitude is the finger. */
  lemma FingerSignTellsHand(n: NoteEvent, isRight: bool)
    requires 1 <= n.fingering <= 5
    ensures var r := ToPig(n, isRight);
            (r.finger > 0 <==> isRight) && (r.finger < 0 <==> !isRight) &&
            (if r.finger < 0 then -r.finger else r.finger) == n.fingering
  {
  }

  /** The records of one hand: one per note, in the hand's order, each reading
      back as that note of that hand, on channel 0 (right) or 1 (left), the
      left hand's finger negated, with both velocities written as "None" and
      the offset one duration after the onset. */
  function PigRecords(hand: seq<NoteEvent>, isRight: bool): (r: seq<PigRecord>)
    ensures |r| == |hand|
    ensures forall i :: 0 <= i < |r| ==>
              NoteOf(r[i]) == hand[i] && IsRight(r[i]) == isRight &&
              r[i].channel == (if isRight then 0 else 1) &&
              r[i].finger == (if isRight then hand[i].fingering else -hand[i].fingering) &&
              r[i].onsetVelocity == "None" && r[i].offsetVelocity == "None" &&
              r[i].offset == hand[i].time + hand[i].duration
  {
    seq(|hand|, i requires 0 <= i < |hand| => ToPig(hand[i], isRight))
  }

  /** `annotate_PIG`: builds the records by appending, note by note. */
  method AnnotatePig(hand: seq<NoteEvent>, isRight: bool) returns (ans: seq<PigRecord>)
    ensures ans == PigRecords(hand, isRight)
  {
    ans := [];
    for i := 0 to |hand|
      invariant |ans| == i
      invariant forall k :: 0 <= k < i ==> ans[k] == ToPig(hand[k], isRight)
    {
      var n := hand[i];
      var channel: nat := if isRight then 0 else 1;
      var fingerNumber := if isRight then n.fingering else -n.fingering;
      ans := ans + [PigRecord(n.time, n.time + n.duration, n.pitch, "None", "None",
                              channel, fingerNumber, n.cost, n.noteID)];
    }
  }

  // ---------------------------------------------------------------------------
  // The sort key: onset, then channel, then pitch

  datatype Key = Key(onset: int, channel: nat, pitch: int)

  function KeyOf(r: PigRecord): Key {
    Key(r.onset, r.channel, r.pitch)
  }

  /** Lexicographic order on keys, as Python compares tuples. */
  predicate KeyLess(a: Key, b: Key) {
    a.onset < b.onset ||
    (a.onset == b.onset && (a.channel < b.channel ||
                            (a.channel == b.channel && a.pitch < b.pitch)))
  }

  /** `KeyLess` is a strict total order. */
  lemma KeyOrder(a: Key, b: Key, c: Key)
    ensures !KeyLess(a, a)
    ensures KeyLess(a, b) && KeyLess(b, c) ==> KeyLess(a, c)
    ensures KeyLess(a, b) || a == b || KeyLess(b, a)
  {
  }

  /** Every record's key is at most every later record's key. */
  predicate Sorted(s: seq<PigRecord>) {
    forall i, j :: 0 <= i < j < |s| ==> !KeyLess(KeyOf(s[j]), KeyOf(s[i]))
  }

  /** The records with key `k`, in their order. */
  function KeyFilter(s: seq<PigRecord>, k: Key): seq<PigRecord>
    decreases |s|
  {
    if s == [] then []
    else (if KeyOf(s[0]) == k then [s[0]] else []) + KeyFilter(s[1..], k)
  }

  /** Inserts `x` before the first record whose key is not below its own, so
      `x` precedes every record with an equal key. */
  function Insert(x: PigRecord, s: seq<PigRecord>): (r: seq<PigRecord>)
    ensures |r| == |s| + 1 && (r[0] == x || (|s| > 0 && r[0] == s[0]))
    ensures multiset(r) == multiset(s) + multiset{x}
    decreases |s|
  {
    if s == [] then [x]
    else if !KeyLess(KeyOf(s[0]), KeyOf(x)) then [x] + s
    else
      assert s == [s[0]] + s[1..];
      [s[0]] + Insert(x, s[1..])
  }

  lemma {:induction false} InsertSorted(x: PigRecord, s: seq<PigRecord>)
    requires Sorted(s)
    ensures Sorted(Insert(x, s))
    decreases |s|
  {
    if s != [] && KeyLess(KeyOf(s[0]), KeyOf(x)) {
      var t := Insert(x, s[1..]);
      InsertSorted(x, s[1..]);
      var r := [s[0]] + t;
      forall i, j | 0 <= i < j < |r| ensures !KeyLess(KeyOf(r[j]), KeyOf(r[i])) {
        if i > 0 {
          assert r[i] == t[i - 1] && r[j] == t[j - 1];
        } else {
          // r[j] is x or a record of s after s[0]
          assert r[j] in multiset(t);
          assert r[j] in multiset(s[1..]) || r[j] == x;
          if r[j] != x {
            var k :| 0 <= k < |s[1..]| && s[1..][k] == r[j];
            assert s[k + 1] == r[j];
          }
          KeyOrder(KeyOf(r[j]), KeyOf(s[0]), KeyOf(x));
        }
      }
    }
  }

  lemma KeyFilterCons(y: PigRecord, t: seq<PigRecord>, k: Key)
    ensures KeyFilter([y] + t, k) == (if KeyOf(y) == k then [y] else []) + KeyFilter(t, k)
  {
    assert ([y] + t)[1..] == t;
  }

  /** The records with any one key come out of an insertion in their order,
      with `x` first. */
  lemma {:induction false} InsertKeyFilter(x: PigRecord, s: seq<PigRecord>, k: Key)
    ensures KeyFilter(Insert(x, s), k) == (if KeyOf(x) == k then [x] else []) + KeyFilter(s, k)
    decreases |s|
  {
    if s == [] {
      KeyFilterCons(x, [], k);
    } else if !KeyLess(KeyOf(s[0]), KeyOf(x)) {
      KeyFilterCons(x, s, k);
    } else {
      var t := Insert(x, s[1..]);
      assert Insert(x, s) == [s[0]] + t;
      var head := if KeyOf(s[0]) == k then [s[0]] else [];
      var here := if KeyOf(x) == k then [x] else [];
      KeyFilterCons(s[0], t, k);
      InsertKeyFilter(x, s[1..], k);
      KeyFilterCons(s[0], s[1..], k);
      assert [s[0]] + s[1..] == s;
      KeyOrder(KeyOf(s[0]), KeyOf(x), KeyOf(x));
      SwapDisjoint(head, here, KeyFilter(s[1..], k));
    }
  }

  lemma SwapDisjoint<T>(head: seq<T>, here: seq<T>, rest: seq<T>)
    requires head == [] || here == []
    ensures head + (here + rest) == here + (head + rest)
  {
    if head == [] {
      assert head + (here + rest) == here + rest;
      assert head + rest == rest;
    } else {
      assert here + (head + rest) == head + rest;
      assert here + rest == rest;
    }
  }

  /** Python's `sorted` with the key (onset, channel, pitch): an insertion
      sort that keeps records with equal keys in their original order. */
  function SortRecords(s: seq<PigRecord>): (r: seq<PigRecord>)
    ensures multiset(r) == multiset(s) && |r| == |s|
    ensures Sorted(r)
    decreases |s|
  {
    if s == [] then []
    else
      var t := SortRecords(s[1..]);
      InsertSorted(s[0], t);
      assert s == [s[0]] + s[1..];
      Insert(s[0], t)
  }

  /** The sort is stable: the records with any one key keep their order. */
  lemma {:induction false} SortStable(s: seq<PigRecord>, k: Key)
    ensures KeyFilter(SortRecords(s), k) == KeyFilter(s, k)
    decreases |s|
  {
    if s != [] {
      SortStable(s[1..], k);
      InsertKeyFilter(s[0], SortRecords(s[1..]), k);
    }
  }

  lemma {:induction false} KeyFilterMember(s: seq<PigRecord>, k: Key, y: PigRecord)
    requires y in KeyFilter(s, k)
    ensures y in s && KeyOf(y) == k
    decreases |s|
  {
    if s != [] {
      var head := if KeyOf(s[0]) == k then [s[0]] else [];
      if y !in head {
        KeyFilterMember(s[1..], k, y);
      }
    }
  }

  lemma KeyFilterFirst(s: seq<PigRecord>)
    requires s != []
    ensures KeyFilter(s, KeyOf(s[0])) == [s[0]] + KeyFilter(s[1..], KeyOf(s[0]))
  {
  }

  lemma KeyFilterOther(s: seq<PigRecord>, k: Key)
    requires s != [] && KeyOf(s[0]) != k
    ensures KeyFilter(s, k) == KeyFilter(s[1..], k)
  {
  }

  /** Sorted and stable determine the order completely: any ordering of the
      same records that is sorted and keeps every key's records in the same
      order is the one `SortRecords` produces. */
  lemma {:induction false} SortedStableUnique(r: seq<PigRecord>, q: seq<PigRecord>)
    requires Sorted(r) && Sorted(q)
    requires forall k :: KeyFilter(r, k) == KeyFilter(q, k)
    ensures r == q
    decreases |r|
  {
    if r == [] && q == [] {
    } else if r == [] {
      KeyFilterFirst(q);
    } else if q == [] {
      KeyFilterFirst(r);
    } else {
      var a, b := KeyOf(r[0]), KeyOf(q[0]);
      KeyFilterFirst(r);
      KeyFilterFirst(q);
      // q[0] occurs in r, so r[0]'s key is not above b
      assert q[0] in KeyFilter(r, b);
      KeyFilterMember(r, b, q[0]);
      var i :| 0 <= i < |r| && r[i] == q[0];
      assert i == 0 || !KeyLess(KeyOf(r[i]), a);
      // and r[0] occurs in q, so q[0]'s key is not above a
      assert r[0] in KeyFilter(q, a);
      KeyFilterMember(q, a, r[0]);
      var j :| 0 <= j < |q| && q[j] == r[0];
      assert j == 0 || !KeyLess(KeyOf(q[j]), b);
      KeyOrder(a, b, a);
      assert a == b;
      assert KeyFilter(r, a)[0] == r[0] && KeyFilter(q, a)[0] == q[0];
      forall k ensures KeyFilter(r[1..], k) == KeyFilter(q[1..], k) {
        if k != a {
          KeyFilterOther(r, k);
          KeyFilterOther(q, k);
        } else {
          assert KeyFilter(r, k)[1..] == KeyFilter(r[1..], k);
          assert KeyFilter(q, k)[1..] == KeyFilter(q[1..], k);
        }
      }
      SortedStableUnique(r[1..], q[1..]);
      assert r == [r[0]] + r[1..] && q == [q[0]] + q[1..];
    }
  }

  /** `SortRecords` is exactly the stable sort: its result is the only sorted
      arrangement that keeps each key's records in their original order. */
  lemma SortRecordsIsStableSort(s: seq<PigRecord>, q: seq<PigRecord>)
    requires Sorted(q) && forall k :: KeyFilter(q, k) == KeyFilter(s, k)
    ensures q == SortRecords(s)
  {
    forall k ensures KeyFilter(SortRecords(s), k) == KeyFilter(q, k) {
      SortStable(s, k);
    }
    SortedStableUnique(SortRecords(s), q);
  }

  // ---------------------------------------------------------------------------
  // The numbered rows

  /** A row of the tabular file: its position and the record. */
  datatype Row = Row(index: nat, record: PigRecord)

  function Records(rows: seq<Row>): (s: seq<PigRecord>)
    ensures |s| == |rows| && forall i :: 0 <= i < |rows| ==> s[i] == rows[i].record
  {
    seq(|rows|, i requires 0 <= i < |rows| => rows[i].record)
  }

  /** The rows written: the right hand's records followed by the left hand's,
      sorted stably by (onset, channel, pitch) and numbered from 0. */
  function TsvRows(rh: seq<PigRecord>, lh: seq<PigRecord>): (rows: seq<Row>)
    ensures |rows| == |rh| + |lh|
    ensures forall i :: 0 <= i < |rows| ==> rows[i].index == i
    ensures Sorted(Records(rows))
    ensures multiset(Records(rows)) == multiset(rh + lh)
    ensures Records(rows) == SortRecords(rh + lh)
  {
    var sorted := SortRecords(rh + lh);
    var rows := seq(|sorted|, i requires 0 <= i < |sorted| => Row(i, sorted[i]));
    assert Records(rows) == sorted;
    rows
  }

  /** Records with equal keys keep the order they had in the merged list
      (right hand first, then left hand, each in its own order). */
  lemma TsvRowsStable(rh: seq<PigRecord>, lh: seq<PigRecord>, k: Key)
    ensures KeyFilter(Records(TsvRows(rh, lh)), k) == KeyFilter(rh + lh, k)
  {
    assert Records(TsvRows(rh, lh)) == SortRecords(rh + lh);
    SortStable(rh + lh, k);
  }

  /** At the same onset the right hand's rows come before the left hand's. */
  lemma RightHandFirstAtSameOnset(rh: seq<PigRecord>, lh: seq<PigRecord>, i: nat, j: nat)
    requires var rows := TsvRows(rh, lh);
             i < |rows| && j < |rows| && rows[i].record.onset == rows[j].record.onset &&
             rows[i].record.channel == 0 && rows[j].record.channel == 1
    ensures i < j
  {
    var rows := TsvRows(rh, lh);
    var rs := Records(rows);
    assert rs[i] == rows[i].record && rs[j] == rows[j].record;
    assert KeyLess(KeyOf(rs[i]), KeyOf(rs[j]));
  }

  /** A record goes after a smaller one at the front. */
  lemma InsertAfterSmaller(x: PigRecord, y: PigRecord, t: seq<PigRecord>)
    requires KeyLess(KeyOf(y), KeyOf(x))
    ensures Insert(x, [y] + t) == [y] + Insert(x, t)
  {
    assert ([y] + t)[0] == y && ([y] + t)[1..] == t;
  }

  lemma SortTwo(rb: PigRecord, rc: PigRecord)
    requires KeyLess(KeyOf(rc), KeyOf(rb))
    ensures SortRecords([rb, rc]) == [rc, rb]
  {
    assert [rb, rc][1..] == [rc] && [rc][1..] == [];
    assert SortRecords([rc]) == [rc];
    InsertAfterSmaller(rb, rc, []);
    assert [rc] + [] == [rc] && [rc] + [rb] == [rc, rb];
  }

  /** Three records given in descending key order come out reversed. */
  lemma SortDescendingThree(ra: PigRecord, rb: PigRecord, rc: PigRecord)
    requires KeyLess(KeyOf(rc), KeyOf(rb)) && KeyLess(KeyOf(rb), KeyOf(ra))
    ensures SortRecords([ra, rb, rc]) == [rc, rb, ra]
  {
    assert [ra, rb, rc][1..] == [rb, rc];
    SortTwo(rb, rc);
    KeyOrder(KeyOf(rc), KeyOf(rb), KeyOf(ra));
    InsertAfterSmaller(ra, rc, [rb]);
    InsertAfterSmaller(ra, rb, []);
    assert [rb] + [] == [rb] && [rc] + [rb] == [rc, rb];
    assert Insert(ra, []) == [ra];
    assert [rc] + ([rb] + [ra]) == [rc, rb, ra];
  }

  lemma RowsOfThree(rh: seq<PigRecord>, lh: seq<PigRecord>, x: PigRecord, y: PigRecord, z: PigRecord)
    requires SortRecords(rh + lh) == [x, y, z]
    ensures TsvRows(rh, lh) == [Row(0, x), Row(1, y), Row(2, z)]
  {
    var rows := TsvRows(rh, lh);
    assert Records(rows)[0] == x && Records(rows)[1] == y && Records(rows)[2] == z;
  }

  /** Two right-hand notes at the same onset (5000 ticks, pitches 64 then 60)
      and one earlier left-hand note (2000 ticks, pitch 40) are written as the
      left-hand note, then pitch 60, then pitch 64. */
  lemma MergeExample()
    ensures var a := NoteEvent(5000, 100, 64, 3, 0.0, 1);
            var b := NoteEvent(5000, 100, 60, 1, 0.0, 2);
            var c := NoteEvent(2000, 100, 40, 5, 0.0, 3);
            var rows := TsvRows(PigRecords([a, b], true), PigRecords([c], false));
            rows == [Row(0, ToPig(c, false)), Row(1, ToPig(b, true)), Row(2, ToPig(a, true))]
  {
    var a := NoteEvent(5000, 100, 64, 3, 0.0, 1);
    var b := NoteEvent(5000, 100, 60, 1, 0.0, 2);
    var c := NoteEvent(2000, 100, 40, 5, 0.0, 3);
    var ra, rb, rc := ToPig(a, true), ToPig(b, true), ToPig(c, false);
    assert PigRecords([a, b], true) + PigRecords([c], false) == [ra, rb, rc];
    SortDescendingThree(ra, rb, rc);
    RowsOfThree(PigRecords([a, b], true), PigRecords([c], false), rc, rb, ra);
  }
}

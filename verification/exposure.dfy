/** The selective-exposure heuristic of `annotate_fingers_xml_direct`: which
    fingering labels are worth writing so that the score stays legible. */
module Exposure {
  import opened Wrappers

  /** The rules of the cascade, in priority order, plus the fall-through. */
  datatype Rule =
    | MeasureStart   // first consumed note of a measure
    | ThumbShift     // finger 1 after a finger above 1
    | PinkyStretch   // finger 5 after a finger below 5
    | LargeLeap      // more than an octave from the previous pitch
    | ThumbCrossing  // pitch and finger number move against each other by more than 2
    | Hidden

  /** Position of a rule in the cascade; `Hidden` comes after every rule. */
  function Rank(rule: Rule): nat {
    match rule
    case MeasureStart => 0
    case ThumbShift => 1
    case PinkyStretch => 2
    case LargeLeap => 3
    case ThumbCrossing => 4
    case Hidden => 5
  }

  function Abs(x: int): nat {
    if x < 0 then -x else x
  }

  /** The trigger of each rule read on its own, regardless of the others. */
  predicate Fires(rule: Rule, measureStart: bool, fingering: int, pitch: int,
                  prevFingering: Option<int>, prevPitch: Option<int>)
  {
    match rule
    case MeasureStart => measureStart
    case ThumbShift => fingering == 1 && prevFingering.Some? && prevFingering.value > 1
    case PinkyStretch => fingering == 5 && prevFingering.Some? && prevFingering.value < 5
    case LargeLeap => prevPitch.Some? && Abs(pitch - prevPitch.value) > 12
    case ThumbCrossing =>
      prevFingering.Some? && prevPitch.Some? &&
      ((pitch > prevPitch.value && fingering - prevFingering.value < -2) ||
       (pitch < prevPitch.value && fingering - prevFingering.value > 2))
    case Hidden => false
  }

  /** The if/elif cascade exactly as the annotator evaluates it. The result is
      the first rule, in priority order, whose trigger holds; `Hidden` when
      none does. */
  function Decide(measureStart: bool, fingering: int, pitch: int,
                  prevFingering: Option<int>, prevPitch: Option<int>): (rule: Rule)
    ensures rule == Hidden || Fires(rule, measureStart, fingering, pitch, prevFingering, prevPitch)
    ensures forall q: Rule :: Rank(q) < Rank(rule) ==>
              !Fires(q, measureStart, fingering, pitch, prevFingering, prevPitch)
  {
    if measureStart then MeasureStart
    else if fingering == 1 && prevFingering.Some? && prevFingering.value > 1 then ThumbShift
    else if fingering == 5 && prevFingering.Some? && prevFingering.value < 5 then PinkyStretch
    else if prevPitch.Some? && Abs(pitch - prevPitch.value) > 12 then LargeLeap
    else if prevFingering.Some? && prevPitch.Some? then
      var pitchDirection := pitch - prevPitch.value;
      var fingerDirection := fingering - prevFingering.value;
      if pitchDirection > 0 && fingerDirection < -2 then ThumbCrossing
      else if pitchDirection < 0 && fingerDirection > 2 then ThumbCrossing
      else Hidden
    else Hidden
  }

  /** Whether the label of this note is written. */
  predicate Shows(measureStart: bool, fingering: int, pitch: int,
                  prevFingering: Option<int>, prevPitch: Option<int>)
  {
    Decide(measureStart, fingering, pitch, prevFingering, prevPitch) != Hidden
  }

  /** A label is written exactly when at least one rule's trigger holds, so the
      order of the cascade decides which rule is reported, never whether the
      label is written. */
  lemma ShowsIffSomeRuleFires(measureStart: bool, fingering: int, pitch: int,
                              prevFingering: Option<int>, prevPitch: Option<int>)
    ensures Shows(measureStart, fingering, pitch, prevFingering, prevPitch) <==>
            exists q: Rule :: Fires(q, measureStart, fingering, pitch, prevFingering, prevPitch)
  {
    var rule := Decide(measureStart, fingering, pitch, prevFingering, prevPitch);
    if rule != Hidden {
      assert Fires(rule, measureStart, fingering, pitch, prevFingering, prevPitch);
    } else {
      forall q: Rule ensures !Fires(q, measureStart, fingering, pitch, prevFingering, prevPitch) {
        if q != Hidden {
          assert Rank(q) < Rank(rule);
        }
      }
    }
  }

  /** A leap of exactly an octave does not count as large; one semitone more does. */
  lemma OctaveBoundary(fingering: int, pitch: int)
    ensures Decide(false, fingering, pitch + 12, Some(fingering), Some(pitch)) == Hidden
    ensures Decide(false, fingering, pitch + 13, Some(fingering), Some(pitch)) == LargeLeap
    ensures Decide(false, fingering, pitch - 13, Some(fingering), Some(pitch)) == LargeLeap
  {
  }
}

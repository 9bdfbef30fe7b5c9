/** The per-hand note sequence produced by the fingering optimizer, which the
    annotator and the tabular writer consume. */
module Notes {

  /** One note as the optimizer returns it. Times are in ten-thousandths of a
      second, the resolution of the four-decimal tabular output. */
  datatype NoteEvent = NoteEvent(time: int, duration: int, pitch: int, fingering: int,
                                 cost: real, noteID: int)

  /** The hand-size categories, smallest first. */
  datatype HandSize = XXS | XS | S | M | L | XL | XXL
}

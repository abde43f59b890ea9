/** The drawing rectangle the piano roll hands to the renderer. */
module Graphics {
  /** A rectangle: left edge `x`, top edge `y`, width `w`, height `h`. */
  datatype Rect = Rect(x: real, y: real, w: real, h: real)
}

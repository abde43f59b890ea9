/** The logical controller buttons (`controllers::controller::Pressed`). */
module Controller {
  /** The twelve buttons of the controller: d-pad, shoulders, select/start and face buttons. */
  datatype Pressed = Left | Up | Down | Right | L | Select | Start | R | Y | B | X | A
}

/** Lifetime ("persistence") arguments shared by the stateful operators. */
module Lifetimes {

  /** A lifetime argument of an operator: `'tick`, `'static` or `'mutable`. */
  datatype Persistence = Tick | Static | Mutable
}

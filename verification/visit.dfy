/** One touch of a mapping by the program: which mapping, and whether a transition is under way. */
module Visits {
  datatype Visit = Visit(addr: nat, inTransition: bool)
}

// How a predicate keeps its quantifiers out of the proofs that do not look inside: it states
// `forall k {:trigger Open(k)} :: Open(k) ==> P`, and `assert Open(0)` gives P to those that do.
module Hiding {

  ghost predicate Open(k: int) { true }
}

/** A way to keep a definition folded in proofs that only pass it on. */
module Folding {
  /** Always true; a proof that mentions it unfolds what is quantified over it. */
  ghost predicate Guard(k: nat) {
    true
  }
}

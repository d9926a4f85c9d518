/** The host's regular-expression engine (`new RegExp`, `String.match`), which
    the provider only uses and which is not itself modelled. It is seen
    through two observations. */
module RegExp {
  import opened Wrappers

  /** `compiles(source)`: `new RegExp(source)` does not throw.
      `matchAt(source, text, p)`: the length of the match that the pattern
      `source` alone, tried at position `p` of `text`, takes first; `None`
      when it fails there. */
  datatype Engine = Engine(compiles: string -> bool, matchAt: (string, string, nat) -> Option<nat>)

  /** A match found at `p` is non-empty and lies inside `text`. */
  predicate Fits(m: Option<nat>, text: string, p: nat) {
    m.Some? ==> 0 < m.value && p + m.value <= |text|
  }

  /** The pattern `source` never matches the empty string. Patterns that can
      make the provider's per-line loop run forever are excluded by this. */
  ghost predicate NonEmptyMatches(e: Engine, source: string) {
    forall text: string, p: nat :: Fits(e.matchAt(source, text, p), text, p)
  }
}

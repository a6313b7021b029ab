/** The pause a venue may impose on a rate limiter. */
module Backoffs {
  import opened Wrappers

  /** No request passes before the end of the pause; an unset pause holds nothing back. */
  predicate Blocked(backoff: Option<int>, now: int)
  {
    backoff.Some? && now < backoff.value
  }
}

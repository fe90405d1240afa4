/** The one definition of "the origin declined us", shared by rungs 2 and 6
    (crates/checks/src/refusal.rs), and the statuses a rung can have. */
module Refusal {

  datatype Status = Pass | Fail | Skipped | Error | Refused | Unclaimed | Unprobeable

  predicate DeclinedUs(status: nat)
  {
    status == 401 || status == 402 || status == 407 || status == 429 || status == 503
  }

  predicate CouldNotAsk(error: string)
  {
    "robots_disallowed" <= error || "robots_unavailable" <= error
  }

  predicate SsrfBlocked(error: string) { "ssrf_blocked: " <= error }

  predicate Is2xx(status: nat) { 200 <= status < 300 }
}

/** The limiter's methods, called by requests in flight, do what the events say. */
module LimiterStatements {
  import opened Limiter
  import opened LimiterBounds

  /** One event: a request asks and is let through or not, or one in flight records how it ended. */
  method Execute(limiter: LoginLimiter, inFlight: map<string, nat>, e: Event) returns (inFlight': map<string, nat>)
    modifies limiter
    ensures Flight(limiter.attempts, inFlight') ==
            AfterEvent(limiter.limits, Flight(old(limiter.attempts), inFlight), e)
  {
    inFlight' := inFlight;
    var n := if e.key in inFlight then inFlight[e.key] else 0;
    if e.Enter? {
      var ok := limiter.Allow(e.key, e.now);
      if ok {
        inFlight' := inFlight[e.key := n + 1];
      }
    } else if n > 0 {
      inFlight' := inFlight[e.key := n - 1];
      match e
      case Fail(key, now) => limiter.RecordFailure(key, now);
      case Succeed(key) => limiter.RecordSuccess(key);
      case Abandon(_) =>
    }
  }
}

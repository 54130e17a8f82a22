/** The in-memory fixed-window limiter of failed logins and password-reset requests. */
module Limiter {

  datatype Window = Window(count: int, start: int)
  datatype Limits = Limits(maxAttempts: int, window: int)

  type Attempts = map<string, Window>

  predicate Expired(l: Limits, w: Window, now: int) {
    now - w.start > l.window
  }

  /** Whether an attempt for key may go ahead. */
  predicate MayTry(l: Limits, a: Attempts, key: string, now: int) {
    key !in a || Expired(l, a[key], now) || a[key].count < l.maxAttempts
  }

  /** Asking drops a window that is over, and changes nothing else. */
  function AfterAllow(l: Limits, a: Attempts, key: string, now: int): Attempts {
    if key in a && Expired(l, a[key], now) then a - {key} else a
  }

  function AfterFailure(l: Limits, a: Attempts, key: string, now: int): Attempts {
    if key !in a || Expired(l, a[key], now) then a[key := Window(1, now)]
    else a[key := a[key].(count := a[key].count + 1)]
  }

  class LoginLimiter {
    var attempts: Attempts
    const limits: Limits

    constructor (maxAttempts: int, window: int)
      ensures attempts == map[] && limits == Limits(maxAttempts, window)
    {
      attempts := map[];
      limits := Limits(maxAttempts, window);
    }

    method Allow(key: string, now: int) returns (ok: bool)
      modifies this
      ensures ok == MayTry(limits, old(attempts), key, now)
      ensures attempts == AfterAllow(limits, old(attempts), key, now)
    {
      if key !in attempts {
        return true;
      }
      var w := attempts[key];
      if now - w.start > limits.window {
        attempts := attempts - {key};
        return true;
      }
      return w.count < limits.maxAttempts;
    }

    method RecordFailure(key: string, now: int)
      modifies this
      ensures attempts == AfterFailure(limits, old(attempts), key, now)
    {
      var w := Window(0, now);
      if key in attempts && now - attempts[key].start <= limits.window {
        w := attempts[key];
      }
      w := w.(count := w.count + 1);
      attempts := attempts[key := w];
    }

    method RecordSuccess(key: string)
      modifies this
      ensures attempts == old(attempts) - {key}
    {
      attempts := attempts - {key};
    }
  }
}

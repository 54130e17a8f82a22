/**
 What successful logins do to the sliding bound: a success forgets the key's window, and with
 it the attempts already recorded. When a bound is left, and that otherwise there is none.
 */
module LimiterSuccess {
  import opened Limiter
  import opened LimiterBounds

  /** The attempts of the key recorded in one window's time. */
  function RecordedFrom(l: Limits, events: seq<Event>, key: string, from: int): nat {
    CountIn(RecordsOf(l, events, key), from, from + l.window)
  }

  /** With at most p requests of the key in flight, successes included, no window's time holds more than most. */
  ghost predicate Bounds(l: Limits, key: string, p: nat, most: nat) {
    forall events, from :: AtMostInFlight(l, events, key, p) && InOrder(events, key) ==>
      RecordedFrom(l, events, key, from) <= most
  }

  // ---- One request at a time, one attempt ----

  /** A request that is let through finds no window, so nobody succeeds while one is running. */
  ghost predicate Alone(l: Limits, f: Flight, key: string, r: seq<Record>, now: int) {
    && Windowed(1, l.window, r) && UpToDate(l, f.attempts, key, r, now)
    && (InFlight(f, key) > 0 ==> key !in f.attempts)
    && 0 <= CountOf(f.attempts, key) <= 1
  }

  lemma EventLeavesAlone(l: Limits, f: Flight, e: Event, key: string, r: seq<Record>, now: int)
    requires Alone(l, f, key, r, now) && l.maxAttempts <= 1
    requires InFlight(f, key) <= 1 && InFlight(AfterEvent(l, f, e), key) <= 1
    requires Timed(e, key) ==> e.now == now
    ensures Alone(l, AfterEvent(l, f, e), key, r + RecordOf(l, f, e, key), now)
  {
    if e.Succeed? && e.key == key {
      assert r + [] == r;
    } else {
      EventKeepsWindows(l, f, e, key, r, 1, now);
    }
  }

  lemma FrontIsPermitted(l: Limits, events: seq<Event>, key: string, p: nat, now: int)
    requires |events| > 0 && Permitted(l, events, key, p, now)
    ensures var front, e := events[..|events| - 1], events[|events| - 1];
            && Permitted(l, front, key, p, if Timed(e, key) then e.now else now)
            && (Timed(e, key) ==> e.now <= now)
            && InFlight(AfterEvents(l, front), key) <= p && InFlight(AfterEvents(l, events), key) <= p
  {
    var front := events[..|events| - 1];
    FrontIsInFlight(l, events, key, p);
    assert forall k :: 0 <= k < |front| ==> front[k] == events[k];
  }

  lemma {:induction false} AloneThroughout(l: Limits, events: seq<Event>, key: string, now: int)
    requires Permitted(l, events, key, 1, now) && l.maxAttempts <= 1
    ensures Alone(l, AfterEvents(l, events), key, RecordsOf(l, events, key), now)
  {
    if |events| == 0 {
    } else {
      var front, e := events[..|events| - 1], events[|events| - 1];
      var before := if Timed(e, key) then e.now else now;
      FrontIsPermitted(l, events, key, 1, now);
      AloneThroughout(l, front, key, before);
      EventLeavesAlone(l, AfterEvents(l, front), e, key, RecordsOf(l, front, key), before);
      LaterIsUpToDate(l, AfterEvents(l, events).attempts, key, RecordsOf(l, events, key), before, now);
    }
  }

  // ---- Otherwise ----

  predicate Counted(a: Attempts, key: string, count: nat) {
    if count == 0 then key !in a else key in a && a[key] == Window(count, 0)
  }

  /** At the moment 0: the attempts counted, the requests in flight, and the attempts recorded. */
  ghost predicate StandsAt(
    l: Limits, events: seq<Event>, key: string, p: nat, count: nat, inFlight: nat, recorded: nat)
  {
    && Permitted(l, events, key, p, 0) && Counted(AfterEvents(l, events).attempts, key, count)
    && InFlight(AfterEvents(l, events), key) == inFlight
    && CountIn(RecordsOf(l, events, key), 0, l.window) == recorded
  }

  // The three moves of the runs that record as many attempts as one likes.

  lemma Enters(l: Limits, events: seq<Event>, key: string, p: nat, count: nat, inFlight: nat, recorded: nat)
    returns (more: seq<Event>)
    requires StandsAt(l, events, key, p, count, inFlight, recorded) && l.window >= 0
    requires inFlight < p && (count == 0 || count < l.maxAttempts)
    ensures StandsAt(l, more, key, p, count, inFlight + 1, recorded)
  {
    OneMoreEvent(l, events, Enter(key, 0), key, p, 0);
    assert RecordsOf(l, events, key) + [] == RecordsOf(l, events, key);
    more := events + [Enter(key, 0)];
  }

  lemma Fails(l: Limits, events: seq<Event>, key: string, p: nat, count: nat, inFlight: nat, recorded: nat)
    returns (more: seq<Event>)
    requires StandsAt(l, events, key, p, count, inFlight, recorded) && l.window >= 0
    requires 0 < inFlight <= p
    ensures StandsAt(l, more, key, p, count + 1, inFlight - 1, recorded + 1)
  {
    OneMoreEvent(l, events, Fail(key, 0), key, p, 0);
    CountOneMore(RecordsOf(l, events, key), RecordOf(l, AfterEvents(l, events), Fail(key, 0), key)[0], 0, l.window);
    more := events + [Fail(key, 0)];
  }

  lemma Succeeds(l: Limits, events: seq<Event>, key: string, p: nat, count: nat, inFlight: nat, recorded: nat)
    returns (more: seq<Event>)
    requires StandsAt(l, events, key, p, count, inFlight, recorded)
    requires 0 < inFlight <= p
    ensures StandsAt(l, more, key, p, 0, inFlight - 1, recorded)
  {
    OneMoreEvent(l, events, Succeed(key), key, p, 0);
    assert RecordsOf(l, events, key) + [] == RecordsOf(l, events, key);
    more := events + [Succeed(key)];
  }

  /** One request fails, another one, let through beside it or after it, succeeds: the key is back where it was. */
  lemma OneMoreRecorded(l: Limits, events: seq<Event>, key: string, p: nat, n: nat) returns (more: seq<Event>)
    requires StandsAt(l, events, key, p, 0, 0, n) && l.window >= 0 && (p >= 2 || (p == 1 && l.maxAttempts >= 2))
    ensures StandsAt(l, more, key, p, 0, 0, n + 1)
  {
    more := Enters(l, events, key, p, 0, 0, n);
    if p == 1 {
      more := Fails(l, more, key, p, 0, 1, n);
      more := Enters(l, more, key, p, 1, 0, n + 1);
    } else {
      more := Enters(l, more, key, p, 0, 1, n);
      more := Fails(l, more, key, p, 0, 2, n);
    }
    more := Succeeds(l, more, key, p, 1, 1, n + 1);
  }

  lemma {:induction false} AnyNumberRecorded(l: Limits, key: string, p: nat, n: nat) returns (events: seq<Event>)
    requires l.window >= 0 && (p >= 2 || (p == 1 && l.maxAttempts >= 2))
    ensures StandsAt(l, events, key, p, 0, 0, n)
  {
    if n == 0 {
      events := [];
    } else {
      events := AnyNumberRecorded(l, key, p, n - 1);
      events := OneMoreRecorded(l, events, key, p, n - 1);
    }
  }

  /** With successes there is a bound if and only if one request at a time has one attempt; and then it is one. */
  lemma BoundedDespiteSuccessExactly(l: Limits, key: string, p: nat)
    requires p >= 1 && l.window >= 0
    ensures (exists most :: Bounds(l, key, p, most)) <==> p == 1 && l.maxAttempts <= 1
    ensures p == 1 && l.maxAttempts <= 1 ==> Bounds(l, key, p, 1)
  {
    if p == 1 && l.maxAttempts <= 1 {
      forall events, from | AtMostInFlight(l, events, key, 1) && InOrder(events, key)
        ensures RecordedFrom(l, events, key, from) <= 1
      {
        var now := SomeLaterMoment(events, key);
        AloneThroughout(l, events, key, now);
        RecordsInAWindow(1, l.window, RecordsOf(l, events, key), from);
      }
      assert Bounds(l, key, p, 1);
    } else {
      forall most: nat
        ensures !Bounds(l, key, p, most)
      {
        var events := AnyNumberRecorded(l, key, p, most + 1);
        assert RecordedFrom(l, events, key, 0) == most + 1;
      }
    }
  }
}

/** How many attempts the limiter lets through, in any stretch of time, with requests in flight. */
module LimiterBounds {
  import opened Domain
  import opened Limiter

  /** At least one attempt always gets through: an empty table never refuses. */
  function Quota(l: Limits): int {
    if l.maxAttempts < 1 then 1 else l.maxAttempts
  }

  // ---- Requests between their Allow and their Record ----

  datatype Flight = Flight(attempts: Attempts, inFlight: map<string, nat>)

  datatype Event =
    | Enter(key: string, now: int)      // Allow; when true the request is in flight
    | Fail(key: string, now: int)       // RecordFailure by a request in flight
    | Succeed(key: string)              // RecordSuccess by a request in flight
    | Abandon(key: string)              // it ends without recording anything

  function InFlight(f: Flight, key: string): nat {
    if key in f.inFlight then f.inFlight[key] else 0
  }

  function CountOf(a: Attempts, key: string): int {
    if key in a then a[key].count else 0
  }

  /** The event happens, unless nobody is in flight to bring it about. */
  function AfterEvent(l: Limits, f: Flight, e: Event): Flight {
    var n := InFlight(f, e.key);
    match e
    case Enter(key, now) =>
      var a := AfterAllow(l, f.attempts, key, now);
      if MayTry(l, f.attempts, key, now) then Flight(a, f.inFlight[key := n + 1]) else f.(attempts := a)
    case Fail(key, now) =>
      if n == 0 then f else Flight(AfterFailure(l, f.attempts, key, now), f.inFlight[key := n - 1])
    case Succeed(key) =>
      if n == 0 then f else Flight(f.attempts - {key}, f.inFlight[key := n - 1])
    case Abandon(key) =>
      if n == 0 then f else f.(inFlight := f.inFlight[key := n - 1])
  }

  function AfterEvents(l: Limits, events: seq<Event>): Flight {
    if |events| == 0 then Flight(map[], map[])
    else AfterEvent(l, AfterEvents(l, events[..|events| - 1]), events[|events| - 1])
  }

  /** At no time are more than p requests of the key in flight. */
  ghost predicate AtMostInFlight(l: Limits, events: seq<Event>, key: string, p: nat) {
    forall k :: 0 <= k <= |events| ==> InFlight(AfterEvents(l, events[..k]), key) <= p
  }

  lemma FrontIsInFlight(l: Limits, events: seq<Event>, key: string, p: nat)
    requires AtMostInFlight(l, events, key, p) && |events| > 0
    ensures AtMostInFlight(l, events[..|events| - 1], key, p)
    ensures InFlight(AfterEvents(l, events[..|events| - 1]), key) <= p && InFlight(AfterEvents(l, events), key) <= p
  {
    var front := events[..|events| - 1];
    assert front[..|front|] == front && events[..|events|] == events;
    forall k | 0 <= k <= |front|
      ensures InFlight(AfterEvents(l, front[..k]), key) <= p
    {
      assert front[..k] == events[..k];
    }
  }

  lemma EventKeepsBound(l: Limits, f: Flight, e: Event, key: string, p: nat)
    requires 0 <= CountOf(f.attempts, key) && CountOf(f.attempts, key) + InFlight(f, key) <= Quota(l) - 1 + p
    requires InFlight(AfterEvent(l, f, e), key) <= p
    ensures var f' := AfterEvent(l, f, e);
            0 <= CountOf(f'.attempts, key) && CountOf(f'.attempts, key) + InFlight(f', key) <= Quota(l) - 1 + p
  {
  }

  /**
   In any interleaving, with at most p requests of a key in flight, the recorded attempts of
   its window and the requests in flight together never exceed quota - 1 + p.
   */
  lemma {:induction false} ConcurrentBound(l: Limits, events: seq<Event>, key: string, p: nat)
    requires AtMostInFlight(l, events, key, p)
    ensures var f := AfterEvents(l, events);
            0 <= CountOf(f.attempts, key) && CountOf(f.attempts, key) + InFlight(f, key) <= Quota(l) - 1 + p
  {
    if |events| == 0 {
    } else {
      var front := events[..|events| - 1];
      FrontIsInFlight(l, events, key, p);
      ConcurrentBound(l, front, key, p);
      EventKeepsBound(l, AfterEvents(l, front), events[|events| - 1], key, p);
    }
  }

  // ---- The sliding bound of the fixed window ----

  /** A recorded attempt: when, in which window, and as which one of that window. */
  datatype Record = Record(time: int, start: int, ordinal: int)

  predicate Records(f: Flight, e: Event, key: string) {
    e.Fail? && e.key == key && InFlight(f, key) > 0
  }

  function RecordOf(l: Limits, f: Flight, e: Event, key: string): seq<Record> {
    if !Records(f, e, key) then []
    else
      var w := AfterFailure(l, f.attempts, key, e.now)[key];
      [Record(e.now, w.start, w.count)]
  }

  /** The attempts recorded for the key. */
  function RecordsOf(l: Limits, events: seq<Event>, key: string): seq<Record> {
    if |events| == 0 then []
    else
      RecordsOf(l, events[..|events| - 1], key)
      + RecordOf(l, AfterEvents(l, events[..|events| - 1]), events[|events| - 1], key)
  }

  predicate Timed(e: Event, key: string) {
    (e.Enter? || e.Fail?) && e.key == key
  }

  /** For this key the clock never goes back; other keys may be served in any order. */
  ghost predicate InOrder(events: seq<Event>, key: string) {
    forall j, k :: 0 <= j < k < |events| && Timed(events[j], key) && Timed(events[k], key) ==>
        events[j].now <= events[k].now
  }

  ghost predicate NoSuccess(events: seq<Event>, key: string) {
    forall k :: 0 <= k < |events| ==> !(events[k].Succeed? && events[k].key == key)
  }

  /** Records in time order; each continues its window or, more than a window later, starts the next. */
  ghost predicate Windowed(size: int, window: int, r: seq<Record>) {
    && (forall j, k :: 0 <= j < k < |r| ==> r[j].time <= r[k].time)
    && (forall k :: 0 <= k < |r| ==> 1 <= r[k].ordinal <= size && (r[k].ordinal == 1 ==> r[k].time == r[k].start))
    && (forall k :: 0 < k < |r| ==>
         || (r[k].start == r[k - 1].start && r[k].ordinal == r[k - 1].ordinal + 1)
         || (r[k].ordinal == 1 && r[k].start > r[k - 1].start + window))
  }

  /** The limiter's window for the key is the one of the last record, unless that one is over by now. */
  ghost predicate UpToDate(l: Limits, a: Attempts, key: string, r: seq<Record>, now: int) {
    && (|r| == 0 ==> key !in a)
    && (|r| > 0 ==>
         var last := r[|r| - 1];
         && last.time <= now
         && (if key in a then a[key] == Window(last.ordinal, last.start) else now > last.start + l.window))
  }

  lemma OneMoreRecord(size: int, window: int, r: seq<Record>, next: Record)
    requires Windowed(size, window, r)
    requires 1 <= next.ordinal <= size && (next.ordinal == 1 ==> next.time == next.start)
    requires |r| > 0 ==>
      var last := r[|r| - 1];
      && last.time <= next.time
      && ((next.start == last.start && next.ordinal == last.ordinal + 1)
          || (next.ordinal == 1 && next.start > last.start + window))
    ensures Windowed(size, window, r + [next])
  {
  }

  /** What a failure records continues the key's window, or starts the next. */
  lemma FailureIsNext(l: Limits, a: Attempts, key: string, r: seq<Record>, now: int)
    requires UpToDate(l, a, key, r, now) && (key in a ==> a[key].count >= 1)
    ensures var w := AfterFailure(l, a, key, now)[key];
            && 1 <= w.count && (w.count == 1 ==> w.start == now)
            && UpToDate(l, AfterFailure(l, a, key, now), key, r + [Record(now, w.start, w.count)], now)
            && (|r| > 0 ==>
                 var last := r[|r| - 1];
                 && last.time <= now
                 && ((w.start == last.start && w.count == last.ordinal + 1)
                     || (w.count == 1 && w.start == now && now > last.start + l.window)))
  {
  }

  /** Whatever records nothing leaves the window as it is, or drops it when it is over. */
  lemma OthersKeepUpToDate(l: Limits, f: Flight, e: Event, key: string, r: seq<Record>, now: int)
    requires UpToDate(l, f.attempts, key, r, now) && !Records(f, e, key)
    requires (Timed(e, key) ==> e.now == now) && !(e.Succeed? && e.key == key)
    ensures UpToDate(l, AfterEvent(l, f, e).attempts, key, r, now)
  {
  }

  lemma EventKeepsWindows(l: Limits, f: Flight, e: Event, key: string, r: seq<Record>, size: int, now: int)
    requires Windowed(size, l.window, r) && UpToDate(l, f.attempts, key, r, now)
    requires Timed(e, key) ==> e.now == now
    requires !(e.Succeed? && e.key == key)
    requires 0 <= CountOf(f.attempts, key) && CountOf(AfterEvent(l, f, e).attempts, key) <= size
    ensures Windowed(size, l.window, r + RecordOf(l, f, e, key))
    ensures UpToDate(l, AfterEvent(l, f, e).attempts, key, r + RecordOf(l, f, e, key), now)
  {
    if Records(f, e, key) {
      var w := AfterFailure(l, f.attempts, key, now)[key];
      var next := Record(now, w.start, w.count);
      assert RecordOf(l, f, e, key) == [next];
      assert key in f.attempts ==> f.attempts[key].count == r[|r| - 1].ordinal >= 1;
      FailureIsNext(l, f.attempts, key, r, now);
      OneMoreRecord(size, l.window, r, next);
    } else {
      assert r + [] == r;
      OthersKeepUpToDate(l, f, e, key, r, now);
    }
  }

  /** A moment after all of the key's events so far. */
  ghost predicate Since(events: seq<Event>, key: string, now: int) {
    forall k :: 0 <= k < |events| && Timed(events[k], key) ==> events[k].now <= now
  }

  lemma LastKeepsWindows(l: Limits, events: seq<Event>, key: string, p: nat, before: int, now: int)
    requires |events| > 0 && AtMostInFlight(l, events, key, p) && before <= now
    requires var e := events[|events| - 1]; !(e.Succeed? && e.key == key) && (Timed(e, key) ==> e.now == before)
    requires var front := events[..|events| - 1];
             && Windowed(Quota(l) - 1 + p, l.window, RecordsOf(l, front, key))
             && UpToDate(l, AfterEvents(l, front).attempts, key, RecordsOf(l, front, key), before)
    ensures Windowed(Quota(l) - 1 + p, l.window, RecordsOf(l, events, key))
    ensures UpToDate(l, AfterEvents(l, events).attempts, key, RecordsOf(l, events, key), now)
  {
    var front, e := events[..|events| - 1], events[|events| - 1];
    CountsStayBelow(l, events, key, p);
    EventKeepsWindows(l, AfterEvents(l, front), e, key, RecordsOf(l, front, key), Quota(l) - 1 + p, before);
    LaterIsUpToDate(l, AfterEvents(l, events).attempts, key, RecordsOf(l, events, key), before, now);
  }

  lemma {:induction false} EventsKeepWindows(l: Limits, events: seq<Event>, key: string, p: nat, now: int)
    requires AtMostInFlight(l, events, key, p) && InOrder(events, key) && NoSuccess(events, key)
    requires Since(events, key, now)
    ensures Windowed(Quota(l) - 1 + p, l.window, RecordsOf(l, events, key))
    ensures UpToDate(l, AfterEvents(l, events).attempts, key, RecordsOf(l, events, key), now)
  {
    if |events| == 0 {
    } else {
      var front, e := events[..|events| - 1], events[|events| - 1];
      var before := if Timed(e, key) then e.now else now;
      FrontIsInFlight(l, events, key, p);
      FrontIsInOrder(events, key, now);
      EventsKeepWindows(l, front, key, p, before);
      LastKeepsWindows(l, events, key, p, before, now);
    }
  }

  lemma CountsStayBelow(l: Limits, events: seq<Event>, key: string, p: nat)
    requires AtMostInFlight(l, events, key, p) && |events| > 0
    ensures 0 <= CountOf(AfterEvents(l, events[..|events| - 1]).attempts, key)
    ensures CountOf(AfterEvents(l, events).attempts, key) <= Quota(l) - 1 + p
  {
    FrontIsInFlight(l, events, key, p);
    ConcurrentBound(l, events[..|events| - 1], key, p);
    ConcurrentBound(l, events, key, p);
  }

  lemma FrontIsInOrder(events: seq<Event>, key: string, now: int)
    requires |events| > 0 && InOrder(events, key) && NoSuccess(events, key) && Since(events, key, now)
    ensures var front, e := events[..|events| - 1], events[|events| - 1];
            && InOrder(front, key) && NoSuccess(front, key) && !(e.Succeed? && e.key == key)
            && Since(front, key, if Timed(e, key) then e.now else now)
            && (Timed(e, key) ==> e.now <= now)
  {
    var front := events[..|events| - 1];
    assert forall k :: 0 <= k < |front| ==> front[k] == events[k];
  }

  lemma LaterIsUpToDate(l: Limits, a: Attempts, key: string, r: seq<Record>, before: int, now: int)
    requires UpToDate(l, a, key, r, before) && before <= now
    ensures UpToDate(l, a, key, r, now)
  {
  }

  /** The next window starts at most size - ordinal + 1 records later. */
  lemma {:induction false} NextWindow(size: int, window: int, r: seq<Record>, i: int) returns (g: int)
    requires Windowed(size, window, r) && 0 <= i < |r| && i + size + 1 - r[i].ordinal < |r|
    ensures i < g <= i + size + 1 - r[i].ordinal
    ensures r[g].ordinal == 1 && r[g].start > r[i].start + window
    decreases size - r[i].ordinal
  {
    if r[i + 1].ordinal == 1 && r[i + 1].start > r[i].start + window {
      g := i + 1;
    } else {
      g := NextWindow(size, window, r, i + 1);
    }
  }

  /** Any 2 * size consecutive records take more than a window. */
  lemma ManyRecordsTakeLong(size: int, window: int, r: seq<Record>, i: int)
    requires Windowed(size, window, r) && size >= 1 && 0 <= i && i + 2 * size - 1 < |r|
    ensures r[i + 2 * size - 1].time - r[i].time > window
  {
    var f := i;
    if r[i].ordinal != 1 {
      f := NextWindow(size, window, r, i);
    }
    var g := NextWindow(size, window, r, f);
    assert r[i].time <= r[f].time && r[g].time <= r[i + 2 * size - 1].time;
  }

  function CountIn(r: seq<Record>, from: int, to: int): nat {
    if |r| == 0 then 0
    else CountIn(r[..|r| - 1], from, to) + if from <= r[|r| - 1].time <= to then 1 else 0
  }

  lemma CountOneMore(r: seq<Record>, x: Record, from: int, to: int)
    ensures CountIn(r + [x], from, to) == CountIn(r, from, to) + if from <= x.time <= to then 1 else 0
  {
    assert (r + [x])[..|r|] == r;
  }

  /** The records counted are consecutive. */
  lemma {:induction false} CountedAreConsecutive(r: seq<Record>, from: int, to: int) returns (i: int)
    requires forall j, k :: 0 <= j < k < |r| ==> r[j].time <= r[k].time
    requires CountIn(r, from, to) > 0
    ensures 0 <= i && i + CountIn(r, from, to) <= |r|
    ensures from <= r[i].time && r[i + CountIn(r, from, to) - 1].time <= to
  {
    var n := |r| - 1;
    if CountIn(r[..n], from, to) > 0 {
      i := CountedAreConsecutive(r[..n], from, to);
    } else {
      i := n;
    }
  }

  lemma RecordsInAWindow(size: int, window: int, r: seq<Record>, from: int)
    requires Windowed(size, window, r) && size >= 1
    ensures CountIn(r, from, from + window) <= 2 * size - 1
  {
    var n := CountIn(r, from, from + window);
    if n >= 2 * size {
      var i := CountedAreConsecutive(r, from, from + window);
      ManyRecordsTakeLong(size, window, r, i);
    }
  }

  lemma {:induction false} SomeLaterMoment(events: seq<Event>, key: string) returns (now: int)
    ensures Since(events, key, now)
  {
    if |events| == 0 {
      now := 0;
    } else {
      var n := |events| - 1;
      now := SomeLaterMoment(events[..n], key);
      if Timed(events[n], key) && events[n].now > now {
        now := events[n].now;
      }
      assert forall k :: 0 <= k < n ==> events[..n][k] == events[k];
    }
  }

  /**
   With at most p requests of a key in flight, whatever other keys do, at most
   2 * (quota - 1 + p) - 1 attempts of the key are recorded in any closed interval as long as
   the window.
   */
  lemma SlidingBound(l: Limits, events: seq<Event>, key: string, p: nat, from: int)
    requires p >= 1 && AtMostInFlight(l, events, key, p) && InOrder(events, key) && NoSuccess(events, key)
    ensures CountIn(RecordsOf(l, events, key), from, from + l.window) <= 2 * (Quota(l) - 1 + p) - 1
  {
    var now := SomeLaterMoment(events, key);
    EventsKeepWindows(l, events, key, p, now);
    RecordsInAWindow(Quota(l) - 1 + p, l.window, RecordsOf(l, events, key), from);
  }

  /** Used serially, one request of the key after the other, at most 2 * quota - 1. */
  lemma SerialSlidingBound(l: Limits, events: seq<Event>, key: string, from: int)
    requires AtMostInFlight(l, events, key, 1) && InOrder(events, key) && NoSuccess(events, key)
    ensures CountIn(RecordsOf(l, events, key), from, from + l.window) <= 2 * Quota(l) - 1
  {
    SlidingBound(l, events, key, 1, from);
  }

  // ---- Keys, and refusals ----

  function OnlyKey(events: seq<Event>, key: string): seq<Event> {
    if |events| == 0 then []
    else OnlyKey(events[..|events| - 1], key) + if events[|events| - 1].key == key then [events[|events| - 1]] else []
  }

  ghost predicate SameForKey(f: Flight, g: Flight, key: string) {
    && InFlight(f, key) == InFlight(g, key)
    && (key in f.attempts <==> key in g.attempts)
    && (key in f.attempts ==> f.attempts[key] == g.attempts[key])
  }

  lemma EventsAreLocal(l: Limits, f: Flight, g: Flight, e: Event, key: string)
    requires SameForKey(f, g, key)
    ensures e.key == key ==> SameForKey(AfterEvent(l, f, e), AfterEvent(l, g, e), key)
    ensures e.key != key ==> SameForKey(AfterEvent(l, f, e), g, key)
  {
  }

  /** Keys do not affect each other: what other keys did can be left out. */
  lemma {:induction false} KeysAreIndependent(l: Limits, events: seq<Event>, key: string)
    ensures SameForKey(AfterEvents(l, events), AfterEvents(l, OnlyKey(events, key)), key)
  {
    if |events| == 0 {
    } else {
      var n := |events| - 1;
      var own := OnlyKey(events[..n], key);
      KeysAreIndependent(l, events[..n], key);
      EventsAreLocal(l, AfterEvents(l, events[..n]), AfterEvents(l, own), events[n], key);
      if events[n].key == key {
        assert (own + [events[n]])[..|own|] == own;
      } else {
        assert own + [] == own;
      }
    }
  }

  function Knock(l: Limits, a: Attempts, key: string, times: seq<int>): Attempts {
    if |times| == 0 then a
    else AfterAllow(l, Knock(l, a, key, times[..|times| - 1]), key, times[|times| - 1])
  }

  /** A full window refuses until it is over, and is over at the same moment however often it is asked. */
  lemma {:induction false} RefusalsDoNotProlong(l: Limits, a: Attempts, key: string, times: seq<int>, now: int)
    requires key in a && a[key].count >= l.maxAttempts
    requires forall k :: 0 <= k < |times| ==> times[k] <= a[key].start + l.window
    ensures Knock(l, a, key, times) == a
    ensures MayTry(l, Knock(l, a, key, times), key, now) <==> now > a[key].start + l.window
  {
    if |times| == 0 {
    } else {
      RefusalsDoNotProlong(l, a, key, times[..|times| - 1], now);
    }
  }

  // ---- The bound is reached ----

  function WindowOf(a: Attempts, key: string): Option<Window> {
    if key in a then Some(a[key]) else None
  }

  /** One request of the key, and what the limiter holds for the key afterwards. */
  function Entered(l: Limits, w: Option<Window>, at: int): Option<Window> {
    if w.Some? && Expired(l, w.value, at) then None else w
  }

  function Failed(l: Limits, w: Option<Window>, at: int): Option<Window> {
    if w.None? || Expired(l, w.value, at) then Some(Window(1, at)) else Some(w.value.(count := w.value.count + 1))
  }

  predicate Open(l: Limits, w: Option<Window>, at: int) {
    w.None? || Expired(l, w.value, at) || w.value.count < l.maxAttempts
  }

  function Hit(l: Limits, at: int): nat {
    if 1 <= at <= 1 + l.window then 1 else 0
  }

  /** A run up to now in which at most p requests of the key are in flight and its clock does not go back. */
  ghost predicate Permitted(l: Limits, events: seq<Event>, key: string, p: nat, now: int) {
    AtMostInFlight(l, events, key, p) && InOrder(events, key) && Since(events, key, now)
  }

  /** Such a run without successes. */
  ghost predicate Fair(l: Limits, events: seq<Event>, key: string, p: nat, now: int) {
    Permitted(l, events, key, p, now) && NoSuccess(events, key)
  }

  /** Where the key stands, and how many records the interval from 1 on holds. */
  datatype Standing = Standing(w: Option<Window>, inFlight: nat, now: int, hits: nat)

  ghost predicate Stands(l: Limits, events: seq<Event>, key: string, p: nat, s: Standing) {
    && Fair(l, events, key, p, s.now)
    && WindowOf(AfterEvents(l, events).attempts, key) == s.w
    && InFlight(AfterEvents(l, events), key) == s.inFlight
    && CountIn(RecordsOf(l, events, key), 1, 1 + l.window) == s.hits
  }

  lemma LastEvent(l: Limits, events: seq<Event>, e: Event, key: string)
    ensures AfterEvents(l, events + [e]) == AfterEvent(l, AfterEvents(l, events), e)
    ensures RecordsOf(l, events + [e], key)
         == RecordsOf(l, events, key) + RecordOf(l, AfterEvents(l, events), e, key)
  {
    assert (events + [e])[..|events|] == events;
  }

  lemma OneMoreInFlight(l: Limits, events: seq<Event>, e: Event, key: string, p: nat)
    requires AtMostInFlight(l, events, key, p) && InFlight(AfterEvents(l, events + [e]), key) <= p
    ensures AtMostInFlight(l, events + [e], key, p)
  {
    var all := events + [e];
    forall k | 0 <= k <= |all|
      ensures InFlight(AfterEvents(l, all[..k]), key) <= p
    {
      assert all[..k] == if k <= |events| then events[..k] else all;
    }
  }

  lemma OneMoreInOrder(events: seq<Event>, e: Event, key: string, now: int)
    requires InOrder(events, key) && Since(events, key, now) && (Timed(e, key) ==> now <= e.now)
    ensures InOrder(events + [e], key) && Since(events + [e], key, if Timed(e, key) then e.now else now)
  {
    var all := events + [e];
    assert forall k :: 0 <= k < |events| ==> all[k] == events[k];
  }

  lemma OneMoreEvent(l: Limits, events: seq<Event>, e: Event, key: string, p: nat, now: int)
    requires Permitted(l, events, key, p, now) && (Timed(e, key) ==> now <= e.now)
    requires InFlight(AfterEvent(l, AfterEvents(l, events), e), key) <= p
    ensures var all, f := events + [e], AfterEvents(l, events);
            && Permitted(l, all, key, p, if Timed(e, key) then e.now else now)
            && AfterEvents(l, all) == AfterEvent(l, f, e)
            && RecordsOf(l, all, key) == RecordsOf(l, events, key) + RecordOf(l, f, e, key)
  {
    LastEvent(l, events, e, key);
    OneMoreInFlight(l, events, e, key, p);
    OneMoreInOrder(events, e, key, now);
  }

  lemma FairOneMore(l: Limits, events: seq<Event>, e: Event, key: string, p: nat, now: int)
    requires Fair(l, events, key, p, now) && Timed(e, key) && now <= e.now
    requires InFlight(AfterEvent(l, AfterEvents(l, events), e), key) <= p
    ensures Fair(l, events + [e], key, p, e.now)
    ensures AfterEvents(l, events + [e]) == AfterEvent(l, AfterEvents(l, events), e)
    ensures RecordsOf(l, events + [e], key)
         == RecordsOf(l, events, key) + RecordOf(l, AfterEvents(l, events), e, key)
  {
    OneMoreEvent(l, events, e, key, p, now);
  }

  lemma EnterStands(l: Limits, events: seq<Event>, key: string, p: nat, s: Standing, at: int)
    requires Stands(l, events, key, p, s) && at >= s.now && s.inFlight < p && Open(l, s.w, at)
    ensures Stands(l, events + [Enter(key, at)], key, p, Standing(Entered(l, s.w, at), s.inFlight + 1, at, s.hits))
  {
    FairOneMore(l, events, Enter(key, at), key, p, s.now);
    assert RecordsOf(l, events, key) + [] == RecordsOf(l, events, key);
  }

  lemma FailCounts(l: Limits, f: Flight, key: string, at: int)
    requires InFlight(f, key) > 0
    ensures var f' := AfterEvent(l, f, Fail(key, at));
            WindowOf(f'.attempts, key) == Failed(l, WindowOf(f.attempts, key), at) &&
                InFlight(f', key) == InFlight(f, key) - 1
    ensures |RecordOf(l, f, Fail(key, at), key)| == 1 && RecordOf(l, f, Fail(key, at), key)[0].time == at
  {
  }

  lemma FailStands(l: Limits, events: seq<Event>, key: string, p: nat, s: Standing, at: int)
    requires Stands(l, events, key, p, s) && at >= s.now && s.inFlight > 0
    ensures Stands(l, events + [Fail(key, at)], key, p,
                   Standing(Failed(l, s.w, at), s.inFlight - 1, at, s.hits + Hit(l, at)))
  {
    var f, r := AfterEvents(l, events), RecordsOf(l, events, key);
    FailCounts(l, f, key, at);
    assert events[..|events|] == events;
    FairOneMore(l, events, Fail(key, at), key, p, s.now);
    var failed := RecordOf(l, f, Fail(key, at), key);
    assert failed == [failed[0]];
    CountOneMore(r, failed[0], 1, 1 + l.window);
  }

  /** A request of the key comes in, or fails. */
  datatype Move = In(at: int) | Out(at: int)

  function Next(l: Limits, p: nat, s: Standing, m: Move): Option<Standing> {
    if m.at < s.now then None
    else match m
      case In(at) =>
        if s.inFlight < p && Open(l, s.w, at) then Some(Standing(Entered(l, s.w, at), s.inFlight + 1, at, s.hits))
        else None
      case Out(at) =>
        if s.inFlight > 0 then Some(Standing(Failed(l, s.w, at), s.inFlight - 1, at, s.hits + Hit(l, at)))
        else None
  }

  function Walk(l: Limits, p: nat, s: Standing, moves: seq<Move>): Option<Standing>
    decreases |moves|
  {
    if |moves| == 0 then Some(s)
    else match Next(l, p, s, moves[0])
      case None => None
      case Some(s') => Walk(l, p, s', moves[1..])
  }

  function EventOf(key: string, m: Move): Event {
    match m
    case In(at) => Enter(key, at)
    case Out(at) => Fail(key, at)
  }

  lemma MoveStands(l: Limits, events: seq<Event>, key: string, p: nat, s: Standing, m: Move)
    requires Stands(l, events, key, p, s) && Next(l, p, s, m).Some?
    ensures Stands(l, events + [EventOf(key, m)], key, p, Next(l, p, s, m).value)
  {
    match m
    case In(at) => EnterStands(l, events, key, p, s, at);
    case Out(at) => FailStands(l, events, key, p, s, at);
  }

  lemma {:induction false} WalkStands(l: Limits, events: seq<Event>, key: string, p: nat, s: Standing, moves: seq<Move>)
    returns (events': seq<Event>)
    requires Stands(l, events, key, p, s) && Walk(l, p, s, moves).Some?
    ensures Stands(l, events', key, p, Walk(l, p, s, moves).value)
    decreases |moves|
  {
    if |moves| == 0 {
      events' := events;
    } else {
      MoveStands(l, events, key, p, s, moves[0]);
      events' := WalkStands(l, events + [EventOf(key, moves[0])], key, p, Next(l, p, s, moves[0]).value, moves[1..]);
    }
  }

  lemma {:induction false} WalkConcat(l: Limits, p: nat, s: Standing, a: seq<Move>, b: seq<Move>)
    requires Walk(l, p, s, a).Some?
    ensures Walk(l, p, s, a + b) == Walk(l, p, Walk(l, p, s, a).value, b)
    decreases |a|
  {
    if |a| == 0 {
      assert a + b == b;
    } else {
      WalkConcat(l, p, Next(l, p, s, a[0]).value, a[1..], b);
      assert (a + b)[1..] == a[1..] + b;
    }
  }

  function Times(moves: seq<Move>, n: nat): seq<Move> {
    if n == 0 then [] else moves + Times(moves, n - 1)
  }

  /** Requests come in at one moment until p of them are in flight. */
  lemma {:induction false} AllCome(l: Limits, p: nat, s: Standing)
    requires s.inFlight <= p && s.w.None?
    ensures Walk(l, p, s, Times([In(s.now)], p - s.inFlight)) == Some(s.(inFlight := p))
    decreases p - s.inFlight
  {
    if s.inFlight == p {
    } else {
      var rest := Times([In(s.now)], p - s.inFlight - 1);
      AllCome(l, p, s.(inFlight := s.inFlight + 1));
      assert ([In(s.now)] + rest)[1..] == rest;
    }
  }

  predicate Running(l: Limits, s: Standing, at: int) {
    s.w.Some? && !Expired(l, s.w.value, at) && s.now <= at && Hit(l, at) == 1
  }

  /** Those in flight fail, one after the other, in a window that goes on. */
  lemma {:induction false} AllFail(l: Limits, p: nat, s: Standing, at: int)
    requires Running(l, s, at) && s.inFlight > 0
    ensures Walk(l, p, s, Times([Out(at)], s.inFlight)) ==
            Some(Standing(Some(s.w.value.(count := s.w.value.count + s.inFlight)), 0, at, s.hits + s.inFlight))
    decreases s.inFlight
  {
    var rest := Times([Out(at)], s.inFlight - 1);
    assert ([Out(at)] + rest)[1..] == rest;
    if s.inFlight == 1 {
    } else {
      AllFail(l, p, Next(l, p, s, Out(at)).value, at);
    }
  }

  /** With one place left, requests come and fail until the window is full. */
  lemma {:induction false} FailToQuota(l: Limits, p: nat, s: Standing, at: int)
    requires Running(l, s, at) && s.inFlight < p && 1 <= s.w.value.count < Quota(l)
    ensures Walk(l, p, s, Times([In(at), Out(at)], Quota(l) - s.w.value.count)) ==
            Some(Standing(Some(s.w.value.(count := Quota(l))), s.inFlight, at, s.hits + Quota(l) - s.w.value.count))
    decreases Quota(l) - s.w.value.count
  {
    var rest := Times([In(at), Out(at)], Quota(l) - s.w.value.count - 1);
    assert ([In(at), Out(at)] + rest)[1..] == [Out(at)] + rest && ([Out(at)] + rest)[1..] == rest;
    var come := Next(l, p, s, In(at)).value;
    var failed := Next(l, p, come, Out(at)).value;
    assert Walk(l, p, s, [In(at), Out(at)] + rest) == Walk(l, p, come, [Out(at)] + rest) == Walk(l, p, failed, rest);
    if s.w.value.count + 1 == Quota(l) {
    } else {
      FailToQuota(l, p, failed, at);
    }
  }

  /** p requests come at t0, and one of them fails. */
  lemma OpenWindow(l: Limits, p: nat, s: Standing, t0: int) returns (moves: seq<Move>)
    requires s.inFlight == 0 && p >= 1 && s.now <= t0 && (s.w.Some? ==> Expired(l, s.w.value, t0))
    ensures Walk(l, p, s, moves) == Some(Standing(Some(Window(1, t0)), p - 1, t0, s.hits + Hit(l, t0)))
  {
    var one := Standing(None, 1, t0, s.hits);
    var come := Times([In(t0)], p - 1);
    AllCome(l, p, one);
    WalkConcat(l, p, one, come, [Out(t0)]);
    moves := [In(t0)] + (come + [Out(t0)]);
    assert moves[1..] == come + [Out(t0)];
    assert [Out(t0)][1..] == [];
  }

  /** The rest of the window, as full as it can be, at t1. */
  lemma FillUp(l: Limits, p: nat, t0: int, t1: int, hits: nat) returns (moves: seq<Move>)
    requires p >= 1 && t0 <= t1 <= t0 + l.window && Hit(l, t1) == 1
    ensures moves == [] || Walk(l, p, Standing(Some(Window(1, t0)), p - 1, t0, hits), moves)
                           == Some(Standing(Some(Window(Quota(l) - 1 + p, t0)), 0, t1, hits + Quota(l) - 2 + p))
    ensures moves == [] ==> Quota(l) == 1 && p == 1
  {
    var s := Standing(Some(Window(1, t0)), p - 1, t0, hits);
    var full := s;
    moves := [];
    if Quota(l) > 1 {
      FailToQuota(l, p, s, t1);
      moves := Times([In(t1), Out(t1)], Quota(l) - 1);
      full := Standing(Some(Window(Quota(l), t0)), p - 1, t1, hits + Quota(l) - 1);
      assert Walk(l, p, s, moves) == Some(full);
    }
    if p > 1 {
      AllFail(l, p, full, t1);
      WalkConcat(l, p, s, moves, Times([Out(t1)], p - 1));
      moves := moves + Times([Out(t1)], p - 1);
    }
  }

  /** A window as full as it can be: started at t0, the rest at t1. */
  lemma FullWindow(l: Limits, p: nat, s: Standing, t0: int, t1: int) returns (moves: seq<Move>)
    requires s.inFlight == 0 && p >= 1 && s.now <= t0 && (s.w.Some? ==> Expired(l, s.w.value, t0))
    requires t0 <= t1 <= t0 + l.window && Hit(l, t1) == 1
    ensures var r := Walk(l, p, s, moves);
            && r.Some? && r.value.w == Some(Window(Quota(l) - 1 + p, t0)) && r.value.inFlight == 0
            && t0 <= r.value.now <= t1 && r.value.hits == s.hits + Hit(l, t0) + Quota(l) - 2 + p
  {
    var first := OpenWindow(l, p, s, t0);
    var rest := FillUp(l, p, t0, t1, s.hits + Hit(l, t0));
    WalkConcat(l, p, s, first, rest);
    moves := first + rest;
  }

  /** For any limits some run within the rules records exactly as many attempts in one window's time. */
  lemma BoundIsReached(l: Limits, key: string, p: nat) returns (events: seq<Event>)
    requires p >= 1 && l.window >= 1
    ensures AtMostInFlight(l, events, key, p) && InOrder(events, key) && NoSuccess(events, key)
    ensures CountIn(RecordsOf(l, events, key), 1, 1 + l.window) == 2 * (Quota(l) - 1 + p) - 1
  {
    var s := Standing(None, 0, 0, 0);
    assert Stands(l, [], key, p, s);
    var first := FullWindow(l, p, s, 0, l.window);
    var s' := Walk(l, p, s, first).value;
    events := WalkStands(l, [], key, p, s, first);
    var second := FullWindow(l, p, s', l.window + 1, l.window + 1);
    events := WalkStands(l, events, key, p, s', second);
  }
}

/**
 How many renewals of one session racing requests can start, at most p of them at it at a time,
 when their refreshes may overtake each other: in half a lifetime p * (p + 1) / 2, and for
 every p so many that no smaller number will do.
 */
module RenewalBounds {
  import Finite
  import opened Sessions
  import opened SessionRaces
  import opened SessionRenewals
  import opened RenewalCounts

  // ---- No more than that ----

  /** Requests about to write an expiry that a read before a decided. */
  function OldBusy(r: Racing, token: string, a: int): (before: set<int>)
    ensures before <= Busy(r, token)
  {
    set q | q in r.pending && r.pending[q].token == token && r.pending[q].at < a
  }

  /** With p places of which the first held are taken, then one fewer, and so on: the free places added up. */
  function FreePlaces(held: nat, p: int): int {
    if held == 0 then 0 else FreePlaces(held - 1, p) + p - (held - 1)
  }

  lemma {:induction false} FreePlacesAddUp(held: nat, p: int)
    ensures 2 * FreePlaces(held, p) == held * (2 * p + 1 - held)
  {
    if held == 0 {
    } else {
      FreePlacesAddUp(held - 1, p);
    }
  }

  /** 1 + 2 + ... + p. */
  function Triangle(p: nat): nat {
    FreePlacesAddUp(p, p);
    p * (p + 1) / 2
  }

  lemma {:induction false} FreePlacesGrow(held: nat, more: nat, p: int)
    requires held <= more <= p
    ensures 0 <= FreePlaces(held, p) <= FreePlaces(more, p)
    decreases more
  {
    if held < more {
      FreePlacesGrow(held, more - 1, p);
    } else if held > 0 {
      FreePlacesGrow(held - 1, held - 1, p);
    }
  }

  /** The stored expiry was decided before a. */
  predicate Behind(r: Racing, token: string, a: int) {
    token in r.table && r.table[token].expiresAt < a + SESSION_TTL
  }

  /** What can still start up to half a lifetime after a: each refresh from before a can make room once more. */
  function Room(r: Racing, token: string, a: int, p: nat): int {
    FreePlaces(|OldBusy(r, token, a)|, p) + if Behind(r, token, a) then p - |Busy(r, token)| else 0
  }

  lemma OldAmongBusy(r: Racing, token: string, a: int)
    ensures |OldBusy(r, token, a)| <= |Busy(r, token)|
  {
    Finite.SubsetSize(OldBusy(r, token, a), Busy(r, token));
  }

  lemma RoomIsBounded(r: Racing, token: string, a: int, p: nat)
    requires |Busy(r, token)| <= p
    ensures 0 <= Room(r, token, a, p) && Room(r, token, a, p) <= Triangle(p)
  {
    var held := |OldBusy(r, token, a)|;
    OldAmongBusy(r, token, a);
    FreePlacesGrow(held, p, p);
    FreePlacesAddUp(p, p);
    if held < p {
      FreePlacesGrow(held + 1, p, p);
    }
  }

  lemma StartTakesRoom(r: Racing, s: Statement, token: string, a: int, p: nat)
    requires Starts(r, s, token) && a <= s.now <= a + RENEW_THRESHOLD
    ensures Room(After(r, s), token, a, p) == Room(r, token, a, p) - 1
  {
    assert Busy(After(r, s), token) == Busy(r, token) + {s.request};
    assert OldBusy(After(r, s), token, a) == OldBusy(r, token, a);
  }

  lemma WriteMakesNoRoom(r: Racing, s: Statement, token: string, a: int, p: nat)
    requires s.Refresh? && s.request in r.pending && r.pending[s.request].token == token && |Busy(r, token)| <= p
    ensures Room(After(r, s), token, a, p) <= Room(r, token, a, p)
  {
    var q := s.request;
    OldAmongBusy(r, token, a);
    assert Busy(After(r, s), token) == Busy(r, token) - {q};
    if r.pending[q].at < a {
      assert OldBusy(After(r, s), token, a) == OldBusy(r, token, a) - {q};
    } else {
      assert OldBusy(After(r, s), token, a) == OldBusy(r, token, a);
    }
  }

  lemma OthersMakeNoRoom(r: Racing, s: Statement, token: string, a: int, p: nat)
    requires !Starts(r, s, token) && !(s.Insert? && s.token == token) && |Busy(r, token)| <= p
    requires !(s.Refresh? && s.request in r.pending && r.pending[s.request].token == token)
    ensures Room(After(r, s), token, a, p) <= Room(r, token, a, p)
  {
    assert Busy(After(r, s), token) == Busy(r, token);
    assert OldBusy(After(r, s), token, a) == OldBusy(r, token, a);
  }

  ghost predicate AscendsFrom(w: seq<int>, clock: int) {
    && (forall k :: 0 <= k < |w| ==> clock <= w[k])
    && (forall j, k :: 0 <= j < k < |w| ==> w[j] <= w[k])
  }

  lemma {:induction false} RenewalsAscend(r: Racing, ss: seq<Statement>, token: string, clock: int)
    requires ClockRuns(ss, clock)
    ensures AscendsFrom(Renewals(r, ss, token), clock)
    decreases |ss|
  {
    if |ss| == 0 {
    } else {
      var rest, now := Renewals(After(r, ss[0]), ss[1..], token), Tick(ss[0], clock);
      RenewalsAscend(After(r, ss[0]), ss[1..], token, now);
      assert clock <= now && AscendsFrom(rest, clock);
      assert Starts(r, ss[0], token) ==> AscendsFrom([now] + rest, clock);
    }
  }

  /** The renewals up to half a lifetime after a use up the room there is. */
  lemma {:induction false} RoomIsEnough(
    r: Racing, ss: seq<Statement>, token: string, p: nat, a: int, clock: int, k: nat)
    requires a <= clock && ClockRuns(ss, clock) && NotInserted(ss, token) && AtMostAtOnce(r, ss, token, p)
    requires k < |Renewals(r, ss, token)| && Renewals(r, ss, token)[k] <= a + RENEW_THRESHOLD
    ensures k < Room(r, token, a, p)
    decreases |ss|
  {
    var s, r', clock' := ss[0], After(r, ss[0]), Tick(ss[0], clock);
    assert AtMostAtOnce(r', ss[1..], token, p);
    RoomIsBounded(r', token, a, p);
    if Starts(r, s, token) {
      RenewalsAscend(r, ss, token, clock);
      assert Renewals(r, ss, token)[0] == s.now;
      StartTakesRoom(r, s, token, a, p);
      if k > 0 {
        RoomIsEnough(r', ss[1..], token, p, a, clock', k - 1);
      }
    } else {
      if s.Refresh? && s.request in r.pending && r.pending[s.request].token == token {
        WriteMakesNoRoom(r, s, token, a, p);
      } else {
        OthersMakeNoRoom(r, s, token, a, p);
      }
      RoomIsEnough(r', ss[1..], token, p, a, clock', k);
    }
  }

  lemma {:induction false} OneMoreTakesLonger(
    r: Racing, ss: seq<Statement>, token: string, p: nat, clock: int, i: nat, n: nat)
    requires ClockRuns(ss, clock) && NotInserted(ss, token) && AtMostAtOnce(r, ss, token, p)
    requires n >= Triangle(p) && i + n < |Renewals(r, ss, token)|
    ensures Renewals(r, ss, token)[i + n] - Renewals(r, ss, token)[i] > RENEW_THRESHOLD
    decreases |ss|
  {
    var s, r' := ss[0], After(r, ss[0]);
    if Starts(r, s, token) && i == 0 {
      RoomIsBounded(r, token, s.now, p);
      if Renewals(r, ss, token)[n] <= s.now + RENEW_THRESHOLD {
        RoomIsEnough(r, ss, token, p, s.now, s.now, n);
      }
    } else {
      OneMoreTakesLonger(r', ss[1..], token, p, Tick(s, clock), if Starts(r, s, token) then i - 1 else i, n);
    }
  }

  // ---- No fewer ----

  function ClockAfter(ss: seq<Statement>, clock: int): int
    decreases |ss|
  {
    if |ss| == 0 then clock else ClockAfter(ss[1..], Tick(ss[0], clock))
  }

  lemma {:induction false} ClockRunsOn(a: seq<Statement>, b: seq<Statement>, clock: int)
    requires ClockRuns(a, clock) && ClockRuns(b, ClockAfter(a, clock))
    ensures ClockRuns(a + b, clock) && ClockAfter(a + b, clock) == ClockAfter(b, ClockAfter(a, clock))
    decreases |a|
  {
    if |a| == 0 {
      assert a + b == b;
    } else {
      ClockRunsOn(a[1..], b, Tick(a[0], clock));
      assert (a + b)[1..] == a[1..] + b;
    }
  }

  lemma {:induction false} AtMostConcat(r: Racing, a: seq<Statement>, b: seq<Statement>, token: string, p: nat)
    requires AtMostAtOnce(r, a, token, p) && AtMostAtOnce(Run(r, a), b, token, p)
    ensures AtMostAtOnce(r, a + b, token, p)
    decreases |a|
  {
    if |a| == 0 {
      assert a + b == b;
    } else {
      AtMostConcat(After(r, a[0]), a[1..], b, token, p);
      assert (a + b)[1..] == a[1..] + b;
    }
  }

  lemma {:induction false} RenewalsConcat(r: Racing, a: seq<Statement>, b: seq<Statement>, token: string)
    ensures Renewals(r, a + b, token) == Renewals(r, a, token) + Renewals(Run(r, a), b, token)
    decreases |a|
  {
    if |a| == 0 {
      assert a + b == b;
    } else {
      RenewalsConcat(After(r, a[0]), a[1..], b, token);
      assert (a + b)[1..] == a[1..] + b;
      assert Renewals(r, a + b, token)
          == (if Starts(r, a[0], token) then [a[0].now] else []) + Renewals(After(r, a[0]), a[1..] + b, token);
    }
  }

  /** A run of the session, with at most p at it at a time. */
  ghost predicate Fine(r: Racing, ss: seq<Statement>, p: nat, clock: int) {
    AtMostAtOnce(r, ss, "tok", p) && NotInserted(ss, "tok") && ClockRuns(ss, clock)
  }

  lemma OneAfterTheOther(r: Racing, a: seq<Statement>, b: seq<Statement>, p: nat, clock: int)
    requires Fine(r, a, p, clock) && Fine(Run(r, a), b, p, ClockAfter(a, clock))
    ensures Fine(r, a + b, p, clock) && ClockAfter(a + b, clock) == ClockAfter(b, ClockAfter(a, clock))
    ensures Run(r, a + b) == Run(Run(r, a), b)
    ensures Renewals(r, a + b, "tok") == Renewals(r, a, "tok") + Renewals(Run(r, a), b, "tok")
  {
    ClockRunsOn(a, b, clock);
    AtMostConcat(r, a, b, "tok", p);
    RunConcat(r, a, b);
    RenewalsConcat(r, a, b, "tok");
  }

  const FIRST: int := 98
  const LATER: int := FIRST + 1 + RENEW_THRESHOLD

  /** The stored expiry, and requests 0 to n - 1 about to renew it: held of them since FIRST, the rest since at. */
  ghost predicate Stage(r: Racing, expiry: int, n: int, held: int, at: int) {
    && r.table == map["tok" := Session(1, 0, expiry)]
    && (forall q :: q in r.pending <==> 0 <= q < n)
    && (forall q | q in r.pending ::
          r.pending[q].token == "tok" && r.pending[q].at == if q < held then FIRST else at)
  }

  lemma {:induction false} CountUpTo(n: nat, s: set<int>)
    requires forall q :: q in s <==> 0 <= q < n
    ensures |s| == n
  {
    if n == 0 {
      assert forall q :: q !in s;
    } else {
      CountUpTo(n - 1, s - {n - 1});
    }
  }

  lemma StageIsBusy(r: Racing, expiry: int, n: nat, held: int, at: int)
    requires Stage(r, expiry, n, held, at)
    ensures |Busy(r, "tok")| == n
  {
    CountUpTo(n, Busy(r, "tok"));
  }

  function Copies(n: nat, at: int): (w: seq<int>)
    ensures |w| == n && forall k :: 0 <= k < n ==> w[k] == at
  {
    seq(n, _ => at)
  }

  function UsesBy(n: int, p: int, at: int): seq<Statement>
    decreases p - n
  {
    if n >= p then [] else [UseAt(n, at)] + UsesBy(n + 1, p, at)
  }

  /** All who are not about to renew the session start to. */
  lemma {:induction false} AllStart(r: Racing, expiry: int, n: nat, held: nat, p: nat, at: int, clock: int)
    requires Stage(r, expiry, n, held, at) && held <= n <= p && clock <= at <= expiry && expiry - at < RENEW_THRESHOLD
    ensures var ss := UsesBy(n, p, at);
            && Stage(Run(r, ss), expiry, p, held, at) && Renewals(r, ss, "tok") == Copies(p - n, at)
            && Fine(r, ss, p, clock) && ClockAfter(ss, clock) <= at
    decreases p - n
  {
    StageIsBusy(r, expiry, n, held, at);
    if n < p {
      var rest := UsesBy(n + 1, p, at);
      assert ([UseAt(n, at)] + rest)[1..] == rest;
      AllStart(After(r, UseAt(n, at)), expiry, n + 1, held, p, at, at);
    }
  }

  function RefreshesBy(n: int, held: int): seq<Statement>
    decreases n - held
  {
    if n <= held then [] else [RefreshOf(n - 1)] + RefreshesBy(n - 1, held)
  }

  /** All who started last write their expiry. */
  lemma {:induction false} AllWrite(r: Racing, expiry: int, n: nat, held: nat, p: nat, at: int, clock: int)
    requires Stage(r, expiry, n, held, at) && held <= n <= p
    ensures var ss := RefreshesBy(n, held);
            && Stage(Run(r, ss), if n > held then at + SESSION_TTL else expiry, held, held, at)
            && Renewals(r, ss, "tok") == [] && Fine(r, ss, p, clock) && ClockAfter(ss, clock) == clock
    decreases n - held
  {
    StageIsBusy(r, expiry, n, held, at);
    if n > held {
      var rest := RefreshesBy(n - 1, held);
      assert ([RefreshOf(n - 1)] + rest)[1..] == rest;
      AllWrite(After(r, RefreshOf(n - 1)), at + SESSION_TTL, n - 1, held, p, at, clock);
    }
  }

  /** All free places start a renewal and write it; then one overtaken refresh undoes that; and so on. */
  function Rounds(held: nat, p: nat): seq<Statement> {
    var round := UsesBy(held, p, LATER) + RefreshesBy(p, held);
    if held == 0 then round else round + ([RefreshOf(held - 1)] + Rounds(held - 1, p))
  }

  lemma Round(r: Racing, held: nat, p: nat, clock: int)
    requires held < p && Stage(r, FIRST + SESSION_TTL, held, held, LATER) && clock <= LATER
    ensures var ss := UsesBy(held, p, LATER) + RefreshesBy(p, held);
            && Stage(Run(r, ss), LATER + SESSION_TTL, held, held, LATER)
            && Renewals(r, ss, "tok") == Copies(p - held, LATER)
            && Fine(r, ss, p, clock) && ClockAfter(ss, clock) <= LATER
  {
    var uses, refreshes := UsesBy(held, p, LATER), RefreshesBy(p, held);
    AllStart(r, FIRST + SESSION_TTL, held, held, p, LATER, clock);
    AllWrite(Run(r, uses), FIRST + SESSION_TTL, p, held, p, LATER, ClockAfter(uses, clock));
    OneAfterTheOther(r, uses, refreshes, p, clock);
    assert Renewals(r, uses, "tok") + [] == Renewals(r, uses, "tok");
  }

  lemma RefreshFirst(r: Racing, q: int, rest: seq<Statement>, p: nat, clock: int)
    requires |Busy(r, "tok")| <= p && Fine(After(r, RefreshOf(q)), rest, p, clock)
    ensures var ss := [RefreshOf(q)] + rest;
            Fine(r, ss, p, clock) && Renewals(r, ss, "tok") == Renewals(After(r, RefreshOf(q)), rest, "tok")
  {
    assert ([RefreshOf(q)] + rest)[1..] == rest;
  }

  lemma Overtaken(r: Racing, expiry: int, held: nat, p: nat, at: int)
    requires 0 < held <= p && Stage(r, expiry, held, held, at)
    ensures var r' := After(r, RefreshOf(held - 1));
            && Stage(r', FIRST + SESSION_TTL, held - 1, held - 1, LATER)
            && |Busy(r, "tok")| <= p && |Busy(r', "tok")| <= p
  {
    StageIsBusy(r, expiry, held, held, at);
    StageIsBusy(After(r, RefreshOf(held - 1)), FIRST + SESSION_TTL, held - 1, held - 1, LATER);
  }

  lemma RoundThen(r: Racing, held: nat, p: nat, clock: int, rest: seq<Statement>, n: nat)
    requires 0 < held < p && Stage(r, FIRST + SESSION_TTL, held, held, LATER) && clock <= LATER
    requires var round := UsesBy(held, p, LATER) + RefreshesBy(p, held);
             var r' := After(Run(r, round), RefreshOf(held - 1));
             Fine(r', rest, p, ClockAfter(round, clock)) && Renewals(r', rest, "tok") == Copies(n, LATER)
    ensures var ss := UsesBy(held, p, LATER) + RefreshesBy(p, held) + ([RefreshOf(held - 1)] + rest);
            Fine(r, ss, p, clock) && Renewals(r, ss, "tok") == Copies(p - held + n, LATER)
  {
    var round := UsesBy(held, p, LATER) + RefreshesBy(p, held);
    Round(r, held, p, clock);
    Overtaken(Run(r, round), LATER + SESSION_TTL, held, p, LATER);
    RefreshFirst(Run(r, round), held - 1, rest, p, ClockAfter(round, clock));
    OneAfterTheOther(r, round, [RefreshOf(held - 1)] + rest, p, clock);
  }

  lemma {:induction false} RoundsUseEveryPlace(r: Racing, held: nat, p: nat, clock: int)
    requires held < p && Stage(r, FIRST + SESSION_TTL, held, held, LATER) && clock <= LATER
    ensures FreePlaces(held + 1, p) >= 0 && Fine(r, Rounds(held, p), p, clock)
    ensures Renewals(r, Rounds(held, p), "tok") == Copies(FreePlaces(held + 1, p), LATER)
    decreases held
  {
    Round(r, held, p, clock);
    FreePlacesGrow(held, p, p);
    if held > 0 {
      var round := UsesBy(held, p, LATER) + RefreshesBy(p, held);
      var r', clock' := After(Run(r, round), RefreshOf(held - 1)), ClockAfter(round, clock);
      Overtaken(Run(r, round), LATER + SESSION_TTL, held, p, LATER);
      RoundsUseEveryPlace(r', held - 1, p, clock');
      RoundThen(r, held, p, clock, Rounds(held - 1, p), FreePlaces(held, p));
    }
  }

  /** p requests start from a session that is nearly over, and one of them writes. */
  lemma Opening(p: nat)
    requires p > 0
    ensures var ss := UsesBy(0, p, FIRST) + [RefreshOf(p - 1)];
            && Stage(Run(NEARLY_OVER, ss), FIRST + SESSION_TTL, p - 1, p - 1, LATER)
            && Renewals(NEARLY_OVER, ss, "tok") == Copies(p, FIRST)
            && Fine(NEARLY_OVER, ss, p, FIRST) && ClockAfter(ss, FIRST) <= FIRST
  {
    var uses := UsesBy(0, p, FIRST);
    var write := [RefreshOf(p - 1)];
    AllStart(NEARLY_OVER, 100, 0, 0, p, FIRST, FIRST);
    var r := Run(NEARLY_OVER, uses);
    Overtaken(r, 100, p, p, FIRST);
    assert write[1..] == [];
    OneAfterTheOther(NEARLY_OVER, uses, write, p, FIRST);
    assert Copies(p, FIRST) + [] == Copies(p, FIRST);
  }

  /** For every p a run in which p * (p + 1) / 2 renewals start at one moment. */
  lemma MostRenewals(p: nat) returns (ss: seq<Statement>)
    requires p > 0
    ensures Fine(NEARLY_OVER, ss, p, FIRST)
    ensures Renewals(NEARLY_OVER, ss, "tok") == Copies(p, FIRST) + Copies(Triangle(p), LATER)
  {
    var opening, rounds := UsesBy(0, p, FIRST) + [RefreshOf(p - 1)], Rounds(p - 1, p);
    Opening(p);
    RoundsUseEveryPlace(Run(NEARLY_OVER, opening), p - 1, p, ClockAfter(opening, FIRST));
    OneAfterTheOther(NEARLY_OVER, opening, rounds, p, FIRST);
    assert FreePlaces(p, p) == Triangle(p) by { FreePlacesAddUp(p, p); }
    ss := opening + rounds;
  }

  // ---- Exactly that ----

  /** However at most p requests at a time race, n + 1 renewals in a row span more than half a lifetime. */
  ghost predicate AlwaysSpacedBy(p: nat, n: nat) {
    forall r, ss, token, from ::
      ClockRuns(ss, from) && NotInserted(ss, token) && AtMostAtOnce(r, ss, token, p) ==>
        SpacedBy(Renewals(r, ss, token), n)
  }

  /** In whatever order the refreshes are written: exactly for n from p * (p + 1) / 2 on. */
  lemma RenewalsAreSpacedExactly(p: nat, n: nat)
    requires p > 0
    ensures AlwaysSpacedBy(p, n) <==> n >= Triangle(p)
  {
    if n >= Triangle(p) {
      forall r, ss, token, from | ClockRuns(ss, from) && NotInserted(ss, token) && AtMostAtOnce(r, ss, token, p)
        ensures SpacedBy(Renewals(r, ss, token), n)
      {
        forall i | 0 <= i < |Renewals(r, ss, token)| - n
          ensures Renewals(r, ss, token)[i + n] - Renewals(r, ss, token)[i] > RENEW_THRESHOLD
        {
          OneMoreTakesLonger(r, ss, token, p, from, i, n);
        }
      }
    } else {
      var ss := MostRenewals(p);
      var w := Renewals(NEARLY_OVER, ss, "tok");
      assert w[p + n] == LATER && w[p] == LATER;
      assert !SpacedBy(w, n);
    }
  }

  /** So p of them are enough without the read order for p = 1, and for no other p. */
  lemma ReadOrderIsNeededExactlyFromTwo(p: nat)
    requires p > 0
    ensures AlwaysSpacedBy(p, p) <==> p == 1
  {
    RenewalsAreSpacedExactly(p, p);
    if p >= 2 {
      assert p * (p + 1) > 2 * p;
    }
  }
}

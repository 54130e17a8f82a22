/** How long sessions last, and how often they are written, when the requests that use them race. */
module SessionRenewals {
  import opened Sessions
  import opened SessionRaces

  /** The statement is a request's use of the token. */
  predicate Uses(r: Racing, s: Statement, token: string) {
    s.Read? && s.token == token && s.request !in r.pending
  }

  predicate LeavesAlone(s: Statement, token: string, userId: int) {
    !(s.Delete? && s.token == token) && !(s.DeleteOfUser? && s.userId == userId)
  }

  // ---- Sessions in use ----

  /** No refresh of the token takes longer than delay. */
  predicate Prompt(r: Racing, token: string, delay: int, now: int) {
    forall q | q in r.pending :: r.pending[q].token == token ==> now <= r.pending[q].at + delay
  }

  /** Nothing removes the session on purpose; it is used at least every gap; its refreshes are prompt. */
  predicate KeptInUse(r: Racing, ss: seq<Statement>, token: string, userId: int, gap: int, delay: int, lastUse: int)
    decreases |ss|
  {
    |ss| > 0 ==>
      && LeavesAlone(ss[0], token, userId)
      && (Timed(ss[0]) ==> lastUse <= ss[0].now <= lastUse + gap && Prompt(r, token, delay, ss[0].now))
      && KeptInUse(After(r, ss[0]), ss[1..], token, userId, gap, delay,
                   if Uses(r, ss[0], token) then ss[0].now else lastUse)
  }

  /** Half a lifetime is left from the last use on, or a refresh on its way is sure to be in time. */
  predicate Lively(r: Racing, token: string, userId: int, delay: int, lastUse: int) {
    && token in r.table && r.table[token].userId == userId
    && (forall q | q in r.pending :: r.pending[q].token == token ==> lastUse <= r.pending[q].at + delay)
    && (r.table[token].expiresAt >= lastUse + RENEW_THRESHOLD
        || exists q | q in r.pending :: r.pending[q].token == token &&
            r.table[token].expiresAt >= r.pending[q].at + delay)
  }

  /** No use of the token is told that there is no such session. */
  predicate NeverRejected(r: Racing, ss: seq<Statement>, token: string)
    decreases |ss|
  {
    |ss| > 0 ==>
      && (Uses(r, ss[0], token) ==> Live(r.table, token, ss[0].now))
      && NeverRejected(After(r, ss[0]), ss[1..], token)
  }

  lemma LivelyIsLive(r: Racing, token: string, userId: int, gap: int, delay: int, lastUse: int, now: int)
    requires Lively(r, token, userId, delay, lastUse) && gap <= RENEW_THRESHOLD
    requires now <= lastUse + gap && Prompt(r, token, delay, now)
    ensures Live(r.table, token, now)
  {
  }

  lemma UseKeepsLively(r: Racing, s: Statement, token: string, userId: int, gap: int, delay: int, lastUse: int)
    requires Lively(r, token, userId, delay, lastUse) && 0 <= delay && gap + delay <= RENEW_THRESHOLD
    requires Uses(r, s, token) && lastUse <= s.now <= lastUse + gap && Prompt(r, token, delay, s.now)
    ensures Lively(After(r, s), token, userId, delay, s.now)
  {
    LivelyIsLive(r, token, userId, gap, delay, lastUse, s.now);
    var r' := After(r, s);
    if Renews(r, s) {
      assert r'.pending[s.request] == Reading(token, r.table[token], s.now);
      if r.table[token].expiresAt < lastUse + RENEW_THRESHOLD {
        var q :| q in r.pending && r.pending[q].token == token && r.table[token].expiresAt >= r.pending[q].at + delay;
        assert r'.pending[q] == r.pending[q];
      }
    }
  }

  lemma OthersKeepLively(r: Racing, s: Statement, token: string, userId: int, gap: int, delay: int, lastUse: int)
    requires Lively(r, token, userId, delay, lastUse) && 0 <= delay <= RENEW_THRESHOLD && gap <= RENEW_THRESHOLD
    requires !Uses(r, s, token) && LeavesAlone(s, token, userId)
    requires Timed(s) ==> lastUse <= s.now <= lastUse + gap && Prompt(r, token, delay, s.now)
    ensures Lively(After(r, s), token, userId, delay, lastUse)
  {
    var r' := After(r, s);
    if s.DeleteExpired? {
      LivelyIsLive(r, token, userId, gap, delay, lastUse, s.now);
    }
    if r'.table[token] == r.table[token] && r.table[token].expiresAt < lastUse + RENEW_THRESHOLD {
      var q :| q in r.pending && r.pending[q].token == token && r.table[token].expiresAt >= r.pending[q].at + delay;
      assert q in r'.pending ==> r'.pending[q] == r.pending[q];
    }
  }

  /**
   Used at least every gap, with refreshes that take at most delay, a session outlives any
   interleaving as long as gap and delay together are no more than half its lifetime.
   */
  lemma {:induction false} UsedSessionOutlivesRaces(
    r: Racing, ss: seq<Statement>, token: string, userId: int, gap: int, delay: int, lastUse: int)
    requires 0 <= gap && 0 <= delay && gap + delay <= RENEW_THRESHOLD
    requires Lively(r, token, userId, delay, lastUse)
    requires KeptInUse(r, ss, token, userId, gap, delay, lastUse)
    ensures NeverRejected(r, ss, token)
    decreases |ss|
  {
    if |ss| == 0 {
    } else if Uses(r, ss[0], token) {
      LivelyIsLive(r, token, userId, gap, delay, lastUse, ss[0].now);
      UseKeepsLively(r, ss[0], token, userId, gap, delay, lastUse);
      UsedSessionOutlivesRaces(After(r, ss[0]), ss[1..], token, userId, gap, delay, ss[0].now);
    } else {
      OthersKeepLively(r, ss[0], token, userId, gap, delay, lastUse);
      UsedSessionOutlivesRaces(After(r, ss[0]), ss[1..], token, userId, gap, delay, lastUse);
    }
  }

  /** So from its login on. */
  lemma LoggedInSessionOutlivesRaces(
    r: Racing, ss: seq<Statement>, token: string, userId: int, gap: int, delay: int, start: int)
    requires 0 <= gap && 0 <= delay && gap + delay <= RENEW_THRESHOLD
    requires token !in r.table && NonePending(r, token)
    requires KeptInUse(After(r, Insert(token, userId, start)), ss, token, userId, gap, delay, start)
    ensures NeverRejected(After(r, Insert(token, userId, start)), ss, token)
  {
    UsedSessionOutlivesRaces(After(r, Insert(token, userId, start)), ss, token, userId, gap, delay, start);
  }

  /** The sessions in use survive whatever else happens. */
  ghost predicate Survives(
    r: Racing, ss: seq<Statement>, token: string, userId: int, gap: int, delay: int, lastUse: int)
  {
    Lively(r, token, userId, delay, lastUse) && KeptInUse(r, ss, token, userId, gap, delay, lastUse) ==>
      NeverRejected(r, ss, token)
  }

  ghost predicate LoginSurvives(
    r: Racing, ss: seq<Statement>, token: string, userId: int, gap: int, delay: int, start: int)
  {
    token !in r.table && NonePending(r, token) ==>
      Survives(After(r, Insert(token, userId, start)), ss, token, userId, gap, delay, start)
  }

  /** A use every gap, one of them just when half the lifetime is left, until the expiry is over. */
  function NextUse(gap: int, at: int, expiry: int): int {
    var latest := if at < expiry - RENEW_THRESHOLD then expiry - RENEW_THRESHOLD else expiry + 1;
    if at + gap < latest then at + gap else latest
  }

  /** Each use is a request of its own, whose refresh has still to come. */
  function UsesUntilOver(token: string, gap: int, at: int, expiry: int): seq<Statement>
    requires gap >= 1
    decreases expiry + 1 - at
  {
    if at > expiry then []
    else
      var now := NextUse(gap, at, expiry);
      [Read(now, token, map[], now)] + UsesUntilOver(token, gap, now, expiry)
  }

  /** The refreshes on their way belong to uses a whole gap into the second half of the lifetime. */
  predicate AllLate(r: Racing, gap: int, at: int, expiry: int) {
    forall q | q in r.pending :: q <= at && r.pending[q].at >= expiry - RENEW_THRESHOLD + gap
  }

  lemma NextUseIsLate(r: Racing, token: string, gap: int, at: int, expiry: int)
    requires gap >= 1 && at <= expiry && token in r.table && r.table[token].expiresAt == expiry
    requires AllLate(r, gap, at, expiry) && (at < expiry - RENEW_THRESHOLD ==> r.pending == map[])
    ensures var now := NextUse(gap, at, expiry);
            var r' := After(r, Read(now, token, map[], now));
            && at < now <= at + gap && now !in r.pending
            && r'.table == r.table && (now <= expiry ==> AllLate(r', gap, now, expiry))
            && (now < expiry - RENEW_THRESHOLD ==> r'.pending == map[])
  {
  }

  /** When no refresh has to come sooner, the last of these uses finds the session expired. */
  lemma {:induction false} UsesUntilOverAreRejected(
    r: Racing, token: string, userId: int, gap: int, delay: int, at: int, expiry: int)
    requires gap >= 1 && delay >= 0 && gap + delay > RENEW_THRESHOLD
    requires token in r.table && r.table[token].expiresAt == expiry && at <= expiry
    requires AllLate(r, gap, at, expiry) && (at < expiry - RENEW_THRESHOLD ==> r.pending == map[])
    ensures KeptInUse(r, UsesUntilOver(token, gap, at, expiry), token, userId, gap, delay, at)
    ensures !NeverRejected(r, UsesUntilOver(token, gap, at, expiry), token)
    decreases expiry + 1 - at
  {
    var now := NextUse(gap, at, expiry);
    var s, rest := Read(now, token, map[], now), UsesUntilOver(token, gap, now, expiry);
    NextUseIsLate(r, token, gap, at, expiry);
    assert UsesUntilOver(token, gap, at, expiry)[1..] == rest;
    if now <= expiry {
      UsesUntilOverAreRejected(After(r, s), token, userId, gap, delay, now, expiry);
    }
  }

  /**
   Half a lifetime is exact, for every gap and delay: exactly when they stay within it does
   every interleaving leave alone the sessions in use, or only those used ever since a login.
   */
  lemma SessionsInUseSurviveExactlyWithinHalfALifetime(gap: int, delay: int)
    requires gap >= 1 && delay >= 0
    ensures (forall r, ss, token, userId, lastUse :: Survives(r, ss, token, userId, gap, delay, lastUse)) <==>
            gap + delay <= RENEW_THRESHOLD
    ensures (forall r, ss, token, userId, start :: LoginSurvives(r, ss, token, userId, gap, delay, start)) <==>
            gap + delay <= RENEW_THRESHOLD
  {
    if gap + delay <= RENEW_THRESHOLD {
      forall r, ss, token, userId, lastUse
        ensures Survives(r, ss, token, userId, gap, delay, lastUse)
      {
        if Lively(r, token, userId, delay, lastUse) && KeptInUse(r, ss, token, userId, gap, delay, lastUse) {
          UsedSessionOutlivesRaces(r, ss, token, userId, gap, delay, lastUse);
        }
      }
    } else {
      var before := Racing(map[], map[]);
      var r := After(before, Insert("tok", 1, 0));
      var ss := UsesUntilOver("tok", gap, 0, SESSION_TTL);
      UsesUntilOverAreRejected(r, "tok", 1, gap, delay, 0, SESSION_TTL);
      assert Lively(r, "tok", 1, delay, 0);
      assert !Survives(r, ss, "tok", 1, gap, delay, 0);
      assert !LoginSurvives(before, ss, "tok", 1, gap, delay, 0);
    }
  }

  // ---- The stored expiry ----

  /** The statement is a refresh that reaches the stored session. */
  predicate Writes(r: Racing, s: Statement, token: string) {
    s.Refresh? && s.request in r.pending && r.pending[s.request].token == token && token in r.table
  }

  /** When the refreshes that were written had read the session, in the order they were written. */
  function Written(r: Racing, ss: seq<Statement>, token: string): seq<int>
    decreases |ss|
  {
    if |ss| == 0 then []
    else
      (if Writes(r, ss[0], token) then [r.pending[ss[0].request].at] else []) + Written(After(r, ss[0]), ss[1..], token)
  }

  predicate NeverLowered(r: Racing, ss: seq<Statement>, token: string)
    decreases |ss|
  {
    |ss| > 0 ==>
      && (token in r.table && token in After(r, ss[0]).table ==>
           r.table[token].expiresAt <= After(r, ss[0]).table[token].expiresAt)
      && NeverLowered(After(r, ss[0]), ss[1..], token)
  }

  ghost predicate Ascends(w: seq<int>) {
    forall j, k :: 0 <= j < k < |w| ==> w[j] <= w[k]
  }

  /** The last refresh decides the expiry; before any, nothing on its way is behind it. */
  predicate ExpiryFrom(r: Racing, token: string, written: seq<int>) {
    token in r.table ==>
      if |written| > 0 then r.table[token].expiresAt == written[|written| - 1] + SESSION_TTL
      else forall q | q in r.pending :: r.pending[q].token == token ==>
          r.table[token].expiresAt <= Expiry(r.pending[q])
  }

  lemma StepExpiry(r: Racing, s: Statement, token: string, written: seq<int>)
    requires ExpiryFrom(r, token, written) && !(s.Insert? && s.token == token)
    ensures var r' := After(r, s);
            && ExpiryFrom(r', token, written + if Writes(r, s, token) then [r.pending[s.request].at] else [])
            && (token in r'.table ==> token in r.table)
            && (token in r'.table ==>
                 if Writes(r, s, token) then r'.table[token].expiresAt == Expiry(r.pending[s.request])
                 else r'.table[token] == r.table[token])
  {
    assert written + [] == written;
  }

  lemma AscendsOneMore(w: seq<int>, x: int)
    ensures Ascends(w + [x]) <==> Ascends(w) && (|w| > 0 ==> w[|w| - 1] <= x)
  {
    var all := w + [x];
    if Ascends(all) {
      assert forall j, k :: 0 <= j < k < |w| ==> all[j] == w[j] && all[k] == w[k];
      assert |w| > 0 ==> all[|w| - 1] <= all[|w|];
    }
  }

  lemma {:induction false} LoweredExactlyOutOfOrder(r: Racing, ss: seq<Statement>, token: string, written: seq<int>)
    requires ExpiryFrom(r, token, written) && NotInserted(ss, token) && Ascends(written)
    ensures NeverLowered(r, ss, token) <==> Ascends(written + Written(r, ss, token))
    decreases |ss|
  {
    if |ss| == 0 {
      assert written + [] == written;
    } else {
      var r' := After(r, ss[0]);
      var rest := Written(r', ss[1..], token);
      StepExpiry(r, ss[0], token, written);
      if Writes(r, ss[0], token) {
        var at := r.pending[ss[0].request].at;
        AscendsOneMore(written, at);
        assert written + Written(r, ss, token) == (written + [at]) + rest;
        if Ascends(written + [at]) {
          LoweredExactlyOutOfOrder(r', ss[1..], token, written + [at]);
        } else {
          assert (written + [at] + rest)[..|written| + 1] == written + [at];
        }
      } else {
        assert written + Written(r, ss, token) == written + rest;
        assert written + [] == written;
        LoweredExactlyOutOfOrder(r', ss[1..], token, written);
      }
    }
  }

  /**
   In any interleaving the stored expiry of a session never goes down if and only if its
   refreshes are written in the order of their reads.
   */
  lemma ExpiryNeverLoweredExactlyInReadOrder(r: Racing, ss: seq<Statement>, token: string)
    requires ExpiryFrom(r, token, []) && NotInserted(ss, token)
    ensures NeverLowered(r, ss, token) <==> Ascends(Written(r, ss, token))
  {
    LoweredExactlyOutOfOrder(r, ss, token, []);
    assert [] + Written(r, ss, token) == Written(r, ss, token);
  }

  // ---- How often a session is renewed ----

  /** The times of the reads that led to a renewal. */
  function Renewals(r: Racing, ss: seq<Statement>, token: string): seq<int>
    decreases |ss|
  {
    if |ss| == 0 then []
    else
      (if Renews(r, ss[0]) && ss[0].token == token then [ss[0].now] else []) + Renewals(After(r, ss[0]), ss[1..], token)
  }

  predicate NonePending(r: Racing, token: string) {
    forall q | q in r.pending :: r.pending[q].token != token
  }

  /** No request starts to renew the session while another is at it. */
  predicate OneAtATime(r: Racing, ss: seq<Statement>, token: string)
    decreases |ss|
  {
    |ss| > 0 ==>
      && (Renews(r, ss[0]) && ss[0].token == token ==> NonePending(r, token))
      && OneAtATime(After(r, ss[0]), ss[1..], token)
  }

  ghost predicate Spaced(w: seq<int>) {
    forall j, k :: 0 <= j < k < |w| ==> w[k] - w[j] > RENEW_THRESHOLD
  }

  lemma SpacedOneMore(w: seq<int>, x: int)
    ensures Spaced(w + [x]) ==> Spaced(w) && (|w| > 0 ==> x - w[|w| - 1] > RENEW_THRESHOLD)
    ensures Spaced(w) && (|w| > 0 ==> x - w[|w| - 1] > RENEW_THRESHOLD) ==> Spaced(w + [x])
  {
    var all := w + [x];
    assert RENEW_THRESHOLD > 0;
    assert forall k :: 0 <= k < |w| ==> all[k] == w[k];
    if Spaced(all) {
      assert |w| > 0 ==> all[|w|] - all[|w| - 1] > RENEW_THRESHOLD;
    }
  }

  /**
   With last the latest renewal read: either it has been written, and its expiry is stored; or
   it alone is on its way, and what is stored is less than half a lifetime ahead of it.
   */
  predicate OneRenewal(r: Racing, token: string, renewed: seq<int>) {
    if NonePending(r, token) then
      token in r.table && |renewed| > 0 ==> r.table[token].expiresAt == renewed[|renewed| - 1] + SESSION_TTL
    else
      && |renewed| > 0
      && (token in r.table ==> r.table[token].expiresAt < renewed[|renewed| - 1] + RENEW_THRESHOLD)
      && (forall q | q in r.pending :: r.pending[q].token == token ==> r.pending[q].at == renewed[|renewed| - 1])
      && (forall p, q | p in r.pending && q in r.pending ::
            r.pending[p].token == token && r.pending[q].token == token ==> p == q)
  }

  lemma RenewalStep(r: Racing, s: Statement, token: string, renewed: seq<int>)
    requires OneRenewal(r, token, renewed) && Renews(r, s) && s.token == token
    ensures |renewed| > 0 ==> (NonePending(r, token) <==> s.now - renewed[|renewed| - 1] > RENEW_THRESHOLD)
    ensures |renewed| == 0 ==> NonePending(r, token)
    ensures NonePending(r, token) ==> OneRenewal(After(r, s), token, renewed + [s.now])
  {
    if NonePending(r, token) {
      assert After(r, s).pending[s.request].token == token;
    }
  }

  lemma OtherStep(r: Racing, s: Statement, token: string, renewed: seq<int>)
    requires OneRenewal(r, token, renewed) && !(Renews(r, s) && s.token == token)
    requires !(s.Insert? && s.token == token)
    ensures OneRenewal(After(r, s), token, renewed)
  {
    var r' := After(r, s);
    if NonePending(r, token) {
      assert NonePending(r', token);
    } else if s.Refresh? && s.request in r.pending && r.pending[s.request].token == token {
      assert NonePending(r', token);
    } else {
      var q :| q in r.pending && r.pending[q].token == token;
      assert q in r'.pending && r'.pending[q] == r.pending[q];
    }
  }

  lemma {:induction false} SpacedExactlyWhenOneAfter(r: Racing, ss: seq<Statement>, token: string, renewed: seq<int>)
    requires OneRenewal(r, token, renewed) && NotInserted(ss, token) && Spaced(renewed)
    ensures Spaced(renewed + Renewals(r, ss, token)) <==> OneAtATime(r, ss, token)
    decreases |ss|
  {
    if |ss| == 0 {
      assert renewed + [] == renewed;
    } else {
      var r' := After(r, ss[0]);
      var rest := Renewals(r', ss[1..], token);
      if Renews(r, ss[0]) && ss[0].token == token {
        var now := ss[0].now;
        RenewalStep(r, ss[0], token, renewed);
        SpacedOneMore(renewed, now);
        assert renewed + Renewals(r, ss, token) == (renewed + [now]) + rest;
        if NonePending(r, token) {
          SpacedExactlyWhenOneAfter(r', ss[1..], token, renewed + [now]);
        } else {
          assert (renewed + [now] + rest)[..|renewed| + 1] == renewed + [now];
        }
      } else {
        OtherStep(r, ss[0], token, renewed);
        assert renewed + Renewals(r, ss, token) == renewed + rest;
        SpacedExactlyWhenOneAfter(r', ss[1..], token, renewed);
      }
    }
  }

  /** The renewals of a session are more than half a lifetime apart if and only if no two overlap. */
  lemma RenewalsApartExactlyWhenOneAtATime(r: Racing, ss: seq<Statement>, token: string)
    requires NonePending(r, token) && NotInserted(ss, token)
    ensures Spaced(Renewals(r, ss, token)) <==> OneAtATime(r, ss, token)
  {
    SpacedExactlyWhenOneAfter(r, ss, token, []);
    assert [] + Renewals(r, ss, token) == Renewals(r, ss, token);
  }

  lemma {:induction false} SpacedIsLong(w: seq<int>)
    requires Spaced(w) && |w| > 0
    ensures (|w| - 1) * RENEW_THRESHOLD <= w[|w| - 1] - w[0]
  {
    if |w| == 1 {
    } else {
      SpacedIsLong(w[..|w| - 1]);
    }
  }

  lemma SpacedWithin(w: seq<int>, from: int, to: int)
    requires Spaced(w) && from <= to && forall k :: 0 <= k < |w| ==> from <= w[k] <= to
    ensures (|w| - 1) * RENEW_THRESHOLD <= to - from
  {
    if |w| > 0 {
      SpacedIsLong(w);
    }
  }

  // ---- Three races that one-statement requests do not have ----

  const NEARLY_OVER: Racing := Racing(map["tok" := Session(1, 0, 100)], map[])

  function UseAt(request: int, now: int): Statement {
    Read(request, "tok", map[1 := true], now)
  }

  function RefreshOf(request: int): Statement {
    Refresh(request, map[1 := true])
  }

  /** A sweep between a request's read and its refresh takes the session away from it. */
  lemma SweepInBetween()
    ensures Reply(Run(NEARLY_OVER, [UseAt(0, 99), RefreshOf(0)]), UseAt(1, 102)) ==
            [Accepted(1, 99 + SESSION_TTL, false)]
    ensures Reply(Run(NEARLY_OVER, [UseAt(0, 99), DeleteExpired(101), RefreshOf(0)]), UseAt(1, 102)) == [NotFound]
  {
    var kept, lost := [UseAt(0, 99), RefreshOf(0)], [UseAt(0, 99), DeleteExpired(101), RefreshOf(0)];
    var r := After(NEARLY_OVER, UseAt(0, 99));
    assert r == Racing(NEARLY_OVER.table, map[0 := Reading("tok", Session(1, 0, 100), 99)]);
    assert kept[1..] == [RefreshOf(0)] && kept[1..][1..] == [];
    assert Run(NEARLY_OVER, kept) == Run(r, [RefreshOf(0)]) == After(r, RefreshOf(0));
    var s := After(r, DeleteExpired(101));
    assert lost[1..] == [DeleteExpired(101), RefreshOf(0)] && lost[1..][1..] == [RefreshOf(0)] &&
        [RefreshOf(0)][1..] == [];
    assert Run(NEARLY_OVER, lost) == Run(r, lost[1..]) == Run(s, [RefreshOf(0)]) == After(s, RefreshOf(0));
  }

  /** A session is rejected as expired, and accepted again after a refresh that was on its way. */
  lemma AcceptedAgain()
    ensures var r := Run(NEARLY_OVER, [UseAt(0, 99)]);
            && Reply(r, UseAt(1, 101)) == [NotFound]
            && Reply(After(r, RefreshOf(0)), UseAt(1, 102)) == [Accepted(1, 99 + SESSION_TTL, false)]
  {
    assert [UseAt(0, 99)][1..] == [];
  }

  /** Two refreshes, written in the other order, lower the expiry; their reads are one unit apart. */
  lemma OvertakenRefresh()
    ensures var ss := [UseAt(0, 98), UseAt(1, 99), RefreshOf(1), RefreshOf(0)];
            && Renewals(NEARLY_OVER, ss, "tok") == [98, 99]
            && !NeverLowered(NEARLY_OVER, ss, "tok")
  {
    var ss := [UseAt(0, 98), UseAt(1, 99), RefreshOf(1), RefreshOf(0)];
    assert ss[1..] == [ss[1], ss[2], ss[3]] && ss[1..][1..] == [ss[2], ss[3]];
    assert [ss[2], ss[3]][1..] == [ss[3]] && [ss[3]][1..] == [];
    var r1 := After(NEARLY_OVER, ss[0]);
    var r2 := After(r1, ss[1]);
    var r3 := After(r2, ss[2]);
    assert Renewals(r2, [ss[2], ss[3]], "tok") == [] by {
      assert Renewals(r3, [ss[3]], "tok") == [];
    }
    assert Renewals(r1, ss[1..], "tok") == [99];
    ExpiryNeverLoweredExactlyInReadOrder(NEARLY_OVER, ss, "tok");
    assert Written(r3, [ss[3]], "tok") == [98] + Written(After(r3, ss[3]), [], "tok");
    assert Written(r2, [ss[2], ss[3]], "tok") == [99] + Written(r3, [ss[3]], "tok");
    assert Written(r1, ss[1..], "tok") == [99, 98];
    assert Written(NEARLY_OVER, ss, "tok") == [99, 98];
  }
}

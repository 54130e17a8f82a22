/** How many renewals of one session racing requests can start, when at most p of them are at it at a time. */
module RenewalCounts {
  import opened Domain
  import opened Finite
  import opened Sessions
  import opened SessionRaces
  import opened SessionRenewals

  /** The requests that are about to write a new expiry for the token. */
  function Busy(r: Racing, token: string): set<int> {
    set q | q in r.pending && r.pending[q].token == token
  }

  predicate AtMostAtOnce(r: Racing, ss: seq<Statement>, token: string, p: nat)
    decreases |ss|
  {
    |Busy(r, token)| <= p && (|ss| > 0 ==> AtMostAtOnce(After(r, ss[0]), ss[1..], token, p))
  }

  /** A renewal: when it was read, and by which request. */
  datatype Renewing = Renewing(at: int, request: int)

  /** The renewal is still on its way. */
  predicate OnItsWay(r: Racing, token: string, n: Renewing) {
    n.request in r.pending && r.pending[n.request].token == token && r.pending[n.request].at == n.at
  }

  /** Each renewal is written, the stored expiry not behind it; or it is under way, and its request has no later one. */
  ghost predicate Accounted(r: Racing, token: string, done: seq<Renewing>) {
    && (forall k :: 0 <= k < |done| ==>
         || (token in r.table ==> r.table[token].expiresAt >= done[k].at + SESSION_TTL)
         || (OnItsWay(r, token, done[k]) && forall j :: k < j < |done| ==> done[j].request != done[k].request))
  }

  ghost predicate InTime(done: seq<Renewing>, clock: int) {
    && (forall j, k :: 0 <= j < k < |done| ==> done[j].at <= done[k].at)
    && (forall k :: 0 <= k < |done| ==> done[k].at <= clock)
  }

  predicate Starts(r: Racing, s: Statement, token: string) {
    Renews(r, s) && s.token == token
  }

  lemma StartIsAccounted(r: Racing, s: Statement, token: string, done: seq<Renewing>)
    requires Accounted(r, token, done) && Starts(r, s, token)
    ensures Accounted(After(r, s), token, done + [Renewing(s.now, s.request)])
  {
    var r', all := After(r, s), done + [Renewing(s.now, s.request)];
    forall k | 0 <= k < |all|
      ensures || (token in r'.table ==> r'.table[token].expiresAt >= all[k].at + SESSION_TTL)
              || (OnItsWay(r', token, all[k]) && forall j :: k < j < |all| ==> all[j].request != all[k].request)
    {
      if k < |done| {
        assert all[k] == done[k];
      }
    }
  }

  lemma OtherIsAccounted(r: Racing, s: Statement, token: string, done: seq<Renewing>)
    requires Accounted(r, token, done) && !Starts(r, s, token) && !(s.Insert? && s.token == token)
    requires token in r.table && token in After(r, s).table ==>
               r.table[token].expiresAt <= After(r, s).table[token].expiresAt
    ensures Accounted(After(r, s), token, done)
  {
    var r' := After(r, s);
    forall k | 0 <= k < |done|
      ensures || (token in r'.table ==> r'.table[token].expiresAt >= done[k].at + SESSION_TTL)
              || (OnItsWay(r', token, done[k]) && forall j :: k < j < |done| ==> done[j].request != done[k].request)
    {
      if token in r'.table {
        assert token in r.table;
        if r.table[token].expiresAt < done[k].at + SESSION_TTL {
          assert OnItsWay(r, token, done[k]);
          assert (s.Refresh? && s.request == done[k].request) || OnItsWay(r', token, done[k]);
        }
      }
    }
  }

  /** Of the last p renewals one has been written, or the request that starts one more would be one too many. */
  lemma OneIsWritten(r: Racing, s: Statement, token: string, done: seq<Renewing>, p: nat, clock: int)
    requires Accounted(r, token, done) && InTime(done, clock) && Starts(r, s, token)
    requires |Busy(After(r, s), token)| <= p && 0 < p <= |done|
    ensures s.now - done[|done| - p].at > RENEW_THRESHOLD
  {
    var i := |done| - p;
    if forall k :: i <= k < |done| ==> r.table[token].expiresAt < done[k].at + SESSION_TTL {
      TooMany(r, s, token, done, p);
    } else {
      var k :| i <= k < |done| && r.table[token].expiresAt >= done[k].at + SESSION_TTL;
      assert done[i].at <= done[k].at;
    }
  }

  lemma TooMany(r: Racing, s: Statement, token: string, done: seq<Renewing>, p: nat)
    requires Accounted(r, token, done) && Starts(r, s, token) && p <= |done|
    requires forall k :: |done| - p <= k < |done| ==> r.table[token].expiresAt < done[k].at + SESSION_TTL
    ensures |Busy(After(r, s), token)| > p
  {
    var i := |done| - p;
    var last := seq(p, k requires 0 <= k < p => done[i + k].request);
    assert NoDuplicates(last) && Elements(last) <= Busy(r, token) by {
      forall k | 0 <= k < p
        ensures last[k] in Busy(r, token) && forall j :: k < j < p ==> last[j] != last[k]
      {
        assert OnItsWay(r, token, done[i + k]);
        assert forall j :: k < j < p ==> last[j] == done[i + j].request;
      }
    }
    DuplicateFreeByCount(last);
    SubsetSize(Elements(last), Busy(r, token));
    assert Busy(After(r, s), token) == Busy(r, token) + {s.request};
  }

  /** Every p + 1 renewals in a row span more than half a lifetime. */
  ghost predicate SpacedBy(w: seq<int>, p: nat) {
    forall i :: 0 <= i < |w| - p ==> w[i + p] - w[i] > RENEW_THRESHOLD
  }

  function Ats(done: seq<Renewing>): (w: seq<int>)
    ensures |w| == |done|
  {
    seq(|done|, k requires 0 <= k < |done| => done[k].at)
  }

  lemma SpacedOneMoreBy(done: seq<Renewing>, n: Renewing, p: nat)
    requires SpacedBy(Ats(done), p) && p > 0
    requires p <= |done| ==> n.at - done[|done| - p].at > RENEW_THRESHOLD
    ensures SpacedBy(Ats(done + [n]), p) && Ats(done + [n]) == Ats(done) + [n.at]
  {
    var all := Ats(done + [n]);
    assert all == Ats(done) + [n.at];
    forall i | 0 <= i < |all| - p
      ensures all[i + p] - all[i] > RENEW_THRESHOLD
    {
      if i + p < |done| {
        assert all[i + p] == Ats(done)[i + p] && all[i] == Ats(done)[i];
      }
    }
  }

  lemma {:induction false} SpacedFrom(
    r: Racing, ss: seq<Statement>, token: string, p: nat, done: seq<Renewing>, clock: int)
    requires p > 0 && Accounted(r, token, done) && InTime(done, clock) && SpacedBy(Ats(done), p)
    requires ClockRuns(ss, clock) && NotInserted(ss, token)
    requires NeverLowered(r, ss, token) && AtMostAtOnce(r, ss, token, p)
    ensures SpacedBy(Ats(done) + Renewals(r, ss, token), p)
    decreases |ss|
  {
    if |ss| == 0 {
      assert Ats(done) + [] == Ats(done);
    } else {
      var s, r' := ss[0], After(r, ss[0]);
      if Starts(r, s, token) {
        var n := Renewing(s.now, s.request);
        StartIsAccounted(r, s, token, done);
        if p <= |done| { OneIsWritten(r, s, token, done, p, clock); }
        SpacedOneMoreBy(done, n, p);
        SpacedFrom(r', ss[1..], token, p, done + [n], s.now);
        assert Ats(done) + Renewals(r, ss, token) == Ats(done + [n]) + Renewals(r', ss[1..], token);
      } else {
        OtherIsAccounted(r, s, token, done);
        SpacedFrom(r', ss[1..], token, p, done, Tick(s, clock));
        assert Renewals(r, ss, token) == Renewals(r', ss[1..], token);
      }
    }
  }

  lemma {:induction false} SpacedByIsLong(w: seq<int>, p: nat, n: nat)
    requires p > 0 && SpacedBy(w, p) && n * p < |w|
    ensures n * RENEW_THRESHOLD <= w[n * p] - w[0]
  {
    if n == 0 {
    } else {
      assert (n - 1) * p + p == n * p;
      SpacedByIsLong(w, p, n - 1);
      assert w[(n - 1) * p + p] - w[(n - 1) * p] > RENEW_THRESHOLD;
    }
  }

  /**
   With at most p requests renewing a session at a time, and refreshes written in the order
   of their reads, every p + 1 renewals in a row span more than half a lifetime: a run in
   which n * p + 1 of them start lasts at least n half lifetimes.
   */
  lemma OverlappingRenewalsAreBounded(r: Racing, ss: seq<Statement>, token: string, p: nat, from: int, n: nat)
    requires p > 0 && ClockRuns(ss, from) && NotInserted(ss, token)
    requires ExpiryFrom(r, token, []) && Ascends(Written(r, ss, token)) && AtMostAtOnce(r, ss, token, p)
    requires n * p < |Renewals(r, ss, token)|
    ensures SpacedBy(Renewals(r, ss, token), p)
    ensures var w := Renewals(r, ss, token); n * RENEW_THRESHOLD <= w[n * p] - w[0]
  {
    ExpiryNeverLoweredExactlyInReadOrder(r, ss, token);
    SpacedFrom(r, ss, token, p, [], from);
    assert Ats([]) + Renewals(r, ss, token) == Renewals(r, ss, token);
    SpacedByIsLong(Renewals(r, ss, token), p, n);
  }
}

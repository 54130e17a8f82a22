/** No notification waits for ever behind failing ones: a bound in worker ticks, and what it rests on. */
module OutboxFairness {
  import opened Domain
  import opened Outbox

  /** Notifications created since the last tick, then one tick. */
  datatype Round = Round(arrivals: seq<Mail>, out: Outside)

  function AfterRound(mails: seq<Mail>, r: Round): (mails': seq<Mail>)
    ensures |mails'| == |mails| + |r.arrivals|
  {
    Tick(mails + r.arrivals, r.out)
  }

  function AfterRounds(mails: seq<Mail>, rounds: seq<Round>): (mails': seq<Mail>)
    ensures |mails'| >= |mails|
    decreases |rounds|
  {
    if |rounds| == 0 then mails else AfterRounds(AfterRound(mails, rounds[0]), rounds[1..])
  }

  /** A pending notification has attempts left; new ones have used none. */
  ghost predicate AttemptsLeft(mails: seq<Mail>) {
    forall i :: 0 <= i < |mails| && mails[i].status == Pending ==> mails[i].attempts < MAX_ATTEMPTS
  }

  ghost predicate FreshArrivals(rounds: seq<Round>) {
    forall k :: 0 <= k < |rounds| ==> forall i :: 0 <= i < |rounds[k].arrivals| ==>
      rounds[k].arrivals[i].status == Pending && rounds[k].arrivals[i].attempts == 0
  }

  /** The turn gets nowhere: a lookup fails, or the outcome cannot be marked. */
  predicate Stuck(m: Mail, i: int, out: Outside) {
    i in out.markFails || Decide(m, i, out) == LookupFails
  }

  /** The batch is listed, its lookups succeed, and its outcomes are marked. */
  ghost predicate Works(mails: seq<Mail>, r: Round) {
    var all := mails + r.arrivals;
    !r.out.listFails && forall i: nat :: i < |all| && InBatch(all, i) ==> !Stuck(all[i], i, r.out)
  }

  /** How many of the ticks work; whatever may go wrong in the others. */
  ghost function Working(mails: seq<Mail>, rounds: seq<Round>): (n: nat)
    ensures n <= |rounds|
    decreases |rounds|
  {
    if |rounds| == 0 then 0
    else Working(AfterRound(mails, rounds[0]), rounds[1..]) + if Works(mails, rounds[0]) then 1 else 0
  }

  lemma {:induction false} OlderPendingSame(a: seq<Mail>, b: seq<Mail>, i: nat)
    requires i <= |a| && a <= b
    ensures OlderPending(a, i) == OlderPending(b, i)
  {
    if i > 0 {
      OlderPendingSame(a, b, i - 1);
    }
  }

  lemma {:induction false} OlderPendingShrinks(a: seq<Mail>, b: seq<Mail>, i: nat)
    requires i <= |a| && i <= |b|
    requires forall j :: 0 <= j < i && b[j].status == Pending ==> a[j].status == Pending
    ensures OlderPending(b, i) <= OlderPending(a, i)
  {
    if i > 0 {
      OlderPendingShrinks(a, b, i - 1);
    }
  }

  /** One round: nothing becomes pending again, nothing moves back in the queue, the batch uses up an attempt. */
  lemma {:induction false} RoundMakesProgress(mails: seq<Mail>, r: Round, i: nat)
    requires i < |mails|
    ensures var m, m' := mails[i], AfterRound(mails, r)[i];
            && (m'.status == Pending ==> m.status == Pending)
            && m.attempts <= m'.attempts
            && OlderPending(AfterRound(mails, r), i) <= OlderPending(mails, i)
            && (m'.status == Pending && InBatch(mails, i) && !r.out.listFails && !Stuck(m, i, r.out) ==>
                 m'.attempts == m.attempts + 1)
            && InBatch(mails + r.arrivals, i) == InBatch(mails, i)
  {
    var all := mails + r.arrivals;
    OlderPendingSame(mails, all, i);
    OlderPendingShrinks(all, AfterRound(mails, r), i);
  }

  lemma RoundKeepsAttemptsLeft(mails: seq<Mail>, rounds: seq<Round>)
    requires AttemptsLeft(mails) && FreshArrivals(rounds) && |rounds| > 0
    ensures AttemptsLeft(AfterRound(mails, rounds[0])) && FreshArrivals(rounds[1..])
  {
  }

  lemma {:induction false} RoundsOnlyFinish(mails: seq<Mail>, rounds: seq<Round>, i: nat)
    requires i < |mails|
    ensures AfterRounds(mails, rounds)[i].status == Pending ==> mails[i].status == Pending
    decreases |rounds|
  {
    if |rounds| == 0 {
    } else {
      RoundMakesProgress(mails, rounds[0], i);
      RoundsOnlyFinish(AfterRound(mails, rounds[0]), rounds[1..], i);
    }
  }

  /** A notification of the first batch uses up one attempt in each tick that works until it is done with. */
  lemma {:induction false} BatchUsesAttempts(mails: seq<Mail>, rounds: seq<Round>, i: nat)
    requires i < |mails| && OlderPending(mails, i) < BATCH_SIZE
    ensures var m' := AfterRounds(mails, rounds)[i];
            m'.status == Pending ==> m'.attempts >= mails[i].attempts + Working(mails, rounds)
    decreases |rounds|
  {
    if |rounds| == 0 {
    } else {
      RoundMakesProgress(mails, rounds[0], i);
      BatchUsesAttempts(AfterRound(mails, rounds[0]), rounds[1..], i);
      RoundsOnlyFinish(AfterRound(mails, rounds[0]), rounds[1..], i);
      assert (mails + rounds[0].arrivals)[i] == mails[i];
    }
  }

  lemma {:induction false} RoundsKeepAttemptsLeft(mails: seq<Mail>, rounds: seq<Round>)
    requires AttemptsLeft(mails) && FreshArrivals(rounds)
    ensures AttemptsLeft(AfterRounds(mails, rounds))
    decreases |rounds|
  {
    if |rounds| == 0 {
    } else {
      RoundKeepsAttemptsLeft(mails, rounds);
      RoundsKeepAttemptsLeft(AfterRound(mails, rounds[0]), rounds[1..]);
    }
  }

  /** Ten ticks that work empty the first batch. */
  lemma TenTicksEmptyTheBatch(mails: seq<Mail>, rounds: seq<Round>, i: nat)
    requires i < |mails| && OlderPending(mails, i) < BATCH_SIZE
    requires AttemptsLeft(mails) && FreshArrivals(rounds) && Working(mails, rounds) >= MAX_ATTEMPTS
    ensures AfterRounds(mails, rounds)[i].status != Pending
  {
    BatchUsesAttempts(mails, rounds, i);
    RoundsKeepAttemptsLeft(mails, rounds);
  }

  /** When the first batch is gone, everyone behind it has moved up by a whole batch. */
  lemma {:induction false} QueueMovesUp(a: seq<Mail>, b: seq<Mail>, i: nat)
    requires i <= |a| && i <= |b|
    requires forall j: nat :: j < i && b[j].status == Pending ==>
             a[j].status == Pending && OlderPending(a, j) >= BATCH_SIZE
    ensures OlderPending(b, i) <= if OlderPending(a, i) <= BATCH_SIZE then 0 else OlderPending(a, i) - BATCH_SIZE
  {
    if i > 0 {
      QueueMovesUp(a, b, i - 1);
    }
  }

  lemma {:induction false} RoundsSplit(mails: seq<Mail>, rounds: seq<Round>, n: nat)
    requires n <= |rounds|
    ensures AfterRounds(mails, rounds) == AfterRounds(AfterRounds(mails, rounds[..n]), rounds[n..])
    ensures Working(mails, rounds) ==
            Working(mails, rounds[..n]) + Working(AfterRounds(mails, rounds[..n]), rounds[n..])
    decreases n
  {
    if n == 0 {
      assert rounds[..0] == [] && rounds[0..] == rounds;
    } else {
      RoundsSplit(AfterRound(mails, rounds[0]), rounds[1..], n - 1);
      assert rounds[..n][1..] == rounds[1..][..n - 1];
      assert rounds[1..][n - 1..] == rounds[n..];
    }
  }

  /** After how many ticks exactly n have worked. */
  lemma {:induction false} UntilSomeWorked(mails: seq<Mail>, rounds: seq<Round>, n: nat) returns (k: nat)
    requires n <= Working(mails, rounds)
    ensures k <= |rounds| && Working(mails, rounds[..k]) == n
    decreases |rounds|
  {
    if n == 0 {
      k := 0;
    } else {
      k := UntilSomeWorked(AfterRound(mails, rounds[0]), rounds[1..], if Works(mails, rounds[0]) then n - 1 else n);
      k := k + 1;
      assert rounds[..k][1..] == rounds[1..][..k - 1];
    }
  }

  /**
   Whatever sends fail, whatever arrives meanwhile, and whatever happens in the ticks that do
   not work, a notification with k older pending ones is sent, failed or skipped once
   10 * (k / 50 + 1) ticks have worked.
   */
  lemma {:induction false} FairnessBound(mails: seq<Mail>, rounds: seq<Round>, i: nat)
    requires i < |mails| && AttemptsLeft(mails) && FreshArrivals(rounds)
    requires Working(mails, rounds) >= MAX_ATTEMPTS * (OlderPending(mails, i) / BATCH_SIZE + 1)
    ensures AfterRounds(mails, rounds)[i].status != Pending
    decreases OlderPending(mails, i)
  {
    var n := UntilSomeWorked(mails, rounds, MAX_ATTEMPTS);
    var first, rest := rounds[..n], rounds[n..];
    var mails' := AfterRounds(mails, first);
    RoundsSplit(mails, rounds, n);
    RoundsKeepAttemptsLeft(mails, first);
    if OlderPending(mails, i) < BATCH_SIZE {
      TenTicksEmptyTheBatch(mails, first, i);
      RoundsOnlyFinish(mails', rest, i);
    } else {
      forall j: nat | j < i && mails'[j].status == Pending
        ensures mails[j].status == Pending && OlderPending(mails, j) >= BATCH_SIZE
      {
        RoundsOnlyFinish(mails, first, j);
        if OlderPending(mails, j) < BATCH_SIZE {
          TenTicksEmptyTheBatch(mails, first, j);
        }
      }
      QueueMovesUp(mails, mails', i);
      FairnessBound(mails', rest, i);
    }
  }

  // ---- The bound is reached ----

  /** The queue after n ticks in which every send failed: batch by batch, ten attempts each. */
  function Queue(size: nat, n: nat): (mails: seq<Mail>)
    ensures |mails| == size
  {
    seq(size, i requires 0 <= i < size => Tried(i, n))
  }

  function Tried(i: nat, n: nat): Mail {
    var m := Mail(1, 1, Pending, 0, None, None);
    if i / BATCH_SIZE < n / MAX_ATTEMPTS then m.(status := Failed, attempts := MAX_ATTEMPTS, lastError := Some(""))
    else if i / BATCH_SIZE == n / MAX_ATTEMPTS && n % MAX_ATTEMPTS > 0 then
      m.(attempts := n % MAX_ATTEMPTS, lastError := Some(""))
    else m
  }

  function Failures(size: nat): (failures: map<int, string>)
    ensures forall i :: i in failures <==> 0 <= i < size
    ensures forall i :: i in failures ==> failures[i] == ""
  {
    if size == 0 then map[] else Failures(size - 1)[size - 1 := ""]
  }

  function EverySendFails(size: nat): Round {
    Round([], Outside(map[1 := User(Some("user@example.com"), true)], map[1 := Tenant(Some("mail.example.com"))], 0,
                      Failures(size), false, {}))
  }

  lemma {:induction false} QueueOlderPending(size: nat, n: nat, i: nat)
    requires i <= size
    ensures var gone := BATCH_SIZE * (n / MAX_ATTEMPTS);
            OlderPending(Queue(size, n), i) == if i <= gone then 0 else i - gone
  {
    if i > 0 {
      QueueOlderPending(size, n, i - 1);
    }
  }

  lemma QueueTick(size: nat, n: nat)
    ensures AfterRound(Queue(size, n), EverySendFails(size)) == Queue(size, n + 1)
    ensures Works(Queue(size, n), EverySendFails(size))
  {
    var queue, r := Queue(size, n), EverySendFails(size);
    assert queue + r.arrivals == queue;
    forall i: nat | i < size
      ensures AfterRound(queue, r)[i] == Tried(i, n + 1)
      ensures !Stuck(queue[i], i, r.out)
    {
      QueueOlderPending(size, n, i);
    }
  }

  function Failing(size: nat, n: nat): seq<Round> {
    seq(n, _ => EverySendFails(size))
  }

  lemma {:induction false} QueueTicks(size: nat, n: nat, more: nat)
    ensures AfterRounds(Queue(size, n), Failing(size, more)) == Queue(size, n + more)
    ensures Working(Queue(size, n), Failing(size, more)) == more
    decreases more
  {
    if more == 0 {
    } else {
      QueueTick(size, n);
      QueueTicks(size, n + 1, more - 1);
      assert Failing(size, more)[1..] == Failing(size, more - 1);
    }
  }

  lemma LastTickOfBatch(k: nat)
    ensures Tried(k, MAX_ATTEMPTS * (k / BATCH_SIZE + 1) - 1).status == Pending
  {
    var q := k / BATCH_SIZE;
    assert MAX_ATTEMPTS * (q + 1) - 1 == MAX_ATTEMPTS * q + 9;
    assert (MAX_ATTEMPTS * q + 9) / MAX_ATTEMPTS == q;
  }

  /** For every k: with one tick fewer, all of them working, the last of k + 1 notifications can still be pending. */
  lemma FairnessBoundIsReached(k: nat) returns (mails: seq<Mail>, rounds: seq<Round>)
    ensures |mails| == k + 1 && OlderPending(mails, k) == k && AttemptsLeft(mails) && FreshArrivals(rounds)
    ensures Working(mails, rounds) == |rounds| == MAX_ATTEMPTS * (k / BATCH_SIZE + 1) - 1
    ensures AfterRounds(mails, rounds)[k].status == Pending
  {
    mails, rounds := Queue(k + 1, 0), Failing(k + 1, MAX_ATTEMPTS * (k / BATCH_SIZE + 1) - 1);
    QueueOlderPending(k + 1, 0, k);
    QueueTicks(k + 1, 0, |rounds|);
    LastTickOfBatch(k);
  }

  // ---- What the bound rests on ----

  lemma {:induction false} OlderPendingGrows(mails: seq<Mail>, i: nat, j: nat)
    requires i <= j <= |mails|
    ensures OlderPending(mails, i) <= OlderPending(mails, j)
  {
    if i < j {
      OlderPendingGrows(mails, i, j - 1);
    }
  }

  lemma BlockedRound(mails: seq<Mail>, r: Round)
    requires OlderPending(mails, |mails|) >= BATCH_SIZE
    requires forall i: nat :: i < |mails| && InBatch(mails, i) ==> Stuck(mails[i], i, r.out)
    ensures var all := mails + r.arrivals;
            && AfterRound(mails, r) == all && OlderPending(all, |all|) >= BATCH_SIZE
            && forall i: nat :: i < |all| && InBatch(all, i) ==> i < |mails| && InBatch(mails, i)
  {
    var all := mails + r.arrivals;
    OlderPendingSame(mails, all, |mails|);
    OlderPendingGrows(all, |mails|, |all|);
    forall i: nat | i < |all| && InBatch(all, i)
      ensures i < |mails| && InBatch(mails, i)
    {
      if i >= |mails| {
        OlderPendingGrows(all, |mails|, i);
      } else {
        OlderPendingSame(mails, all, i);
      }
    }
  }

  /** The bound rests on the store: while the first fifty are stuck, nobody behind them is ever tried. */
  lemma {:induction false} StuckBatchStarvesTheRest(mails: seq<Mail>, rounds: seq<Round>)
    requires OlderPending(mails, |mails|) >= BATCH_SIZE
    requires forall k, i: nat :: 0 <= k < |rounds| && i < |mails| && InBatch(mails, i) ==>
               Stuck(mails[i], i, rounds[k].out)
    ensures mails <= AfterRounds(mails, rounds)
    decreases |rounds|
  {
    if |rounds| == 0 {
    } else {
      var all := mails + rounds[0].arrivals;
      BlockedRound(mails, rounds[0]);
      forall k, i: nat | 0 <= k < |rounds[1..]| && i < |all| && InBatch(all, i)
        ensures Stuck(all[i], i, rounds[1..][k].out)
      {
        assert rounds[1..][k] == rounds[k + 1] && all[i] == mails[i];
      }
      StuckBatchStarvesTheRest(all, rounds[1..]);
    }
  }
}

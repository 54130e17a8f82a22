/**
 The email outbox: each tick lists the oldest pending notifications and tries each once. A
 notification is done with once it is sent, skipped, or has failed ten times.
 */
module Outbox {
  import opened Domain

  const BATCH_SIZE: nat := 50
  const MAX_ATTEMPTS: nat := 10

  datatype EmailStatus = Pending | Sent | Failed | Skipped

  /** A notification's outbox columns; the table is kept in creation order. */
  datatype Mail = Mail(
    tenantId: int, recipient: int, status: EmailStatus, attempts: nat, lastError: Option<string>, sentAt: Option<int>)

  datatype User = User(email: Option<string>, isActive: bool)
  datatype Tenant = Tenant(smtpHost: Option<string>)

  /**
   What a tick meets outside the table: users, tenants, the clock, the error of each send that
   fails, whether the query for the batch fails, and which notifications cannot be marked.
   */
  datatype Outside = Outside(
    users: map<int, User>, tenants: map<int, Tenant>, now: int,
    failures: map<int, string>, listFails: bool, markFails: set<int>)

  datatype Attempt = LookupFails | Skips | Sends | SendFails(error: string)

  /** The decision deliverOne takes for notification i. */
  function Decide(m: Mail, i: int, out: Outside): Attempt {
    if m.recipient !in out.users || m.tenantId !in out.tenants then LookupFails
    else if out.tenants[m.tenantId].smtpHost.None? then Skips
    else if out.users[m.recipient].email.None? then Skips
    else if !out.users[m.recipient].isActive then Skips
    else if i !in out.failures then Sends
    else SendFails(out.failures[i])
  }

  function AfterAttempt(m: Mail, a: Attempt, now: int): Mail {
    match a
    case LookupFails => m
    case Skips => m.(status := Skipped)
    case Sends => m.(status := Sent, sentAt := Some(now))
    case SendFails(error) => m.(attempts := m.attempts + 1, lastError := Some(error),
                                status := if m.attempts + 1 >= MAX_ATTEMPTS then Failed else m.status)
  }

  /** The row after its turn: an attempt that cannot be marked leaves no trace in it. */
  function AfterTurn(m: Mail, i: int, out: Outside): Mail {
    if i in out.markFails then m else AfterAttempt(m, Decide(m, i, out), out.now)
  }

  /** How many notifications before index i are pending. */
  function OlderPending(mails: seq<Mail>, i: nat): (n: nat)
    requires i <= |mails|
    ensures n <= i
  {
    if i == 0 then 0 else OlderPending(mails, i - 1) + if mails[i - 1].status == Pending then 1 else 0
  }

  /** SELECT ... WHERE pending ORDER BY age LIMIT limit, over the first n rows, as table indices. */
  function OldestPending(mails: seq<Mail>, n: nat, limit: nat): (batch: seq<nat>)
    requires n <= |mails|
    ensures |batch| == if OlderPending(mails, n) <= limit then OlderPending(mails, n) else limit
    ensures forall i: nat :: i in batch <==> i < n && mails[i].status == Pending && OlderPending(mails, i) < limit
    ensures forall j, k :: 0 <= j < k < |batch| ==> batch[j] < batch[k]
  {
    if n == 0 then []
    else
      var older := OldestPending(mails, n - 1, limit);
      assert forall k :: 0 <= k < |older| ==> older[k] in older;
      if mails[n - 1].status == Pending && |older| < limit then older + [n - 1] else older
  }

  /** Once full, the batch stays as it is. */
  lemma {:induction false} FullBatch(mails: seq<Mail>, i: nat, n: nat, limit: nat)
    requires i <= n <= |mails| && |OldestPending(mails, i, limit)| == limit
    ensures OldestPending(mails, n, limit) == OldestPending(mails, i, limit)
  {
    if n == i {
    } else {
      FullBatch(mails, i, n - 1, limit);
    }
  }

  predicate InBatch(mails: seq<Mail>, i: nat)
    requires i < |mails|
  {
    mails[i].status == Pending && OlderPending(mails, i) < BATCH_SIZE
  }

  /** One tick: every notification of the batch is tried once, by index of the table. */
  function Tick(mails: seq<Mail>, out: Outside): (r: seq<Mail>)
    ensures |r| == |mails|
  {
    seq(|mails|, i requires 0 <= i < |mails| =>
      if !out.listFails && InBatch(mails, i) then AfterTurn(mails[i], i, out) else mails[i])
  }

  /** These notifications have had their turn. */
  ghost predicate Turned(before: seq<Mail>, after: seq<Mail>, done: seq<nat>, out: Outside) {
    && |after| == |before|
    && forall i: nat :: i < |before| ==> after[i] == if i in done then AfterTurn(before[i], i, out) else before[i]
  }

  lemma TurnedOneMore(before: seq<Mail>, after: seq<Mail>, done: seq<nat>, i: nat, out: Outside)
    requires Turned(before, after, done, out) && i < |before| && i !in done
    ensures after[i] == before[i]
    ensures Turned(before, after[i := AfterTurn(before[i], i, out)], done + [i], out)
  {
  }

  lemma NotBefore(batch: seq<nat>, k: nat)
    requires forall i, j :: 0 <= i < j < |batch| ==> batch[i] < batch[j]
    requires k < |batch|
    ensures batch[k] !in batch[..k] && batch[..k + 1] == batch[..k] + [batch[k]]
  {
    assert forall i :: 0 <= i < k ==> batch[i] < batch[k];
  }

  lemma InTable(before: seq<Mail>, limit: nat, k: nat)
    requires k < |OldestPending(before, |before|, limit)|
    ensures OldestPending(before, |before|, limit)[k] < |before|
  {
    var batch := OldestPending(before, |before|, limit);
    assert batch[k] in batch;
  }

  lemma TurnedAll(before: seq<Mail>, after: seq<Mail>, batch: seq<nat>, out: Outside)
    requires Turned(before, after, batch, out) && !out.listFails
    requires batch == OldestPending(before, |before|, BATCH_SIZE)
    ensures after == Tick(before, out)
  {
    forall i: nat | i < |before|
      ensures i in batch <==> InBatch(before, i)
    {
    }
  }

  class Repo {
    var mails: seq<Mail>

    constructor ()
      ensures mails == []
    {
      mails := [];
    }

    /** Scans the table from the oldest row on, and stops at the limit. */
    method ListPendingEmail(limit: nat) returns (batch: seq<nat>)
      ensures batch == OldestPending(mails, |mails|, limit)
    {
      batch := [];
      for i := 0 to |mails|
        invariant batch == OldestPending(mails, i, limit)
      {
        if |batch| == limit {
          FullBatch(mails, i, |mails|, limit);
          return;
        }
        if mails[i].status == Pending {
          batch := batch + [i];
        }
      }
    }

    method MarkEmailSent(i: nat, sentAt: int)
      requires i < |mails|
      modifies this
      ensures mails == old(mails)[i := old(mails)[i].(status := Sent, sentAt := Some(sentAt))]
    {
      mails := mails[i := mails[i].(status := Sent, sentAt := Some(sentAt))];
    }

    method MarkEmailFailed(i: nat, error: string, maxAttempts: nat)
      requires i < |mails|
      modifies this
      ensures var m := old(mails)[i];
              mails == old(mails)[i := m.(attempts := m.attempts + 1, lastError := Some(error),
                                          status := if m.attempts + 1 >= maxAttempts then Failed else m.status)]
    {
      var status := if mails[i].attempts + 1 >= maxAttempts then Failed else mails[i].status;
      mails := mails[i := mails[i].(attempts := mails[i].attempts + 1, lastError := Some(error), status := status)];
    }

    method MarkEmailSkipped(i: nat)
      requires i < |mails|
      modifies this
      ensures mails == old(mails)[i := old(mails)[i].(status := Skipped)]
    {
      mails := mails[i := mails[i].(status := Skipped)];
    }

    method DeliverOne(i: nat, m: Mail, out: Outside)
      requires i < |mails| && mails[i] == m
      modifies this
      ensures mails == old(mails)[i := AfterTurn(m, i, out)]
    {
      if m.recipient !in out.users || m.tenantId !in out.tenants {
        return;
      }
      var recipient, tenant := out.users[m.recipient], out.tenants[m.tenantId];
      if tenant.smtpHost.None? || recipient.email.None? || !recipient.isActive {
        if i !in out.markFails {
          MarkEmailSkipped(i);
        }
      } else if i in out.failures {
        if i !in out.markFails {
          MarkEmailFailed(i, out.failures[i], MAX_ATTEMPTS);
        }
      } else if i !in out.markFails {
        MarkEmailSent(i, out.now);
      }
    }

    method DeliverPendingEmails(out: Outside)
      modifies this
      ensures mails == Tick(old(mails), out)
    {
      if out.listFails {
        return;
      }
      var batch := ListPendingEmail(BATCH_SIZE);
      for k := 0 to |batch|
        invariant Turned(old(mails), mails, batch[..k], out)
      {
        InTable(old(mails), BATCH_SIZE, k);
        NotBefore(batch, k);
        TurnedOneMore(old(mails), mails, batch[..k], batch[k], out);
        DeliverOne(batch[k], mails[batch[k]], out);
      }
      assert batch[..|batch|] == batch;
      TurnedAll(old(mails), mails, batch, out);
    }
  }
}

/** Which notification is mailed, skipped or given up, and why: over one tick and over all of them. */
module Deliveries {
  import opened Domain
  import opened Outbox
  import opened OutboxFairness

  /** Among the fifty oldest pending ones of a tick whose list query works, and its outcome can be marked. */
  predicate HasTurn(mails: seq<Mail>, i: nat, out: Outside)
    requires i < |mails|
  {
    !out.listFails && i !in out.markFails && mails[i].status == Pending && OlderPending(mails, i) < 50
  }

  predicate Known(m: Mail, out: Outside) {
    m.recipient in out.users && m.tenantId in out.tenants
  }

  /** The tenant has a mail server, and the recipient an address and an active account. */
  predicate Deliverable(m: Mail, out: Outside) {
    && Known(m, out)
    && out.tenants[m.tenantId].smtpHost.Some?
    && out.users[m.recipient].email.Some? && out.users[m.recipient].isActive
  }

  /** What a tick makes of each notification. */
  lemma TickExactly(mails: seq<Mail>, i: nat, out: Outside)
    requires i < |mails|
    ensures var m, m' := mails[i], Tick(mails, out)[i];
            if !HasTurn(mails, i, out) || !Known(m, out) then m' == m
            else if !Deliverable(m, out) then m' == m.(status := Skipped)
            else if i !in out.failures then m' == m.(status := Sent, sentAt := Some(out.now))
            else
              && m' == m.(status := m'.status, attempts := m.attempts + 1, lastError := Some(out.failures[i]))
              && m'.status == (if m.attempts + 1 >= 10 then Failed else Pending)
  {
  }

  /** A notification that is done with is never touched again. */
  lemma {:induction false} DoneIsDone(mails: seq<Mail>, rounds: seq<Round>, i: nat)
    requires i < |mails| && mails[i].status != Pending
    ensures AfterRounds(mails, rounds)[i] == mails[i]
    decreases |rounds|
  {
    if |rounds| == 0 {
    } else {
      TickExactly(mails + rounds[0].arrivals, i, rounds[0].out);
      DoneIsDone(AfterRound(mails, rounds[0]), rounds[1..], i);
    }
  }

  /** The notification has its turn in this tick, and it is sent. */
  predicate MailedNow(mails: seq<Mail>, i: nat, out: Outside)
    requires i < |mails|
  {
    HasTurn(mails, i, out) && Deliverable(mails[i], out) && i !in out.failures
  }

  predicate SkippedNow(mails: seq<Mail>, i: nat, out: Outside)
    requires i < |mails|
  {
    HasTurn(mails, i, out) && Known(mails[i], out) && !Deliverable(mails[i], out)
  }

  /** In some tick of these, on the table as that tick finds it. */
  predicate MailedIn(mails: seq<Mail>, rounds: seq<Round>, i: nat)
    requires i < |mails|
    decreases |rounds|
  {
    |rounds| > 0 && (MailedNow(mails + rounds[0].arrivals, i, rounds[0].out) ||
                     MailedIn(AfterRound(mails, rounds[0]), rounds[1..], i))
  }

  predicate SkippedIn(mails: seq<Mail>, rounds: seq<Round>, i: nat)
    requires i < |mails|
    decreases |rounds|
  {
    |rounds| > 0 && (SkippedNow(mails + rounds[0].arrivals, i, rounds[0].out) ||
                     SkippedIn(AfterRound(mails, rounds[0]), rounds[1..], i))
  }

  lemma {:induction false} DoneHasNoTurn(mails: seq<Mail>, rounds: seq<Round>, i: nat)
    requires i < |mails| && mails[i].status != Pending
    ensures !MailedIn(mails, rounds, i) && !SkippedIn(mails, rounds, i)
    decreases |rounds|
  {
    if |rounds| == 0 {
    } else {
      TickExactly(mails + rounds[0].arrivals, i, rounds[0].out);
      DoneHasNoTurn(AfterRound(mails, rounds[0]), rounds[1..], i);
    }
  }

  /**
   Over any ticks: a notification has been mailed if and only if some tick that gave it its turn
   found its recipient active and with an address and its tenant with a mail server, and the
   send worked; it has been skipped if and only if some such tick found one of these missing.
   */
  lemma {:induction false} MailedExactly(mails: seq<Mail>, rounds: seq<Round>, i: nat)
    requires i < |mails| && mails[i].status == Pending
    ensures AfterRounds(mails, rounds)[i].status == Sent <==> MailedIn(mails, rounds, i)
    ensures AfterRounds(mails, rounds)[i].status == Skipped <==> SkippedIn(mails, rounds, i)
    decreases |rounds|
  {
    if |rounds| == 0 {
    } else {
      var mails' := AfterRound(mails, rounds[0]);
      TickExactly(mails + rounds[0].arrivals, i, rounds[0].out);
      if mails'[i].status == Pending {
        MailedExactly(mails', rounds[1..], i);
      } else {
        DoneIsDone(mails', rounds[1..], i);
        DoneHasNoTurn(mails', rounds[1..], i);
      }
    }
  }
}

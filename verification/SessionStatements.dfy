/** The session repository runs the statements that race. */
module SessionStatements {
  import opened Sessions
  import opened SessionRaces

  /** One statement of one request, on the table; what is pending is kept by the requests themselves. */
  method Execute(repo: SessionRepo, pending: map<int, Reading>, s: Statement)
    returns (pending': map<int, Reading>, reply: seq<Answer>)
    modifies repo
    ensures Racing(repo.sessions, pending') == After(Racing(old(repo.sessions), pending), s)
    ensures reply == Reply(Racing(old(repo.sessions), pending), s)
  {
    pending', reply := pending, [];
    match s
    case Read(q, token, users, now) =>
      if q in pending {
        return;
      }
      var got := repo.Get(token);
      if got.None? || now > got.value.expiresAt {
        reply := [NotFound];
      } else if NeedsRenewal(got.value, now) {
        pending' := pending[q := Reading(token, got.value, now)];
      } else {
        reply := [UserAnswer(users, got.value, false)];
      }
    case Refresh(q, users) =>
      if q in pending {
        var reading := pending[q];
        repo.Refresh(reading.token, Expiry(reading));
        pending' := pending - {q};
        reply := [UserAnswer(users, reading.session.(expiresAt := Expiry(reading)), true)];
      }
    case Insert(token, userId, now) =>
      var answer := repo.StartSession(token, userId, now);
      reply := [answer];
    case Delete(token) =>
      repo.Delete(token);
      reply := [Removed];
    case DeleteOfUser(userId) =>
      repo.DeleteByUserID(userId);
      reply := [Removed];
    case DeleteExpired(now) =>
      var removed := repo.DeleteExpired(now);
  }
}

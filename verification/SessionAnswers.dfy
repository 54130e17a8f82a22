/**
 Whom a session lets in: the answers of requests that race, and what a suspended user, a
 logout, a reset and a sweep make of them, in every interleaving.
 */
module SessionAnswers {
  import opened Sessions
  import opened SessionRaces
  import Fates = SessionFates

  // ---- What an answer says ----

  /** The request is free and asks for the token. */
  predicate Asks(r: Racing, s: Statement) {
    s.Read? && s.request !in r.pending
  }

  /** The request has read the session and now writes its new expiry. */
  predicate Renewing(r: Racing, s: Statement) {
    s.Refresh? && s.request in r.pending
  }

  /** The session found, and the expiry it has once the request is answered. */
  predicate AnsweredFor(r: Racing, s: Statement, session: Session, expiry: int, renewed: bool) {
    if s.Read? then
      && Asks(r, s) && s.token in r.table && s.now <= r.table[s.token].expiresAt
      && session == r.table[s.token] && expiry == session.expiresAt && !renewed
      && expiry >= s.now + RENEW_THRESHOLD
    else
      Renewing(r, s) && session == r.pending[s.request].session &&
      expiry == r.pending[s.request].at + SESSION_TTL && renewed
  }

  predicate UsersOf(s: Statement, user: int, active: bool) {
    (s.Read? || s.Refresh?) && user in s.users && s.users[user] == active
  }

  /**
   In every state: a request is accepted if and only if it found a live session whose user can
   be read and is active; it is then told that very user, and the expiry stored or just written.
   */
  lemma AcceptedExactly(r: Racing, s: Statement, userId: int, expiry: int, renewed: bool)
    ensures Reply(r, s) == [Accepted(userId, expiry, renewed)] <==>
              && UsersOf(s, userId, true)
              && exists session: Session :: session.userId == userId && AnsweredFor(r, s, session, expiry, renewed)
  {
    if Asks(r, s) && s.token in r.table {
      var session := r.table[s.token];
      assert AnsweredFor(r, s, session, session.expiresAt, false) || Reply(r, s) != [Accepted(userId, expiry, renewed)];
    } else if Renewing(r, s) {
      var reading := r.pending[s.request];
      assert AnsweredFor(r, s, reading.session, Expiry(reading), true);
      assert reading.session.userId == reading.session.(expiresAt := Expiry(reading)).userId;
    }
  }

  /** A live session of an inactive user is answered with that, also when it had just to be renewed. */
  lemma SuspendedUserIsRefused(r: Racing, s: Statement, session: Session, expiry: int, renewed: bool)
    requires AnsweredFor(r, s, session, expiry, renewed) && (s.Read? || s.Refresh?)
    ensures Reply(r, s) == [Inactive] <==> UsersOf(s, session.userId, false)
    ensures Reply(r, s) == [NoUser] <==> session.userId !in s.users
    ensures Reply(r, s) == [Accepted(session.userId, expiry, renewed)] <==> UsersOf(s, session.userId, true)
  {
  }

  /** Nobody is told anything else: no session is reported exactly when there is no live one. */
  lemma NotFoundExactly(r: Racing, s: Statement)
    ensures Reply(r, s) == [NotFound] <==>
            Asks(r, s) && (s.token !in r.table || r.table[s.token].expiresAt < s.now)
  {
  }

  /** The same for a request whose two statements follow one another. */
  lemma CurrentUserExactly(t: Table, users: map<int, bool>, token: string, now: int)
    ensures var (t', a) := CurrentUser(t, users, token, now);
            if !(token in t && now <= t[token].expiresAt) then a == NotFound && t' == t
            else
              var user, renewed := t[token].userId, t[token].expiresAt - now < RENEW_THRESHOLD;
              var expiry := if renewed then now + SESSION_TTL else t[token].expiresAt;
              && (a == NoUser <==> user !in users)
              && (a == Inactive <==> user in users && !users[user])
              && (a == Accepted(user, expiry, renewed) <==> user in users && users[user])
              && t'.Keys == t.Keys && t'[token] == t[token].(expiresAt := expiry)
              && forall x :: x in t && x != token ==> t'[x] == t[x]
  {
  }

  /** A login is refused exactly for a token that is taken; else it stores a session of full lifetime. */
  lemma LoginExactly(t: Table, token: string, userId: int, now: int)
    ensures var (t', a) := Login(t, token, userId, now);
            if token in t then a == Collision && t' == t
            else
              && a == LoggedIn(now + SESSION_TTL) && t'.Keys == t.Keys + {token}
              && t'[token] == Session(userId, now, now + SESSION_TTL)
              && forall x :: x in t ==> t'[x] == t[x]
  {
  }

  /** A stored session keeps its user and its creation; its expiry changes by its own refreshes only. */
  lemma OnlyExpiryChanges(r: Racing, s: Statement, token: string)
    requires token in r.table && token in After(r, s).table
    ensures var before, after := r.table[token], After(r, s).table[token];
            && after.userId == before.userId && after.createdAt == before.createdAt
            && after.expiresAt == (if Renewing(r, s) && r.pending[s.request].token == token
                                   then r.pending[s.request].at + SESSION_TTL else before.expiresAt)
  {
  }

  // ---- Where an accepted session comes from ----

  predicate Ends(s: Statement, token: string, userId: int) {
    (s.Delete? && s.token == token) || (s.DeleteOfUser? && s.userId == userId)
  }

  /** The user logged in under the token at statement j, and nothing has ended the session since. */
  ghost predicate LoggedInAt(ss: seq<Statement>, token: string, userId: int, j: int) {
    && 0 <= j < |ss| && ss[j].Insert? && ss[j].token == token && ss[j].userId == userId
    && forall k :: j < k < |ss| ==> !Ends(ss[k], token, userId)
  }

  ghost predicate HasLogin(ss: seq<Statement>, token: string, userId: int) {
    exists j :: LoggedInAt(ss, token, userId, j)
  }

  const NOTHING: Racing := Racing(map[], map[])

  function RunTo(ss: seq<Statement>): Racing {
    Run(NOTHING, ss)
  }

  /** Stored sessions have a login that nothing ended; readings on their way had one when they read. */
  ghost predicate Accounted(ss: seq<Statement>, r: Racing) {
    && (forall token | token in r.table :: HasLogin(ss, token, r.table[token].userId))
    && (forall q | q in r.pending :: HadLogin(ss, q, r.pending[q].token, r.pending[q].session.userId))
  }

  /** Request q read at some statement before, when the user's login under the token had not been ended. */
  ghost predicate HadLogin(ss: seq<Statement>, q: int, token: string, userId: int) {
    exists i :: 0 <= i < |ss| && ss[i].Read? && ss[i].request == q && ss[i].token == token
                && HasLogin(ss[..i], token, userId)
  }

  lemma LoginStays(ss: seq<Statement>, s: Statement, token: string, userId: int)
    requires HasLogin(ss, token, userId) && !Ends(s, token, userId)
    ensures HasLogin(ss + [s], token, userId)
  {
    var j :| LoggedInAt(ss, token, userId, j);
    assert LoggedInAt(ss + [s], token, userId, j);
  }

  lemma LoginStarts(ss: seq<Statement>, token: string, userId: int, now: int)
    ensures HasLogin(ss + [Insert(token, userId, now)], token, userId)
  {
    assert LoggedInAt(ss + [Insert(token, userId, now)], token, userId, |ss|);
  }

  lemma HadLoginStays(ss: seq<Statement>, s: Statement, q: int, token: string, userId: int)
    requires HadLogin(ss, q, token, userId)
    ensures HadLogin(ss + [s], q, token, userId)
  {
    var i :| 0 <= i < |ss| && ss[i].Read? && ss[i].request == q && ss[i].token == token
             && HasLogin(ss[..i], token, userId);
    assert (ss + [s])[i] == ss[i] && (ss + [s])[..i] == ss[..i];
  }

  lemma ReadHasLogin(ss: seq<Statement>, s: Statement, userId: int)
    requires s.Read? && HasLogin(ss, s.token, userId)
    ensures HadLogin(ss + [s], s.request, s.token, userId)
  {
    assert (ss + [s])[|ss|] == s && (ss + [s])[..|ss|] == ss;
  }

  lemma StepIsAccounted(ss: seq<Statement>, r: Racing, s: Statement)
    requires Accounted(ss, r)
    ensures Accounted(ss + [s], After(r, s))
  {
    var r' := After(r, s);
    forall token | token in r'.table
      ensures HasLogin(ss + [s], token, r'.table[token].userId)
    {
      if token in r.table {
        LoginStays(ss, s, token, r.table[token].userId);
      } else {
        LoginStarts(ss, token, r'.table[token].userId, s.now);
      }
    }
    forall q | q in r'.pending
      ensures HadLogin(ss + [s], q, r'.pending[q].token, r'.pending[q].session.userId)
    {
      if q in r.pending {
        HadLoginStays(ss, s, q, r.pending[q].token, r.pending[q].session.userId);
      } else {
        ReadHasLogin(ss, s, r.table[s.token].userId);
      }
    }
  }

  lemma RunToOneMore(ss: seq<Statement>, s: Statement)
    ensures RunTo(ss + [s]) == After(RunTo(ss), s)
  {
    RunConcat(NOTHING, ss, [s]);
    assert [s][1..] == [];
    assert Run(RunTo(ss), [s]) == Run(After(RunTo(ss), s), [s][1..]);
  }

  lemma {:induction false} RunIsAccounted(ss: seq<Statement>)
    ensures Accounted(ss, RunTo(ss))
  {
    if |ss| == 0 {
    } else {
      var front, s := ss[..|ss| - 1], ss[|ss| - 1];
      RunIsAccounted(front);
      StepIsAccounted(front, RunTo(front), s);
      RunToOneMore(front, s);
      assert ss == front + [s];
    }
  }

  /**
   In every interleaving from an empty table: a request that is accepted names a user who is
   active as this request sees it, who logged in under this very token, and whose session
   neither a logout nor a reset had ended when the request read it.
   */
  lemma AcceptedUserLoggedIn(ss: seq<Statement>, s: Statement, userId: int, expiry: int, renewed: bool)
    requires Reply(RunTo(ss), s) == [Accepted(userId, expiry, renewed)]
    ensures UsersOf(s, userId, true)
    ensures s.Read? ==> HasLogin(ss, s.token, userId)
    ensures s.Refresh? ==> exists token :: HadLogin(ss, s.request, token, userId)
  {
    RunIsAccounted(ss);
    AcceptedExactly(RunTo(ss), s, userId, expiry, renewed);
  }

  // ---- What ends a session ----

  ghost predicate NoLoginOf(ss: seq<Statement>, userId: int) {
    forall k :: 0 <= k < |ss| && ss[k].Insert? ==> ss[k].userId != userId
  }

  predicate NoneOf(t: Table, userId: int) {
    forall token | token in t :: t[token].userId != userId
  }

  predicate LetIn(replies: seq<Answer>, userId: int) {
    |replies| == 1 && replies[0].Accepted? && replies[0].userId == userId
  }

  /** No request that asks from now on is let in as the user. */
  predicate NeverLetIn(r: Racing, ss: seq<Statement>, userId: int)
    decreases |ss|
  {
    |ss| > 0 ==>
      && (Asks(r, ss[0]) ==> !LetIn(Reply(r, ss[0]), userId))
      && NeverLetIn(After(r, ss[0]), ss[1..], userId)
  }

  lemma {:induction false} NoneIsNeverLetIn(r: Racing, ss: seq<Statement>, userId: int)
    requires NoneOf(r.table, userId) && NoLoginOf(ss, userId)
    ensures NeverLetIn(r, ss, userId)
    decreases |ss|
  {
    if |ss| == 0 {
    } else {
      assert NoneOf(After(r, ss[0]).table, userId);
      NoneIsNeverLetIn(After(r, ss[0]), ss[1..], userId);
    }
  }

  /** After a password reset no request is let in as the user until the user logs in again, whatever was on its way. */
  lemma ResetEndsSessions(r: Racing, ss: seq<Statement>, userId: int)
    requires NoLoginOf(ss, userId)
    ensures NeverLetIn(After(r, DeleteOfUser(userId)), ss, userId)
    ensures forall token :: token in r.table && r.table[token].userId != userId ==>
              token in After(r, DeleteOfUser(userId)).table
              && After(r, DeleteOfUser(userId)).table[token] == r.table[token]
  {
    NoneIsNeverLetIn(After(r, DeleteOfUser(userId)), ss, userId);
  }

  /** After a logout nobody is let in with the token, in any interleaving, and no other session is touched. */
  lemma LogoutEndsSession(r: Racing, ss: seq<Statement>, s: Statement, token: string)
    requires NotInserted(ss, token)
    requires Asks(Run(After(r, Delete(token)), ss), s) && s.token == token
    ensures Reply(Run(After(r, Delete(token)), ss), s) == [NotFound]
    ensures forall x :: x in r.table && x != token ==>
              x in After(r, Delete(token)).table && After(r, Delete(token)).table[x] == r.table[x]
  {
    Fates.RefreshNeverRevives(After(r, Delete(token)), ss, token);
  }

  /** A sweep deletes the sessions that are over, all of them and no others, and leaves the others as they are. */
  lemma SweepDeletesExactlyTheExpired(r: Racing, now: int)
    ensures var r' := After(r, DeleteExpired(now));
            && r'.pending == r.pending
            && (forall token :: token in r'.table <==> token in r.table && now <= r.table[token].expiresAt)
            && (forall token :: token in r'.table ==> r'.table[token] == r.table[token])
  {
  }
}

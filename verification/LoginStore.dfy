/** logic::base over the two collections it updates in place. */
module LoginStore {
  import opened LoginModel

  class Base {
    const env: Env
    var users: map<Oid, User>
    var emails: map<string, Oid>
    var sessions: map<string, Session>
    var nextOid: Oid
    var ticks: nat
    var draws: nat
    ghost var finished: set<Oid>

    ghost function State(): Store
      reads this
    {
      Store(users, emails, sessions, nextOid, ticks, draws, finished)
    }

    constructor (environment: Env, initialUsers: map<Oid, User>, emailIndex: map<string, Oid>)
      ensures env == environment
      ensures State() == Store(initialUsers, emailIndex, map[], 0, 0, 0, {})
    {
      env := environment;
      users, emails, sessions := initialUsers, emailIndex, map[];
      nextOid, ticks, draws, finished := 0, 0, 0, {};
    }

    method UtcTime() returns (now: nat)
      modifies `ticks
      ensures now == env.time(old(ticks)) && ticks == old(ticks) + 1
    {
      now := env.time(ticks);
      ticks := ticks + 1;
    }

    method GenerateSessionId() returns (sid: string)
      modifies `draws
      ensures sid == env.draw(old(draws)) && draws == old(draws) + 1
    {
      sid := env.draw(draws);
      draws := draws + 1;
    }

    /** The user and the cookie, or what was thrown. */
    method StartSessionForEmail(email: string, password: string) returns (result: Result)
      modifies this
      ensures Done(State(), result) == StartForEmail(env, old(State()), email, password)
    {
      if email !in emails || emails[email] !in users {
        return Thrown(UserNotFound);
      }
      var u := emails[email];
      if users[u].password != password {
        return Thrown(PasswordNotMatch);
      }
      result := StartSession(u, users[u]);
    }

    /** The retry loop: an empty id when it gives up. */
    method NewSessionId() returns (sid: string)
      modifies `draws
      ensures Pick(sid, draws) == PickId(env, sessions, old(draws), env.attempts)
    {
      sid := "";
      var attemptsAvailable := env.attempts;
      var again := true;
      while again
        invariant again ==> PickId(env, sessions, draws, attemptsAvailable)
                            == PickId(env, sessions, old(draws), env.attempts)
        invariant !again ==> Pick(sid, draws) == PickId(env, sessions, old(draws), env.attempts)
        decreases again, if attemptsAvailable > 0 then attemptsAvailable else 0
      {
        attemptsAvailable := attemptsAvailable - 1;
        sid := GenerateSessionId();
        if sid in sessions {
          sid := "";
        }
        again := sid == "" && attemptsAvailable > 0;
      }
    }

    /** start_session_for_obj_without_password_check; `user` is the object that
        was read before. */
    method StartSession(u: Oid, user: User) returns (result: Result)
      requires u in users && user.ref == users[u].ref
      modifies this
      ensures Done(State(), result) == StartForUser(env, old(State()), u)
    {
      var sid := NewSessionId();
      if sid == "" {
        return Thrown(CantStartSession);
      }
      var now := UtcTime();
      var oid := nextOid;
      nextOid := nextOid + 1;
      var session := Session(
        oid, u, now + env.lifetime, now + env.restartAfter, now + env.forgetAfter, now);
      sessions := sessions[sid := session];
      users := users[u := users[u].(sessions := users[u].sessions + [oid], lastVisitAt := now)];
      return Returned(UserRef(user.ref), Cookie(sid, now + env.lifetime));
    }

    method ContinueSession(sid: string) returns (result: Result)
      modifies this
      ensures Done(State(), result) == Continue(env, old(State()), sid)
    {
      if sid in sessions {
        var session := sessions[sid];
        var now := UtcTime();
        if now < session.validUntil {
          if now < session.restartAt {
            users := Visit(users, session.userId, now);
            return Returned(UserId(session.userId), NoCookie);
          }
          result := RestartSession(sid, session);
          return;
        }
      }
      return Thrown(SessionNotFound);
    }

    method FinishSession(sid: string) returns (result: Result)
      modifies this
      ensures Done(State(), result) == Finish(env, old(State()), sid)
    {
      var now := UtcTime();
      if sid !in sessions {
        return Thrown(SessionNotFound);
      }
      var session := sessions[sid];
      sessions := sessions[sid := session.(validUntil := Min(session.validUntil, now))];
      if session.validUntil < now {
        return Thrown(SessionNotFound);
      }
      users := Unregister(users, session.userId, session.oid, now);
      finished := finished + {session.oid};
      return Finished;
    }

    method RestartSession(sid: string, session: Session) returns (result: Result)
      modifies this
      ensures Done(State(), result) == Restart(env, old(State()), sid, session.userId)
    {
      if session.userId !in users {
        return Thrown(UserNotFound);
      }
      var user := users[session.userId];
      result := FinishSession(sid);
      if result.Thrown? {
        return;
      }
      result := StartSession(session.userId, user);
    }
  }
}

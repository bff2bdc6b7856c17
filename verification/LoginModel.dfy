/** logic::base: the login sessions in the two collections, as functions on
    values. The class in LoginStore.dfy is proved against them. */
module LoginModel {

  /** Mongo's _id; unlike a session's session_id it is never shown to a client. */
  type Oid = nat

  datatype User = User(ref: string, password: string, sessions: seq<Oid>, lastVisitAt: nat)

  datatype Session = Session(
    oid: Oid, userId: Oid, validUntil: nat, restartAt: nat, forgetAt: nat, startedAt: nat)

  /** The collections with their unique indexes on email and session_id, how
      many times the clock was read and an id drawn, and which sessions some
      finish_session ended without throwing. */
  datatype Store = Store(
    users: map<Oid, User>,
    emails: map<string, Oid>,
    sessions: map<string, Session>,
    nextOid: Oid,
    ticks: nat,
    draws: nat,
    finished: set<Oid>)

  /** The settings, the n-th reading of the clock and the n-th id drawn. */
  datatype Env = Env(
    lifetime: nat,
    restartAfter: nat,
    forgetAfter: nat,
    attempts: int,
    time: nat -> nat,
    draw: nat -> string)

  ghost predicate Monotone(env: Env) {
    forall i: nat, j: nat :: i <= j ==> env.time(i) <= env.time(j)
  }

  datatype LoginError = UserNotFound | PasswordNotMatch | CantStartSession | SessionNotFound

  /** continue_session returns the user's id, every start the user's ref. */
  datatype Who = UserId(id: Oid) | UserRef(ref: string)

  datatype Cookie = NoCookie | Cookie(sid: string, expires: nat)

  datatype Result = Returned(who: Who, cookie: Cookie) | Finished | Thrown(error: LoginError)

  datatype Done = Done(store: Store, result: Result)

  // ----- start_session -----

  datatype Pick = Pick(sid: string, draws: nat)

  /** The do-while loop: an empty id when no attempt found a new one. */
  function PickId(env: Env, taken: map<string, Session>, k: nat, attempts: int): Pick
    decreases if attempts > 0 then attempts else 0
  {
    var sid := if env.draw(k) in taken then "" else env.draw(k);
    if sid == "" && attempts - 1 > 0 then PickId(env, taken, k + 1, attempts - 1) else Pick(sid, k + 1)
  }

  function NewSession(env: Env, oid: Oid, u: Oid, now: nat): Session {
    Session(oid, u, now + env.lifetime, now + env.restartAfter, now + env.forgetAfter, now)
  }

  /** start_session_for_obj_without_password_check */
  function StartForUser(env: Env, s: Store, u: Oid): Done
    requires u in s.users
  {
    var pick := PickId(env, s.sessions, s.draws, env.attempts);
    if pick.sid == "" then Done(s.(draws := pick.draws), Thrown(CantStartSession))
    else
      var now := env.time(s.ticks);
      var user := s.users[u];
      Done(s.(draws := pick.draws,
              ticks := s.ticks + 1,
              nextOid := s.nextOid + 1,
              sessions := s.sessions[pick.sid := NewSession(env, s.nextOid, u, now)],
              users := s.users[u := user.(sessions := user.sessions + [s.nextOid], lastVisitAt := now)]),
           Returned(UserRef(user.ref), Cookie(pick.sid, now + env.lifetime)))
  }

  /** start_session_for_email */
  function StartForEmail(env: Env, s: Store, email: string, password: string): Done {
    if email !in s.emails || s.emails[email] !in s.users then Done(s, Thrown(UserNotFound))
    else if s.users[s.emails[email]].password != password then Done(s, Thrown(PasswordNotMatch))
    else StartForUser(env, s, s.emails[email])
  }

  // ----- finish_session -----

  /** $pull */
  function Pull(oids: seq<Oid>, oid: Oid): seq<Oid> {
    if oids == [] then []
    else (if oids[0] == oid then [] else [oids[0]]) + Pull(oids[1..], oid)
  }

  function Visit(users: map<Oid, User>, u: Oid, now: nat): map<Oid, User> {
    if u in users then users[u := users[u].(lastVisitAt := now)] else users
  }

  function Unregister(users: map<Oid, User>, u: Oid, oid: Oid, now: nat): map<Oid, User> {
    if u in users then users[u := users[u].(sessions := Pull(users[u].sessions, oid), lastVisitAt := now)]
    else users
  }

  function Min(a: nat, b: nat): nat {
    if a < b then a else b
  }

  /** finish_session: $min comes before the test, on the old value. */
  function Finish(env: Env, s: Store, sid: string): Done {
    var now := env.time(s.ticks);
    var s1 := s.(ticks := s.ticks + 1);
    if sid !in s.sessions then Done(s1, Thrown(SessionNotFound))
    else
      var session := s.sessions[sid];
      var s2 := s1.(sessions := s.sessions[sid := session.(validUntil := Min(session.validUntil, now))]);
      if session.validUntil < now then Done(s2, Thrown(SessionNotFound))
      else Done(s2.(users := Unregister(s.users, session.userId, session.oid, now),
                    finished := s.finished + {session.oid}), Finished)
  }

  // ----- continue_session -----

  /** restart_session: the user object is the one found before the finish. */
  function Restart(env: Env, s: Store, sid: string, u: Oid): Done {
    if u !in s.users then Done(s, Thrown(UserNotFound))
    else
      var f := Finish(env, s, sid);
      if f.result.Thrown? then f else StartForUser(env, f.store, u)
  }

  function Continue(env: Env, s: Store, sid: string): Done {
    if sid !in s.sessions then Done(s, Thrown(SessionNotFound))
    else
      var session := s.sessions[sid];
      var now := env.time(s.ticks);
      var s1 := s.(ticks := s.ticks + 1);
      if now >= session.validUntil then Done(s1, Thrown(SessionNotFound))
      else if now < session.restartAt then
        Done(s1.(users := Visit(s.users, session.userId, now)), Returned(UserId(session.userId), NoCookie))
      else Restart(env, s1, sid, session.userId)
  }

  // ----- Runs -----

  datatype Op =
    | StartOp(email: string, password: string)
    | ContinueOp(sid: string)
    | FinishOp(sid: string)

  function Step(env: Env, s: Store, op: Op): Done {
    match op
    case StartOp(email, password) => StartForEmail(env, s, email, password)
    case ContinueOp(sid) => Continue(env, s, sid)
    case FinishOp(sid) => Finish(env, s, sid)
  }

  function Run(env: Env, s: Store, ops: seq<Op>): Store
    decreases |ops|
  {
    if ops == [] then s else Run(env, Step(env, s, ops[0]).store, ops[1..])
  }

  /** Users and no session yet. */
  predicate IsInitial(s: Store) {
    && s.sessions == map[] && s.finished == {}
    && (forall u :: u in s.users ==> s.users[u].sessions == [])
  }
}

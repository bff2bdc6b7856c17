/** Who gets a session: only an owner of the email who knew the password. */
module LoginStarts {
  import opened LoginModel
  import opened LoginProofs

  // ----- Per call -----

  /** Some user is stored under the email. */
  predicate IsKnownEmail(s: Store, email: string) {
    email in s.emails && s.emails[email] in s.users
  }

  /** The ways start_session_for_email ends, by what is stored. */
  lemma StartVerdict(env: Env, s: Store, email: string, password: string)
    ensures var d := StartForEmail(env, s, email, password);
            && (d.result == Thrown(UserNotFound) <==> !IsKnownEmail(s, email))
            && (d.result == Thrown(PasswordNotMatch) <==>
                  IsKnownEmail(s, email) && s.users[s.emails[email]].password != password)
            && (!IsKnownEmail(s, email) || s.users[s.emails[email]].password != password ==> d.store == s)
            && (d.result.Returned? ==>
                  && IsKnownEmail(s, email) && s.users[s.emails[email]].password == password
                  && d.result.who == UserRef(s.users[s.emails[email]].ref))
            && !d.result.Finished?
  {
    hide PickId;
  }

  /** The ids that a start tries: the first one always, others while attempts
      are left. */
  function Tries(env: Env): nat {
    if env.attempts > 1 then env.attempts else 1
  }

  predicate Usable(taken: map<string, Session>, sid: string) {
    sid != "" && sid !in taken
  }

  /** The retry loop takes the first usable id, or has tried them all. */
  lemma {:induction false} PickedIsFirstUsable(env: Env, taken: map<string, Session>, k: nat, attempts: int)
    ensures var p := PickId(env, taken, k, attempts);
            && k < p.draws <= k + (if attempts > 1 then attempts else 1)
            && (forall i :: k <= i < p.draws - 1 ==> !Usable(taken, env.draw(i)))
            && (Usable(taken, env.draw(p.draws - 1)) <==> p.sid != "")
            && (p.sid != "" ==> p.sid == env.draw(p.draws - 1))
            && (p.sid == "" ==> p.draws == k + (if attempts > 1 then attempts else 1))
    decreases if attempts > 0 then attempts else 0
  {
    if !Usable(taken, env.draw(k)) && attempts > 1 {
      PickedIsFirstUsable(env, taken, k + 1, attempts - 1);
    }
  }

  /** A start fails exactly when all ids it may try are in use. */
  lemma CantStartIff(env: Env, s: Store, u: Oid)
    requires u in s.users
    ensures StartForUser(env, s, u).result == Thrown(CantStartSession) <==>
              forall i :: s.draws <= i < s.draws + Tries(env) ==> !Usable(s.sessions, env.draw(i))
  {
    PickedIsFirstUsable(env, s.sessions, s.draws, env.attempts);
    hide PickId;
  }

  /** Whatever is stored besides: the same session but for what is named. */
  predicate SameBut(s: Store, t: Store, u: Oid) {
    && t.emails == s.emails && t.users.Keys == s.users.Keys
    && (forall v :: v in s.users && v != u ==> t.users[v] == s.users[v])
  }

  /** What a start that succeeds stores and returns. */
  lemma StartStores(env: Env, s: Store, u: Oid)
    requires u in s.users && StartForUser(env, s, u).result.Returned?
    ensures var d, now, user := StartForUser(env, s, u), env.time(s.ticks), s.users[u];
            var sid := d.result.cookie.sid;
            && d.result == Returned(UserRef(user.ref), Cookie(sid, now + env.lifetime)) && sid !in s.sessions
            && d.store.sessions == s.sessions[sid := d.store.sessions[sid]]
            && d.store.sessions[sid].oid == s.nextOid && d.store.sessions[sid].userId == u
            && d.store.sessions[sid].startedAt == now
            && d.store.sessions[sid].validUntil == now + env.lifetime
            && d.store.sessions[sid].restartAt == now + env.restartAfter
            && d.store.sessions[sid].forgetAt == now + env.forgetAfter
            && SameBut(s, d.store, u)
            && d.store.users[u] == User(user.ref, user.password, user.sessions + [s.nextOid], now)
  {
    PickedIsNew(env, s.sessions, s.draws, env.attempts);
    hide PickId;
  }

  /** When finish_session throws, and what it stores. */
  lemma FinishStores(env: Env, s: Store, sid: string)
    requires forall x :: x in s.sessions ==> s.sessions[x].userId in s.users
    ensures var f, now := Finish(env, s, sid), env.time(s.ticks);
            && (f.result == Finished <==> sid in s.sessions && now <= s.sessions[sid].validUntil)
            && (f.result != Finished ==>
                  && f.result == Thrown(SessionNotFound)
                  && f.store.sessions == s.sessions && f.store.users == s.users && f.store.emails == s.emails)
            && (f.result == Finished ==>
                  var x := s.sessions[sid];
                  && f.store.sessions == s.sessions[sid := x.(validUntil := now)]
                  && SameBut(s, f.store, x.userId)
                  && f.store.users[x.userId] == User(
                       s.users[x.userId].ref, s.users[x.userId].password, Pull(s.users[x.userId].sessions, x.oid), now))
  {
    hide Pull;
    if sid in s.sessions && s.sessions[sid].validUntil < env.time(s.ticks) {
      assert s.sessions[sid := s.sessions[sid]] == s.sessions;
    }
  }

  /** A continue without a restart notes the visit and nothing else. */
  lemma ContinueVisits(env: Env, s: Store, sid: string)
    requires Continue(env, s, sid).result.Returned? && Continue(env, s, sid).result.who.UserId?
    requires sid in s.sessions && s.sessions[sid].userId in s.users
    ensures var t, u, now := Continue(env, s, sid).store, s.sessions[sid].userId, env.time(s.ticks);
            && t.sessions == s.sessions && SameBut(s, t, u)
            && t.users[u] == s.users[u].(lastVisitAt := now)
  {
    ContinueReturns(env, s, sid);
    hide Restart;
  }

  // ----- Over runs -----

  /** No step changes an email, a password or a ref. */
  predicate SameAccounts(s: Store, t: Store) {
    && t.emails == s.emails && t.users.Keys == s.users.Keys
    && (forall u :: u in s.users ==> t.users[u].password == s.users[u].password && t.users[u].ref == s.users[u].ref)
  }

  /** `op` is a login of the user `u` with the right password. */
  predicate IsLogin(s: Store, op: Op, u: Oid) {
    && op.StartOp? && op.email in s.emails && s.emails[op.email] == u
    && u in s.users && s.users[u].password == op.password
  }

  lemma StartKeepsAccounts(env: Env, s: Store, u: Oid)
    requires u in s.users
    ensures SameAccounts(s, StartForUser(env, s, u).store)
  {
    hide PickId;
  }

  lemma FinishKeepsAccounts(env: Env, s: Store, sid: string)
    ensures SameAccounts(s, Finish(env, s, sid).store)
  {
    hide Pull;
  }

  lemma AccountsTransitive(s: Store, t: Store, u: Store)
    requires SameAccounts(s, t) && SameAccounts(t, u)
    ensures SameAccounts(s, u)
  {}

  lemma StepKeepsAccounts(env: Env, s: Store, op: Op)
    ensures SameAccounts(s, Step(env, s, op).store)
  {
    hide Finish, StartForUser;
    match op
    case FinishOp(sid) => FinishKeepsAccounts(env, s, sid);
    case StartOp(email, _) =>
      if email in s.emails && s.emails[email] in s.users {
        StartKeepsAccounts(env, s, s.emails[email]);
      }
    case ContinueOp(sid) =>
      var s1 := s.(ticks := s.ticks + 1);
      if sid in s.sessions && s.sessions[sid].userId in s.users {
        var f := Finish(env, s1, sid).store;
        FinishKeepsAccounts(env, s1, sid);
        StartKeepsAccounts(env, f, s.sessions[sid].userId);
        AccountsTransitive(s1, f, StartForUser(env, f, s.sessions[sid].userId).store);
      }
  }

  /** A session in the store after a step was there before, or belongs to the
      user of one that was, or this step is its user's login. */
  lemma StepSessions(env: Env, s: Store, op: Op, sid: string)
    requires sid in Step(env, s, op).store.sessions
    ensures var u := Step(env, s, op).store.sessions[sid].userId;
            IsLogin(s, op, u) || exists other :: other in s.sessions && s.sessions[other].userId == u
  {
    hide PickId, Pull;
    var d := Step(env, s, op);
    var u := d.store.sessions[sid].userId;
    if sid in s.sessions && s.sessions[sid].userId == u {
    } else if op.ContinueOp? {
      ContinuedUser(env, s, op.sid, sid);
    }
  }

  lemma ContinuedUser(env: Env, s: Store, sid: string, new_: string)
    requires new_ in Continue(env, s, sid).store.sessions
    ensures var u := Continue(env, s, sid).store.sessions[new_].userId;
            exists other :: other in s.sessions && s.sessions[other].userId == u
  {
    hide PickId, Pull;
    var u := Continue(env, s, sid).store.sessions[new_].userId;
    if new_ in s.sessions && s.sessions[new_].userId == u {
    } else {
      assert sid in s.sessions && s.sessions[sid].userId == u;
    }
  }

  ghost predicate HasLogin(s: Store, ops: seq<Op>, u: Oid) {
    exists i :: 0 <= i < |ops| && IsLogin(s, ops[i], u)
  }

  lemma {:induction false} RunSessions(env: Env, s: Store, ops: seq<Op>, sid: string)
    requires sid in Run(env, s, ops).sessions
    ensures var u := Run(env, s, ops).sessions[sid].userId;
            HasLogin(s, ops, u) || exists other :: other in s.sessions && s.sessions[other].userId == u
    decreases |ops|
  {
    if ops != [] {
      var s1 := Step(env, s, ops[0]).store;
      RunSessions(env, s1, ops[1..], sid);
      StepKeepsAccounts(env, s, ops[0]);
      var u := Run(env, s, ops).sessions[sid].userId;
      if HasLogin(s1, ops[1..], u) {
        var i :| 0 <= i < |ops[1..]| && IsLogin(s1, ops[1..][i], u);
        assert IsLogin(s, ops[i + 1], u);
      } else {
        var other :| other in s1.sessions && s1.sessions[other].userId == u;
        StepSessions(env, s, ops[0], other);
        assert IsLogin(s, ops[0], u) ==> HasLogin(s, ops, u);
      }
    }
  }

  /** Over any run from users without sessions: every stored session belongs to
      a user who logged in with the email and the password of that user. */
  lemma EverySessionHasALogin(env: Env, s: Store, ops: seq<Op>, sid: string)
    requires IsInitial(s) && sid in Run(env, s, ops).sessions
    ensures var u := Run(env, s, ops).sessions[sid].userId;
            exists i :: 0 <= i < |ops| && ops[i].StartOp? && ops[i].email in s.emails
                     && s.emails[ops[i].email] == u && u in s.users && s.users[u].password == ops[i].password
  {
    RunSessions(env, s, ops, sid);
    var u := Run(env, s, ops).sessions[sid].userId;
    hide Run;
    assert HasLogin(s, ops, u);
  }
}

/** What holds over every run of the login sessions. */
module LoginProofs {
  import opened LoginModel

  // ----- Invariant -----

  predicate NoDup(oids: seq<Oid>) {
    oids == [] || (oids[0] !in Elements(oids[1..]) && NoDup(oids[1..]))
  }

  /** The stored sessions of user `u` that were never finished. */
  function Unfinished(s: Store, u: Oid): set<Oid> {
    set sid | sid in s.sessions && s.sessions[sid].userId == u && s.sessions[sid].oid !in s.finished
      :: s.sessions[sid].oid
  }

  function Elements(oids: seq<Oid>): set<Oid> {
    set o | o in oids
  }

  /** Never later than start plus lifetime; exactly that until it is finished,
      and no later than the last reading of the clock from then on. */
  ghost predicate SessionOk(env: Env, s: Store, sid: string)
    requires sid in s.sessions
  {
    var x := s.sessions[sid];
    && x.oid < s.nextOid && x.userId in s.users
    && x.restartAt == x.startedAt + env.restartAfter
    && x.validUntil <= x.startedAt + env.lifetime
    && (x.oid !in s.finished ==> x.validUntil == x.startedAt + env.lifetime)
    && (x.oid in s.finished ==> x.validUntil <= env.time(s.ticks))
  }

  ghost predicate UserOk(s: Store, u: Oid)
    requires u in s.users
  {
    NoDup(s.users[u].sessions) && Elements(s.users[u].sessions) == Unfinished(s, u)
  }

  ghost predicate SessionsOk(env: Env, s: Store) {
    forall sid :: sid in s.sessions ==> SessionOk(env, s, sid)
  }

  predicate OidsOk(s: Store) {
    && (forall o :: o in s.finished ==> o < s.nextOid)
    && (forall sid, other :: sid in s.sessions && other in s.sessions && sid != other ==>
          s.sessions[sid].oid != s.sessions[other].oid)
  }

  ghost predicate Inv(env: Env, s: Store) {
    && SessionsOk(env, s) && OidsOk(s)
    && (forall u :: u in s.users ==> UserOk(s, u))
  }

  lemma InitialInv(env: Env, s: Store)
    requires IsInitial(s)
    ensures Inv(env, s)
  {
    forall u | u in s.users
      ensures UserOk(s, u)
    {
      assert Elements([]) == {};
      assert Unfinished(s, u) == {};
    }
  }

  lemma ElementsOf(oid: Oid, oids: seq<Oid>)
    ensures Elements([oid] + oids) == {oid} + Elements(oids)
    ensures Elements(oids + [oid]) == Elements(oids) + {oid}
  {}

  lemma {:induction false} PulledElements(oids: seq<Oid>, oid: Oid)
    requires NoDup(oids)
    ensures NoDup(Pull(oids, oid)) && Elements(Pull(oids, oid)) == Elements(oids) - {oid}
  {
    if oids != [] {
      PulledElements(oids[1..], oid);
      ElementsOf(oids[0], oids[1..]);
      ElementsOf(oids[0], Pull(oids[1..], oid));
      hide Elements;
      assert oids == [oids[0]] + oids[1..];
      if oids[0] == oid {
        assert [] + Pull(oids[1..], oid) == Pull(oids[1..], oid);
      } else {
        assert ([oids[0]] + Pull(oids[1..], oid))[1..] == Pull(oids[1..], oid);
      }
    }
  }

  lemma {:induction false} PushedElements(oids: seq<Oid>, oid: Oid)
    requires NoDup(oids) && oid !in Elements(oids)
    ensures NoDup(oids + [oid]) && Elements(oids + [oid]) == Elements(oids) + {oid}
  {
    ElementsOf(oid, oids);
    if oids != [] {
      ElementsOf(oids[0], oids[1..]);
      ElementsOf(oid, oids[1..]);
      PushedElements(oids[1..], oid);
      hide Elements;
      assert oids == [oids[0]] + oids[1..];
      assert (oids + [oid])[1..] == oids[1..] + [oid];
    } else {
      assert ([] + [oid])[1..] == [];
    }
  }

  /** Reading the clock again changes nothing else. */
  lemma TickKeepsInv(env: Env, s: Store)
    requires Monotone(env) && Inv(env, s)
    ensures Inv(env, s.(ticks := s.ticks + 1))
  {
    var s1 := s.(ticks := s.ticks + 1);
    assert env.time(s.ticks) <= env.time(s1.ticks);
    forall u | u in s.users
      ensures UserOk(s1, u)
    {
      assert Unfinished(s1, u) == Unfinished(s, u);
    }
  }

  // ----- start -----

  lemma {:induction false} PickedIsNew(env: Env, taken: map<string, Session>, k: nat, attempts: int)
    ensures var p := PickId(env, taken, k, attempts); p.sid !in taken || p.sid == ""
    decreases if attempts > 0 then attempts else 0
  {
    if (env.draw(k) in taken || env.draw(k) == "") && attempts > 1 {
      PickedIsNew(env, taken, k + 1, attempts - 1);
    }
  }

  lemma StartSessions(env: Env, s: Store, u: Oid)
    requires Monotone(env) && Inv(env, s) && u in s.users && StartForUser(env, s, u).result.Returned?
    ensures var s1 := StartForUser(env, s, u).store; SessionsOk(env, s1) && OidsOk(s1)
  {
    assert env.time(s.ticks) <= env.time(s.ticks + 1);
    PickedIsNew(env, s.sessions, s.draws, env.attempts);
  }

  lemma StartUnfinished(env: Env, s: Store, u: Oid, v: Oid)
    requires Inv(env, s) && u in s.users && v in s.users && StartForUser(env, s, u).result.Returned?
    ensures var s1 := StartForUser(env, s, u).store;
            Unfinished(s1, v) == Unfinished(s, v) + (if u == v then {s.nextOid} else {})
  {
    var s1 := StartForUser(env, s, u).store;
    var sid0 := StartForUser(env, s, u).result.cookie.sid;
    PickedIsNew(env, s.sessions, s.draws, env.attempts);
    assert sid0 !in s.sessions && sid0 in s1.sessions;
    hide PickId;
    forall o | o in Unfinished(s, v)
      ensures o in Unfinished(s1, v)
    {
      var sid :| sid in s.sessions && s.sessions[sid].userId == v && s.sessions[sid].oid == o;
      assert sid in s1.sessions && s1.sessions[sid] == s.sessions[sid];
    }
    forall o | o in Unfinished(s1, v)
      ensures o in Unfinished(s, v) + (if u == v then {s.nextOid} else {})
    {
      var sid :| sid in s1.sessions && s1.sessions[sid].userId == v && s1.sessions[sid].oid == o && o !in s1.finished;
      if sid != sid0 {
        assert sid in s.sessions && s1.sessions[sid] == s.sessions[sid];
      }
    }
    assert s1.sessions[sid0].oid == s.nextOid && s1.sessions[sid0].userId == u;
  }

  lemma StartKeepsInv(env: Env, s: Store, u: Oid)
    requires Monotone(env) && Inv(env, s) && u in s.users
    ensures Inv(env, StartForUser(env, s, u).store)
  {
    var s1 := StartForUser(env, s, u).store;
    if StartForUser(env, s, u).result.Returned? {
      StartSessions(env, s, u);
      assert s1.users.Keys == s.users.Keys;
      forall v | v in s1.users
        ensures UserOk(s1, v)
      {
        StartUnfinished(env, s, u, v);
        assert UserOk(s, v);
        if u == v {
          assert s.nextOid !in Unfinished(s, u);
          PushedElements(s.users[u].sessions, s.nextOid);
        }
        hide Unfinished, NoDup, Elements, SessionOk;
      }
    } else {
      forall v | v in s1.users
        ensures UserOk(s1, v)
      {
        assert UserOk(s, v) && Unfinished(s1, v) == Unfinished(s, v);
      }
    }
  }

  // ----- finish -----

  lemma FinishOneSession(env: Env, s: Store, sid0: string, sid: string)
    requires Monotone(env) && Inv(env, s) && sid in s.sessions
    ensures var s1 := Finish(env, s, sid0).store; sid in s1.sessions && SessionOk(env, s1, sid)
  {
    assert SessionOk(env, s, sid) && env.time(s.ticks) <= env.time(s.ticks + 1);
    if sid != sid0 && sid0 in s.sessions {
      assert s.sessions[sid].oid != s.sessions[sid0].oid;
    }
    hide UserOk, OidsOk, SessionsOk, Pull;
  }

  lemma FinishOids(env: Env, s: Store, sid0: string)
    requires Inv(env, s)
    ensures var s1 := Finish(env, s, sid0).store;
            OidsOk(s1) && s1.users.Keys == s.users.Keys && s1.sessions.Keys == s.sessions.Keys
  {
    var s1 := Finish(env, s, sid0).store;
    hide UserOk, Pull;
    assert s1.sessions.Keys == s.sessions.Keys;
    assert sid0 in s.sessions ==> SessionOk(env, s, sid0);
    assert forall sid :: sid in s.sessions ==> s1.sessions[sid].oid == s.sessions[sid].oid;
  }

  lemma FinishSessions(env: Env, s: Store, sid0: string)
    requires Monotone(env) && Inv(env, s)
    ensures var s1 := Finish(env, s, sid0).store;
            SessionsOk(env, s1) && OidsOk(s1) && s1.users.Keys == s.users.Keys
  {
    FinishOids(env, s, sid0);
    hide Finish, OidsOk, SessionOk;
    forall sid | sid in s.sessions
      ensures var s1 := Finish(env, s, sid0).store; sid in s1.sessions && SessionOk(env, s1, sid)
    {
      FinishOneSession(env, s, sid0, sid);
    }
  }

  lemma FinishUnfinished(env: Env, s: Store, sid0: string, v: Oid)
    requires Inv(env, s)
    ensures var f := Finish(env, s, sid0);
            var gone := if f.result.Finished? then {s.sessions[sid0].oid} else {};
            Unfinished(f.store, v) == Unfinished(s, v) - gone
  {
    var f := Finish(env, s, sid0);
    var gone := if f.result.Finished? then {s.sessions[sid0].oid} else {};
    assert f.store.finished == s.finished + gone;
    forall o | o in Unfinished(s, v) - gone
      ensures o in Unfinished(f.store, v)
    {
      var sid :| sid in s.sessions && s.sessions[sid].userId == v && s.sessions[sid].oid == o;
      assert sid in f.store.sessions && f.store.sessions[sid].oid == o && f.store.sessions[sid].userId == v;
    }
    forall o | o in Unfinished(f.store, v)
      ensures o in Unfinished(s, v) - gone
    {
      var sid :| sid in f.store.sessions && f.store.sessions[sid].userId == v && f.store.sessions[sid].oid == o;
      assert sid in s.sessions && s.sessions[sid].oid == o && s.sessions[sid].userId == v;
    }
  }

  lemma OtherUsersSession(env: Env, s: Store, sid0: string, v: Oid)
    requires Inv(env, s) && sid0 in s.sessions && s.sessions[sid0].userId != v
    ensures s.sessions[sid0].oid !in Unfinished(s, v)
  {}

  lemma FinishKeepsInv(env: Env, s: Store, sid0: string)
    requires Monotone(env) && Inv(env, s)
    ensures Inv(env, Finish(env, s, sid0).store)
    ensures Finish(env, s, sid0).store.users.Keys == s.users.Keys
  {
    var f := Finish(env, s, sid0);
    FinishSessions(env, s, sid0);
    forall v | v in f.store.users
      ensures UserOk(f.store, v)
    {
      FinishUnfinished(env, s, sid0, v);
      assert UserOk(s, v);
      if f.result.Finished? {
        PulledElements(s.users[v].sessions, s.sessions[sid0].oid);
        if s.sessions[sid0].userId != v {
          OtherUsersSession(env, s, sid0, v);
        }
      }
      hide Unfinished, NoDup, Elements, SessionOk;
    }
  }

  // ----- every operation -----

  lemma VisitKeepsInv(env: Env, s: Store, u: Oid, now: nat)
    requires Inv(env, s)
    ensures Inv(env, s.(users := Visit(s.users, u, now)))
  {
    var s1 := s.(users := Visit(s.users, u, now));
    assert s1.users.Keys == s.users.Keys;
    forall sid | sid in s1.sessions
      ensures SessionOk(env, s1, sid)
    {
      assert SessionOk(env, s, sid);
    }
    forall v | v in s1.users
      ensures UserOk(s1, v)
    {
      assert UserOk(s, v) && s1.users[v].sessions == s.users[v].sessions;
      assert Unfinished(s1, v) == Unfinished(s, v);
    }
  }

  lemma StepKeepsInv(env: Env, s: Store, op: Op)
    requires Monotone(env) && Inv(env, s)
    ensures Inv(env, Step(env, s, op).store)
  {
    hide Inv, Finish, StartForUser;
    match op
    case FinishOp(sid) => FinishKeepsInv(env, s, sid);
    case StartOp(email, _) =>
      if email in s.emails && s.emails[email] in s.users {
        StartKeepsInv(env, s, s.emails[email]);
      }
    case ContinueOp(sid) =>
      TickKeepsInv(env, s);
      var s1 := s.(ticks := s.ticks + 1);
      if sid in s.sessions {
        var u := s.sessions[sid].userId;
        VisitKeepsInv(env, s1, u, env.time(s.ticks));
        FinishKeepsInv(env, s1, sid);
        if u in Finish(env, s1, sid).store.users {
          StartKeepsInv(env, Finish(env, s1, sid).store, u);
        }
      }
  }

  /** Over every run the users' session lists and the stored sessions agree. */
  lemma {:induction false} RunKeepsInv(env: Env, s: Store, ops: seq<Op>)
    requires Monotone(env) && Inv(env, s)
    ensures Inv(env, Run(env, s, ops))
    decreases |ops|
  {
    if ops != [] {
      StepKeepsInv(env, s, ops[0]);
      RunKeepsInv(env, Step(env, s, ops[0]).store, ops[1..]);
    }
  }

  /** After any operations on users without sessions: a user's list is exactly
      that user's stored sessions that were never finished, each once, and no
      session outlives its lifetime. */
  lemma IndexAgreement(env: Env, s: Store, ops: seq<Op>)
    requires Monotone(env) && IsInitial(s)
    ensures var t := Run(env, s, ops);
            && (forall u :: u in t.users ==>
                  NoDup(t.users[u].sessions) && Elements(t.users[u].sessions) == Unfinished(t, u))
            && (forall sid :: sid in t.sessions ==>
                  t.sessions[sid].validUntil <= t.sessions[sid].startedAt + env.lifetime)
  {
    InitialInv(env, s);
    RunKeepsInv(env, s, ops);
    var t := Run(env, s, ops);
    hide Run, NoDup, Elements, Unfinished;
    forall u | u in t.users
      ensures NoDup(t.users[u].sessions) && Elements(t.users[u].sessions) == Unfinished(t, u)
    {
      assert UserOk(t, u);
    }
    forall sid | sid in t.sessions
      ensures t.sessions[sid].validUntil <= t.sessions[sid].startedAt + env.lifetime
    {
      assert SessionOk(env, t, sid);
    }
  }

  // ----- What never comes back -----

  predicate SessionLater(x: Session, y: Session) {
    y == x.(validUntil := y.validUntil) && y.validUntil <= x.validUntil
  }

  /** `t` can come after `s`: no session is lost, reassigned or prolonged. */
  ghost predicate Later(s: Store, t: Store) {
    && s.ticks <= t.ticks && s.nextOid <= t.nextOid && s.finished <= t.finished
    && (forall sid :: sid in s.sessions ==> sid in t.sessions && SessionLater(s.sessions[sid], t.sessions[sid]))
  }

  lemma LaterTransitive(s: Store, t: Store, u: Store)
    requires Later(s, t) && Later(t, u)
    ensures Later(s, u)
  {
    forall sid | sid in s.sessions
      ensures sid in u.sessions && SessionLater(s.sessions[sid], u.sessions[sid])
    {
      assert sid in t.sessions && SessionLater(s.sessions[sid], t.sessions[sid]);
      assert sid in u.sessions && SessionLater(t.sessions[sid], u.sessions[sid]);
    }
  }

  lemma StartIsLater(env: Env, s: Store, u: Oid)
    requires u in s.users
    ensures Later(s, StartForUser(env, s, u).store)
  {
    PickedIsNew(env, s.sessions, s.draws, env.attempts);
  }

  lemma FinishIsLater(env: Env, s: Store, sid: string)
    ensures Later(s, Finish(env, s, sid).store)
    ensures Finish(env, s, sid).store.users.Keys == s.users.Keys
  {}

  lemma StepIsLater(env: Env, s: Store, op: Op)
    ensures Later(s, Step(env, s, op).store)
  {
    hide Finish, StartForUser;
    match op
    case FinishOp(sid) => FinishIsLater(env, s, sid);
    case StartOp(email, _) =>
      if email in s.emails && s.emails[email] in s.users {
        StartIsLater(env, s, s.emails[email]);
      }
    case ContinueOp(sid) =>
      var s1 := s.(ticks := s.ticks + 1);
      if sid in s.sessions && s.sessions[sid].userId in s.users {
        FinishIsLater(env, s1, sid);
        var f := Finish(env, s1, sid).store;
        StartIsLater(env, f, s.sessions[sid].userId);
        LaterTransitive(s, s1, f);
        LaterTransitive(s, f, StartForUser(env, f, s.sessions[sid].userId).store);
      }
  }

  /** Over any run a session's valid_until never grows. */
  lemma {:induction false} RunIsLater(env: Env, s: Store, ops: seq<Op>)
    ensures Later(s, Run(env, s, ops))
    decreases |ops|
  {
    if ops != [] {
      var s1 := Step(env, s, ops[0]).store;
      StepIsLater(env, s, ops[0]);
      RunIsLater(env, s1, ops[1..]);
      LaterTransitive(s, s1, Run(env, s1, ops[1..]));
    }
  }

  /** Never finished and, counted from its start, its lifetime not over. */
  ghost predicate Alive(env: Env, s: Store, sid: string, now: nat) {
    sid in s.sessions && s.sessions[sid].oid !in s.finished && now < s.sessions[sid].startedAt + env.lifetime
  }

  /** continue_session knows a session exactly while it is alive and, when it
      is due for a restart, the finish that follows still finds it valid. */
  lemma {:induction false} ContinuedIffAlive(env: Env, s: Store, sid: string)
    requires Monotone(env) && Inv(env, s)
    ensures var now, later := env.time(s.ticks), env.time(s.ticks + 1);
            && (Continue(env, s, sid).result != Thrown(SessionNotFound) <==>
                  && Alive(env, s, sid, now)
                  && (now < s.sessions[sid].startedAt + env.restartAfter
                      || later <= s.sessions[sid].startedAt + env.lifetime))
            && (Alive(env, s, sid, now) && now < s.sessions[sid].startedAt + env.restartAfter ==>
                  Continue(env, s, sid).result == Returned(UserId(s.sessions[sid].userId), NoCookie))
  {
    if sid in s.sessions {
      assert SessionOk(env, s, sid);
      var s1 := s.(ticks := s.ticks + 1);
      hide Inv, StartForUser, Unregister, Visit;
      FinishIsLater(env, s1, sid);
      if s.sessions[sid].userId in Finish(env, s1, sid).store.users {
        StartThrows(env, Finish(env, s1, sid).store, s.sessions[sid].userId);
      }
    }
  }

  lemma StartThrows(env: Env, s: Store, u: Oid)
    requires u in s.users
    ensures StartForUser(env, s, u).result != Thrown(SessionNotFound)
  {}

  /** The id a step issued, if it issued one. */
  function Issued(d: Done): Cookie {
    if d.result.Returned? then d.result.cookie else NoCookie
  }

  lemma StartIssuesNew(env: Env, s: Store, u: Oid)
    requires u in s.users
    ensures var c := Issued(StartForUser(env, s, u));
            c.Cookie? ==> c.sid !in s.sessions && c.sid != ""
  {
    PickedIsNew(env, s.sessions, s.draws, env.attempts);
  }

  /** No operation issues an id that a session, dead or alive, has had. */
  lemma IssuedIsNew(env: Env, s: Store, op: Op)
    ensures var c := Issued(Step(env, s, op)); c.Cookie? ==> c.sid !in s.sessions && c.sid != ""
  {
    hide Finish, StartForUser, PickId;
    match op
    case FinishOp(sid) =>
      assert !Finish(env, s, sid).result.Returned? by { FinishReturnsNothing(env, s, sid); }
    case StartOp(email, _) =>
      if email in s.emails && s.emails[email] in s.users {
        StartIssuesNew(env, s, s.emails[email]);
      }
    case ContinueOp(sid) =>
      var s1 := s.(ticks := s.ticks + 1);
      FinishReturnsNothing(env, s1, sid);
      if sid in s.sessions && s.sessions[sid].userId in s.users {
        FinishIsLater(env, s1, sid);
        StartIssuesNew(env, Finish(env, s1, sid).store, s.sessions[sid].userId);
      }
  }

  lemma FinishReturnsNothing(env: Env, s: Store, sid: string)
    ensures !Finish(env, s, sid).result.Returned?
  {}

  /** Session death is permanent: once a finish at time t did not throw, after
      any further operations every continue throws, so does every finish later
      than t, and no operation issues the id again. */
  lemma DeathIsPermanent(env: Env, s: Store, sid: string, ops: seq<Op>, op: Op)
    requires Monotone(env) && Finish(env, s, sid).result.Finished?
    ensures var s1 := Run(env, Finish(env, s, sid).store, ops);
            && Continue(env, s1, sid).result == Thrown(SessionNotFound)
            && (env.time(s1.ticks) > env.time(s.ticks) ==> Finish(env, s1, sid).result == Thrown(SessionNotFound))
            && (Issued(Step(env, s1, op)).Cookie? ==> Issued(Step(env, s1, op)).sid != sid)
  {
    var f := Finish(env, s, sid).store;
    RunIsLater(env, f, ops);
    var s1 := Run(env, f, ops);
    assert sid in f.sessions && f.sessions[sid].validUntil <= env.time(s.ticks);
    assert SessionLater(f.sessions[sid], s1.sessions[sid]);
    assert s.ticks <= s1.ticks && env.time(s.ticks) <= env.time(s1.ticks);
    IssuedIsNew(env, s1, op);
    hide Run, Step, Restart;
  }

  /** A session whose valid_until is `t`, which is not ahead of the clock. */
  predicate EndedAt(env: Env, s: Store, sid: string, t: nat) {
    sid in s.sessions && s.sessions[sid].validUntil == t && t <= env.time(s.ticks)
  }

  lemma FinishKeepsEnd(env: Env, s: Store, sid: string, t: nat, other: string)
    requires Monotone(env) && EndedAt(env, s, sid, t)
    ensures EndedAt(env, Finish(env, s, other).store, sid, t)
  {
    assert env.time(s.ticks) <= env.time(s.ticks + 1);
  }

  lemma StartKeepsEnd(env: Env, s: Store, sid: string, t: nat, u: Oid)
    requires Monotone(env) && EndedAt(env, s, sid, t) && u in s.users
    ensures EndedAt(env, StartForUser(env, s, u).store, sid, t)
  {
    assert env.time(s.ticks) <= env.time(s.ticks + 1);
    PickedIsNew(env, s.sessions, s.draws, env.attempts);
  }

  lemma StepKeepsEnd(env: Env, s: Store, sid: string, t: nat, op: Op)
    requires Monotone(env) && EndedAt(env, s, sid, t)
    ensures EndedAt(env, Step(env, s, op).store, sid, t)
  {
    hide Finish, StartForUser;
    match op
    case FinishOp(other) => FinishKeepsEnd(env, s, sid, t, other);
    case StartOp(email, _) =>
      if email in s.emails && s.emails[email] in s.users {
        StartKeepsEnd(env, s, sid, t, s.emails[email]);
      }
    case ContinueOp(other) =>
      var s1 := s.(ticks := s.ticks + 1);
      assert env.time(s.ticks) <= env.time(s1.ticks);
      FinishKeepsEnd(env, s1, sid, t, other);
      FinishIsLater(env, s1, other);
      if other in s.sessions && s.sessions[other].userId in s.users {
        StartKeepsEnd(env, Finish(env, s1, other).store, sid, t, s.sessions[other].userId);
      }
  }

  lemma {:induction false} RunKeepsEnd(env: Env, s: Store, sid: string, t: nat, ops: seq<Op>)
    requires Monotone(env) && EndedAt(env, s, sid, t)
    ensures EndedAt(env, Run(env, s, ops), sid, t)
    decreases |ops|
  {
    if ops != [] {
      StepKeepsEnd(env, s, sid, t, ops[0]);
      RunKeepsEnd(env, Step(env, s, ops[0]).store, sid, t, ops[1..]);
    }
  }

  /** A session finished at time t: whatever happened since, finishing it again
      throws exactly when the clock has gone past t. */
  lemma FinishAgainIff(env: Env, s: Store, sid: string, ops: seq<Op>)
    requires Monotone(env) && Finish(env, s, sid).result.Finished?
    ensures var s1 := Run(env, Finish(env, s, sid).store, ops);
            && (Finish(env, s1, sid).result.Thrown? <==> env.time(s1.ticks) > env.time(s.ticks))
            && (Finish(env, s1, sid).result.Finished? <==> env.time(s1.ticks) == env.time(s.ticks))
  {
    var f := Finish(env, s, sid).store;
    assert env.time(s.ticks) <= env.time(s.ticks + 1);
    RunKeepsEnd(env, f, sid, env.time(s.ticks), ops);
    hide Run;
  }

  /** A user with one session, valid until 9 and due for a restart at 5; the
      clock stands at `now`. */
  function OneSession(now: nat): (Env, Store) {
    (Env(9, 5, 9, 1, _ => now, _ => "new"),
     Store(map[1 := User("ref", "", [0], 0)], map["email" := 1], map["sid" := Session(0, 1, 9, 5, 9, 0)],
           1, 0, 0, {}))
  }

  lemma OneSessionInv(now: nat)
    ensures var (env, s) := OneSession(now); Monotone(env) && Inv(env, s)
  {
    var (env, s) := OneSession(now);
    assert Unfinished(s, 1) == {0} by {
      assert s.sessions["sid"].oid in Unfinished(s, 1);
    }
    assert Elements([0]) == {0} && NoDup([0]);
    assert UserOk(s, 1);
  }

  /** Finished twice without an exception, on a clock that stands still. */
  lemma FinishedTwice() returns (env: Env, s: Store)
    ensures Monotone(env) && Inv(env, s)
    ensures Finish(env, s, "sid").result.Finished?
    ensures Finish(env, Finish(env, s, "sid").store, "sid").result.Finished?
  {
    OneSessionInv(6);
    env, s := OneSession(6).0, OneSession(6).1;
  }

  // ----- restart -----

  lemma UserCount(env: Env, s: Store, u: Oid)
    requires Inv(env, s) && u in s.users
    ensures |s.users[u].sessions| == |Unfinished(s, u)|
  {
    assert UserOk(s, u);
    ElementsCount(s.users[u].sessions);
  }

  lemma {:induction false} ElementsCount(oids: seq<Oid>)
    requires NoDup(oids)
    ensures |Elements(oids)| == |oids|
  {
    if oids != [] {
      ElementsOf(oids[0], oids[1..]);
      ElementsCount(oids[1..]);
      hide Elements;
      assert oids == [oids[0]] + oids[1..];
    }
  }

  lemma MemberOfUnfinished(s: Store, sid: string)
    requires sid in s.sessions && s.sessions[sid].oid !in s.finished
    ensures s.sessions[sid].oid in Unfinished(s, s.sessions[sid].userId)
  {}

  lemma SwapKeepsCount(a: set<Oid>, gone: Oid, new_: Oid)
    requires gone in a && new_ !in a
    ensures |(a - {gone}) + {new_}| == |a|
  {}

  lemma RestartUnfinished(env: Env, s: Store, sid: string, u: Oid, v: Oid)
    requires Monotone(env) && Inv(env, s) && v in s.users
    requires sid in s.sessions && s.sessions[sid].userId == u
    ensures var r, gone := Restart(env, s, sid, u), s.sessions[sid].oid;
            if r.result.Thrown? then Unfinished(r.store, v) <= Unfinished(s, v)
            else Unfinished(r.store, v) == (Unfinished(s, v) - {gone}) + (if u == v then {s.nextOid} else {})
  {
    assert SessionOk(env, s, sid);
    var f := Finish(env, s, sid);
    FinishKeepsInv(env, s, sid);
    FinishUnfinished(env, s, sid, v);
    FinishReturnsNothing(env, s, sid);
    assert f.store.nextOid == s.nextOid;
    var d := StartForUser(env, f.store, u);
    assert d.result.Returned? || d.result.Thrown?;
    assert d.result.Thrown? ==> Unfinished(d.store, v) == Unfinished(f.store, v);
    hide Finish, StartForUser, Unfinished, Inv;
    if d.result.Returned? {
      StartUnfinished(env, f.store, u, v);
    }
  }

  /** A restart that succeeds swaps the old session for one new session of the
      same user, so nobody's count of unfinished sessions changes; one that
      throws adds no session to anybody. */
  lemma RestartConserves(env: Env, s: Store, sid: string, u: Oid, v: Oid)
    requires Monotone(env) && Inv(env, s) && v in s.users
    requires sid in s.sessions && s.sessions[sid].userId == u && s.sessions[sid].oid !in s.finished
    ensures var r, gone := Restart(env, s, sid, u), s.sessions[sid].oid;
            if r.result.Thrown? then Unfinished(r.store, v) <= Unfinished(s, v)
            else
              && Unfinished(r.store, v) == (if v == u then (Unfinished(s, u) - {gone}) + {s.nextOid}
                                            else Unfinished(s, v))
              && |Unfinished(r.store, v)| == |Unfinished(s, v)|
  {
    RestartUnfinished(env, s, sid, u, v);
    MemberOfUnfinished(s, sid);
    NextOidIsNew(env, s, v);
    var gone := s.sessions[sid].oid;
    if u != v {
      OtherUsersSession(env, s, sid, v);
      assert (Unfinished(s, v) - {gone}) + {} == Unfinished(s, v);
    } else {
      hide *;
      SwapKeepsCount(Unfinished(s, u), gone, s.nextOid);
    }
  }

  lemma NextOidIsNew(env: Env, s: Store, v: Oid)
    requires Inv(env, s)
    ensures s.nextOid !in Unfinished(s, v)
  {}

  /** The session a successful restart leaves behind. */
  lemma RestartStartsAnew(env: Env, s: Store, sid: string, u: Oid)
    requires Monotone(env) && Inv(env, s) && sid in s.sessions && s.sessions[sid].userId == u
    requires Restart(env, s, sid, u).result.Returned?
    ensures var r := Restart(env, s, sid, u);
            && r.result.who == UserRef(s.users[u].ref) && r.result.cookie.Cookie?
            && r.result.cookie.sid !in s.sessions && r.result.cookie.sid in r.store.sessions
            && r.store.sessions[r.result.cookie.sid] == NewSession(env, s.nextOid, u, env.time(s.ticks + 1))
            && s.sessions[sid].oid in r.store.finished
            && r.store.sessions[sid].validUntil <= env.time(s.ticks)
  {
    FinishReturnsNothing(env, s, sid);
    var f := Finish(env, s, sid).store;
    PickedIsNew(env, f.sessions, f.draws, env.attempts);
    hide PickId;
  }

  // ----- continue, with its restart -----

  /** What continue_session returns: the user's id and no cookie before the
      restart is due, the user's ref and a new cookie from then on. */
  lemma {:induction false} ContinueReturns(env: Env, s: Store, sid: string)
    requires Continue(env, s, sid).result.Returned?
    ensures sid in s.sessions
    ensures var r, x := Continue(env, s, sid).result, s.sessions[sid];
            && (r.who.UserId? <==> env.time(s.ticks) < x.restartAt)
            && (r.who.UserId? ==> r == Returned(UserId(x.userId), NoCookie))
            && (r.who.UserRef? ==>
                  x.userId in s.users && r.who == UserRef(s.users[x.userId].ref) && r.cookie.Cookie?)
  {
    var s1 := s.(ticks := s.ticks + 1);
    if env.time(s.ticks) >= s.sessions[sid].restartAt {
      FinishReturnsNothing(env, s1, sid);
      FinishKeepsRefs(env, s1, sid, s.sessions[sid].userId);
    }
    hide Finish, PickId;
  }

  lemma FinishKeepsRefs(env: Env, s: Store, sid: string, u: Oid)
    requires u in s.users
    ensures var f := Finish(env, s, sid).store; u in f.users && f.users[u].ref == s.users[u].ref
  {}

  /** Not the user's id, which the comment on the function promises: a session
      due for its restart. */
  lemma ContinueReturnsRef() returns (env: Env, s: Store)
    ensures Monotone(env) && Inv(env, s)
    ensures "sid" in s.sessions && s.sessions["sid"].userId == 1
    ensures Continue(env, s, "sid").result == Returned(UserRef("ref"), Cookie("new", 15))
  {
    OneSessionInv(6);
    env, s := OneSession(6).0, OneSession(6).1;
    assert "new" != "sid" by {
      assert "new"[0] != "sid"[0];
    }
    assert PickId(env, s.sessions, 0, env.attempts) == Pick("new", 1);
  }

  lemma NotFinishedYet(env: Env, s: Store, sid: string)
    requires Inv(env, s) && sid in s.sessions && env.time(s.ticks) < s.sessions[sid].validUntil
    ensures s.sessions[sid].oid !in s.finished && s.sessions[sid].userId in s.users
  {
    assert SessionOk(env, s, sid);
  }

  lemma TickKeepsUnfinished(s: Store, v: Oid)
    ensures Unfinished(s.(ticks := s.ticks + 1), v) == Unfinished(s, v)
  {}

  lemma VisitKeepsUnfinished(s: Store, users: map<Oid, User>, v: Oid)
    ensures Unfinished(s.(ticks := s.ticks + 1, users := users), v) == Unfinished(s, v)
  {}

  /** The session is valid and due for its restart. */
  predicate RestartDue(env: Env, s: Store, sid: string) {
    && sid in s.sessions
    && s.sessions[sid].restartAt <= env.time(s.ticks) < s.sessions[sid].validUntil
  }

  lemma ContinueRestarts(env: Env, s: Store, sid: string)
    requires RestartDue(env, s, sid)
    ensures Continue(env, s, sid) == Restart(env, s.(ticks := s.ticks + 1), sid, s.sessions[sid].userId)
  {
    hide Restart;
  }

  lemma ContinueStays(env: Env, s: Store, sid: string, v: Oid)
    requires !RestartDue(env, s, sid)
    ensures Unfinished(Continue(env, s, sid).store, v) == Unfinished(s, v)
    ensures Continue(env, s, sid).result.Returned? ==>
              sid in s.sessions && env.time(s.ticks) < s.sessions[sid].restartAt
  {
    TickKeepsUnfinished(s, v);
    if sid in s.sessions {
      VisitKeepsUnfinished(s, Visit(s.users, s.sessions[sid].userId, env.time(s.ticks)), v);
    }
    hide Restart, Unfinished, Visit;
  }

  /** Restart conservation: a continue that restarts the session swaps it for
      one new session of the same user; one that returns without a restart
      leaves every user's unfinished sessions alone; one that throws adds none. */
  lemma ContinueConserves(env: Env, s: Store, sid: string, v: Oid)
    requires Monotone(env) && Inv(env, s) && v in s.users
    ensures var c := Continue(env, s, sid);
            && (c.result.Thrown? ==> Unfinished(c.store, v) <= Unfinished(s, v))
            && (c.result.Returned? ==>
                  && |Unfinished(c.store, v)| == |Unfinished(s, v)|
                  && sid in s.sessions
                  && var x := s.sessions[sid];
                     Unfinished(c.store, v) ==
                       if x.restartAt <= env.time(s.ticks) && x.userId == v
                       then (Unfinished(s, v) - {x.oid}) + {s.nextOid} else Unfinished(s, v))
  {
    if RestartDue(env, s, sid) {
      ContinueRestarts(env, s, sid);
      NotFinishedYet(env, s, sid);
      TickKeepsInv(env, s);
      TickKeepsUnfinished(s, v);
      hide *;
      RestartConserves(env, s.(ticks := s.ticks + 1), sid, s.sessions[sid].userId, v);
    } else {
      ContinueStays(env, s, sid, v);
      hide *;
    }
  }

  /** The session that a restarting continue leaves behind: a fresh id, valid
      for a whole lifetime from the time of its start, the old session dead. */
  lemma ContinueStartsAnew(env: Env, s: Store, sid: string)
    requires Monotone(env) && Inv(env, s) && Continue(env, s, sid).result.Returned?
    requires env.time(s.ticks) >= s.sessions[sid].restartAt
    ensures var c, u := Continue(env, s, sid), s.sessions[sid].userId;
            && c.result.cookie.Cookie?
            && c.result.cookie.sid !in s.sessions && c.result.cookie.sid in c.store.sessions
            && c.store.sessions[c.result.cookie.sid] == NewSession(env, s.nextOid, u, env.time(s.ticks + 2))
            && s.sessions[sid].oid in c.store.finished
            && c.store.sessions[sid].validUntil <= env.time(s.ticks + 1)
  {
    TickKeepsInv(env, s);
    RestartStartsAnew(env, s.(ticks := s.ticks + 1), sid, s.sessions[sid].userId);
    hide Restart, Inv, NewSession;
  }
}

/** The WebAuthn ceremonies over any number of sessions: single-use challenges, the sign
    counter (sections 6.1.1 and 7.2 of WebAuthn Level 2) and enrollment by token.  The
    signature verifiers are parameters. */
module Ceremonies {
  import opened Wrappers
  import opened Base64Url
  import E = Enrollment

  type Bytes = seq<Byte>

  // ----- state ------------------------------------------------------------------------------

  /** A session's challenge for one of the two ceremonies. */
  datatype Slot = Slot(session: Id, registration: bool)

  datatype Credential = Credential(user: Id, publicKey: int, signCount: nat)

  /** What the browser returns; a missing "id" member is None.  `challenge` is the challenge
      inside the signed client data. */
  datatype Assertion = Assertion(id: Option<string>, userHandle: Option<string>, challenge: Bytes, signature: int)

  datatype NewKey = NewKey(id: Bytes, publicKey: int, signCount: nat)

  /** The verification library and the text form of user ids. */
  datatype Env = Env(
    verifyAssertion: (Assertion, Bytes, int, nat) -> Option<nat>,
    verifyAttestation: (Assertion, Bytes) -> Option<NewKey>,
    userText: Id -> Bytes,
    verifyToken: E.Verify)

  /** Both verifiers accept only the challenge they were told to expect. */
  ghost predicate ChecksChallenge(env: Env) {
    && (forall a, c, k, n :: env.verifyAssertion(a, c, k, n).Some? ==> a.challenge == c)
    && (forall a, c :: env.verifyAttestation(a, c).Some? ==> a.challenge == c)
  }

  /** `issued` and `accepted` are history: challenges handed out, and responses accepted. */
  datatype Db = Db(
    challenges: map<Slot, string>, enrolling: map<Id, Id>, active: map<Id, bool>,
    creds: map<Bytes, Credential>, tokens: seq<E.Token>,
    issued: set<Bytes>, accepted: seq<Assertion>)

  datatype Outcome = Started | Accepted(user: Id) | Refused | Crashed

  // ----- specification ------------------------------------------------------------------------

  function Put(db: Db, slot: Slot, c: Bytes): Db {
    db.(challenges := db.challenges[slot := Encode(c)], issued := db.issued + {c})
  }

  function Pop(db: Db, slot: Slot): Db {
    db.(challenges := db.challenges - {slot})
  }

  function StartAuth(db: Db, session: Id, c: Bytes): Db { Put(db, Slot(session, false), c) }

  /** The clone check of the service: a positive stored counter must grow. */
  predicate Regressed(stored: nat, received: nat) { stored > 0 && received <= stored }

  /** A crash leaves the session unsaved, so nothing has changed; a refusal has popped the
      challenge. */
  function FinishAuth(db: Db, session: Id, a: Assertion, env: Env): (Db, Outcome) {
    var slot := Slot(session, false);
    if slot !in db.challenges || db.challenges[slot] == "" then (Pop(db, slot), Refused) else
      var popped := Pop(db, slot);
      var challenge := Decode(db.challenges[slot]);
      if challenge.None? || a.id.None? || Decode(a.id.value).None? then (db, Crashed) else
        var id := Decode(a.id.value).value;
        if id !in db.creds then (popped, Refused) else
          var cred := db.creds[id];
          if cred.user !in db.active || !db.active[cred.user] then (popped, Refused)
          else if a.userHandle.None? || a.userHandle.value == "" then (popped, Refused)
          else if Decode(a.userHandle.value) != Some(env.userText(cred.user)) then (popped, Refused) else
            var verified := env.verifyAssertion(a, challenge.value, cred.publicKey, cred.signCount);
            if verified.None? || Regressed(cred.signCount, verified.value) then (popped, Refused)
            else (popped.(creds := popped.creds[id := cred.(signCount := verified.value)],
                          accepted := popped.accepted + [a]), Accepted(cred.user))
  }

  function StartReg(db: Db, session: Id, raw: string, c: Bytes, now: int, env: Env): (Db, Outcome) {
    match E.Lookup(db.tokens, raw, now, env.verifyToken)
    case None => (db, Refused)
    case Some(i) =>
      (Put(db, Slot(session, true), c).(enrolling := db.enrolling[session := db.tokens[i].user]), Started)
  }

  /** finish_registration(): the credential of a verified response to the session's challenge. */
  function FinishKey(db: Db, session: Id, a: Assertion, env: Env): (Db, Outcome) {
    var slot := Slot(session, true);
    var popped := Pop(db, slot).(enrolling := db.enrolling - {session});
    if slot !in db.challenges || db.challenges[slot] == "" || session !in db.enrolling then (popped, Refused) else
      var user := db.enrolling[session];
      var challenge := Decode(db.challenges[slot]);
      if user !in db.active then (popped, Refused)
      else if challenge.None? then (db, Crashed) else
        var verified := env.verifyAttestation(a, challenge.value);
        if verified.None? then (popped, Refused)
        else if verified.value.id in db.creds then (db, Crashed)   // unique credential_id
        else
          var k := verified.value;
          (popped.(creds := popped.creds[k.id := Credential(user, k.publicKey, k.signCount)],
                   accepted := popped.accepted + [a]), Accepted(user))
  }

  /** The view: an active token opens the finish and is burned by its success. */
  function FinishReg(db: Db, session: Id, raw: string, a: Assertion, now: int, env: Env): (Db, Outcome) {
    match E.Lookup(db.tokens, raw, now, env.verifyToken)
    case None => (db, Refused)
    case Some(i) =>
      var (db', o) := FinishKey(db, session, a, env);
      (if o.Accepted? then db'.(tokens := E.MarkUsed(db.tokens, i, now)) else db', o)
  }

  datatype Op =
    | StartAuthOp(session: Id, c: Bytes)
    | FinishAuthOp(session: Id, a: Assertion)
    | StartRegOp(session: Id, raw: string, c: Bytes, now: int)
    | FinishRegOp(session: Id, raw: string, a: Assertion, now: int)
    | IssueOp(user: Id, raw: string, hash: string, expiresAt: int)

  /** Challenges are fresh: a start with a challenge handed out before is no step. */
  function Step(db: Db, op: Op, env: Env): Db {
    match op
    case StartAuthOp(s, c) => if c in db.issued then db else StartAuth(db, s, c)
    case FinishAuthOp(s, a) => FinishAuth(db, s, a, env).0
    case StartRegOp(s, raw, c, now) => if c in db.issued then db else StartReg(db, s, raw, c, now, env).0
    case FinishRegOp(s, raw, a, now) => FinishReg(db, s, raw, a, now, env).0
    case IssueOp(user, raw, hash, expiresAt) =>
      db.(tokens := db.tokens + [E.Issue(user, raw, hash, expiresAt)])
  }

  function Run(db: Db, ops: seq<Op>, env: Env): Db
    decreases |ops|
  {
    if ops == [] then db else Run(Step(db, ops[0], env), ops[1..], env)
  }

  // ----- challenges -----------------------------------------------------------------------------

  /** Some session still holds the challenge. */
  ghost predicate Live(db: Db, c: Bytes) {
    exists slot :: slot in db.challenges && db.challenges[slot] == Encode(c)
  }

  ghost predicate Wanted(db: Db, slot: Slot, c: Bytes) { slot in db.challenges && db.challenges[slot] == Encode(c) }

  /** Every stored challenge decodes to bytes that were issued, for one slot only; accepted
      responses carried issued challenges that are gone, all different. */
  ghost predicate Inv(db: Db) {
    && (forall slot :: slot in db.challenges ==> exists c :: c in db.issued && db.challenges[slot] == Encode(c))
    && (forall s, t :: s in db.challenges && t in db.challenges && s != t ==> db.challenges[s] != db.challenges[t])
    && (forall i :: 0 <= i < |db.accepted| ==>
      db.accepted[i].challenge in db.issued && !Live(db, db.accepted[i].challenge))
    && (forall i, j :: 0 <= i < j < |db.accepted| ==> db.accepted[i].challenge != db.accepted[j].challenge)
  }

  /** What the start stored is what the finish expects: the bytes that were issued. */
  lemma StoredChallengeDecodes(db: Db, slot: Slot)
    requires Inv(db) && slot in db.challenges
    ensures Decode(db.challenges[slot]).Some? && Decode(db.challenges[slot]).value in db.issued
    ensures db.challenges[slot] == Encode(Decode(db.challenges[slot]).value)
  {
    var c :| c in db.issued && db.challenges[slot] == Encode(c);
    RoundTrip(c);
  }

  lemma PutKeeps(db: Db, slot: Slot, c: Bytes)
    requires Inv(db) && c !in db.issued
    ensures Inv(Put(db, slot, c))
  {
    var db' := Put(db, slot, c);
    forall s | s in db'.challenges ensures exists d :: d in db'.issued && db'.challenges[s] == Encode(d) {
      if s != slot {
        var d :| d in db.issued && db.challenges[s] == Encode(d);
        assert d in db'.issued;
      } else {
        assert c in db'.issued;
      }
    }
    forall s | s in db.challenges && s != slot ensures db.challenges[s] != Encode(c) {
      var d :| d in db.issued && db.challenges[s] == Encode(d);
      if Encode(d) == Encode(c) { EncodeInjective(d, c); }
    }
    forall i | 0 <= i < |db.accepted| ensures !Live(db', db.accepted[i].challenge) {
      var d := db.accepted[i].challenge;
      if Encode(d) == Encode(c) { EncodeInjective(d, c); }
      forall s | s in db'.challenges ensures db'.challenges[s] != Encode(d) {
        if s != slot { assert s in db.challenges; }
      }
    }
  }

  lemma PopKeeps(db: Db, slot: Slot)
    requires Inv(db)
    ensures Inv(Pop(db, slot))
  {}

  /** A response to the popped challenge joins the accepted ones. */
  lemma AcceptKeeps(db: Db, slot: Slot, a: Assertion)
    requires Inv(db) && slot in db.challenges && Decode(db.challenges[slot]) == Some(a.challenge)
    ensures Inv(Pop(db, slot).(accepted := db.accepted + [a]))
  {
    StoredChallengeDecodes(db, slot);
    PopKeeps(db, slot);
    var c := a.challenge;
    var popped := Pop(db, slot);
    forall s | s in popped.challenges
      ensures popped.challenges[s] != Encode(c) { assert s in db.challenges && s != slot; }
    forall i | 0 <= i < |db.accepted| ensures db.accepted[i].challenge != c {
      assert !Live(db, db.accepted[i].challenge);
      assert Wanted(db, slot, c);
    }
    var db' := popped.(accepted := db.accepted + [a]);
    forall i | 0 <= i < |db'.accepted|
      ensures db'.accepted[i].challenge in db'.issued && !Live(db', db'.accepted[i].challenge)
    {
      if i < |db.accepted| { assert !Live(popped, db.accepted[i].challenge); }
    }
  }

  lemma FinishedKeeps(db: Db, db': Db, slot: Slot, a: Assertion, env: Env)
    requires Inv(db) && ChecksChallenge(env) && Finished(db, db', slot, a, env)
    ensures Inv(db')
  {
    PopKeeps(db, slot);
    if db'.accepted == db.accepted + [a] && db'.accepted != db.accepted {
      AcceptKeeps(db, slot, a);
      SameChallenges(Pop(db, slot).(accepted := db.accepted + [a]), db');
    } else if db'.challenges == db.challenges {
      SameChallenges(db, db');
    } else {
      SameChallenges(Pop(db, slot), db');
    }
  }

  lemma SameChallenges(db: Db, db': Db)
    requires Inv(db) && ChallengesKept(db, db')
    ensures Inv(db')
  {}

  lemma FinishAuthKeeps(db: Db, session: Id, a: Assertion, env: Env)
    requires Inv(db) && ChecksChallenge(env)
    ensures Inv(FinishAuth(db, session, a, env).0)
  {
    FinishAuthFinishes(db, session, a, env);
    FinishedKeeps(db, FinishAuth(db, session, a, env).0, Slot(session, false), a, env);
  }

  lemma FinishRegKeeps(db: Db, session: Id, raw: string, a: Assertion, now: int, env: Env)
    requires Inv(db) && ChecksChallenge(env)
    ensures Inv(FinishReg(db, session, raw, a, now, env).0)
  {
    FinishRegFinishes(db, session, raw, a, now, env);
    FinishedKeeps(db, FinishReg(db, session, raw, a, now, env).0, Slot(session, true), a, env);
  }

  lemma StartRegKeeps(db: Db, session: Id, raw: string, c: Bytes, now: int, env: Env)
    requires Inv(db) && c !in db.issued
    ensures Inv(StartReg(db, session, raw, c, now, env).0)
  {
    var db' := StartReg(db, session, raw, c, now, env).0;
    if db' != db {
      PutKeeps(db, Slot(session, true), c);
      SameChallenges(Put(db, Slot(session, true), c), db');
    }
  }

  lemma StepKeeps(db: Db, op: Op, env: Env)
    requires Inv(db) && ChecksChallenge(env)
    ensures Inv(Step(db, op, env))
  {
    match op
    case StartAuthOp(s, c) => if c !in db.issued { PutKeeps(db, Slot(s, false), c); }
    case FinishAuthOp(s, a) => FinishAuthKeeps(db, s, a, env);
    case StartRegOp(s, raw, c, now) => if c !in db.issued { StartRegKeeps(db, s, raw, c, now, env); }
    case FinishRegOp(s, raw, a, now) => FinishRegKeeps(db, s, raw, a, now, env);
    case IssueOp(user, raw, hash, expiresAt) => SameChallenges(db, Step(db, op, env));
  }

  lemma {:induction false} RunKeeps(db: Db, ops: seq<Op>, env: Env)
    requires Inv(db) && ChecksChallenge(env)
    ensures Inv(Run(db, ops, env))
    decreases |ops|
  {
    if ops != [] {
      StepKeeps(db, ops[0], env);
      RunKeeps(Step(db, ops[0], env), ops[1..], env);
    }
  }

  // ----- no response is accepted twice -----------------------------------------------------------

  const EMPTY := Db(map[], map[], map[], map[], [], {}, [])

  /** In any run over any sessions, accepted responses carry pairwise different challenges, each
      of them issued by the server; so no response is accepted twice. */
  lemma NoReplay(active: map<Id, bool>, ops: seq<Op>, env: Env)
    requires ChecksChallenge(env)
    ensures var db := Run(EMPTY.(active := active), ops, env);
      && (forall i, j :: 0 <= i < j < |db.accepted| ==>
        db.accepted[i].challenge != db.accepted[j].challenge && db.accepted[i] != db.accepted[j])
      && (forall i :: 0 <= i < |db.accepted| ==> db.accepted[i].challenge in db.issued)
  {
    RunKeeps(EMPTY.(active := active), ops, env);
  }

  predicate Handed(before: map<Slot, string>, slot: Slot, c: Bytes, after: map<Slot, string>) {
    after == before[slot := Encode(c)]
  }

  /** A finished ceremony drops its challenge or, after a crash, keeps it; acceptance needs the
      challenge that was stored. */
  ghost predicate Finished(db: Db, db': Db, slot: Slot, a: Assertion, env: Env) {
    && db'.issued == db.issued
    && (|| (db'.accepted == db.accepted
            && (db'.challenges == db.challenges || db'.challenges == db.challenges - {slot}))
        || (db'.accepted == db.accepted + [a] && slot in db.challenges && db'.challenges == db.challenges - {slot}
            && (ChecksChallenge(env) ==> Decode(db.challenges[slot]) == Some(a.challenge))))
  }

  lemma FinishAuthFinishes(db: Db, session: Id, a: Assertion, env: Env)
    ensures Finished(db, FinishAuth(db, session, a, env).0, Slot(session, false), a, env)
  {}

  lemma FinishRegFinishes(db: Db, session: Id, raw: string, a: Assertion, now: int, env: Env)
    ensures Finished(db, FinishReg(db, session, raw, a, now, env).0, Slot(session, true), a, env)
  {}

  ghost predicate ChallengesKept(db: Db, db': Db) {
    db'.challenges == db.challenges && db'.issued == db.issued && db'.accepted == db.accepted
  }

  /** A start stores one fresh challenge. */
  ghost predicate Opened(db: Db, db': Db) {
    && db'.accepted == db.accepted
    && exists slot, c ::
      c !in db.issued && Handed(db.challenges, slot, c, db'.challenges) && db'.issued == db.issued + {c}
  }

  /** What a step does to challenges: store a fresh one, drop one, or nothing. */
  lemma StepChallenges(db: Db, op: Op, env: Env)
    ensures var db' := Step(db, op, env);
      || ChallengesKept(db, db')
      || Opened(db, db')
      || ((op.FinishAuthOp? || op.FinishRegOp?) && Finished(db, db', Slot(op.session, op.FinishRegOp?), op.a, env))
  {
    var db' := Step(db, op, env);
    match op
    case StartAuthOp(s, c) => if c !in db.issued { assert Handed(db.challenges, Slot(s, false), c, db'.challenges); }
    case FinishAuthOp(s, a) => FinishAuthFinishes(db, s, a, env);
    case StartRegOp(s, raw, c, now) => if db' != db { assert Handed(db.challenges, Slot(s, true), c, db'.challenges); }
    case FinishRegOp(s, raw, a, now) => FinishRegFinishes(db, s, raw, a, now, env);
    case IssueOp(user, raw, hash, expiresAt) =>
  }

  /** A step accepts at most one response, and only for a challenge that is live; only a fresh
      challenge can become live. */
  lemma StepAccepts(db: Db, op: Op, env: Env)
    requires Inv(db) && ChecksChallenge(env)
    ensures var db' := Step(db, op, env);
      && db.issued <= db'.issued
      && (db'.accepted == db.accepted
          || exists a :: db'.accepted == db.accepted + [a] && Live(db, a.challenge))
      && (forall c :: Live(db', c) ==> Live(db, c) || c !in db.issued)
  {
    var db' := Step(db, op, env);
    StepChallenges(db, op, env);
    forall c | Live(db', c) ensures Live(db, c) || c !in db.issued {
      var slot :| slot in db'.challenges && db'.challenges[slot] == Encode(c);
      LiveBefore(db, db', slot, c);
    }
    if db'.accepted != db.accepted {
      var slot := Slot(op.session, op.FinishRegOp?);
      StoredChallengeDecodes(db, slot);
      assert Wanted(db, slot, op.a.challenge);
    }
  }

  lemma LiveBefore(db: Db, db': Db, slot: Slot, c: Bytes)
    requires Wanted(db', slot, c)
    requires db'.challenges == db.challenges || (exists s :: db'.challenges == db.challenges - {s}) || Opened(db, db')
    ensures Live(db, c) || c !in db.issued
  {
    if !Wanted(db, slot, c) {
      var s, d :| d !in db.issued && Handed(db.challenges, s, d, db'.challenges);
      EncodeInjective(d, c);
    }
  }

  /** Once a challenge is issued and no session holds it - because its ceremony was finished,
      refused or restarted - no response to it is ever accepted again. */
  lemma {:induction false} DeadStaysDead(db: Db, c: Bytes, ops: seq<Op>, env: Env)
    requires Inv(db) && ChecksChallenge(env) && c in db.issued && !Live(db, c)
    ensures var db' := Run(db, ops, env);
      && |db.accepted| <= |db'.accepted| && db'.accepted[..|db.accepted|] == db.accepted
      && (forall i :: |db.accepted| <= i < |db'.accepted| ==> db'.accepted[i].challenge != c)
    decreases |ops|
  {
    if ops != [] {
      var next := Step(db, ops[0], env);
      StepAccepts(db, ops[0], env);
      StepKeeps(db, ops[0], env);
      DeadStaysDead(next, c, ops[1..], env);
      var end := Run(next, ops[1..], env);
      assert end.accepted[..|next.accepted|] == next.accepted;
      assert end.accepted[..|db.accepted|] == next.accepted[..|db.accepted|] == db.accepted;
      forall i | |db.accepted| <= i < |end.accepted| ensures end.accepted[i].challenge != c {
        if i < |next.accepted| { assert end.accepted[i] == next.accepted[i]; }
      }
    }
  }

  /** Starting again in the same session kills the challenge handed out before. */
  lemma RestartKills(db: Db, session: Id, first: Bytes, c: Bytes, ops: seq<Op>, env: Env)
    requires Inv(db) && ChecksChallenge(env) && Wanted(db, Slot(session, false), first) && c !in db.issued
    ensures var db' := Run(StartAuth(db, session, c), ops, env);
      forall i :: |db.accepted| <= i < |db'.accepted| ==> db'.accepted[i].challenge != first
  {
    var slot, started := Slot(session, false), StartAuth(db, session, c);
    PutKeeps(db, slot, c);
    OverwrittenIsDead(db, started, slot, first, c);
    DeadStaysDead(started, first, ops, env);
  }

  /** A verified sign-in with credential id, whose response carried count n. */
  ghost predicate Verified(db: Db, session: Id, a: Assertion, env: Env, id: Bytes, n: nat) {
    var slot := Slot(session, false);
    && slot in db.challenges && Decode(db.challenges[slot]).Some?
    && a.id.Some? && Decode(a.id.value) == Some(id) && id in db.creds
    && env.verifyAssertion(a, Decode(db.challenges[slot]).value, db.creds[id].publicKey, db.creds[id].signCount)
        == Some(n)
  }

  /** An accepted sign-in drops the challenge and stores the received count in its credential,
      and changes nothing else; a refused one drops the challenge; a crash changes nothing. */
  lemma SignInEffect(db: Db, session: Id, a: Assertion, env: Env)
    ensures var (db', o) := FinishAuth(db, session, a, env);
      var challenges := db.challenges - {Slot(session, false)};
      match o
      case Accepted(user) =>
        exists id, n :: Verified(db, session, a, env, id, n) && user == db.creds[id].user
          && db' == db.(challenges := challenges, creds := db.creds[id := db.creds[id].(signCount := n)],
                        accepted := db.accepted + [a])
      case Refused => db' == db.(challenges := challenges)
      case Crashed => db' == db
      case Started => false
  {
    var (db', o) := FinishAuth(db, session, a, env);
    if o.Accepted? {
      var (c, id) := (Decode(db.challenges[Slot(session, false)]).value, Decode(a.id.value).value);
      var n := env.verifyAssertion(a, c, db.creds[id].publicKey, db.creds[id].signCount).value;
      assert Verified(db, session, a, env, id, n);
    }
  }

  /** A sign-in crashes exactly when a challenge is open and the response names no credential id
      that decodes. */
  lemma SignInCrashesIff(db: Db, session: Id, a: Assertion, env: Env)
    requires Inv(db)
    ensures var slot := Slot(session, false);
      FinishAuth(db, session, a, env).1 == Crashed <==>
        && slot in db.challenges && db.challenges[slot] != ""
        && (a.id.None? || Decode(a.id.value).None?)
  {
    var slot := Slot(session, false);
    if slot in db.challenges { StoredChallengeDecodes(db, slot); }
  }

  /** A sign-in succeeds exactly when the session holds a challenge, the credential is known,
      its owner is active and named by the user handle, the response verifies against the bytes
      that were issued, and the counter grew as the standard asks; it signs in the owner. */
  lemma FinishAuthIff(db: Db, session: Id, a: Assertion, env: Env, user: Id)
    requires Inv(db)
    ensures var slot := Slot(session, false);
      FinishAuth(db, session, a, env).1 == Accepted(user) <==>
        && slot in db.challenges && db.challenges[slot] != ""
        && a.id.Some? && a.userHandle.Some? && a.userHandle.value != ""
        && Decode(a.userHandle.value) == Some(env.userText(user))
        && exists c, id, n :: db.challenges[slot] == Encode(c) && Decode(a.id.value) == Some(id) && id in db.creds
             && db.creds[id].user == user && user in db.active && db.active[user]
             && env.verifyAssertion(a, c, db.creds[id].publicKey, db.creds[id].signCount) == Some(n)
             && StandardAccepts(db.creds[id].signCount, n)
  {
    var slot := Slot(session, false);
    if slot in db.challenges {
      StoredChallengeDecodes(db, slot);
      var d := Decode(db.challenges[slot]).value;
      forall c | db.challenges[slot] == Encode(c) ensures c == d { EncodeInjective(c, d); }
    }
  }

  /** Starting a registration again in the same session kills its earlier challenge too. */
  lemma RegistrationRestartKills(db: Db, session: Id, first: Bytes, raw: string, c: Bytes, now: int, ops: seq<Op>,
          env: Env)
    requires Inv(db) && ChecksChallenge(env) && Wanted(db, Slot(session, true), first) && c !in db.issued
    requires StartReg(db, session, raw, c, now, env).1 == Started
    ensures var db' := Run(StartReg(db, session, raw, c, now, env).0, ops, env);
      forall i :: |db.accepted| <= i < |db'.accepted| ==> db'.accepted[i].challenge != first
  {
    var started := StartReg(db, session, raw, c, now, env).0;
    StepKeeps(db, StartRegOp(session, raw, c, now), env);
    OverwrittenIsDead(db, started, Slot(session, true), first, c);
    DeadStaysDead(started, first, ops, env);
  }

  lemma OverwrittenIsDead(db: Db, db': Db, slot: Slot, first: Bytes, c: Bytes)
    requires Inv(db) && Wanted(db, slot, first) && c !in db.issued
    requires db'.challenges == db.challenges[slot := Encode(c)] && db'.issued == db.issued + {c}
    ensures first in db'.issued && !Live(db', first)
  {
    StoredChallengeDecodes(db, slot);
    RoundTrip(first);
    forall s | s in db'.challenges ensures db'.challenges[s] != Encode(first) {
      if s == slot {
        if Encode(c) == Encode(first) { EncodeInjective(c, first); }
      } else {
        assert s in db.challenges;
      }
    }
  }

  // ----- sign counter ------------------------------------------------------------------------------

  /** The check of WebAuthn Level 2, section 7.2, step 21: with either count nonzero, the
      received count must be greater than the stored one. */
  predicate StandardAccepts(stored: nat, received: nat) {
    (received != 0 || stored != 0) ==> received > stored
  }

  lemma CounterRuleIff(stored: nat, received: nat)
    ensures !Regressed(stored, received) <==> StandardAccepts(stored, received)
  {}

  /** Stored counters never fall, and a positive one strictly grows with every use. */
  lemma StepCounters(db: Db, op: Op, env: Env, id: Bytes)
    requires id in db.creds
    ensures var db' := Step(db, op, env);
      && id in db'.creds && db'.creds[id].user == db.creds[id].user && db'.creds[id].publicKey == db.creds[id].publicKey
      && (db'.creds[id] == db.creds[id] || db.creds[id].signCount == 0 ||
        db'.creds[id].signCount > db.creds[id].signCount)
  {}

  lemma {:induction false} CountersNeverFall(db: Db, ops: seq<Op>, env: Env, id: Bytes)
    requires id in db.creds
    ensures var db' := Run(db, ops, env);
      id in db'.creds && db'.creds[id].user == db.creds[id].user && db'.creds[id].signCount >= db.creds[id].signCount
    decreases |ops|
  {
    if ops != [] {
      StepCounters(db, ops[0], env, id);
      CountersNeverFall(Step(db, ops[0], env), ops[1..], env, id);
    }
  }

  /** Of two accepted sign-ins with one credential, whatever happens between them, the later
      carried the larger count, unless the authenticator reports 0 both times. */
  lemma LaterCountIsLarger(db: Db, first: Id, a: Assertion, id: Bytes, n: nat, ops: seq<Op>, second: Id, b: Assertion,
          m: nat, env: Env)
    requires FinishAuth(db, first, a, env).1.Accepted? && Verified(db, first, a, env, id, n)
    requires var db' := Run(FinishAuth(db, first, a, env).0, ops, env);
      FinishAuth(db', second, b, env).1.Accepted? && Verified(db', second, b, env, id, m)
    ensures n < m || n == m == 0
  {
    var stored := FinishAuth(db, first, a, env).0;
    SignInEffect(db, first, a, env);
    CountersNeverFall(stored, ops, env, id);
    var db' := Run(stored, ops, env);
    assert n == stored.creds[id].signCount <= db'.creds[id].signCount;
    assert !Regressed(db'.creds[id].signCount, m);
  }

  // ----- enrollment ---------------------------------------------------------------------------------

  function CountUsed(tokens: seq<E.Token>): nat {
    if tokens == [] then 0 else CountUsed(tokens[..|tokens| - 1]) + (if tokens[|tokens| - 1].usedAt.Some? then 1 else 0)
  }

  lemma {:induction false} MarkCounts(tokens: seq<E.Token>, i: nat, now: int)
    requires i < |tokens| && tokens[i].usedAt == None
    ensures CountUsed(E.MarkUsed(tokens, i, now)) == CountUsed(tokens) + 1
  {
    var n := |tokens| - 1;
    if i < n {
      assert E.MarkUsed(tokens, i, now)[..n] == E.MarkUsed(tokens[..n], i, now);
      MarkCounts(tokens[..n], i, now);
    } else {
      assert E.MarkUsed(tokens, i, now)[..n] == tokens[..n];
    }
  }

  lemma IssueCounts(tokens: seq<E.Token>, t: E.Token)
    requires t.usedAt == None
    ensures CountUsed(tokens + [t]) == CountUsed(tokens)
  {}

  /** Somebody issued this user a token. */
  ghost predicate Invited(tokens: seq<E.Token>, user: Id) {
    exists i :: 0 <= i < |tokens| && tokens[i].user == user
  }

  ghost predicate Enrolled(db: Db) {
    && |db.creds| == CountUsed(db.tokens)
    && (forall s :: s in db.enrolling ==> Invited(db.tokens, db.enrolling[s]))
    && (forall id :: id in db.creds ==> Invited(db.tokens, db.creds[id].user))
  }

  /** The response of a registration was verified against the open challenge and gave key k. */
  ghost predicate Attested(db: Db, session: Id, a: Assertion, env: Env, k: NewKey) {
    var slot := Slot(session, true);
    && slot in db.challenges && Decode(db.challenges[slot]).Some?
    && env.verifyAttestation(a, Decode(db.challenges[slot]).value) == Some(k)
  }

  /** An accepted registration closes the ceremony, burns the token it presented and adds the
      attested key for the user of the session; a refusal without a token and a crash change
      nothing; any other refusal closes the ceremony. */
  lemma RegistrationEffect(db: Db, session: Id, raw: string, a: Assertion, now: int, env: Env)
    ensures var (db', o) := FinishReg(db, session, raw, a, now, env);
      var token := E.Lookup(db.tokens, raw, now, env.verifyToken);
      var closed := db.(challenges := db.challenges - {Slot(session, true)}, enrolling := db.enrolling - {session});
      match o
      case Accepted(user) => token.Some? && session in db.enrolling && user == db.enrolling[session] &&
        exists k :: Attested(db, session, a, env, k) && k.id !in db.creds
          && db' == closed.(creds := db.creds[k.id := Credential(user, k.publicKey, k.signCount)],
                            tokens := db.tokens[token.value := db.tokens[token.value].(usedAt := Some(now))],
                            accepted := db.accepted + [a])
      case Refused => db' == if token.None? then db else closed
      case Crashed => db' == db
      case Started => false
  {
    var (db', o) := FinishReg(db, session, raw, a, now, env);
    if o.Accepted? {
      var k := env.verifyAttestation(a, Decode(db.challenges[Slot(session, true)]).value).value;
      assert Attested(db, session, a, env, k);
    }
  }

  /** A start with an active token opens a ceremony for its owner; without one it changes
      nothing. */
  lemma StartEffect(db: Db, session: Id, raw: string, c: Bytes, now: int, env: Env)
    ensures var (db', o) := StartReg(db, session, raw, c, now, env);
      var token := E.Lookup(db.tokens, raw, now, env.verifyToken);
      && (o == Started <==> token.Some?) && (o == Refused <==> token.None?)
      && (token.None? ==> db' == db)
      && (token.Some? ==>
            && db'.enrolling == db.enrolling[session := db.tokens[token.value].user]
            && Slot(session, true) in db'.challenges && Decode(db'.challenges[Slot(session, true)]) == Some(c)
            && db'.challenges - {Slot(session, true)} == db.challenges - {Slot(session, true)}
            && db' == db.(challenges := db'.challenges, enrolling := db'.enrolling, issued := db.issued + {c}))
  {
    RoundTrip(c);
  }

  /** Opening a sign-in stores the issued bytes for that session's sign-in alone. */
  lemma StartAuthEffect(db: Db, session: Id, c: Bytes)
    ensures var db' := StartAuth(db, session, c);
      && Slot(session, false) in db'.challenges && Decode(db'.challenges[Slot(session, false)]) == Some(c)
      && db'.challenges - {Slot(session, false)} == db.challenges - {Slot(session, false)}
      && db' == db.(challenges := db'.challenges, issued := db.issued + {c})
  {
    RoundTrip(c);
  }

  /** A raw token whose rows were all used or have expired opens and finishes nothing. */
  lemma DeadTokenRefused(db: Db, session: Id, raw: string, a: Assertion, c: Bytes, now: int, env: Env)
    requires forall i :: 0 <= i < |db.tokens| && env.verifyToken(raw, db.tokens[i].hash) ==>
      db.tokens[i].usedAt.Some? || db.tokens[i].expiresAt <= now
    ensures StartReg(db, session, raw, c, now, env) == (db, Refused)
    ensures FinishReg(db, session, raw, a, now, env) == (db, Refused)
  {
    E.ExpiredOrUsed(db.tokens, raw, now, env.verifyToken);
  }

  /** Only an accepted registration touches credentials and tokens together. */
  lemma AcceptedRegistration(db: Db, session: Id, raw: string, a: Assertion, now: int, env: Env)
    ensures var (db', o) := FinishReg(db, session, raw, a, now, env);
      if !o.Accepted? then db'.creds == db.creds && db'.tokens == db.tokens
      else
        var i := E.Lookup(db.tokens, raw, now, env.verifyToken);
        && i.Some? && E.Active(db.tokens[i.value], now) && db'.tokens == E.MarkUsed(db.tokens, i.value, now)
        && session in db.enrolling
        && exists k :: Attested(db, session, a, env, k) && k.id !in db.creds
             && db'.creds == db.creds[k.id := Credential(db.enrolling[session], k.publicKey, k.signCount)]
  {
    RegistrationEffect(db, session, raw, a, now, env);
  }

  lemma StaysEnrolled(db: Db, db': Db)
    requires Enrolled(db) && |db.tokens| <= |db'.tokens|
    requires forall i :: 0 <= i < |db.tokens| ==> db'.tokens[i].user == db.tokens[i].user
    requires |db'.creds| == CountUsed(db'.tokens)
    requires forall s :: s in db'.enrolling ==> Invited(db.tokens, db'.enrolling[s])
    requires forall id :: id in db'.creds ==> Invited(db.tokens, db'.creds[id].user)
    ensures Enrolled(db')
  {}

  lemma FinishRegSessions(db: Db, session: Id, raw: string, a: Assertion, now: int, env: Env)
    ensures var db' := FinishReg(db, session, raw, a, now, env).0;
      forall s :: s in db'.enrolling ==> s in db.enrolling && db'.enrolling[s] == db.enrolling[s]
  {}

  lemma BurnEnrolls(db: Db, db': Db, i: nat, now: int, id: Bytes, cred: Credential)
    requires Enrolled(db) && i < |db.tokens| && db.tokens[i].usedAt == None &&
      db'.tokens == E.MarkUsed(db.tokens, i, now)
    requires id !in db.creds && db'.creds == db.creds[id := cred] && Invited(db.tokens, cred.user)
    requires forall s :: s in db'.enrolling ==> s in db.enrolling && db'.enrolling[s] == db.enrolling[s]
    ensures Enrolled(db')
  {
    MarkCounts(db.tokens, i, now);
    StaysEnrolled(db, db');
  }

  lemma FinishRegEnrolls(db: Db, session: Id, raw: string, a: Assertion, now: int, env: Env)
    requires Enrolled(db)
    ensures Enrolled(FinishReg(db, session, raw, a, now, env).0)
  {
    var (db', o) := FinishReg(db, session, raw, a, now, env);
    AcceptedRegistration(db, session, raw, a, now, env);
    FinishRegSessions(db, session, raw, a, now, env);
    if o.Accepted? {
      var k :| Attested(db, session, a, env, k) && k.id !in db.creds &&
        db'.creds == db.creds[k.id := Credential(db.enrolling[session], k.publicKey, k.signCount)];
      BurnEnrolls(db, db', E.Lookup(db.tokens, raw, now, env.verifyToken).value, now, k.id, db'.creds[k.id]);
    } else {
      StaysEnrolled(db, db');
    }
  }

  lemma FinishAuthOwners(db: Db, session: Id, a: Assertion, env: Env)
    ensures var db' := FinishAuth(db, session, a, env).0;
      && db'.tokens == db.tokens && db'.enrolling == db.enrolling && db'.creds.Keys == db.creds.Keys
      && forall id :: id in db.creds ==> db'.creds[id].user == db.creds[id].user
  {}

  lemma SameSize<K, V>(m: map<K, V>, n: map<K, V>)
    requires m.Keys == n.Keys
    ensures |m| == |n|
  {}

  lemma FinishAuthEnrolls(db: Db, session: Id, a: Assertion, env: Env)
    requires Enrolled(db)
    ensures Enrolled(FinishAuth(db, session, a, env).0)
  {
    FinishAuthOwners(db, session, a, env);
    SameSize(db.creds, FinishAuth(db, session, a, env).0.creds);
  }

  lemma StartRegEnrolls(db: Db, session: Id, raw: string, c: Bytes, now: int, env: Env)
    requires Enrolled(db)
    ensures Enrolled(StartReg(db, session, raw, c, now, env).0)
  {
    var i := E.Lookup(db.tokens, raw, now, env.verifyToken);
    if i.Some? { assert Invited(db.tokens, db.tokens[i.value].user); }
  }

  lemma StepEnrolls(db: Db, op: Op, env: Env)
    requires Enrolled(db)
    ensures Enrolled(Step(db, op, env))
  {
    match op
    case StartAuthOp(s, c) =>
    case FinishAuthOp(s, a) => FinishAuthEnrolls(db, s, a, env);
    case StartRegOp(s, raw, c, now) => StartRegEnrolls(db, s, raw, c, now, env);
    case FinishRegOp(s, raw, a, now) => FinishRegEnrolls(db, s, raw, a, now, env);
    case IssueOp(user, raw, hash, expiresAt) =>
      IssueCounts(db.tokens, E.Issue(user, raw, hash, expiresAt));
      StaysEnrolled(db, Step(db, op, env));
  }

  /** Over any run, as many credentials were created as tokens were burned, and every
      credential belongs to a user who was issued a token. */
  lemma {:induction false} OneTokenOneCredential(db: Db, ops: seq<Op>, env: Env)
    requires Enrolled(db)
    ensures var db' := Run(db, ops, env);
      |db'.creds| == CountUsed(db'.tokens) && forall id :: id in db'.creds ==> Invited(db'.tokens, db'.creds[id].user)
    decreases |ops|
  {
    if ops != [] {
      StepEnrolls(db, ops[0], env);
      OneTokenOneCredential(Step(db, ops[0], env), ops[1..], env);
    }
  }

  /** A used token is never changed again: no step resets it, and no later lookup or
      registration finds it, whatever raw token is presented at whatever time. */
  lemma {:induction false} UsedStaysUsed(db: Db, ops: seq<Op>, env: Env, i: nat, raw: string, now: int)
    requires i < |db.tokens| && db.tokens[i].usedAt.Some?
    ensures var db' := Run(db, ops, env);
      && i < |db'.tokens| && db'.tokens[i] == db.tokens[i]
      && E.Lookup(db'.tokens, raw, now, env.verifyToken) != Some(i)
      && (forall session, a :: FinishReg(db', session, raw, a, now, env).0.tokens[i] == db.tokens[i])
    decreases |ops|
  {
    if ops != [] {
      UsedStep(db, ops[0], env, i);
      UsedStaysUsed(Step(db, ops[0], env), ops[1..], env, i, raw, now);
    } else {
      forall session, a ensures FinishReg(db, session, raw, a, now, env).0.tokens[i] == db.tokens[i] {
        UsedStep(db, FinishRegOp(session, raw, a, now), env, i);
      }
    }
  }

  lemma UsedStep(db: Db, op: Op, env: Env, i: nat)
    requires i < |db.tokens| && db.tokens[i].usedAt.Some?
    ensures i < |Step(db, op, env).tokens| && Step(db, op, env).tokens[i] == db.tokens[i]
  {
    match op
    case StartAuthOp(s, c) =>
    case FinishAuthOp(s, a) => FinishAuthOwners(db, s, a, env);
    case StartRegOp(s, raw, c, now) =>
    case FinishRegOp(s, raw, a, now) => AcceptedRegistration(db, s, raw, a, now, env);
    case IssueOp(user, raw, hash, expiresAt) =>
  }

  // ----- tokens of a run ------------------------------------------------------------------------

  /** Each issued raw token is new, and its hash verifies for that token alone. */
  ghost predicate ProperIssues(raws: seq<string>, ops: seq<Op>, env: Env)
    decreases |ops|
  {
    if ops == [] then true
    else if !ops[0].IssueOp? then ProperIssues(raws, ops[1..], env)
    else
      && ops[0].raw != "" && ops[0].raw !in raws
      && (forall r :: env.verifyToken(r, ops[0].hash) <==> r == ops[0].raw)
      && ProperIssues(raws + [ops[0].raw], ops[1..], env)
  }

  function IssuedRaws(raws: seq<string>, ops: seq<Op>): seq<string>
    decreases |ops|
  {
    if ops == [] then raws
    else IssuedRaws(if ops[0].IssueOp? then raws + [ops[0].raw] else raws, ops[1..])
  }

  lemma MarkIssuedFrom(tokens: seq<E.Token>, raws: seq<string>, i: nat, now: int, verify: E.Verify)
    requires E.IssuedFrom(tokens, raws, verify) && i < |tokens|
    ensures E.IssuedFrom(E.MarkUsed(tokens, i, now), raws, verify)
  {}

  lemma StepIssuedFrom(db: Db, op: Op, env: Env, raws: seq<string>)
    requires E.IssuedFrom(db.tokens, raws, env.verifyToken) && ProperIssues(raws, [op], env)
    ensures E.IssuedFrom(Step(db, op, env).tokens, if op.IssueOp? then raws + [op.raw] else raws, env.verifyToken)
  {
    match op
    case StartAuthOp(s, c) =>
    case FinishAuthOp(s, a) => FinishAuthOwners(db, s, a, env);
    case StartRegOp(s, raw, c, now) =>
    case FinishRegOp(s, raw, a, now) =>
      AcceptedRegistration(db, s, raw, a, now, env);
      if FinishReg(db, s, raw, a, now, env).1.Accepted? {
        MarkIssuedFrom(db.tokens, raws, E.Lookup(db.tokens, raw, now, env.verifyToken).value, now, env.verifyToken);
      }
    case IssueOp(user, raw, hash, expiresAt) =>
  }

  /** In every state of such a run the lookup by prefix returns exactly the active row whose
      hash verifies. */
  lemma {:induction false} RunLookupIff(db: Db, ops: seq<Op>, env: Env, raws: seq<string>, raw: string, now: int,
          i: nat)
    requires E.IssuedFrom(db.tokens, raws, env.verifyToken) && ProperIssues(raws, ops, env)
    ensures var tokens := Run(db, ops, env).tokens;
      && E.IssuedFrom(tokens, IssuedRaws(raws, ops), env.verifyToken)
      && (E.Lookup(tokens, raw, now, env.verifyToken) == Some(i) <==>
            && i < |tokens| && tokens[i].usedAt == None && now < tokens[i].expiresAt
            && env.verifyToken(raw, tokens[i].hash))
    decreases |ops|
  {
    if ops == [] {
      E.LookupIff(db.tokens, raws, raw, now, env.verifyToken, i);
    } else {
      assert [ops[0]][1..] == [];
      StepIssuedFrom(db, ops[0], env, raws);
      var raws' := if ops[0].IssueOp? then raws + [ops[0].raw] else raws;
      RunLookupIff(Step(db, ops[0], env), ops[1..], env, raws', raw, now, i);
    }
  }

  // ----- whose token, whose credential ----------------------------------------------------------

  function UsedBy(tokens: seq<E.Token>, user: Id): nat {
    if tokens == [] then 0 else
      var t := tokens[|tokens| - 1];
      UsedBy(tokens[..|tokens| - 1], user) + (if t.usedAt.Some? && t.user == user then 1 else 0)
  }

  function OwnedBy(creds: map<Bytes, Credential>, user: Id): set<Bytes> {
    set id | id in creds && creds[id].user == user
  }

  /** Every user has as many credentials as tokens of theirs were burned. */
  ghost predicate Balanced(db: Db) {
    forall user :: |OwnedBy(db.creds, user)| == UsedBy(db.tokens, user)
  }

  lemma {:induction false} MarkBalances(tokens: seq<E.Token>, i: nat, now: int, user: Id)
    requires i < |tokens| && tokens[i].usedAt == None
    ensures UsedBy(E.MarkUsed(tokens, i, now), user) == UsedBy(tokens, user) + (if tokens[i].user == user then 1 else 0)
  {
    var n := |tokens| - 1;
    if i < n {
      assert E.MarkUsed(tokens, i, now)[..n] == E.MarkUsed(tokens[..n], i, now);
      MarkBalances(tokens[..n], i, now, user);
    } else {
      assert E.MarkUsed(tokens, i, now)[..n] == tokens[..n];
    }
  }

  lemma OwnsOneMore(creds: map<Bytes, Credential>, id: Bytes, cred: Credential, user: Id)
    requires id !in creds
    ensures |OwnedBy(creds[id := cred], user)| == |OwnedBy(creds, user)| + (if cred.user == user then 1 else 0)
  {
    if cred.user == user {
      assert OwnedBy(creds[id := cred], user) == OwnedBy(creds, user) + {id};
    } else {
      assert OwnedBy(creds[id := cred], user) == OwnedBy(creds, user);
    }
  }

  /** The token presented at the end belongs to the user the session was opened for. */
  predicate SameOwner(db: Db, session: Id, raw: string, now: int, env: Env) {
    var i := E.Lookup(db.tokens, raw, now, env.verifyToken);
    i.Some? && session in db.enrolling ==> db.tokens[i.value].user == db.enrolling[session]
  }

  /** The finish does not compare the two users: an accepted registration leaves the counts of
      every user balanced exactly when they are the same.  Otherwise the key goes to the user of
      the session and the token of another user is burned. */
  lemma FinishRegBalancesIff(db: Db, session: Id, raw: string, a: Assertion, now: int, env: Env)
    requires Balanced(db) && FinishReg(db, session, raw, a, now, env).1.Accepted?
    ensures Balanced(FinishReg(db, session, raw, a, now, env).0) <==> SameOwner(db, session, raw, now, env)
  {
    var db' := FinishReg(db, session, raw, a, now, env).0;
    AcceptedRegistration(db, session, raw, a, now, env);
    var i := E.Lookup(db.tokens, raw, now, env.verifyToken).value;
    var k :| Attested(db, session, a, env, k) && k.id !in db.creds &&
      db'.creds == db.creds[k.id := Credential(db.enrolling[session], k.publicKey, k.signCount)];
    var (id, cred) := (k.id, db'.creds[k.id]);
    forall user
      ensures |OwnedBy(db'.creds, user)| == |OwnedBy(db.creds, user)| + (if cred.user == user then 1 else 0)
      ensures UsedBy(db'.tokens, user) == UsedBy(db.tokens, user) + (if db.tokens[i].user == user then 1 else 0)
    {
      OwnsOneMore(db.creds, id, cred, user);
      MarkBalances(db.tokens, i, now, user);
    }
    assert |OwnedBy(db.creds, cred.user)| == UsedBy(db.tokens, cred.user);
  }

  /** Alice's session, opened with her token, is finished with Bob's: the registration is
      accepted, the key is Alice's and Bob's token is burned. */
  lemma ForeignTokenExample(alice: Id, bob: Id, session: Id, active: map<Id, bool>, c: Bytes, a: Assertion, k: NewKey,
                            ra: string, ha: string, rb: string, hb: string, expiresAt: int, now: int, env: Env)
    requires alice != bob && alice in active && c != [] && ra != "" && rb != "" && now < expiresAt
    requires env.verifyToken(ra, ha) && env.verifyToken(rb, hb) && !env.verifyToken(ra, hb)
    requires env.verifyAttestation(a, c) == Some(k)
    ensures var ops := [IssueOp(alice, ra, ha, expiresAt), IssueOp(bob, rb, hb, expiresAt),
      StartRegOp(session, ra, c, now)];
      var db := Run(EMPTY.(active := active), ops, env);
      var (db', o) := FinishReg(db, session, rb, a, now, env);
      && Balanced(db) && o == Accepted(alice) && !Balanced(db')
      && db'.creds.Keys == {k.id} && db'.creds[k.id].user == alice
      && |db'.tokens| == 2 && db'.tokens[1].user == bob && db'.tokens[1].usedAt == Some(now)
  {
    var start := EMPTY.(active := active);
    var ops := [IssueOp(alice, ra, ha, expiresAt), IssueOp(bob, rb, hb, expiresAt), StartRegOp(session, ra, c, now)];
    var (s1, s2) := (Step(start, ops[0], env), Step(Step(start, ops[0], env), ops[1], env));
    var db := Step(s2, ops[2], env);
    RunThree(start, ops, env);
    assert forall user :: OwnedBy(start.creds, user) == {};
    StepBalances(start, ops[0], env);
    StepBalances(s1, ops[1], env);
    StepBalances(s2, ops[2], env);
    TwoTokens(s2.tokens, ra, rb, now, env.verifyToken);
    RoundTrip(c);
    StoredText(c);
    assert db.challenges == map[Slot(session, true) := Encode(c)] && db.enrolling == map[session := alice];
    FinishRegBalancesIff(db, session, rb, a, now, env);
  }

  lemma StoredText(c: Bytes)
    requires c != []
    ensures Encode(c) != ""
  {
    if Encode(c) == "" {
      assert Encode([]) == "";
      EncodeInjective(c, []);
    }
  }

  lemma RunThree(db: Db, ops: seq<Op>, env: Env)
    requires |ops| == 3
    ensures Run(db, ops, env) == Step(Step(Step(db, ops[0], env), ops[1], env), ops[2], env)
  {
    assert ops[1..][0] == ops[1] && ops[1..][1..] == [ops[2]] && [ops[2]][1..] == [];
    var two := Step(Step(db, ops[0], env), ops[1], env);
    assert Run(two, [ops[2]], env) == Run(Step(two, ops[2], env), [], env);
  }

  lemma TwoTokens(tokens: seq<E.Token>, ra: string, rb: string, now: int, verify: E.Verify)
    requires ra != "" && rb != ""
    requires |tokens| == 2 && tokens[0].prefix == E.Prefix(ra) && tokens[1].prefix == E.Prefix(rb)
    requires E.Active(tokens[0], now) && E.Active(tokens[1], now)
    requires verify(ra, tokens[0].hash) && verify(rb, tokens[1].hash) && !verify(ra, tokens[1].hash)
    ensures E.Lookup(tokens, ra, now, verify) == Some(0) && E.Lookup(tokens, rb, now, verify) == Some(1)
  {
    assert E.Search(tokens, 2, rb, now, verify) == Some(1);
    assert E.Search(tokens, 2, ra, now, verify) == E.Search(tokens, 1, ra, now, verify) == Some(0);
  }

  /** Every finish of the run presents a token of the user its session was opened for. */
  ghost predicate OneOwnerPerSession(db: Db, ops: seq<Op>, env: Env)
    decreases |ops|
  {
    ops != [] ==>
      && (ops[0].FinishRegOp? ==> SameOwner(db, ops[0].session, ops[0].raw, ops[0].now, env))
      && OneOwnerPerSession(Step(db, ops[0], env), ops[1..], env)
  }

  lemma SameOwnersBalance(db: Db, db': Db)
    requires Balanced(db) && db'.tokens == db.tokens && db'.creds.Keys == db.creds.Keys
    requires forall id :: id in db.creds ==> db'.creds[id].user == db.creds[id].user
    ensures Balanced(db')
  {
    forall user ensures OwnedBy(db'.creds, user) == OwnedBy(db.creds, user) {}
  }

  lemma FinishRegBalances(db: Db, session: Id, raw: string, a: Assertion, now: int, env: Env)
    requires Balanced(db) && SameOwner(db, session, raw, now, env)
    ensures Balanced(FinishReg(db, session, raw, a, now, env).0)
  {
    var (db', o) := FinishReg(db, session, raw, a, now, env);
    if o.Accepted? {
      FinishRegBalancesIff(db, session, raw, a, now, env);
    } else {
      AcceptedRegistration(db, session, raw, a, now, env);
      SameOwnersBalance(db, db');
    }
  }

  lemma IssueBalances(db: Db, t: E.Token)
    requires Balanced(db) && t.usedAt == None
    ensures Balanced(db.(tokens := db.tokens + [t]))
  {
    assert (db.tokens + [t])[..|db.tokens|] == db.tokens;
  }

  lemma StepBalances(db: Db, op: Op, env: Env)
    requires Balanced(db) && (op.FinishRegOp? ==> SameOwner(db, op.session, op.raw, op.now, env))
    ensures Balanced(Step(db, op, env))
  {
    match op
    case StartAuthOp(s, c) =>
    case FinishAuthOp(s, a) =>
      FinishAuthOwners(db, s, a, env);
      SameOwnersBalance(db, FinishAuth(db, s, a, env).0);
    case StartRegOp(s, raw, c, now) => SameOwnersBalance(db, Step(db, op, env));
    case FinishRegOp(s, raw, a, now) => FinishRegBalances(db, s, raw, a, now, env);
    case IssueOp(user, raw, hash, expiresAt) => IssueBalances(db, E.Issue(user, raw, hash, expiresAt));
  }

  /** Over any such run every single user has as many credentials as burned tokens. */
  lemma {:induction false} PerUserBalance(db: Db, ops: seq<Op>, env: Env)
    requires Balanced(db) && OneOwnerPerSession(db, ops, env)
    ensures Balanced(Run(db, ops, env))
    decreases |ops|
  {
    if ops != [] {
      StepBalances(db, ops[0], env);
      PerUserBalance(Step(db, ops[0], env), ops[1..], env);
    }
  }

  /** A registration succeeds exactly when a session opened by a token holder presents an
      active token and a verified response; it burns that token and creates one credential for
      the user the session was opened for. */
  lemma FinishRegIff(db: Db, session: Id, raw: string, a: Assertion, now: int, env: Env)
    requires Inv(db)
    ensures var (db', o) := FinishReg(db, session, raw, a, now, env);
      var token := E.Lookup(db.tokens, raw, now, env.verifyToken);
      o.Accepted? <==>
        && token.Some? && Slot(session, true) in db.challenges && db.challenges[Slot(session, true)] != ""
        && session in db.enrolling && db.enrolling[session] in db.active
        && exists c, k ::
          db.challenges[Slot(session, true)] == Encode(c) && env.verifyAttestation(a, c) == Some(k) && k.id !in db.creds
  {
    FinishKeyIff(db, session, a, env);
  }

  lemma FinishKeyIff(db: Db, session: Id, a: Assertion, env: Env)
    requires Inv(db)
    ensures FinishKey(db, session, a, env).1.Accepted? <==>
      && Slot(session, true) in db.challenges && db.challenges[Slot(session, true)] != ""
      && session in db.enrolling && db.enrolling[session] in db.active
      && exists c, k ::
        db.challenges[Slot(session, true)] == Encode(c) && env.verifyAttestation(a, c) == Some(k) && k.id !in db.creds
  {
    var slot := Slot(session, true);
    if slot in db.challenges {
      StoredChallengeDecodes(db, slot);
      var d := Decode(db.challenges[slot]).value;
      forall c | db.challenges[slot] == Encode(c) ensures c == d { EncodeInjective(c, d); }
    }
  }
}

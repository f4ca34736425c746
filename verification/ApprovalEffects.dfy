/** What each approval request is for, in its own words: who may make it, when it takes effect,
    and everything it then changes; and how a typed form becomes an account. */
module ApprovalEffects {
  import opened Wrappers
  import opened AuditLog
  import opened Text
  import opened Approvals

  // ----- requests and denials -------------------------------------------------------------

  /** A pending row with the terms of the request and no decision. */
  predicate Asked(row: Approval, action: string, payload: Payload, who: Id, deadline: int) {
    && row.action == action && row.payload == payload && row.requestedBy == who && row.expiresAt == deadline
    && row.state == Pending && row.approvedBy == None && row.deniedBy == None && row.executedAt == None
    && row.error == None
  }

  /** Superadmins request; the new row is pending for a day, and its entry names the requester. */
  lemma RequestIff(db: Db, who: Actor, action: string, payload: Payload, env: Env)
    ensures var (db', e) := RequestStep(db, who, action, payload, env);
      && (e == None <==> who.superadmin) && (e.Some? ==> e.value == NotSuperadmin && db' == db)
      && (e == None ==>
            && db' == db.(approvals := db'.approvals, log := db'.log)
            && |db'.approvals| == |db.approvals| + 1 && db.approvals <= db'.approvals
            && Asked(db'.approvals[|db.approvals|], action, payload, who.id, env.now + 86400)
            && db'.log == db.log + [Entry(ApprovalRequested, Some(who), ApprovalKind, Id(|db.approvals|))])
  {}

  /** Only row k and the log differ. */
  ghost predicate OneRow(db: Db, db': Db, k: nat, row: Approval, e: Entry) {
    && k < |db.approvals| && db' == db.(approvals := db.approvals[k := row], log := db.log + [e])
  }

  /** Another superadmin denies a pending request, due or not, for a reason that is not blank; its
      first 500 characters are kept. */
  lemma DenyIff(db: Db, k: nat, who: Actor, reason: string, env: Env)
    ensures var (db', e) := DenyStep(db, k, who, reason, env);
      && (e == None <==>
            && k < |db.approvals| && who.superadmin && who.id != db.approvals[k].requestedBy
            && db.approvals[k].state == Pending && exists i :: 0 <= i < |reason| && !PySpace(reason[i]))
      && (e == None ==>
            k < |db'.approvals| &&
            var (text, kept) := (Strip(reason, PySpace), db'.approvals[k].deniedReason);
            && kept <= text && (kept == text || |kept| == 500) && |kept| <= 500
            && OneRow(db, db', k,
                 db.approvals[k].(state := Denied, deniedBy := Some(who.id), deniedAt := Some(env.now),
                                  deniedReason := kept),
                 Entry(ApprovalDenied, Some(who), ApprovalKind, Id(k))))
      && (e != None ==> db' == db)
  {
    StripBlankIff(reason, PySpace);
  }

  /** Which refusal comes first; denials and approvals share the guards. */
  lemma GuardsInOrder(db: Db, k: nat, who: Actor, reason: string, env: Env)
    ensures var (a, d) := (ApproveStep(db, k, who, env).1, DenyStep(db, k, who, reason, env).1);
      if k >= |db.approvals| then a == d == Some(NotFound)
      else if !who.superadmin then a == d == Some(NotSuperadmin)
      else if db.approvals[k].requestedBy == who.id then a == d == Some(OwnRequest)
      else if db.approvals[k].state != Pending then a == d == Some(AlreadyDecided)
      else
        && a == (if db.approvals[k].expiresAt <= env.now then Some(HasExpired) else None)
        && (d == None || d == Some(EmptyReason))
  {}

  // ----- approvals ------------------------------------------------------------------------

  /** Nobody's e-mail equals this one, whatever the case of its letters. */
  ghost predicate FreeEmail(users: map<Id, User>, email: string) {
    forall u :: u in users ==> Lower(users[u].email) != Lower(email)
  }

  /** The account a request asks for can be created. */
  ghost predicate Executable(db: Db, row: Approval, newUser: Id) {
    && row.action == "register_superadmin" && "email" in row.payload && "display_name" in row.payload
    && Lower(Strip(row.payload["email"], PySpace)) != "" && newUser !in db.users
    && FreeEmail(db.users, Lower(Strip(row.payload["email"], PySpace)))
  }

  /** A late approval expires the row and does nothing else. */
  lemma LateApproval(db: Db, k: nat, who: Actor, env: Env)
    ensures var (db', e) := ApproveStep(db, k, who, env);
      && (e == Some(HasExpired) ==>
            k < |db.approvals| && OneRow(db, db', k, db.approvals[k].(state := Expired),
                                         Entry(ApprovalExpired, None, ApprovalKind, Id(k))))
      && (e.Some? && e.value != HasExpired ==> db' == db)
  {}

  /** An approval in time signs the row and runs the handler at once: if the account can be created
      the row is executed and exactly that account is new, otherwise the row has failed and the
      accounts are as before; the entries are written in this order. */
  lemma ApprovalRuns(db: Db, k: nat, who: Actor, env: Env)
    requires ApproveStep(db, k, who, env).1 == None
    ensures k < |db.approvals|
    ensures var (db', row) := (ApproveStep(db, k, who, env).0, db.approvals[k]);
      var signed := row.(approvedBy := Some(who.id), approvedAt := Some(env.approvedAt));
      var approved := Entry(ApprovalApproved, Some(who), ApprovalKind, Id(k));
      if Executable(db, row, env.newUser) then
        && db'.approvals == db.approvals[k := signed.(state := Executed, executedAt := Some(env.executedAt))]
        && db'.users == db.users[env.newUser :=
             User(Lower(Strip(row.payload["email"], PySpace)), row.payload["display_name"], true)]
        && db'.log == db.log + [approved, Entry(UserCreated, None, UserKind, env.newUser),
                                Entry(ApprovalExecuted(true), None, ApprovalKind, Id(k))]
        && db'.calls == db.calls + [Call(k, row.payload, who, env.now)]
      else
        var known := row.action == "register_superadmin";
        && db'.approvals ==
             db.approvals[k := signed.(state := Failed, error := Some(if known then Raised else NoHandler))]
        && db'.users == db.users
        && db'.log == db.log + [approved, Entry(ApprovalExecuted(false), None, ApprovalKind, Id(k))]
        && db'.calls == (if known then db.calls + [Call(k, row.payload, who, env.now)] else db.calls)
  {}

  // ----- from the form to the account -----------------------------------------------------

  /** A form is accepted exactly from a superadmin, with an e-mail that is not blank and not taken;
      for a regular account, which is created at once and logged, the key must be free too. */
  lemma NewUserIff(db: Db, who: Actor, email: string, name: string, env: Env)
    ensures var clean := Lower(Strip(email, PySpace));
      var (requested, e) := NewUserStep(db, who, email, name, true, env);
      var (created, d) := NewUserStep(db, who, email, name, false, env);
      && (e == None <==> who.superadmin && clean != "" && FreeEmail(db.users, clean))
      && (d == None <==> e == None && env.newUser !in db.users)
      && (e != None ==> requested == db) && (d != None ==> created == db)
      && (e == None ==> requested.users == db.users && |requested.approvals| == |db.approvals| + 1)
      && (d == None ==>
            created == db.(users := db.users[env.newUser := User(clean, name, false)],
                           log := db.log + [Entry(UserCreated, Some(who), UserKind, env.newUser)]))
  {}

  /** The two-person rule from end to end: one superadmin asks for a superadmin account, any
      requests follow that leave it pending, and another superadmin approves it within a day, with
      the e-mail and the key still free.  Then exactly the account that was typed exists, with the
      e-mail stripped and in lower case. */
  lemma TypedAccount(db: Db, who: Actor, email: string, name: string, env: Env, ops: seq<(Op, Env)>, second: Actor,
          later: Env)
    requires NewUserStep(db, who, email, name, true, env).1 == None
    requires second.superadmin && second.id != who.id && later.now < env.now + 86400
    requires var before := Run(NewUserStep(db, who, email, name, true, env).0, ops);
      && |db.approvals| < |before.approvals| && before.approvals[|db.approvals|].state == Pending
      && later.newUser !in before.users && FreeEmail(before.users, Lower(Strip(email, PySpace)))
    ensures var before := Run(NewUserStep(db, who, email, name, true, env).0, ops);
      var (after, e) := ApproveStep(before, |db.approvals|, second, later);
      && e == None && after.approvals[|db.approvals|].state == Executed
      && after.users == before.users[later.newUser := User(Lower(Strip(email, PySpace)), name, true)]
  {
    var asked := NewUserStep(db, who, email, name, true, env).0;
    var (before, k) := (Run(asked, ops), |db.approvals|);
    RunExtends(asked, ops);
    assert SameRequest(asked.approvals[k], before.approvals[k]);
    CleanTwice(email);
    ApprovalRuns(before, k, second, later);
  }

  /** Normalising an e-mail twice is normalising it once. */
  lemma CleanTwice(email: string)
    ensures var clean := Lower(Strip(email, PySpace)); Strip(clean, PySpace) == clean && Lower(clean) == clean
  {
    var stripped := Strip(email, PySpace);
    StripFacts(email, PySpace);
    StripFacts(Lower(stripped), PySpace);
    assert forall c :: PySpace(LowerChar(c)) <==> PySpace(c);
  }

  // ----- sweeping -------------------------------------------------------------------------

  /** Which rows a sweep expires, spelled out, and what it logs: one entry without an actor for
      each of them, newest first. */
  lemma {:induction false} SweepEntries(db: Db, n: nat, now: int, i: int)
    requires n <= |db.approvals|
    ensures var r := SweepStep(db, n, now);
      && db.log <= r.log
      && (|db.log| <= i < |r.log| ==>
            && r.log[i] == Entry(ApprovalExpired, None, ApprovalKind, r.log[i].target) && r.log[i].target.key < n
            && db.approvals[r.log[i].target.key].state == Pending
            && db.approvals[r.log[i].target.key].expiresAt <= now
            && (i + 1 < |r.log| ==> r.log[i + 1].target.key < r.log[i].target.key))
    decreases n
  {
    if n > 0 {
      var db' := ExpireIfDue(db, n - 1, now);
      SweepEntries(db', n - 1, now, i);
      if |db'.log| <= i + 1 < |SweepStep(db', n - 1, now).log| { SweepEntries(db', n - 1, now, i + 1); }
    }
  }
}

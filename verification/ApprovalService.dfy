/** The service functions of the two-person rule as they update the tables in place; each is
    proved to take exactly the step that module Approvals specifies. */
module ApprovalService {
  import opened Wrappers
  import opened AuditLog
  import opened Text
  import opened Approvals

  class Service {
    var approvals: seq<Approval>
    var users: map<Id, User>
    var log: Log
    ghost var calls: seq<Call>

    ghost function State(): Db
      reads this
    {
      Db(approvals, users, log, calls)
    }

    /** Between requests the tables and the log agree, and every decision has its witnesses. */
    ghost predicate Valid()
      reads this
    {
      Inv(State())
    }

    constructor (accounts: map<Id, User>)
      ensures Valid() && State() == Db([], accounts, [], [])
    {
      approvals, users, log, calls := [], accounts, [], [];
    }

    method Audit(action: Action, actor: Option<Actor>, kind: Kind, target: Id)
      modifies this`log
      ensures log == old(log) + [Entry(action, actor, kind, target)]
    {
      log := log + [Entry(action, actor, kind, target)];
    }

    method RequestApproval(who: Actor, action: string, payload: Payload, env: Env) returns (r: Result<nat, Error>)
      requires Valid()
      modifies this
      ensures Valid()
      ensures var (db, e) := RequestStep(old(State()), who, action, payload, env);
        State() == db && r == (if e.Some? then Err(e.value) else Ok(|old(approvals)|))
    {
      StepKeeps(State(), Request(who, action, payload), env);
      if !who.superadmin {
        return Err(NotSuperadmin);
      }
      var k := |approvals|;
      approvals := approvals + [Issue(action, payload, who.id, env.now)];
      Audit(ApprovalRequested, Some(who), ApprovalKind, Id(k));
      r := Ok(k);
    }

    method Approve(k: nat, who: Actor, env: Env) returns (r: Result<Approval, Error>)
      requires Valid()
      modifies this
      ensures Valid()
      ensures var (db, e) := ApproveStep(old(State()), k, who, env);
        State() == db && (if e.Some? then r == Err(e.value) else k < |approvals| && r == Ok(approvals[k]))
    {
      ApproveKeepsInv(State(), k, who, env);
      if k >= |approvals| {
        return Err(NotFound);
      }
      if !who.superadmin {
        return Err(NotSuperadmin);
      }
      if approvals[k].requestedBy == who.id {
        return Err(OwnRequest);
      }
      if approvals[k].state != Pending {
        return Err(AlreadyDecided);
      }
      if approvals[k].expiresAt <= env.now {
        Expire(k);
        return Err(HasExpired);
      }
      MarkApproved(k, who, env.approvedAt);
      Execute(k, who, env);
      r := Ok(approvals[k]);
    }

    method MarkApproved(k: nat, who: Actor, now: int)
      requires k < |approvals|
      modifies this`approvals, this`log
      ensures State() == EndorseStep(old(State()), k, who, now)
    {
      var row := approvals[k];
      row := row.(state := Approved);
      row := row.(approvedBy := Some(who.id));
      row := row.(approvedAt := Some(now));
      approvals := approvals[k := row];
      Audit(ApprovalApproved, Some(who), ApprovalKind, Id(k));
    }

    method Deny(k: nat, who: Actor, reason: string, env: Env) returns (r: Result<Approval, Error>)
      requires Valid()
      modifies this
      ensures Valid()
      ensures var (db, e) := DenyStep(old(State()), k, who, reason, env);
        State() == db && (if e.Some? then r == Err(e.value) else k < |approvals| && r == Ok(approvals[k]))
    {
      StepKeeps(State(), Op.Deny(k, who, reason), env);
      if k >= |approvals| {
        return Err(NotFound);
      }
      if !who.superadmin {
        return Err(NotSuperadmin);
      }
      if approvals[k].requestedBy == who.id {
        return Err(OwnRequest);
      }
      if approvals[k].state != Pending {
        return Err(AlreadyDecided);
      }
      var text := Strip(reason, PySpace);
      if text == "" {
        return Err(EmptyReason);
      }
      var row := approvals[k].(state := Denied, deniedBy := Some(who.id), deniedAt := Some(env.now));
      row := row.(deniedReason := if |text| <= 500 then text else text[..500]);
      approvals := approvals[k := row];
      Audit(ApprovalDenied, Some(who), ApprovalKind, Id(k));
      r := Ok(row);
    }

    /** The user-creation view, past its form; None for the key means that an approval was requested. */
    method UserNew(who: Actor, email: string, name: string, privileged: bool, env: Env)
        returns (r: Result<Option<Id>, Error>)
      requires Valid()
      modifies this
      ensures Valid()
      ensures var (db, e) := NewUserStep(old(State()), who, email, name, privileged, env);
        State() == db && r == (if e.Some? then Err(e.value) else Ok(if privileged then None else Some(env.newUser)))
    {
      StepKeeps(State(), NewUser(who, email, name, privileged), env);
      if !who.superadmin {
        return Err(NotSuperadmin);
      }
      var clean := Lower(Strip(email, PySpace));
      if clean == "" || EmailTaken(users, clean) {
        return Err(BadEmail);
      }
      if privileged {
        var requested := RequestApproval(who, REGISTER_SUPERADMIN, NewUserPayload(email, name), env);
        return Ok(None);
      }
      if env.newUser in users {
        return Err(KeyTaken);
      }
      users := users[env.newUser := User(clean, name, false)];
      Audit(UserCreated, Some(who), UserKind, env.newUser);
      r := Ok(Some(env.newUser));
    }

    method Execute(k: nat, who: Actor, env: Env)
      requires k < |approvals|
      modifies this
      ensures State() == ExecuteStep(old(State()), k, who, env)
    {
      var row := approvals[k];
      if row.action != REGISTER_SUPERADMIN {
        approvals := approvals[k := row.(state := Failed, error := Some(NoHandler))];
        Audit(ApprovalExecuted(false), None, ApprovalKind, Id(k));
        return;
      }
      calls := calls + [Call(k, row.payload, who, env.now)];
      var ok := CreateSuperadminUser(row.payload, env.newUser);
      if !ok {
        approvals := approvals[k := row.(state := Failed, error := Some(Raised))];
        Audit(ApprovalExecuted(false), None, ApprovalKind, Id(k));
        return;
      }
      approvals := approvals[k := row.(state := Executed, executedAt := Some(env.executedAt))];
      Audit(ApprovalExecuted(true), None, ApprovalKind, Id(k));
    }

    /** The registered handler; false stands for a raised exception. */
    method CreateSuperadminUser(payload: Payload, newUser: Id) returns (ok: bool)
      modifies this`users, this`log
      ensures match CreateSuperadmin(old(users), payload, newUser)
        case None => !ok && users == old(users) && log == old(log)
        case Some(created) => ok && users == created && log == old(log) + [Entry(UserCreated, None, UserKind, newUser)]
    {
      if "email" !in payload || "display_name" !in payload {
        return false;
      }
      var email := Lower(Strip(payload["email"], PySpace));
      if EmailTaken(users, email) || email == "" || newUser in users {
        return false;
      }
      users := users[newUser := User(email, payload["display_name"], true)];
      Audit(UserCreated, None, UserKind, newUser);
      ok := true;
    }

    method Expire(k: nat)
      requires k < |approvals|
      modifies this
      ensures State() == ExpireStep(old(State()), k)
    {
      approvals := approvals[k := approvals[k].(state := Expired)];
      Audit(ApprovalExpired, None, ApprovalKind, Id(k));
    }

    /** The sweep's query: pending rows that are past due, newest first. */
    method FindDue(now: int) returns (candidates: seq<nat>)
      ensures candidates == Candidates(approvals, now)
    {
      candidates := [];
      var n := |approvals|;
      assert approvals[..n] == approvals;
      while n > 0
        invariant n <= |approvals|
        invariant candidates + Candidates(approvals[..n], now) == Candidates(approvals, now)
      {
        n := n - 1;
        CandidatesStep(approvals, n, now);
        ghost var rest := Candidates(approvals[..n], now);
        var found := if Due(approvals[n], now) then [n] else [];
        assert candidates + (found + rest) == (candidates + found) + rest;
        candidates := candidates + found;
      }
    }

    method ExpireEach(candidates: seq<nat>)
      requires forall i :: 0 <= i < |candidates| ==> candidates[i] < |approvals|
      modifies this
      ensures State() == ExpireAll(old(State()), candidates)
    {
      ghost var start := State();
      assert candidates[0..] == candidates;
      for i := 0 to |candidates|
        invariant |approvals| == |start.approvals|
        invariant ExpireAll(State(), candidates[i..]) == ExpireAll(start, candidates)
      {
        assert candidates[i..][1..] == candidates[i + 1..];
        Expire(candidates[i]);
      }
    }

    /** Expires every due row and returns how many there were. */
    method SweepExpired(now: int) returns (count: nat)
      requires Valid()
      modifies this
      ensures Valid()
      ensures State() == SweepStep(old(State()), |old(approvals)|, now)
      ensures count == CountDue(old(approvals), now) == |log| - |old(log)|
    {
      ghost var start := State();
      assert start.approvals[..|start.approvals|] == start.approvals;
      var candidates := FindDue(now);
      CandidatesFacts(start, |approvals|, now);
      ExpireEach(candidates);
      count := |candidates|;
      SweepEffect(start, |start.approvals|, now);
      StepKeeps(start, Sweep, Env(now, now, now, Id(0)));
    }
  }

  /** The rows the sweep's query returns, newest first. */
  ghost function Candidates(rows: seq<Approval>, now: int): (c: seq<nat>)
    ensures forall i :: 0 <= i < |c| ==> c[i] < |rows|
  {
    if rows == [] then [] else
      (if Due(rows[|rows| - 1], now) then [|rows| - 1] else []) + Candidates(rows[..|rows| - 1], now)
  }

  lemma CandidatesStep(rows: seq<Approval>, n: nat, now: int)
    requires n < |rows|
    ensures Candidates(rows[..n + 1], now) == (if Due(rows[n], now) then [n] else []) + Candidates(rows[..n], now)
  {
    assert rows[..n + 1][..n] == rows[..n];
  }

  ghost function ExpireAll(db: Db, ks: seq<nat>): Db
    requires forall i :: 0 <= i < |ks| ==> ks[i] < |db.approvals|
    decreases |ks|
  {
    if ks == [] then db else ExpireAll(ExpireStep(db, ks[0]), ks[1..])
  }

  lemma ExpireFirst(db: Db, k: nat, rest: seq<nat>)
    requires k < |db.approvals| && forall i :: 0 <= i < |rest| ==> rest[i] < |db.approvals|
    ensures ExpireAll(db, [k] + rest) == ExpireAll(ExpireStep(db, k), rest)
  {
    assert ([k] + rest)[0] == k && ([k] + rest)[1..] == rest;
  }

  lemma {:induction false} CandidatesFacts(db: Db, n: nat, now: int)
    requires n <= |db.approvals|
    ensures ExpireAll(db, Candidates(db.approvals[..n], now)) == SweepStep(db, n, now)
    ensures |Candidates(db.approvals[..n], now)| == CountDue(db.approvals[..n], now)
    decreases n
  {
    if n > 0 {
      var db' := ExpireIfDue(db, n - 1, now);
      assert db.approvals[..n][..n - 1] == db.approvals[..n - 1] == db'.approvals[..n - 1];
      CandidatesStep(db.approvals, n - 1, now);
      CandidatesFacts(db', n - 1, now);
      var c := Candidates(db.approvals[..n], now);
      var rest := Candidates(db.approvals[..n - 1], now);
      if Due(db.approvals[n - 1], now) {
        ExpireFirst(db, n - 1, rest);
      } else {
        assert c == rest;
      }
    }
  }
}

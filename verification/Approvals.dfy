/** The two-person rule: a privileged action requested by one superadmin runs only after
    another superadmin approved it in time.  Every transition appends to the audit log. */
module Approvals {
  import opened Wrappers
  import opened AuditLog
  import opened Text

  // ----- rows ----------------------------------------------------------------------------

  datatype State = Pending | Approved | Denied | Executed | Expired | Failed

  predicate Terminal(s: State) { s == Denied || s == Executed || s == Expired || s == Failed }

  type Payload = map<string, string>

  datatype Failure = NoHandler | Raised

  /** Rows are numbered in creation order; row k has the audit target Id(k). */
  datatype Approval = Approval(
    action: string, payload: Payload, requestedBy: Id, expiresAt: int, state: State,
    approvedBy: Option<Id>, approvedAt: Option<int>,
    deniedBy: Option<Id>, deniedAt: Option<int>, deniedReason: string,
    executedAt: Option<int>, error: Option<Failure>)

  datatype User = User(email: string, displayName: string, superadmin: bool)

  /** One invocation of a handler, kept as history. */
  datatype Call = Call(approval: nat, payload: Payload, who: Actor, at: int)

  datatype Db = Db(approvals: seq<Approval>, users: map<Id, User>, log: Log, calls: seq<Call>)

  datatype Error = NotSuperadmin | OwnRequest | AlreadyDecided | HasExpired | EmptyReason | NotFound | BadEmail
    | KeyTaken

  const TTL := 24 * 60 * 60

  /** Clock readings and random keys that a request draws on. */
  datatype Env = Env(now: int, approvedAt: int, executedAt: int, newUser: Id)

  datatype Op =
    | Request(who: Actor, action: string, payload: Payload)
    | Approve(k: nat, who: Actor)
    | Deny(k: nat, who: Actor, reason: string)
    | Sweep
    | NewUser(who: Actor, email: string, name: string, privileged: bool)

  // ----- specification: one request on values ----------------------------------------------

  function Issue(action: string, payload: Payload, who: Id, now: int): Approval {
    Approval(action, payload, who, now + TTL, Pending, None, None, None, None, "", None, None)
  }

  function Note(db: Db, k: nat, action: Action, actor: Option<Actor>): Db {
    db.(log := db.log + [Entry(action, actor, ApprovalKind, Id(k))])
  }

  function Put(db: Db, k: nat, row: Approval): Db
    requires k < |db.approvals|
  {
    db.(approvals := db.approvals[k := row])
  }

  function Guard(row: Approval, who: Actor): Option<Error> {
    if !who.superadmin then Some(NotSuperadmin)
    else if row.requestedBy == who.id then Some(OwnRequest)
    else if row.state != Pending then Some(AlreadyDecided)
    else None
  }

  const REGISTER_SUPERADMIN := "register_superadmin"

  predicate EmailTaken(users: map<Id, User>, email: string) {
    exists u :: u in users && Lower(users[u].email) == Lower(email)
  }

  /** The one registered handler.  None stands for a raised exception. */
  function CreateSuperadmin(users: map<Id, User>, payload: Payload, newUser: Id): Option<map<Id, User>> {
    if "email" !in payload || "display_name" !in payload then None else
      var email := Lower(Strip(payload["email"], PySpace));
      if EmailTaken(users, email) || email == "" || newUser in users then None
      else Some(users[newUser := User(email, payload["display_name"], true)])
  }

  function ExpireStep(db: Db, k: nat): Db
    requires k < |db.approvals|
  {
    Note(Put(db, k, db.approvals[k].(state := Expired)), k, ApprovalExpired, None)
  }

  function ExecuteStep(db: Db, k: nat, who: Actor, env: Env): Db
    requires k < |db.approvals|
  {
    var row := db.approvals[k];
    if row.action != REGISTER_SUPERADMIN then
      Note(Put(db, k, row.(state := Failed, error := Some(NoHandler))), k, ApprovalExecuted(false), None)
    else
      var called := db.(calls := db.calls + [Call(k, row.payload, who, env.now)]);
      match CreateSuperadmin(db.users, row.payload, env.newUser)
      case None =>
        Note(Put(called, k, row.(state := Failed, error := Some(Raised))), k, ApprovalExecuted(false), None)
      case Some(users) =>
        var created := called.(users := users,
                               log := called.log + [Entry(UserCreated, None, UserKind, env.newUser)]);
        var row' := row.(state := Executed, executedAt := Some(env.executedAt));
        Note(Put(created, k, row'), k, ApprovalExecuted(true), None)
  }

  function EndorseStep(db: Db, k: nat, who: Actor, now: int): Db
    requires k < |db.approvals|
  {
    var row := db.approvals[k].(state := Approved, approvedBy := Some(who.id), approvedAt := Some(now));
    Note(Put(db, k, row), k, ApprovalApproved, Some(who))
  }

  function ApproveStep(db: Db, k: nat, who: Actor, env: Env): (Db, Option<Error>) {
    if k >= |db.approvals| then (db, Some(NotFound)) else
      var row := db.approvals[k];
      var refused := Guard(row, who);
      if refused.Some? then (db, refused)
      else if row.expiresAt <= env.now then (ExpireStep(db, k), Some(HasExpired))
      else
        (ExecuteStep(EndorseStep(db, k, who, env.approvedAt), k, who, env), None)
  }

  function DenyStep(db: Db, k: nat, who: Actor, reason: string, env: Env): (Db, Option<Error>) {
    if k >= |db.approvals| then (db, Some(NotFound)) else
      var row := db.approvals[k];
      var refused := Guard(row, who);
      if refused.Some? then (db, refused)
      else if Strip(reason, PySpace) == "" then (db, Some(EmptyReason))
      else
        var text := Strip(reason, PySpace);
        var row' := row.(state := Denied, deniedBy := Some(who.id), deniedAt := Some(env.now),
                         deniedReason := if |text| <= 500 then text else text[..500]);
        (Note(Put(db, k, row'), k, ApprovalDenied, Some(who)), None)
  }

  function RequestStep(db: Db, who: Actor, action: string, payload: Payload, env: Env): (Db, Option<Error>) {
    if !who.superadmin then (db, Some(NotSuperadmin)) else
      var issued := db.(approvals := db.approvals + [Issue(action, payload, who.id, env.now)]);
      (Note(issued, |db.approvals|, ApprovalRequested, Some(who)), None)
  }

  function NewUserPayload(email: string, name: string): Payload {
    map["email" := Lower(Strip(email, PySpace)), "display_name" := name]
  }

  /** The view that creates users: a superadmin account is only requested, any other is created
      directly. */
  function NewUserStep(db: Db, who: Actor, email: string, name: string, privileged: bool, env: Env): (Db, Option<Error>)
  {
    var clean := Lower(Strip(email, PySpace));
    if !who.superadmin then (db, Some(NotSuperadmin))
    else if clean == "" || EmailTaken(db.users, clean) then (db, Some(BadEmail))
    else if privileged then
      RequestStep(db, who, REGISTER_SUPERADMIN, NewUserPayload(email, name), env)
    else if env.newUser in db.users then (db, Some(KeyTaken))
    else
      (db.(users := db.users[env.newUser := User(clean, name, false)],
           log := db.log + [Entry(UserCreated, Some(who), UserKind, env.newUser)]), None)
  }

  predicate Due(row: Approval, now: int) { row.state == Pending && row.expiresAt <= now }

  function ExpireIfDue(db: Db, k: nat, now: int): Db
    requires k < |db.approvals|
  {
    if Due(db.approvals[k], now) then ExpireStep(db, k) else db
  }

  /** The sweep handles the rows below n, newest first, as the table's ordering lists them. */
  function SweepStep(db: Db, n: nat, now: int): (r: Db)
    requires n <= |db.approvals|
    decreases n
  {
    if n == 0 then db else SweepStep(ExpireIfDue(db, n - 1, now), n - 1, now)
  }

  function Step(db: Db, op: Op, env: Env): Db {
    match op
    case Request(who, action, payload) => RequestStep(db, who, action, payload, env).0
    case Approve(k, who) => ApproveStep(db, k, who, env).0
    case Deny(k, who, reason) => DenyStep(db, k, who, reason, env).0
    case Sweep => SweepStep(db, |db.approvals|, env.now)
    case NewUser(who, email, name, privileged) => NewUserStep(db, who, email, name, privileged, env).0
  }

  function Run(db: Db, ops: seq<(Op, Env)>): Db
    decreases |ops|
  {
    if ops == [] then db else Run(Step(db, ops[0].0, ops[0].1), ops[1..])
  }

  // ----- invariant: the log is the state ---------------------------------------------------

  /** The only histories an approval can have. */
  function Word(s: State): seq<Action> {
    match s
    case Pending => [ApprovalRequested]
    case Approved => [ApprovalRequested, ApprovalApproved]
    case Executed => [ApprovalRequested, ApprovalApproved, ApprovalExecuted(true)]
    case Failed => [ApprovalRequested, ApprovalApproved, ApprovalExecuted(false)]
    case Denied => [ApprovalRequested, ApprovalDenied]
    case Expired => [ApprovalRequested, ApprovalExpired]
  }

  /** Reading a history: the state after each entry depends on that entry alone. */
  function Replay(history: seq<Action>): State {
    if history == [] then Pending else
      match history[|history| - 1]
      case ApprovalApproved => Approved
      case ApprovalDenied => Denied
      case ApprovalExpired => Expired
      case ApprovalExecuted(ok) => if ok then Executed else Failed
      case _ => Pending
  }

  ghost function History(db: Db, k: nat): seq<Action> { Entries(db.log, ApprovalKind, Id(k)) }

  ghost predicate Logged(db: Db) {
    && (forall k: nat :: k < |db.approvals| ==> History(db, k) == Word(db.approvals[k].state))
    && (forall k: nat :: k >= |db.approvals| ==> History(db, k) == [])
  }

  /** Who decided, and that nobody decides on an own request. */
  predicate Decided(row: Approval) {
    && row.state != Approved
    && (row.approvedBy.Some? <==> row.state == Executed || row.state == Failed)
    && (row.deniedBy.Some? <==> row.state == Denied)
    && row.approvedBy != Some(row.requestedBy) && row.deniedBy != Some(row.requestedBy)
  }

  predicate Allowed(db: Db, c: Call) {
    && c.approval < |db.approvals|
    && var row := db.approvals[c.approval];
       && (row.state == Executed || row.state == Failed)
       && c.payload == row.payload && row.approvedBy == Some(c.who.id)
       && c.who.superadmin && c.who.id != row.requestedBy && c.at < row.expiresAt
  }

  ghost predicate CalledOnce(db: Db) {
    && (forall i :: 0 <= i < |db.calls| ==> Allowed(db, db.calls[i]))
    && (forall i, j :: 0 <= i < j < |db.calls| ==> db.calls[i].approval != db.calls[j].approval)
  }

  /** The log, the rows and the handler calls agree. */
  ghost predicate Consistent(db: Db) {
    && Logged(db)
    && (forall k :: 0 <= k < |db.approvals| ==> Decided(db.approvals[k]))
    && CalledOnce(db)
  }

  // ----- every request keeps the invariant -------------------------------------------------

  lemma HistoryAppend(db: Db, e: Entry, k: nat)
    ensures History(db.(log := db.log + [e]), k)
         == History(db, k) + (if e.kind == ApprovalKind && e.target == Id(k) then [e.action] else [])
  {
    EntriesAppend(db.log, e, ApprovalKind, Id(k));
  }

  /** A pending row k takes a decision, and its history grows to the word of the new state. */
  lemma Decide(db: Db, k: nat, row: Approval, db': Db)
    requires Consistent(db) && k < |db.approvals| && db.approvals[k].state == Pending
    requires db'.approvals == db.approvals[k := row] && Decided(row)
    requires forall j: nat :: History(db', j) == if j == k then Word(row.state) else History(db, j)
    requires db'.calls == db.calls || exists c :: db'.calls == db.calls + [c] && c.approval == k && Allowed(db', c)
    ensures Consistent(db')
  {
    DecideCalls(db, k, row, db');
    forall j: nat | j < |db'.approvals|
      ensures History(db', j) == Word(db'.approvals[j].state) && Decided(db'.approvals[j])
    {
      if j != k { assert db'.approvals[j] == db.approvals[j] && Decided(db.approvals[j]); }
    }
  }

  lemma DecideCalls(db: Db, k: nat, row: Approval, db': Db)
    requires CalledOnce(db) && k < |db.approvals| && db.approvals[k].state == Pending
    requires db'.approvals == db.approvals[k := row]
    requires db'.calls == db.calls || exists c :: db'.calls == db.calls + [c] && c.approval == k && Allowed(db', c)
    ensures CalledOnce(db')
  {
    forall i | 0 <= i < |db.calls| ensures Allowed(db', db.calls[i]) && db.calls[i].approval != k {
      assert Allowed(db, db.calls[i]);
    }
  }

  lemma ExpireKeeps(db: Db, k: nat)
    requires Consistent(db) && k < |db.approvals| && db.approvals[k].state == Pending
    ensures Consistent(ExpireStep(db, k))
  {
    var row := db.approvals[k].(state := Expired);
    var db' := ExpireStep(db, k);
    forall j: nat ensures History(db', j) == if j == k then Word(Expired) else History(db, j) {
      HistoryAppend(Put(db, k, row), Entry(ApprovalExpired, None, ApprovalKind, Id(k)), j);
    }
    Decide(db, k, row, db');
  }

  lemma DenyKeeps(db: Db, k: nat, who: Actor, reason: string, env: Env)
    requires Consistent(db)
    ensures Consistent(DenyStep(db, k, who, reason, env).0)
    ensures DenyStep(db, k, who, reason, env).1.Some? ==> DenyStep(db, k, who, reason, env).0 == db
  {
    var (db', e) := DenyStep(db, k, who, reason, env);
    if e == None {
      DeniedKeeps(db, k, db'.approvals[k], who, db');
    }
  }

  lemma DeniedKeeps(db: Db, k: nat, row: Approval, who: Actor, db': Db)
    requires Consistent(db) && k < |db.approvals| && db.approvals[k].state == Pending
    requires Decided(row) && row.state == Denied && db' == Note(Put(db, k, row), k, ApprovalDenied, Some(who))
    ensures Consistent(db')
  {
    forall j: nat ensures History(db', j) == if j == k then Word(Denied) else History(db, j) {
      HistoryAppend(Put(db, k, row), Entry(ApprovalDenied, Some(who), ApprovalKind, Id(k)), j);
    }
    Decide(db, k, row, db');
  }

  lemma RequestKeeps(db: Db, who: Actor, action: string, payload: Payload, env: Env)
    requires Consistent(db)
    ensures Consistent(RequestStep(db, who, action, payload, env).0)
  {
    if who.superadmin {
      var db' := RequestStep(db, who, action, payload, env).0;
      var n := |db.approvals|;
      forall j: nat ensures History(db', j) == History(db, j) + (if j == n then [ApprovalRequested] else []) {
        HistoryAppend(db, Entry(ApprovalRequested, Some(who), ApprovalKind, Id(n)), j);
      }
      Appended(db, Issue(action, payload, who.id, env.now), db');
    }
  }

  lemma Appended(db: Db, row: Approval, db': Db)
    requires Consistent(db) && row.state == Pending && Decided(row)
    requires db'.approvals == db.approvals + [row] && db'.calls == db.calls
    requires forall j: nat ::
      History(db', j) == History(db, j) + (if j == |db.approvals| then [ApprovalRequested] else [])
    ensures Consistent(db')
  {}

  lemma ExecuteHistory(db: Db, k: nat, who: Actor, env: Env, j: nat)
    requires k < |db.approvals|
    ensures var db' := ExecuteStep(db, k, who, env);
      History(db', j) == History(db, j) +
        (if j == k then [ApprovalExecuted(db'.approvals[k].state == Executed)] else [])
  {
    var db' := ExecuteStep(db, k, who, env);
    var last := Entry(ApprovalExecuted(db'.approvals[k].state == Executed), None, ApprovalKind, Id(k));
    var row := db.approvals[k];
    if row.action == REGISTER_SUPERADMIN && CreateSuperadmin(db.users, row.payload, env.newUser).Some? {
      var created := Entry(UserCreated, None, UserKind, env.newUser);
      HistoryAppend(db, created, j);
      HistoryAppend(db.(log := db.log + [created]), last, j);
    } else {
      HistoryAppend(db, last, j);
    }
  }

  /** What an approval that was not refused does to the row and to the handler calls. */
  lemma ApproveRow(db: Db, k: nat, who: Actor, env: Env)
    requires k < |db.approvals| && ApproveStep(db, k, who, env).1 == None
    ensures var (db', row, row') :=
      (ApproveStep(db, k, who, env).0, db.approvals[k], ApproveStep(db, k, who, env).0.approvals[k]);
      && db'.approvals == db.approvals[k := row']
      && (row'.state == Executed || row'.state == Failed)
      && row' == row.(state := row'.state, approvedBy := Some(who.id), approvedAt := Some(env.approvedAt),
                      executedAt := row'.executedAt, error := row'.error)
      && (db'.calls == db.calls || db'.calls == db.calls + [Call(k, row.payload, who, env.now)])
      && Guard(row, who) == None && env.now < row.expiresAt
  {}

  lemma ApproveHistory(db: Db, k: nat, who: Actor, env: Env, j: nat)
    requires Logged(db) && k < |db.approvals| && ApproveStep(db, k, who, env).1 == None
    ensures var db' := ApproveStep(db, k, who, env).0;
      History(db', j) == if j == k then Word(db'.approvals[k].state) else History(db, j)
  {
    ApproveRow(db, k, who, env);
    var row := db.approvals[k];
    var endorsed := Put(db, k, row.(state := Approved, approvedBy := Some(who.id), approvedAt := Some(env.approvedAt)));
    HistoryAppend(endorsed, Entry(ApprovalApproved, Some(who), ApprovalKind, Id(k)), j);
    ExecuteHistory(Note(endorsed, k, ApprovalApproved, Some(who)), k, who, env, j);
    assert History(endorsed, j) == History(db, j);
    assert History(db, k) == [ApprovalRequested];
  }

  lemma ApproveKeeps(db: Db, k: nat, who: Actor, env: Env)
    requires Consistent(db)
    ensures Consistent(ApproveStep(db, k, who, env).0)
  {
    var e := ApproveStep(db, k, who, env).1;
    if e == Some(HasExpired) {
      ExpireKeeps(db, k);
    } else if e == None {
      var db' := ApproveStep(db, k, who, env).0;
      ApproveRow(db, k, who, env);
      forall j: nat ensures History(db', j) == if j == k then Word(db'.approvals[k].state) else History(db, j) {
        ApproveHistory(db, k, who, env, j);
      }
      ApproveDecides(db, k, who, env);
      Decide(db, k, db'.approvals[k], db');
    }
  }

  lemma ApproveDecides(db: Db, k: nat, who: Actor, env: Env)
    requires k < |db.approvals| && Decided(db.approvals[k]) && ApproveStep(db, k, who, env).1 == None
    ensures var (db', c) := (ApproveStep(db, k, who, env).0, Call(k, db.approvals[k].payload, who, env.now));
      Decided(db'.approvals[k]) && Allowed(db', c)
  {
    ApproveRow(db, k, who, env);
  }

  // ----- sweeping ----------------------------------------------------------------------------

  function CountDue(rows: seq<Approval>, now: int): nat {
    if rows == [] then 0 else
      CountDue(rows[..|rows| - 1], now) + (if Due(rows[|rows| - 1], now) then 1 else 0)
  }

  /** A sweep expires exactly the due rows and logs one entry for each. */
  lemma {:induction false} SweepEffect(db: Db, n: nat, now: int)
    requires n <= |db.approvals|
    ensures var r := SweepStep(db, n, now);
      && |r.approvals| == |db.approvals| && r.users == db.users && r.calls == db.calls
      && (forall k :: 0 <= k < |db.approvals| ==>
            r.approvals[k] ==
              if k < n && Due(db.approvals[k], now) then db.approvals[k].(state := Expired) else db.approvals[k])
      && |r.log| == |db.log| + CountDue(db.approvals[..n], now)
    decreases n
  {
    if n > 0 {
      var db' := ExpireIfDue(db, n - 1, now);
      SweepEffect(db', n - 1, now);
      assert db.approvals[..n][..n - 1] == db.approvals[..n - 1] == db'.approvals[..n - 1];
    }
  }

  lemma {:induction false} SweepHistory(db: Db, n: nat, now: int, k: nat)
    requires n <= |db.approvals|
    ensures History(SweepStep(db, n, now), k)
         == History(db, k) + (if k < n && Due(db.approvals[k], now) then [ApprovalExpired] else [])
    decreases n
  {
    if n > 0 {
      SweepHistory(ExpireIfDue(db, n - 1, now), n - 1, now, k);
      if Due(db.approvals[n - 1], now) {
        HistoryAppend(Put(db, n - 1, db.approvals[n - 1].(state := Expired)),
                      Entry(ApprovalExpired, None, ApprovalKind, Id(n - 1)), k);
      }
    }
  }

  /** Some pending rows, those in `due`, expired together. */
  lemma ExpiryKeeps(db: Db, due: set<nat>, r: Db)
    requires Consistent(db) && |r.approvals| == |db.approvals| && r.calls == db.calls
    requires forall k: nat :: k < |db.approvals| ==>
      if k in due then db.approvals[k].state == Pending && r.approvals[k] == db.approvals[k].(state := Expired)
      else r.approvals[k] == db.approvals[k]
    requires forall k: nat ::
      History(r, k) == History(db, k) + (if k < |db.approvals| && k in due then [ApprovalExpired] else [])
    ensures Consistent(r)
  {
    forall k: nat | k < |r.approvals| ensures History(r, k) == Word(r.approvals[k].state) && Decided(r.approvals[k]) {
      assert History(db, k) == Word(db.approvals[k].state) && Decided(db.approvals[k]);
    }
    ExpiryCalls(db, due, r);
  }

  lemma ExpiryCalls(db: Db, due: set<nat>, r: Db)
    requires CalledOnce(db) && |r.approvals| == |db.approvals| && r.calls == db.calls
    requires forall k: nat :: k < |db.approvals| ==>
      if k in due then db.approvals[k].state == Pending else r.approvals[k] == db.approvals[k]
    ensures CalledOnce(r)
  {
    forall i | 0 <= i < |r.calls| ensures Allowed(r, r.calls[i]) { assert Allowed(db, db.calls[i]); }
  }

  function DueRows(rows: seq<Approval>, now: int): set<nat> {
    set k: nat | k < |rows| && Due(rows[k], now)
  }

  lemma SweepExpires(db: Db, now: int, r: Db)
    requires r == SweepStep(db, |db.approvals|, now)
    ensures var due := DueRows(db.approvals, now);
      && |r.approvals| == |db.approvals| && r.calls == db.calls
      && (forall k: nat :: k < |db.approvals| ==>
            if k in due then db.approvals[k].state == Pending && r.approvals[k] == db.approvals[k].(state := Expired)
            else r.approvals[k] == db.approvals[k])
      && (forall k: nat ::
            History(r, k) == History(db, k) + (if k < |db.approvals| && k in due then [ApprovalExpired] else []))
  {
    SweepEffect(db, |db.approvals|, now);
    forall k: nat
      ensures History(r, k) == History(db, k) +
        (if k < |db.approvals| && k in DueRows(db.approvals, now) then [ApprovalExpired] else [])
    {
      SweepHistory(db, |db.approvals|, now, k);
    }
  }

  lemma SweepKeeps(db: Db, now: int)
    requires Consistent(db)
    ensures Consistent(SweepStep(db, |db.approvals|, now))
  {
    var r := SweepStep(db, |db.approvals|, now);
    SweepExpires(db, now, r);
    ExpiryKeeps(db, DueRows(db.approvals, now), r);
  }

  lemma NewUserKeeps(db: Db, who: Actor, email: string, name: string, privileged: bool, env: Env)
    requires Consistent(db)
    ensures Consistent(NewUserStep(db, who, email, name, privileged, env).0)
  {
    var db' := NewUserStep(db, who, email, name, privileged, env).0;
    if privileged {
      RequestKeeps(db, who, REGISTER_SUPERADMIN, NewUserPayload(email, name), env);
    } else if db' != db {
      var e := Entry(UserCreated, Some(who), UserKind, env.newUser);
      forall j: nat ensures History(db', j) == History(db, j) { HistoryAppend(db, e, j); }
      UsersOnlyKeeps(db, db');
    }
  }

  lemma UsersOnlyKeeps(db: Db, db': Db)
    requires Consistent(db) && db'.approvals == db.approvals && db'.calls == db.calls
    requires forall j: nat :: History(db', j) == History(db, j)
    ensures Consistent(db')
  {
    assert forall i :: 0 <= i < |db.calls| ==> Allowed(db, db.calls[i]);
  }

  lemma StepConsistent(db: Db, op: Op, env: Env)
    requires Consistent(db)
    ensures Consistent(Step(db, op, env))
  {
    match op
    case Request(who, action, payload) => RequestKeeps(db, who, action, payload, env);
    case Approve(k, who) => ApproveKeeps(db, k, who, env);
    case Deny(k, who, reason) => DenyKeeps(db, k, who, reason, env);
    case Sweep => SweepKeeps(db, env.now);
    case NewUser(who, email, name, privileged) => NewUserKeeps(db, who, email, name, privileged, env);
  }

  // ----- what never changes ----------------------------------------------------------------

  predicate SameRequest(a: Approval, b: Approval) {
    a.action == b.action && a.payload == b.payload && a.requestedBy == b.requestedBy && a.expiresAt == b.expiresAt
  }

  /** The log and the calls only grow; a request keeps its terms; a decided row is final. */
  ghost predicate Extends(db: Db, db': Db) {
    && db.log <= db'.log && db.calls <= db'.calls && |db.approvals| <= |db'.approvals|
    && forall k :: 0 <= k < |db.approvals| ==>
         && SameRequest(db.approvals[k], db'.approvals[k])
         && (Terminal(db.approvals[k].state) ==> db'.approvals[k] == db.approvals[k])
  }

  lemma ApproveExtends(db: Db, k: nat, who: Actor, env: Env)
    ensures Extends(db, ApproveStep(db, k, who, env).0)
  {
    if ApproveStep(db, k, who, env).1 == None { ApproveRow(db, k, who, env); }
  }

  lemma {:induction false} SweepExtends(db: Db, n: nat, now: int)
    requires n <= |db.approvals|
    ensures Extends(db, SweepStep(db, n, now))
    decreases n
  {
    if n > 0 {
      var db' := ExpireIfDue(db, n - 1, now);
      assert Extends(db, db');
      SweepExtends(db', n - 1, now);
    }
  }

  lemma RequestExtends(db: Db, who: Actor, action: string, payload: Payload, env: Env)
    ensures Extends(db, RequestStep(db, who, action, payload, env).0)
  {}

  lemma DenyExtends(db: Db, k: nat, who: Actor, reason: string, env: Env)
    ensures Extends(db, DenyStep(db, k, who, reason, env).0)
  {}

  lemma StepExtends(db: Db, op: Op, env: Env)
    ensures Extends(db, Step(db, op, env))
  {
    match op
    case Request(who, action, payload) => RequestExtends(db, who, action, payload, env);
    case Approve(k, who) => ApproveExtends(db, k, who, env);
    case Deny(k, who, reason) => DenyExtends(db, k, who, reason, env);
    case Sweep => SweepExtends(db, |db.approvals|, env.now);
    case NewUser(who, email, name, privileged) =>
      if privileged { RequestExtends(db, who, REGISTER_SUPERADMIN, NewUserPayload(email, name), env); }
  }

  lemma {:induction false} RunExtends(db: Db, ops: seq<(Op, Env)>)
    ensures Extends(db, Run(db, ops))
    decreases |ops|
  {
    if ops != [] {
      StepExtends(db, ops[0].0, ops[0].1);
      RunExtends(Step(db, ops[0].0, ops[0].1), ops[1..]);
    }
  }

  // ----- who signed -------------------------------------------------------------------------

  /** The log entry of approval k for this action, by superadmin `who`. */
  predicate Signature(e: Entry, k: nat, action: Action, who: Id) {
    && e.kind == ApprovalKind && e.target == Id(k) && e.action == action
    && e.actor.Some? && e.actor.value.superadmin && e.actor.value.id == who
  }

  ghost predicate Signed(log: Log, k: nat, action: Action, who: Id) {
    exists i :: 0 <= i < |log| && Signature(log[i], k, action, who)
  }

  ghost predicate Called(calls: seq<Call>, k: nat) {
    exists i :: 0 <= i < |calls| && calls[i].approval == k
  }

  /** A superadmin signed the request of row k, another one its approval, and its handler ran. */
  ghost predicate RowWitnessed(db: Db, k: nat)
    requires k < |db.approvals|
  {
    var row := db.approvals[k];
    && Signed(db.log, k, ApprovalRequested, row.requestedBy)
    && (row.approvedBy.Some? ==> Signed(db.log, k, ApprovalApproved, row.approvedBy.value))
    && (row.state == Executed ==> row.approvedBy.Some? && Called(db.calls, k))
  }

  ghost predicate Witnessed(db: Db) {
    forall k: nat :: k < |db.approvals| ==> RowWitnessed(db, k)
  }

  lemma SignedStays(log: Log, log': Log, k: nat, action: Action, who: Id)
    requires log <= log' && Signed(log, k, action, who)
    ensures Signed(log', k, action, who)
  {
    var i :| 0 <= i < |log| && Signature(log[i], k, action, who);
    assert log'[i] == log[i];
  }

  lemma CalledStays(calls: seq<Call>, calls': seq<Call>, k: nat)
    requires calls <= calls' && Called(calls, k)
    ensures Called(calls', k)
  {
    var i :| 0 <= i < |calls| && calls[i].approval == k;
    assert calls'[i] == calls[i];
  }

  /** A row keeps its witnesses when its decision does not change. */
  lemma RowStaysWitnessed(db: Db, db': Db, k: nat)
    requires Extends(db, db') && k < |db.approvals| && RowWitnessed(db, k)
    requires db'.approvals[k].approvedBy == db.approvals[k].approvedBy
    requires db'.approvals[k].state == Executed ==> db.approvals[k].state == Executed
    ensures RowWitnessed(db', k)
  {
    var row := db.approvals[k];
    SignedStays(db.log, db'.log, k, ApprovalRequested, row.requestedBy);
    if row.approvedBy.Some? { SignedStays(db.log, db'.log, k, ApprovalApproved, row.approvedBy.value); }
    if row.state == Executed { CalledStays(db.calls, db'.calls, k); }
  }

  lemma RequestWitnessed(db: Db, who: Actor, action: string, payload: Payload, env: Env)
    requires Witnessed(db)
    ensures Witnessed(RequestStep(db, who, action, payload, env).0)
  {
    var db' := RequestStep(db, who, action, payload, env).0;
    StepExtends(db, Request(who, action, payload), env);
    forall k: nat | k < |db'.approvals| ensures RowWitnessed(db', k) {
      if k < |db.approvals| {
        RowStaysWitnessed(db, db', k);
      } else {
        assert Signature(db'.log[|db.log|], k, ApprovalRequested, who.id);
      }
    }
  }

  lemma ApproveSigns(db: Db, k: nat, who: Actor, env: Env)
    requires k < |db.approvals| && ApproveStep(db, k, who, env).1 == None
    ensures var db' := ApproveStep(db, k, who, env).0;
      && |db.log| < |db'.log| && Signature(db'.log[|db.log|], k, ApprovalApproved, who.id)
      && (db'.approvals[k].state == Executed ==> |db.calls| < |db'.calls| && db'.calls[|db.calls|].approval == k)
  {}

  lemma ApproveWitnessed(db: Db, k: nat, who: Actor, env: Env)
    requires Witnessed(db)
    ensures Witnessed(ApproveStep(db, k, who, env).0)
  {
    var (db', e) := ApproveStep(db, k, who, env);
    ApproveExtends(db, k, who, env);
    if e == None {
      ApproveRow(db, k, who, env);
      ApproveSigns(db, k, who, env);
      assert RowWitnessed(db, k);
      SignedStays(db.log, db'.log, k, ApprovalRequested, db.approvals[k].requestedBy);
    }
    forall j: nat | j < |db'.approvals| ensures RowWitnessed(db', j) {
      if e != None || j != k { RowStaysWitnessed(db, db', j); }
    }
  }

  lemma NobodyExecuted(db: Db, db': Db)
    requires Witnessed(db) && Extends(db, db') && |db'.approvals| == |db.approvals|
    requires forall j: nat :: j < |db.approvals| ==>
      && db'.approvals[j].approvedBy == db.approvals[j].approvedBy
      && (db'.approvals[j].state == Executed ==> db.approvals[j].state == Executed)
    ensures Witnessed(db')
  {
    forall j: nat | j < |db'.approvals| ensures RowWitnessed(db', j) { RowStaysWitnessed(db, db', j); }
  }

  lemma StepWitnessed(db: Db, op: Op, env: Env)
    requires Witnessed(db)
    ensures Witnessed(Step(db, op, env))
  {
    var db' := Step(db, op, env);
    StepExtends(db, op, env);
    match op
    case Request(who, action, payload) => RequestWitnessed(db, who, action, payload, env);
    case Approve(k, who) => ApproveWitnessed(db, k, who, env);
    case Deny(k, who, reason) => NobodyExecuted(db, db');
    case Sweep =>
      SweepEffect(db, |db.approvals|, env.now);
      NobodyExecuted(db, db');
    case NewUser(who, email, name, privileged) =>
      if privileged {
        RequestWitnessed(db, who, REGISTER_SUPERADMIN, NewUserPayload(email, name), env);
      } else {
        NobodyExecuted(db, db');
      }
  }

  // ----- every run keeps the invariant ----------------------------------------------------------

  ghost predicate Inv(db: Db) { Consistent(db) && Witnessed(db) }

  lemma StepKeeps(db: Db, op: Op, env: Env)
    requires Inv(db)
    ensures Inv(Step(db, op, env))
  {
    StepConsistent(db, op, env);
    StepWitnessed(db, op, env);
  }

  lemma ApproveKeepsInv(db: Db, k: nat, who: Actor, env: Env)
    requires Inv(db)
    ensures Inv(ApproveStep(db, k, who, env).0)
  {
    ApproveKeeps(db, k, who, env);
    ApproveWitnessed(db, k, who, env);
  }

  lemma {:induction false} RunKeeps(db: Db, ops: seq<(Op, Env)>)
    requires Inv(db)
    ensures Inv(Run(db, ops))
    decreases |ops|
  {
    if ops != [] {
      StepKeeps(db, ops[0].0, ops[0].1);
      RunKeeps(Step(db, ops[0].0, ops[0].1), ops[1..]);
    }
  }

  // ----- sweeping twice ---------------------------------------------------------------------------

  lemma {:induction false} NoneDue(rows: seq<Approval>, now: int)
    ensures CountDue(rows, now) == 0 <==> forall k :: 0 <= k < |rows| ==> !Due(rows[k], now)
  {
    if rows != [] {
      NoneDue(rows[..|rows| - 1], now);
    }
  }

  lemma {:induction false} SweepIdle(db: Db, n: nat, now: int)
    requires n <= |db.approvals| && forall k :: 0 <= k < n ==> !Due(db.approvals[k], now)
    ensures SweepStep(db, n, now) == db
    decreases n
  {
    if n > 0 { SweepIdle(db, n - 1, now); }
  }

  /** After a sweep at time t nothing is due at t or earlier, and sweeping again does nothing. */
  lemma SweepTwice(db: Db, t: int, earlier: int)
    requires earlier <= t
    ensures var r := SweepStep(db, |db.approvals|, t);
      && (forall k :: 0 <= k < |r.approvals| ==> r.approvals[k].state == Pending ==> r.approvals[k].expiresAt > t)
      && CountDue(r.approvals, earlier) == 0 && SweepStep(r, |r.approvals|, earlier) == r
  {
    var r := SweepStep(db, |db.approvals|, t);
    SweepEffect(db, |db.approvals|, t);
    NoneDue(r.approvals, earlier);
    SweepIdle(r, |r.approvals|, earlier);
  }

  // ----- new accounts ----------------------------------------------------------------------

  function CountExecuted(rows: seq<Approval>): nat {
    if rows == [] then 0 else (if rows[0].state == Executed then 1 else 0) + CountExecuted(rows[1..])
  }

  lemma {:induction false} CountUpdate(rows: seq<Approval>, k: nat, row: Approval)
    requires k < |rows|
    ensures CountExecuted(rows[k := row]) == CountExecuted(rows)
      - (if rows[k].state == Executed then 1 else 0) + (if row.state == Executed then 1 else 0)
  {
    if k > 0 {
      assert rows[k := row][1..] == rows[1..][k - 1 := row];
      CountUpdate(rows[1..], k - 1, row);
    } else {
      assert rows[k := row][1..] == rows[1..];
    }
  }

  lemma {:induction false} CountAppend(rows: seq<Approval>, row: Approval)
    ensures CountExecuted(rows + [row]) == CountExecuted(rows) + (if row.state == Executed then 1 else 0)
  {
    if rows == [] {
      assert rows + [row] == [row];
    } else {
      assert (rows + [row])[1..] == rows[1..] + [row];
      CountAppend(rows[1..], row);
    }
  }

  /** An executed request of another superadmin that names this account. */
  predicate Endorses(row: Approval, user: User) {
    && row.state == Executed && row.action == REGISTER_SUPERADMIN
    && row.approvedBy.Some? && row.approvedBy != Some(row.requestedBy)
    && "email" in row.payload && "display_name" in row.payload
    && user == User(Lower(Strip(row.payload["email"], PySpace)), row.payload["display_name"], true)
  }

  ghost predicate UniqueEmails(users: map<Id, User>) {
    forall u, v :: u in users && v in users && u != v ==> Lower(users[u].email) != Lower(users[v].email)
  }

  function Superadmins(users: map<Id, User>): set<Id> { set u | u in users && users[u].superadmin }

  /** Behind every new superadmin there is an executed request. */
  ghost predicate Backed(before: map<Id, User>, users: map<Id, User>, rows: seq<Approval>) {
    forall u :: u in users && u !in before && users[u].superadmin ==>
      exists k :: 0 <= k < |rows| && Endorses(rows[k], users[u])
  }

  /** The log names the superadmin who created a regular account. */
  predicate Creates(e: Entry, u: Id) {
    e.action == UserCreated && e.kind == UserKind && e.target == u && e.actor.Some? && e.actor.value.superadmin
  }

  ghost predicate Created(log: Log, u: Id) { exists i :: 0 <= i < |log| && Creates(log[i], u) }

  ghost predicate Introduced(before: map<Id, User>, db: Db) {
    forall u :: u in db.users && u !in before && !db.users[u].superadmin ==> Created(db.log, u)
  }

  ghost predicate Enrolled(before: map<Id, User>, db: Db) {
    && (forall u :: u in before ==> u in db.users && db.users[u] == before[u])
    && Backed(before, db.users, db.approvals)
    && Introduced(before, db)
    && |Superadmins(db.users)| == |Superadmins(before)| + CountExecuted(db.approvals)
    && UniqueEmails(db.users)
  }

  lemma CreatedStays(log: Log, log': Log, u: Id)
    requires log <= log' && Created(log, u)
    ensures Created(log', u)
  {
    var i :| 0 <= i < |log| && Creates(log[i], u);
    assert log'[i] == log[i];
  }

  lemma StaysIntroduced(before: map<Id, User>, db: Db, db': Db)
    requires Introduced(before, db) && db.log <= db'.log
    requires forall u :: u in db'.users && !db'.users[u].superadmin ==>
      (u in db.users && db'.users[u] == db.users[u]) || Created(db'.log, u)
    ensures Introduced(before, db')
  {
    forall u | u in db.users && u !in before && !db.users[u].superadmin ensures Created(db'.log, u) {
      CreatedStays(db.log, db'.log, u);
    }
  }

  lemma StaysBacked(before: map<Id, User>, users: map<Id, User>, rows: seq<Approval>, rows': seq<Approval>)
    requires Backed(before, users, rows) && |rows| <= |rows'|
    requires forall k :: 0 <= k < |rows| ==> Terminal(rows[k].state) ==> rows'[k] == rows[k]
    ensures Backed(before, users, rows')
  {}

  lemma EnrolsNobody(before: map<Id, User>, db: Db, db': Db)
    requires Enrolled(before, db) && Extends(db, db') && db'.users == db.users
    requires CountExecuted(db'.approvals) == CountExecuted(db.approvals)
    ensures Enrolled(before, db')
  {
    StaysIntroduced(before, db, db');
    StaysBacked(before, db.users, db.approvals, db'.approvals);
  }

  lemma OneMoreEmail(users: map<Id, User>, id: Id, user: User)
    requires UniqueEmails(users) && id !in users && !EmailTaken(users, user.email)
    ensures UniqueEmails(users[id := user])
    ensures |Superadmins(users[id := user])| == |Superadmins(users)| + (if user.superadmin then 1 else 0)
  {
    if user.superadmin {
      assert Superadmins(users[id := user]) == Superadmins(users) + {id};
    } else {
      assert Superadmins(users[id := user]) == Superadmins(users);
    }
  }

  lemma EnrolsOne(before: map<Id, User>, db: Db, db': Db, id: Id, user: User, k: nat)
    requires Enrolled(before, db) && Extends(db, db')
    requires id !in db.users && db'.users == db.users[id := user] && !EmailTaken(db.users, user.email)
    requires k < |db'.approvals| && Endorses(db'.approvals[k], user)
    requires CountExecuted(db'.approvals) == CountExecuted(db.approvals) + 1
    ensures Enrolled(before, db')
  {
    OneMoreEmail(db.users, id, user);
    StaysIntroduced(before, db, db');
    StaysBacked(before, db.users, db.approvals, db'.approvals);
  }

  /** A regular account, created directly and logged. */
  lemma EnrolsRegular(before: map<Id, User>, db: Db, db': Db, id: Id, user: User)
    requires Enrolled(before, db) && db.log < db'.log && db'.approvals == db.approvals
    requires id !in db.users && db'.users == db.users[id := user] && !EmailTaken(db.users, user.email)
    requires !user.superadmin && Creates(db'.log[|db.log|], id)
    ensures Enrolled(before, db')
  {
    OneMoreEmail(db.users, id, user);
    StaysIntroduced(before, db, db');
    RegularNeedsNoBacking(before, db.users, id, user, db.approvals);
  }

  lemma RegularNeedsNoBacking(before: map<Id, User>, users: map<Id, User>, id: Id, user: User, rows: seq<Approval>)
    requires Backed(before, users, rows) && !user.superadmin
    ensures Backed(before, users[id := user], rows)
  {
    forall u | u in users[id := user] && u !in before && users[id := user][u].superadmin
      ensures exists k :: 0 <= k < |rows| && Endorses(rows[k], users[id := user][u])
    {
      assert u != id && u in users && users[u].superadmin;
    }
  }

  lemma NewUserEnrols(before: map<Id, User>, db: Db, who: Actor, email: string, name: string, privileged: bool,
          env: Env)
    requires Enrolled(before, db)
    ensures Enrolled(before, NewUserStep(db, who, email, name, privileged, env).0)
  {
    var db' := NewUserStep(db, who, email, name, privileged, env).0;
    var clean := Lower(Strip(email, PySpace));
    if db' != db && privileged {
      CountAppend(db.approvals, db'.approvals[|db.approvals|]);
      EnrolsNobody(before, db, db');
    } else if db' != db {
      EnrolsRegular(before, db, db', env.newUser, User(clean, name, false));
    }
  }

  lemma ApproveEnrols(before: map<Id, User>, db: Db, k: nat, who: Actor, env: Env)
    requires Enrolled(before, db)
    ensures Enrolled(before, ApproveStep(db, k, who, env).0)
  {
    var (db', e) := ApproveStep(db, k, who, env);
    if e == Some(HasExpired) {
      ApproveExtends(db, k, who, env);
      CountUpdate(db.approvals, k, db.approvals[k].(state := Expired));
      EnrolsNobody(before, db, db');
    } else if e == None {
      EndorsementEnrols(before, db, k, who, env);
    }
  }

  lemma EndorsementEnrols(before: map<Id, User>, db: Db, k: nat, who: Actor, env: Env)
    requires Enrolled(before, db) && k < |db.approvals| && ApproveStep(db, k, who, env).1 == None
    ensures Enrolled(before, ApproveStep(db, k, who, env).0)
  {
    var db' := ApproveStep(db, k, who, env).0;
    ApproveExtends(db, k, who, env);
    ApproveRow(db, k, who, env);
    ApproveUsers(db, k, who, env);
    CountUpdate(db.approvals, k, db'.approvals[k]);
    if db'.approvals[k].state == Executed {
      NewAccount(db.users, db.approvals[k].payload, env.newUser, db'.users);
      EnrolsOne(before, db, db', env.newUser, db'.users[env.newUser], k);
    } else {
      EnrolsNobody(before, db, db');
    }
  }

  lemma NewAccount(users: map<Id, User>, payload: Payload, id: Id, users': map<Id, User>)
    requires CreateSuperadmin(users, payload, id) == Some(users')
    ensures "email" in payload && "display_name" in payload && id !in users && id in users'
    ensures users'[id] == User(Lower(Strip(payload["email"], PySpace)), payload["display_name"], true)
    ensures users' == users[id := users'[id]] && !EmailTaken(users, users'[id].email)
  {
  }

  lemma ApproveUsers(db: Db, k: nat, who: Actor, env: Env)
    requires k < |db.approvals| && ApproveStep(db, k, who, env).1 == None
    ensures var (db', row) := (ApproveStep(db, k, who, env).0, db.approvals[k]);
      if db'.approvals[k].state == Executed then
        row.action == REGISTER_SUPERADMIN && CreateSuperadmin(db.users, row.payload, env.newUser) == Some(db'.users)
      else db'.users == db.users
  {
  }

  lemma StepEnrols(before: map<Id, User>, db: Db, op: Op, env: Env)
    requires Enrolled(before, db)
    ensures Enrolled(before, Step(db, op, env))
  {
    var db' := Step(db, op, env);
    StepExtends(db, op, env);
    match op
    case Request(who, action, payload) =>
      CountAppend(db.approvals, Issue(action, payload, who.id, env.now));
      EnrolsNobody(before, db, db');
    case Approve(k, who) =>
      ApproveEnrols(before, db, k, who, env);
    case Deny(k, who, reason) =>
      if db' != db { CountUpdate(db.approvals, k, db'.approvals[k]); }
      EnrolsNobody(before, db, db');
    case Sweep =>
      SweepEffect(db, |db.approvals|, env.now);
      SweepCount(db, |db.approvals|, env.now);
      EnrolsNobody(before, db, db');
    case NewUser(who, email, name, privileged) => NewUserEnrols(before, db, who, email, name, privileged, env);
  }

  lemma {:induction false} SweepCount(db: Db, n: nat, now: int)
    requires n <= |db.approvals|
    ensures CountExecuted(SweepStep(db, n, now).approvals) == CountExecuted(db.approvals)
    decreases n
  {
    if n > 0 {
      CountUpdate(db.approvals, n - 1, db.approvals[n - 1].(state := Expired));
      SweepCount(ExpireIfDue(db, n - 1, now), n - 1, now);
    }
  }

  lemma {:induction false} RunEnrols(before: map<Id, User>, db: Db, ops: seq<(Op, Env)>)
    requires Enrolled(before, db)
    ensures Enrolled(before, Run(db, ops))
    decreases |ops|
  {
    if ops != [] {
      StepEnrols(before, db, ops[0].0, ops[0].1);
      RunEnrols(before, Step(db, ops[0].0, ops[0].1), ops[1..]);
    }
  }

  // ----- the two-person rule -----------------------------------------------------------------

  ghost predicate Replays(db: Db) {
    forall k: nat :: k < |db.approvals| ==>
      && db.approvals[k].state == Replay(History(db, k)) && db.approvals[k].state != Approved
      && History(db, k) == Word(db.approvals[k].state)
  }

  lemma InvReplays(db: Db)
    requires Inv(db)
    ensures Replays(db) && CalledOnce(db)
  {
    forall k: nat | k < |db.approvals|
      ensures db.approvals[k].state == Replay(History(db, k)) && db.approvals[k].state != Approved
    {
      assert Decided(db.approvals[k]) && History(db, k) == Word(db.approvals[k].state);
      ReplayWord(db.approvals[k].state);
    }
  }

  lemma ReplayWord(s: State)
    ensures Replay(Word(s)) == s
  {}

  lemma Fresh(users: map<Id, User>)
    requires UniqueEmails(users)
    ensures Inv(Db([], users, [], [])) && Enrolled(users, Db([], users, [], []))
  {}

  /** The executed request of one superadmin that names this account, with the signature of a
      second superadmin in the log and the one handler call, which came in time. */
  ghost predicate EndorsedBy(db: Db, k: nat, c: nat, user: User) {
    && k < |db.approvals| && c < |db.calls| && Endorses(db.approvals[k], user)
    && Signed(db.log, k, ApprovalRequested, db.approvals[k].requestedBy)
    && Signed(db.log, k, ApprovalApproved, db.approvals[k].approvedBy.value)
    && db.approvals[k].approvedBy.value != db.approvals[k].requestedBy
    && db.calls[c].approval == k && Allowed(db, db.calls[c])
  }

  ghost predicate Endorsed(before: map<Id, User>, db: Db) {
    forall u :: u in db.users && u !in before && db.users[u].superadmin ==>
      exists k, c :: EndorsedBy(db, k, c, db.users[u])
  }

  lemma BackedIsEndorsed(before: map<Id, User>, db: Db)
    requires Inv(db) && Enrolled(before, db)
    ensures Endorsed(before, db)
  {
    forall u | u in db.users && u !in before && db.users[u].superadmin
      ensures exists k, c :: EndorsedBy(db, k, c, db.users[u])
    {
      var k: nat :| k < |db.approvals| && Endorses(db.approvals[k], db.users[u]);
      assert RowWitnessed(db, k);
      var c: nat :| c < |db.calls| && db.calls[c].approval == k;
      assert EndorsedBy(db, k, c, db.users[u]);
    }
  }

  /** In every run from an empty table, with any accounts: the log replays to every row's
      state and has one of five words; each handler call is the only one for its approval,
      got the payload of the request and came in time from a superadmin other than the
      requester; new superadmins number the executed requests; behind every superadmin account
      that appeared the log holds the request of one superadmin and the approval of another; and
      behind every other account the entry of the superadmin who created it. */
  lemma TwoPersonRule(users: map<Id, User>, ops: seq<(Op, Env)>)
    requires UniqueEmails(users)
    ensures var db := Run(Db([], users, [], []), ops);
      Replays(db) && CalledOnce(db) && Enrolled(users, db) && Endorsed(users, db)
  {
    var start := Db([], users, [], []);
    Fresh(users);
    RunKeeps(start, ops);
    RunEnrols(users, start, ops);
    InvReplays(Run(start, ops));
    BackedIsEndorsed(users, Run(start, ops));
  }
}

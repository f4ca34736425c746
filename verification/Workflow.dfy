/** The approval machine and the review machines writing one log: neither disturbs what the
    log says about the other. */
module Workflow {
  import opened Wrappers
  import opened AuditLog
  import F = Findings
  import A = Approvals
  import R = Reviews

  datatype World = World(approvals: seq<A.Approval>, users: map<Id, A.User>, calls: seq<A.Call>,
                         findings: map<Id, F.Finding>, reports: map<Id, R.Report>, log: Log)
  {
    ghost function Admin(): A.Db { A.Db(approvals, users, log, calls) }
    ghost function Desk(): R.Db { R.Db(findings, reports, log) }
  }

  datatype Event = Approval(op: A.Op, env: A.Env) | Review(request: R.Request)

  ghost function Step(w: World, e: Event): World {
    match e
    case Approval(op, env) =>
      var db := A.Step(w.Admin(), op, env);
      World(db.approvals, db.users, db.calls, w.findings, w.reports, db.log)
    case Review(q) =>
      var db := R.Step(w.Desk(), q);
      World(w.approvals, w.users, w.calls, db.findings, db.reports, db.log)
  }

  ghost function Run(w: World, events: seq<Event>): World
    decreases |events|
  {
    if events == [] then w else Run(Step(w, events[0]), events[1..])
  }

  ghost predicate Inv(w: World) { A.Inv(w.Admin()) && R.Inv(w.Desk()) }

  ghost predicate AdminEntries(more: Log) {
    forall k :: 0 <= k < |more| ==> more[k].kind == ApprovalKind || more[k].kind == UserKind
  }

  // ----- the approval machine appends only its own kinds of entries ------------------------

  ghost predicate Appends(before: Log, after: Log) {
    before <= after && AdminEntries(after[|before|..])
  }

  lemma AppendsTrans(a: Log, b: Log, c: Log)
    requires Appends(a, b) && Appends(b, c)
    ensures Appends(a, c)
  {}

  lemma {:induction false} SweepAppends(db: A.Db, n: nat, now: int)
    requires n <= |db.approvals|
    ensures Appends(db.log, A.SweepStep(db, n, now).log)
    decreases n
  {
    if n > 0 {
      var db' := A.ExpireIfDue(db, n - 1, now);
      SweepAppends(db', n - 1, now);
      AppendsTrans(db.log, db'.log, A.SweepStep(db, n, now).log);
    }
  }

  lemma StepAppends(db: A.Db, op: A.Op, env: A.Env)
    ensures Appends(db.log, A.Step(db, op, env).log)
  {
    if op.Sweep? { SweepAppends(db, |db.approvals|, env.now); }
  }

  // ----- preservation ----------------------------------------------------------------------

  lemma ReviewsUndisturbed(desk: R.Db, more: Log)
    requires R.Inv(desk) && AdminEntries(more)
    ensures R.Inv(desk.(log := desk.log + more))
  {
    forall id | id in desk.findings ensures R.FindingOk(desk.findings[id], id, desk.log + more) {
      R.ForeignKeepsFinding(desk.findings[id], id, desk.log, more);
    }
    forall id | id in desk.reports ensures R.ReportOk(desk.reports[id], id, desk.log + more) {
      R.ForeignKeepsReport(desk.reports[id], id, desk.log, more);
    }
  }

  lemma ApprovalsUndisturbed(admin: A.Db, more: Log)
    requires A.Inv(admin) && forall k :: 0 <= k < |more| ==> more[k].kind == FindingKind || more[k].kind == ReportKind
    ensures A.Inv(admin.(log := admin.log + more))
  {
    var admin' := admin.(log := admin.log + more);
    forall k: nat ensures A.History(admin', k) == A.History(admin, k) {
      EntriesForeign(admin.log, more, ApprovalKind, Id(k));
    }
    assert forall i :: 0 <= i < |admin.calls| ==> A.Allowed(admin, admin.calls[i]);
    forall k: nat | k < |admin.approvals| ensures A.RowWitnessed(admin', k) { A.RowStaysWitnessed(admin, admin', k); }
  }

  lemma ApprovalKeeps(w: World, op: A.Op, env: A.Env)
    requires Inv(w)
    ensures Inv(Step(w, Approval(op, env)))
  {
    var db := A.Step(w.Admin(), op, env);
    A.StepKeeps(w.Admin(), op, env);
    StepAppends(w.Admin(), op, env);
    var more := db.log[|w.log|..];
    assert db.log == w.log + more;
    ReviewsUndisturbed(w.Desk(), more);
  }

  lemma ReviewKeeps(w: World, q: R.Request)
    requires Inv(w)
    ensures Inv(Step(w, Review(q)))
  {
    var db := R.Step(w.Desk(), q);
    R.StepKeeps(w.Desk(), q);
    R.OneEntryAtMost(w.Desk(), q);
    var more := if db.log == w.log then [] else [db.log[|w.log|]];
    assert db.log == w.log + more;
    ApprovalsUndisturbed(w.Admin(), more);
  }

  lemma StepKeeps(w: World, e: Event)
    requires Inv(w)
    ensures Inv(Step(w, e))
  {
    match e
    case Approval(op, env) => ApprovalKeeps(w, op, env);
    case Review(q) => ReviewKeeps(w, q);
  }

  lemma {:induction false} RunKeeps(w: World, events: seq<Event>)
    requires Inv(w)
    ensures Inv(Run(w, events))
    decreases |events|
  {
    if events != [] {
      StepKeeps(w, events[0]);
      RunKeeps(Step(w, events[0]), events[1..]);
    }
  }

  lemma {:induction false} RunEnrols(before: map<Id, A.User>, w: World, events: seq<Event>)
    requires A.Enrolled(before, w.Admin())
    ensures A.Enrolled(before, Run(w, events).Admin())
    decreases |events|
  {
    if events != [] {
      match events[0] {
        case Approval(op, env) => A.StepEnrols(before, w.Admin(), op, env);
        case Review(q) =>
          R.OneEntryAtMost(w.Desk(), q);
          A.StaysIntroduced(before, w.Admin(), Step(w, events[0]).Admin());
      }
      RunEnrols(before, Step(w, events[0]), events[1..]);
    }
  }

  /** At every step boundary of any interleaved run, the state of every approval, finding and
      report is the replay of its own entries in the one shared log, and every superadmin
      account that appeared is endorsed there. */
  lemma OneLogReplaysAll(users: map<Id, A.User>, events: seq<Event>)
    requires A.UniqueEmails(users)
    ensures var w := Run(World([], users, [], map[], map[], []), events);
      && A.Replays(w.Admin()) && A.CalledOnce(w.Admin())
      && A.Enrolled(users, w.Admin()) && A.Endorsed(users, w.Admin())
      && (forall id :: id in w.findings ==>
            w.findings[id].review == R.ReplayFinding(R.Born(w.findings[id].creator), Entries(w.log, FindingKind, id)))
      && (forall id :: id in w.reports ==> w.reports[id].status == R.ReplayReport(Entries(w.log, ReportKind, id)))
  {
    var start := World([], users, [], map[], map[], []);
    A.Fresh(users);
    RunKeeps(start, events);
    var w := Run(start, events);
    A.InvReplays(w.Admin());
    RunEnrols(users, start, events);
    A.BackedIsEndorsed(users, w.Admin());
    assert forall id :: id in w.findings ==> R.FindingOk(w.findings[id], id, w.log);
    assert forall id :: id in w.reports ==> R.ReportOk(w.reports[id], id, w.log);
  }
}

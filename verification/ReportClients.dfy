/** Reports are written for one client.  The views that link a finding to a report compare the
    finding's vendor with that client, so that no report shows the findings of another client;
    what keeps this true, and the two edits that do not. */
module ReportClients {
  import opened Wrappers
  import opened AuditLog
  import opened Findings
  import opened Reviews
  import opened ReviewEffects

  /** Every finding of every report exists and belongs to the report's client. */
  ghost predicate OneClient(db: Db) {
    forall r, f :: r in db.reports && f in db.reports[r].findings ==>
      f in db.findings && db.findings[f].vendor == db.reports[r].client
  }

  ghost predicate InSomeReport(db: Db, finding: Id) {
    exists r :: r in db.reports && finding in db.reports[r].findings
  }

  /** A finding that some report contains is edited on its own page, and gets another vendor. */
  ghost predicate MovesVendor(db: Db, q: Request) {
    && q.op.EditFinding? && q.op.report == None && q.op.id in db.findings
    && (q.who.superadmin || q.who.id in db.findings[q.op.id].researchers)
    && q.op.form.vendor != db.findings[q.op.id].vendor && InSomeReport(db, q.op.id)
  }

  /** A report with findings gets another client. */
  ghost predicate MovesClient(db: Db, q: Request) {
    && q.op.EditReport? && q.op.id in db.reports && MayEdit(db.reports[q.op.id], q.who)
    && q.op.client != db.reports[q.op.id].client && db.reports[q.op.id].findings != {}
  }

  /** A request leaves every report with findings of its own client alone exactly unless it is one of
      these two. */
  lemma OneClientIff(db: Db, q: Request)
    requires OneClient(db)
    ensures OneClient(Step(db, q)) <==> !MovesVendor(db, q) && !MovesClient(db, q)
  {
    var (who, now) := (q.who, q.now);
    match q.op
    case NewFinding(id, form, newId, report) => NewFindingFits(db, id, form, newId, report, who, now);
    case EditFinding(id, form, report) => EditFindingFitsIff(db, id, form, report, who, now);
    case EditReport(id, client, others, text) => EditReportFitsIff(db, id, client, others, text, who, now);
    case DeleteFinding(id) => DeleteFits(db, id, who, now);
    case LinkFinding(id, finding, add) => LinkFits(db, id, finding, add, who, now);
    case Autosave(id, model, pk, field, value) =>
      AutosaveWritesOnlyText(db, id, model, pk, field, value, who);
      SameClients(db, Step(db, q));
    case _ => if AboutFinding(q.op) { FindingColumnsOnly(db, q); } else { ReportColumnsOnly(db, q); }
  }

  /** Nothing that matters changed: findings keep their vendors, reports their clients and findings. */
  lemma SameClients(db: Db, db': Db)
    requires OneClient(db) && db.findings.Keys <= db'.findings.Keys
    requires forall f :: f in db.findings ==> db'.findings[f].vendor == db.findings[f].vendor
    requires forall r :: r in db'.reports && db'.reports[r].findings != {} ==>
      r in db.reports && db'.reports[r].client == db.reports[r].client
      && db'.reports[r].findings <= db.reports[r].findings
    ensures OneClient(db')
  {}

  lemma FindingColumnsOnly(db: Db, q: Request)
    requires OneClient(db) && (q.op.Collaborate? || q.op.Transition? || q.op.Resubmit? || q.op.Renumber?)
    ensures OneClient(Step(db, q))
  {
    assert Step(db, q).reports == db.reports;
  }

  lemma ReportColumnsOnly(db: Db, q: Request)
    requires OneClient(db) && (q.op.NewReport? || q.op.SetAnnex? || MovesReport(q.op))
    ensures OneClient(Step(db, q))
  {
    assert Step(db, q).findings == db.findings;
  }

  lemma NewFindingFits(db: Db, id: Id, form: Form, newId: string, report: Option<Id>, who: Actor, now: int)
    requires OneClient(db)
    ensures OneClient(Step(db, Request(Reviews.NewFinding(id, form, newId, report), who, now)))
  {
    if Unused(db, FindingKind, id) && newId != "" { NewFindingIff(db, id, form, newId, report, who, now); }
  }

  lemma EditFindingFitsIff(db: Db, id: Id, form: Form, report: Option<Id>, who: Actor, now: int)
    requires OneClient(db)
    ensures var q := Request(EditFinding(id, form, report), who, now);
      OneClient(Step(db, q)) <==> !MovesVendor(db, q)
  {
    var q := Request(EditFinding(id, form, report), who, now);
    EditFindingIff(db, id, form, report, who, now);
    var (db', o) := Handle(db, q);
    if o == Done && InSomeReport(db, id) && db'.findings[id].vendor != db.findings[id].vendor {
      var r :| r in db.reports && id in db.reports[r].findings;
      assert r in db'.reports && id in db'.reports[r].findings;
    }
  }

  lemma EditReportFitsIff(db: Db, id: Id, client: Id, others: set<Id>, text: map<string, string>, who: Actor, now: int)
    requires OneClient(db)
    ensures var q := Request(EditReport(id, client, others, text), who, now);
      OneClient(Step(db, q)) <==> !MovesClient(db, q)
  {
    var q := Request(EditReport(id, client, others, text), who, now);
    if MovesClient(db, q) {
      var f :| f in db.reports[id].findings;
      var db' := EditReportStep(db, id, client, others, text, who).0;
      assert db' == Step(db, q) && db'.findings == db.findings;
      assert id in db'.reports && f in db'.reports[id].findings && db'.reports[id].client == client;
      assert db.findings[f].vendor != client;
    } else {
      SameClients(db, Step(db, q));
    }
  }

  lemma DeleteFits(db: Db, id: Id, who: Actor, now: int)
    requires OneClient(db)
    ensures OneClient(Step(db, Request(DeleteFinding(id), who, now)))
  {
    DeleteIff(db, id, who, now);
  }

  lemma LinkFits(db: Db, id: Id, finding: Id, add: bool, who: Actor, now: int)
    requires OneClient(db)
    ensures OneClient(Step(db, Request(LinkFinding(id, finding, add), who, now)))
  {
    LinkIff(db, id, finding, add, who, now);
  }

  /** No request of the run is one of the two. */
  ghost predicate Stable(db: Db, qs: seq<Request>)
    decreases |qs|
  {
    qs != [] ==> !MovesVendor(db, qs[0]) && !MovesClient(db, qs[0]) && Stable(Step(db, qs[0]), qs[1..])
  }

  /** Over any run without them no report ever holds a finding of another client. */
  lemma {:induction false} RunKeepsOneClient(db: Db, qs: seq<Request>)
    requires OneClient(db) && Stable(db, qs)
    ensures OneClient(Run(db, qs))
    decreases |qs|
  {
    if qs != [] {
      OneClientIff(db, qs[0]);
      RunKeepsOneClient(Step(db, qs[0]), qs[1..]);
    }
  }

  /** Three requests of one user reach a report with a finding of another client: a new report, a
      finding created in it, and an edit of the report's client. */
  lemma OtherClientExample(who: Actor, r: Id, f: Id, acme: Id, globex: Id, form: Form, text: map<string, string>)
    requires r != f && acme != globex
    ensures var db := Run(EMPTY, [
        Request(NewReport(r, acme, {}, text), who, 0),
        Request(Reviews.NewFinding(f, form, "ZT-2026-0000001", Some(r)), who, 1),
        Request(EditReport(r, globex, {}, text), who, 2)]);
      && !OneClient(db) && f in db.findings && r in db.reports && f in db.reports[r].findings
      && db.findings[f].vendor == acme && db.reports[r].client == globex
  {
    var q0 := Request(NewReport(r, acme, {}, text), who, 0);
    var q1 := Request(Reviews.NewFinding(f, form, "ZT-2026-0000001", Some(r)), who, 1);
    var q2 := Request(EditReport(r, globex, {}, text), who, 2);
    var one := Step(EMPTY, q0);
    assert Unused(EMPTY, ReportKind, r) && Unused(one, FindingKind, f);
    NewFindingIff(one, f, form, "ZT-2026-0000001", Some(r), who, 1);
    RunThree(EMPTY, q0, q1, q2);
  }

  lemma RunThree(db: Db, q0: Request, q1: Request, q2: Request)
    ensures Run(db, [q0, q1, q2]) == Step(Step(Step(db, q0), q1), q2)
  {
    assert [q0, q1, q2][1..] == [q1, q2] && [q1, q2][1..] == [q2] && [q2][1..] == [];
    var two := Step(Step(db, q0), q1);
    assert Run(two, [q2]) == Run(Step(two, q2), []);
  }
}

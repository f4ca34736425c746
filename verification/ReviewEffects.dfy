/** What each review, finding and report request is for, in its own words: who may make it, when
    it takes effect, and everything it then changes. */
module ReviewEffects {
  import opened Wrappers
  import opened AuditLog
  import opened Findings
  import opened Reviews

  // ----- findings -------------------------------------------------------------------------

  /** The database after one finding was replaced and one entry written. */
  ghost predicate Reviewed(db: Db, db': Db, id: Id, state: ReviewState, action: Action, who: Actor, now: int) {
    && id in db.findings && id in db'.findings && db'.reports == db.reports
    && db'.findings == db.findings[id := db'.findings[id]]
    && db'.findings[id] ==
         db.findings[id].(review := state, reviewedBy := Some(who.id), reviewedAt := Some(now))
    && db'.log == db.log + [Entry(action, Some(who), FindingKind, id)]
  }

  /** Reviewers move findings of others along the five moves, superadmins any finding to any
      state but pending; every move is logged under its own action. */
  lemma TransitionIff(db: Db, id: Id, target: ReviewState, who: Actor, now: int)
    ensures var (db', o) := Handle(db, Request(Transition(id, target), who, now));
      && (o == Done <==>
            id in db.findings && target != Pending &&
            var f := db.findings[id];
            who.superadmin || (who.reviewer && who.id != f.creator.id && (f.review, target) in REVIEWER_MOVES))
      && (o == Done ==>
            var action := if target == UnderReview then ReviewStarted
                          else if target == Approved then ReviewApproved else ReviewRejected;
            Reviewed(db, db', id, target, action, who, now))
      && (o != Done ==> db' == db)
  {}

  /** The creator or a superadmin resubmits a rejected finding. */
  lemma ResubmitIff(db: Db, id: Id, who: Actor, now: int)
    ensures var (db', o) := Handle(db, Request(Resubmit(id), who, now));
      && (o == Done <==>
            && id in db.findings && db.findings[id].review == Rejected
            && (who.superadmin || who.id == db.findings[id].creator.id))
      && (o == Done ==> Reviewed(db, db', id, Pending, ReviewResubmitted, who, now))
      && (o != Done ==> db' == db)
  {}

  /** The creator or a superadmin deletes a finding: it leaves every report, and the log says so. */
  lemma DeleteIff(db: Db, id: Id, who: Actor, now: int)
    ensures var (db', o) := Handle(db, Request(DeleteFinding(id), who, now));
      && (o == Done <==> id in db.findings && (who.superadmin || who.id == db.findings[id].creator.id))
      && (o == Done ==>
            && db'.findings == db.findings - {id} && db'.reports.Keys == db.reports.Keys
            && db'.log == db.log + [Entry(FindingDeleted, Some(who), FindingKind, id)]
            && forall r :: r in db.reports ==>
                 id !in db'.reports[r].findings
                 && db'.reports[r] == db.reports[r].(findings := db.reports[r].findings - {id}))
      && (o != Done ==> db' == db)
  {}

  /** A new row with the form's scores and text: approved at once for those who may review, and
      pending otherwise; its creator is its researcher. */
  ghost predicate Newborn(f: Finding, form: Form, vendor: Id, newId: string, who: Actor) {
    && f.internalId == newId && f.creator == who && f.researchers == {who.id} && f.vendor == vendor
    && f.score31 == form.score31 && f.score4 == form.score4 && f.text == form.text
    && f.severity == Worse(SeverityFromScore(form.score31), SeverityFromScore(form.score4))
    && f.review == (if who.superadmin || who.reviewer then Approved else Pending)
    && f.reviewedBy == None && f.reviewedAt == None
  }

  /** Anybody creates findings; inside a report only those who may edit it, and there the finding is
      linked and its vendor is the report's client. */
  lemma NewFindingIff(db: Db, id: Id, form: Form, newId: string, report: Option<Id>, who: Actor, now: int)
    requires Unused(db, FindingKind, id) && newId != ""
    ensures var (db', o) := Handle(db, Request(Reviews.NewFinding(id, form, newId, report), who, now));
      && (o == Done <==> report.None? || (report.value in db.reports && MayEdit(db.reports[report.value], who)))
      && (o == Done ==>
            && id in db'.findings
            && Newborn(db'.findings[id], form,
                 if report.None? then form.vendor else db.reports[report.value].client, newId, who)
            && db'.findings - {id} == db.findings && db'.log == db.log
            && (report.None? ==> db'.reports == db.reports)
            && (report.Some? ==> Linked(db, db', report.value, db.reports[report.value].findings + {id})))
      && (o != Done ==> db' == db)
  {
    DeriveIsWorse(form.score31, form.score4);
  }

  /** Superadmins, the creator of a report and its other people may edit it. */
  predicate MayEdit(r: Report, who: Actor) { who.superadmin || who.id == r.creator.id || who.id in r.others }

  /** One report has these findings now, and nothing else about reports changed. */
  ghost predicate Linked(db: Db, db': Db, id: Id, findings: set<Id>) {
    && id in db.reports && db'.reports.Keys == db.reports.Keys
    && forall r :: r in db.reports ==>
         db'.reports[r] == if r == id then db.reports[r].(findings := findings) else db.reports[r]
  }

  /** Researchers and superadmins edit a finding, and editors of a report the findings in it; the
      form's scores, vendor and text are stored, but inside a report the vendor is its client;
      severity follows, and no other column changes. */
  lemma EditFindingIff(db: Db, id: Id, form: Form, report: Option<Id>, who: Actor, now: int)
    ensures var (db', o) := Handle(db, Request(EditFinding(id, form, report), who, now));
      && (o == Done <==>
            id in db.findings &&
            match report
            case None => who.superadmin || who.id in db.findings[id].researchers
            case Some(r) => r in db.reports && id in db.reports[r].findings && MayEdit(db.reports[r], who))
      && (o == Done ==>
            db' == db.(findings := db.findings[id := db.findings[id].(
              score31 := form.score31, score4 := form.score4, text := form.text,
              vendor := if report.None? then form.vendor else db.reports[report.value].client,
              severity := Worse(SeverityFromScore(form.score31), SeverityFromScore(form.score4)))]))
      && (o != Done ==> db' == db)
  {
    DeriveIsWorse(form.score31, form.score4);
  }

  /** The creator or a superadmin adds or removes a researcher, but never removes the creator. */
  lemma CollaborateIff(db: Db, id: Id, user: Id, add: bool, who: Actor, now: int)
    ensures var (db', o) := Handle(db, Request(Collaborate(id, user, add), who, now));
      && (o == Done <==>
            && id in db.findings && (who.superadmin || who.id == db.findings[id].creator.id)
            && (add || user != db.findings[id].creator.id))
      && (o == Done ==>
            && id in db'.findings
            && (forall u :: u in db'.findings[id].researchers <==>
                  if u == user then add else u in db.findings[id].researchers)
            && db' == db.(findings :=
                 db.findings[id := db.findings[id].(researchers := db'.findings[id].researchers)]))
      && (o != Done ==> db' == db)
  {}

  /** The backfill gives an existing finding a display id and touches no other column. */
  lemma RenumberIff(db: Db, id: Id, newId: string, who: Actor, now: int)
    ensures var (db', o) := Handle(db, Request(Renumber(id, newId), who, now));
      && (o == Done <==> id in db.findings && newId != "")
      && (o == Done ==> id in db'.findings && db'.findings[id].internalId == newId
                        && db' == db.(findings :=
                             db.findings[id := db.findings[id].(internalId := db'.findings[id].internalId)]))
      && (o != Done ==> db' == db)
  {}

  // ----- reports --------------------------------------------------------------------------

  /** The database after one report moved and one entry was written. */
  ghost predicate Moved(db: Db, db': Db, id: Id, status: Status, action: Action, who: Actor, now: int) {
    && id in db.reports && db'.findings == db.findings
    && db'.reports == db.reports[id :=
         db.reports[id].(status := status, reviewedBy := Some(who.id), reviewedAt := Some(now))]
    && db'.log == db.log + [Entry(action, Some(who), ReportKind, id)]
  }

  /** Editors submit drafts and declined reports; the second time it counts as a resubmission. */
  lemma SubmitIff(db: Db, id: Id, who: Actor, now: int)
    ensures var (db', o) := Handle(db, Request(SubmitReport(id), who, now));
      && (o == Done <==> id in db.reports && MayEdit(db.reports[id], who) && db.reports[id].status in {Draft, Declined})
      && (o == Done && db.reports[id].status == Draft ==> Moved(db, db', id, InReview, ReviewStarted, who, now))
      && (o == Done && db.reports[id].status == Declined ==> Moved(db, db', id, InReview, ReviewResubmitted, who, now))
      && (o != Done ==> db' == db)
  {}

  /** Superadmins, and reviewers who did not create it, decide a report that is in review; only
      superadmins reopen an accepted one. */
  lemma DecideIff(db: Db, id: Id, who: Actor, now: int)
    ensures var (accepted, a) := Handle(db, Request(ApproveReport(id), who, now));
      var (declined, d) := Handle(db, Request(RejectReport(id), who, now));
      var (reopened, o) := Handle(db, Request(ReopenReport(id), who, now));
      && (a == Done <==> d == Done)
      && (a == Done <==>
            && id in db.reports && db.reports[id].status == InReview
            && (who.superadmin || (who.reviewer && who.id != db.reports[id].creator.id)))
      && (if a == Done then Moved(db, accepted, id, Accepted, ReviewApproved, who, now) else accepted == db)
      && (if d == Done then Moved(db, declined, id, Declined, ReviewRejected, who, now) else declined == db)
      && (o == Done <==> id in db.reports && db.reports[id].status == Accepted && who.superadmin)
      && (if o == Done then Moved(db, reopened, id, InReview, ReviewStarted, who, now) else reopened == db)
  {}

  /** Editors link findings of the report's client, and take any finding out again. */
  lemma LinkIff(db: Db, id: Id, finding: Id, add: bool, who: Actor, now: int)
    ensures var (db', o) := Handle(db, Request(LinkFinding(id, finding, add), who, now));
      && (o == Done <==>
            && id in db.reports && finding in db.findings && MayEdit(db.reports[id], who)
            && (add ==> db.findings[finding].vendor == db.reports[id].client))
      && (o == Done ==>
            && db'.findings == db.findings && db'.log == db.log && id in db'.reports
            && Linked(db, db', id, db'.reports[id].findings)
            && forall f :: f in db'.reports[id].findings <==>
                 if f == finding then add else f in db.reports[id].findings)
      && (o != Done ==> db' == db)
  {}

  /** Anybody creates a report, which is an empty draft; its editors change its client, its
      text, its people and its annexes. */
  lemma EditReportIff(db: Db, id: Id, client: Id, others: set<Id>, text: map<string, string>, annex: Id,
                      body: Option<map<string, string>>, who: Actor, now: int)
    ensures var (created, n) := Handle(db, Request(NewReport(id, client, others, text), who, now));
      var (edited, e) := Handle(db, Request(EditReport(id, client, others, text), who, now));
      var (annexed, a) := Handle(db, Request(SetAnnex(id, annex, body), who, now));
      && (n == Done <==> Unused(db, ReportKind, id))
      && created == (if n == Done
           then db.(reports := db.reports[id := Report(who, client, others, {}, Draft, None, None, text, map[])])
           else db)
      && (e == Done <==> id in db.reports && MayEdit(db.reports[id], who)) && (a == Done <==> e == Done)
      && edited == (if e == Done
           then db.(reports := db.reports[id := db.reports[id].(client := client, others := others, text := text)])
           else db)
      && (a != Done ==> annexed == db)
      && (a == Done ==>
            && id in annexed.reports
            && annexed.reports[id].annexes - {annex} == db.reports[id].annexes - {annex}
            && (annex in annexed.reports[id].annexes <==> body.Some?)
            && (body.Some? ==> annexed.reports[id].annexes[annex] == body.value)
            && annexed == db.(reports :=
                 db.reports[id := db.reports[id].(annexes := annexed.reports[id].annexes)]))
  {}

  // ----- autosave -------------------------------------------------------------------------

  /** The fields autosave may write, with their caps. */
  const SAVABLE: set<(string, string, nat)> :=
    {("report", "name", 300), ("report", "executive_summary", 200000), ("report", "conclusion", 200000),
     ("annex", "title", 200), ("annex", "body", 200000),
     ("finding", "title", 300), ("finding", "narrative", 200000), ("finding", "poc", 200000),
     ("finding", "remediation", 200000), ("finding", "channel_program", 100), ("finding", "cve_id", 30),
     ("finding", "cvss_31_vector", 200), ("finding", "cvss_4_vector", 200)}

  lemma SavableIff(model: string, field: string, cap: nat)
    ensures (model, field, cap) in SAVABLE <==>
      model in AUTOSAVE_FIELDS && field in AUTOSAVE_FIELDS[model] && AUTOSAVE_FIELDS[model][field] == cap
  {}

  /** Autosave takes effect exactly for an editor, a listed field, and a row of that report; it
      stores the value, cut to the cap of its field. */
  lemma AutosaveIff(db: Db, id: Id, model: string, pk: Id, field: string, value: string, who: Actor, now: int)
    ensures var (db', o) := Handle(db, Request(Autosave(id, model, pk, field, value), who, now));
      && (o == Done <==>
            && id in db.reports && MayEdit(db.reports[id], who)
            && (exists cap :: (model, field, cap) in SAVABLE)
            && (model == "report" ==> pk == id) && (model == "annex" ==> pk in db.reports[id].annexes)
            && (model == "finding" ==> pk in db.reports[id].findings && pk in db.findings))
      && (if o == Done then AutosaveTarget(db, db', id, model, pk, field, value) else db' == db)
  {
    AutosaveHits(db, id, model, pk, field, value, who);
    if model in AUTOSAVE_FIELDS && field in AUTOSAVE_FIELDS[model] {
      SavableIff(model, field, AUTOSAVE_FIELDS[model][field]);
      AllowlistIsText(model, field);
    } else if cap :| (model, field, cap) in SAVABLE {
      SavableIff(model, field, cap);
    }
  }

  // ----- rights over all requests ---------------------------------------------------------

  /** Only accepted reports are exported, by anybody; a report that is not accepted is seen by
      those who may review or edit it. */
  lemma ViewIff(r: Report, who: Actor)
    ensures CanExport(r, who) <==> r.status == Accepted
    ensures CanViewReport(r, who) <==> r.status == Accepted || who.superadmin || who.reviewer || MayEdit(r, who)
  {}

  ghost predicate EditsItsReport(db: Db, id: Id, who: Actor) {
    exists r :: r in db.reports && id in db.reports[r].findings && MayEdit(db.reports[r], who)
  }

  /** Who may change what of a finding f into g: scores, vendor and text its researchers, superadmins and
      editors of a report with it; researchers its creator and superadmins; review columns those
      and other reviewers; its creator nobody. */
  ghost predicate Permitted(db: Db, f: Finding, g: Finding, id: Id, who: Actor) {
    var owns := who.superadmin || who.id == f.creator.id;
    && g.creator == f.creator
    && (g.score31 != f.score31 || g.score4 != f.score4 || g.vendor != f.vendor || g.text != f.text ==>
          who.superadmin || who.id in f.researchers || EditsItsReport(db, id, who))
    && (g.researchers != f.researchers ==> owns)
    && (g.review != f.review || g.reviewedBy != f.reviewedBy || g.reviewedAt != f.reviewedAt ==> owns || who.reviewer)
  }

  /** Whatever the request, a finding changes only as its actor is permitted, and goes only when
      its creator or a superadmin deletes it. */
  lemma FindingWriters(db: Db, q: Request, id: Id)
    requires id in db.findings
    ensures var (f, db', who) := (db.findings[id], Step(db, q), q.who);
      if id in db'.findings then Permitted(db, f, db'.findings[id], id, who)
      else q.op == DeleteFinding(id) && (who.superadmin || who.id == f.creator.id)
  {
    if AboutFinding(q.op) {
      match q.op
      case Transition(x, target) => TransitionPermitted(db, x, target, q.who, q.now, id);
      case Resubmit(x) => ResubmitPermitted(db, x, q.who, q.now, id);
      case _ => EditPermitted(db, q, id);
    } else if q.op.Autosave? {
      AutosavePermitted(db, q, id);
    } else {
      ReportRequestLeavesFindings(db, q);
    }
  }

  lemma TransitionPermitted(db: Db, x: Id, target: ReviewState, who: Actor, now: int, id: Id)
    requires id in db.findings
    ensures var db' := TransitionStep(db, x, target, who, now).0;
      id in db'.findings && Permitted(db, db.findings[id], db'.findings[id], id, who)
  {}

  lemma ResubmitPermitted(db: Db, x: Id, who: Actor, now: int, id: Id)
    requires id in db.findings
    ensures var db' := ResubmitStep(db, x, who, now).0;
      id in db'.findings && Permitted(db, db.findings[id], db'.findings[id], id, who)
  {}

  lemma EditPermitted(db: Db, q: Request, id: Id)
    requires id in db.findings && AboutFinding(q.op) && !q.op.Transition? && !q.op.Resubmit?
    ensures var (f, db', who) := (db.findings[id], Step(db, q), q.who);
      if id in db'.findings then Permitted(db, f, db'.findings[id], id, who)
      else q.op == DeleteFinding(id) && (who.superadmin || who.id == f.creator.id)
  {}

  lemma AutosavePermitted(db: Db, q: Request, id: Id)
    requires id in db.findings && q.op.Autosave?
    ensures id in Step(db, q).findings && Permitted(db, db.findings[id], Step(db, q).findings[id], id, q.who)
  {
    AutosaveHits(db, q.op.id, q.op.model, q.op.pk, q.op.field, q.op.value, q.who);
  }
}

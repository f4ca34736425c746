/** The review workflows of findings and reports: who may move which state, what is logged,
    and what edits and autosave can never do. */
module Reviews {
  import opened Wrappers
  import opened AuditLog
  import opened Findings

  // ----- tables ---------------------------------------------------------------------------

  datatype Status = Draft | InReview | Accepted | Declined

  /** `creator` keeps the roles held at creation (history); `others` are the engagement
      manager and the researchers; `annexes` holds the text of each annex. */
  datatype Report = Report(
    creator: Actor, client: Id, others: set<Id>, findings: set<Id>, status: Status,
    reviewedBy: Option<Id>, reviewedAt: Option<int>, text: map<string, string>,
    annexes: map<Id, map<string, string>>)

  datatype Db = Db(findings: map<Id, Finding>, reports: map<Id, Report>, log: Log)

  datatype Outcome = Done | NotFound | WrongState | NotAllowed

  datatype Form = Form(score31: Option<real>, score4: Option<real>, vendor: Id, text: map<string, string>)

  datatype Op =
    | NewFinding(id: Id, form: Form, newId: string, report: Option<Id>)
    | EditFinding(id: Id, form: Form, report: Option<Id>)
    | Collaborate(id: Id, user: Id, add: bool)
    | Transition(id: Id, target: ReviewState)
    | Resubmit(id: Id)
    | DeleteFinding(id: Id)
    | Renumber(id: Id, newId: string)
    | NewReport(id: Id, client: Id, others: set<Id>, text: map<string, string>)
    | EditReport(id: Id, client: Id, others: set<Id>, text: map<string, string>)
    | LinkFinding(id: Id, finding: Id, add: bool)
    | SetAnnex(id: Id, annex: Id, body: Option<map<string, string>>)
    | SubmitReport(id: Id)
    | ApproveReport(id: Id)
    | RejectReport(id: Id)
    | ReopenReport(id: Id)
    | Autosave(id: Id, model: string, pk: Id, field: string, value: string)

  // ----- rights ---------------------------------------------------------------------------

  predicate CanEditFinding(f: Finding, who: Actor) { who.superadmin || who.id in f.researchers }

  predicate CanReview(creator: Actor, who: Actor) {
    who.ReviewAuthority() && (creator.id != who.id || who.superadmin)
  }

  predicate CanEditReport(r: Report, who: Actor) {
    who.superadmin || who.id == r.creator.id || who.id in r.others
  }

  predicate CanViewReport(r: Report, who: Actor) {
    r.status == Accepted || who.ReviewAuthority() || CanEditReport(r, who)
  }

  predicate CanExport(r: Report, who: Actor) { r.status == Accepted && CanViewReport(r, who) }

  // ----- findings -------------------------------------------------------------------------

  function Born(creator: Actor): ReviewState { if creator.ReviewAuthority() then Approved else Pending }

  /** The form writes scores, vendor and text, never the review columns. */
  function Fill(f: Finding, form: Form): Finding {
    f.(score31 := form.score31, score4 := form.score4, vendor := form.vendor, text := form.text)
  }

  function Allowed(s: ReviewState): set<ReviewState> {
    match s
    case Pending => {UnderReview}
    case UnderReview => {Approved, Rejected, Pending}
    case Approved => {UnderReview}
    case Rejected => {UnderReview}
  }

  function AuditActionFor(target: ReviewState): Option<Action> {
    match target
    case UnderReview => Some(ReviewStarted)
    case Approved => Some(ReviewApproved)
    case Rejected => Some(ReviewRejected)
    case Pending => None
  }

  function Log(db: Db, action: Action, who: Actor, kind: Kind, id: Id): Db {
    db.(log := db.log + [Entry(action, Some(who), kind, id)])
  }

  const REVIEW_COLUMNS := {ReviewColumn, ReviewedByColumn, ReviewedAtColumn}

  /** Sets the review columns through save(update_fields=...). */
  function SetReview(db: Db, id: Id, state: ReviewState, who: Actor, now: int): Db
    requires id in db.findings
  {
    var f := db.findings[id];
    var g := f.(review := state, reviewedBy := Some(who.id), reviewedAt := Some(now));
    db.(findings := db.findings[id := Save(f, g, Some(REVIEW_COLUMNS), f.internalId)])
  }

  function TransitionStep(db: Db, id: Id, target: ReviewState, who: Actor, now: int): (Db, Outcome) {
    if id !in db.findings || !CanReview(db.findings[id].creator, who) then (db, NotFound)
    else if target !in Allowed(db.findings[id].review) && !who.superadmin then (db, WrongState)
    else
      var moved := SetReview(db, id, target, who, now);
      match AuditActionFor(target)
      case Some(action) => (Log(moved, action, who, FindingKind, id), Done)
      case None => (moved, Done)
  }

  function ResubmitStep(db: Db, id: Id, who: Actor, now: int): (Db, Outcome) {
    if id !in db.findings || !(db.findings[id].creator.id == who.id || who.superadmin) then (db, NotFound)
    else if db.findings[id].review != Rejected then (db, WrongState)
    else (Log(SetReview(db, id, Pending, who, now), ReviewResubmitted, who, FindingKind, id), Done)
  }

  function DeleteStep(db: Db, id: Id, who: Actor): (Db, Outcome) {
    if id !in db.findings || !(db.findings[id].creator.id == who.id || who.superadmin) then (db, NotFound)
    else
      var unlinked := map r | r in db.reports :: db.reports[r].(findings := db.reports[r].findings - {id});
      (Log(db.(findings := db.findings - {id}, reports := unlinked), FindingDeleted, who, FindingKind, id), Done)
  }

  /** A primary key that no row has and no log entry names. */
  ghost predicate Unused(db: Db, kind: Kind, id: Id) {
    id !in db.findings && id !in db.reports && Entries(db.log, kind, id) == []
  }

  /** Inside a report the vendor is set to the report's client. */
  function ForReport(db: Db, form: Form, report: Option<Id>): Form
    requires report.Some? ==> report.value in db.reports
  {
    if report.None? then form else form.(vendor := db.reports[report.value].client)
  }

  ghost function NewFindingStep(db: Db, id: Id, form: Form, newId: string, report: Option<Id>, who: Actor)
    : (Db, Outcome)
  {
    if !Unused(db, FindingKind, id) || newId == "" then (db, NotAllowed)
    else if report.Some? && report.value !in db.reports then (db, NotFound)
    else if report.Some? && !CanEditReport(db.reports[report.value], who) then (db, NotFound)
    else
      var blank := Finding("", who, {who.id}, form.vendor, None, None, NoSeverity, Born(who), None, None, map[]);
      var f := Fill(blank, ForReport(db, form, report));
      var inserted := db.(findings := db.findings[id := Save(f, f, None, newId)]);
      (if report.None? then inserted else Link(inserted, report.value, id, true), Done)
  }

  function Link(db: Db, id: Id, finding: Id, add: bool): Db
    requires id in db.reports
  {
    var r := db.reports[id];
    db.(reports := db.reports[id := r.(findings := if add then r.findings + {finding} else r.findings - {finding})])
  }

  function EditFindingStep(db: Db, id: Id, form: Form, report: Option<Id>, who: Actor): (Db, Outcome) {
    if id !in db.findings then (db, NotFound)
    else if report.None? && !CanEditFinding(db.findings[id], who) then (db, NotFound)
    else if report.Some? && (report.value !in db.reports || !CanEditReport(db.reports[report.value], who)
                             || id !in db.reports[report.value].findings) then (db, NotFound)
    else
      var f := db.findings[id];
      (db.(findings := db.findings[id := Save(f, Fill(f, ForReport(db, form, report)), None, f.internalId)]), Done)
  }

  function CollaborateStep(db: Db, id: Id, user: Id, add: bool, who: Actor): (Db, Outcome) {
    if id !in db.findings || !(who.superadmin || db.findings[id].creator.id == who.id) then (db, NotFound)
    else
      var f := db.findings[id];
      if !add && user == f.creator.id then (db, NotAllowed)
      else
        var researchers := if add then f.researchers + {user} else f.researchers - {user};
        (db.(findings := db.findings[id := f.(researchers := researchers)]), Done)
  }

  /** The id backfill: QuerySet.update(internal_id=new), past save(). */
  function RenumberStep(db: Db, id: Id, newId: string): (Db, Outcome) {
    if id !in db.findings || newId == "" then (db, NotFound)
    else (db.(findings := db.findings[id := db.findings[id].(internalId := newId)]), Done)
  }

  // ----- reports --------------------------------------------------------------------------

  function SetReport(db: Db, id: Id, status: Status, action: Action, who: Actor, now: int): Db
    requires id in db.reports
  {
    var r := db.reports[id].(status := status, reviewedBy := Some(who.id), reviewedAt := Some(now));
    Log(db.(reports := db.reports[id := r]), action, who, ReportKind, id)
  }

  function SubmitStep(db: Db, id: Id, who: Actor, now: int): (Db, Outcome) {
    if id !in db.reports || !CanEditReport(db.reports[id], who) then (db, NotFound)
    else if db.reports[id].status != Draft && db.reports[id].status != Declined then (db, WrongState)
    else
      var action := if db.reports[id].status == Declined then ReviewResubmitted else ReviewStarted;
      (SetReport(db, id, InReview, action, who, now), Done)
  }

  function DecideStep(db: Db, id: Id, status: Status, action: Action, who: Actor, now: int): (Db, Outcome) {
    if id !in db.reports || !CanReview(db.reports[id].creator, who) then (db, NotFound)
    else if db.reports[id].status != InReview then (db, WrongState)
    else (SetReport(db, id, status, action, who, now), Done)
  }

  function ReopenStep(db: Db, id: Id, who: Actor, now: int): (Db, Outcome) {
    if id !in db.reports || !who.superadmin then (db, NotFound)
    else if db.reports[id].status != Accepted then (db, WrongState)
    else (SetReport(db, id, InReview, ReviewStarted, who, now), Done)
  }

  ghost function NewReportStep(db: Db, id: Id, client: Id, others: set<Id>, text: map<string, string>, who: Actor)
    : (Db, Outcome)
  {
    if !Unused(db, ReportKind, id) then (db, NotAllowed)
    else (db.(reports := db.reports[id := Report(who, client, others, {}, Draft, None, None, text, map[])]), Done)
  }

  function EditReportStep(db: Db, id: Id, client: Id, others: set<Id>, text: map<string, string>, who: Actor)
    : (Db, Outcome)
  {
    if id !in db.reports || !CanEditReport(db.reports[id], who) then (db, NotFound)
    else (db.(reports := db.reports[id := db.reports[id].(client := client, others := others, text := text)]), Done)
  }

  function LinkStep(db: Db, id: Id, finding: Id, add: bool, who: Actor): (Db, Outcome) {
    if id !in db.reports || !CanEditReport(db.reports[id], who) || finding !in db.findings then (db, NotFound)
    else if add && db.findings[finding].vendor != db.reports[id].client then (db, NotAllowed)
    else (Link(db, id, finding, add), Done)
  }

  /** Creates, rewrites or, with None, removes an annex. */
  function SetAnnexStep(db: Db, id: Id, annex: Id, text: Option<map<string, string>>, who: Actor): (Db, Outcome) {
    if id !in db.reports || !CanEditReport(db.reports[id], who) then (db, NotFound)
    else
      var r := db.reports[id];
      var annexes := if text.Some? then r.annexes[annex := text.value] else r.annexes - {annex};
      (db.(reports := db.reports[id := r.(annexes := annexes)]), Done)
  }

  // ----- autosave -------------------------------------------------------------------------

  const TEXT_CAP := 200000

  /** The per-model allowlist with the length caps of its fields. */
  const AUTOSAVE_FIELDS: map<string, map<string, nat>> := map[
    "report" := map["name" := 300, "executive_summary" := TEXT_CAP, "conclusion" := TEXT_CAP],
    "annex" := map["title" := 200, "body" := TEXT_CAP],
    "finding" := map["title" := 300, "narrative" := TEXT_CAP, "poc" := TEXT_CAP, "remediation" := TEXT_CAP,
                     "channel_program" := 100, "cve_id" := 30, "cvss_31_vector" := 200, "cvss_4_vector" := 200]]

  function ParseReview(value: string): ReviewState {
    match value
    case "pending" => Pending
    case "under_review" => UnderReview
    case "rejected" => Rejected
    case _ => Approved
  }

  /** QuerySet.update(**{field: value}) on a finding: any column, no save() logic. */
  function UpdateFinding(f: Finding, field: string, value: string): Finding {
    match field
    case "review_state" => f.(review := ParseReview(value))
    case "internal_id" => f.(internalId := value)
    case "severity" => f.(severity := if value == "critical" then Critical else NoSeverity)
    case "cvss_31_score" => f.(score31 := None)
    case "cvss_4_score" => f.(score4 := None)
    case _ => f.(text := f.text[field := value])
  }

  function UpdateReport(r: Report, field: string, value: string): Report {
    match field
    case "status" => r.(status := if value == "approved" then Accepted else Draft)
    case _ => r.(text := r.text[field := value])
  }

  function UpdateAnnex(r: Report, annex: Id, field: string, value: string): Report
    requires annex in r.annexes
  {
    r.(annexes := r.annexes[annex := r.annexes[annex][field := value]])
  }

  function AutosaveStep(db: Db, id: Id, model: string, pk: Id, field: string, value: string, who: Actor): (Db, Outcome)
  {
    if id !in db.reports || !CanEditReport(db.reports[id], who) then (db, NotFound)
    else if model !in AUTOSAVE_FIELDS || field !in AUTOSAVE_FIELDS[model] then (db, NotAllowed)
    else
      var cap := AUTOSAVE_FIELDS[model][field];
      var v := if |value| <= cap then value else value[..cap];
      if model == "report" then
        if pk != id then (db, NotFound)
        else (db.(reports := db.reports[id := UpdateReport(db.reports[id], field, v)]), Done)
      else if model == "annex" then
        if pk !in db.reports[id].annexes then (db, NotFound)
        else (db.(reports := db.reports[id := UpdateAnnex(db.reports[id], pk, field, v)]), Done)
      else if pk !in db.reports[id].findings || pk !in db.findings then (db, NotFound)
      else (db.(findings := db.findings[pk := UpdateFinding(db.findings[pk], field, v)]), Done)
  }

  // ----- runs -----------------------------------------------------------------------------

  datatype Request = Request(op: Op, who: Actor, now: int)

  ghost function Handle(db: Db, q: Request): (Db, Outcome) {
    var (who, now) := (q.who, q.now);
    match q.op
    case NewFinding(id, form, newId, report) => NewFindingStep(db, id, form, newId, report, who)
    case EditFinding(id, form, report) => EditFindingStep(db, id, form, report, who)
    case Collaborate(id, user, add) => CollaborateStep(db, id, user, add, who)
    case Transition(id, target) => if target == Pending then (db, NotFound)
      else TransitionStep(db, id, target, who, now)
    case Resubmit(id) => ResubmitStep(db, id, who, now)
    case DeleteFinding(id) => DeleteStep(db, id, who)
    case Renumber(id, newId) => RenumberStep(db, id, newId)
    case NewReport(id, client, others, text) => NewReportStep(db, id, client, others, text, who)
    case EditReport(id, client, others, text) => EditReportStep(db, id, client, others, text, who)
    case LinkFinding(id, finding, add) => LinkStep(db, id, finding, add, who)
    case SetAnnex(id, annex, text) => SetAnnexStep(db, id, annex, text, who)
    case SubmitReport(id) => SubmitStep(db, id, who, now)
    case ApproveReport(id) => DecideStep(db, id, Accepted, ReviewApproved, who, now)
    case RejectReport(id) => DecideStep(db, id, Declined, ReviewRejected, who, now)
    case ReopenReport(id) => ReopenStep(db, id, who, now)
    case Autosave(id, model, pk, field, value) => AutosaveStep(db, id, model, pk, field, value, who)
  }

  ghost function Step(db: Db, q: Request): Db { Handle(db, q).0 }

  ghost function Run(db: Db, qs: seq<Request>): Db
    decreases |qs|
  {
    if qs == [] then db else Run(Step(db, qs[0]), qs[1..])
  }

  // ----- invariant ------------------------------------------------------------------------

  function ReplayFinding(born: ReviewState, history: seq<Action>): ReviewState {
    if history == [] then born else
      match history[|history| - 1]
      case ReviewStarted => UnderReview
      case ReviewApproved => Approved
      case ReviewRejected => Rejected
      case _ => Pending
  }

  function ReplayReport(history: seq<Action>): Status {
    if history == [] then Draft else
      match history[|history| - 1]
      case ReviewApproved => Accepted
      case ReviewRejected => Declined
      case _ => InReview
  }

  /** An approval by a review authority who was not the creator, or was a superadmin. */
  predicate Proper(e: Entry, kind: Kind, id: Id, creator: Actor) {
    && e.action == ReviewApproved && e.kind == kind && e.target == id && e.actor.Some?
    && (e.actor.value.superadmin || (e.actor.value.reviewer && e.actor.value.id != creator.id))
  }

  ghost predicate Vetted(log: Log, kind: Kind, id: Id, creator: Actor) {
    exists k :: 0 <= k < |log| && Proper(log[k], kind, id, creator)
  }

  ghost predicate FindingOk(f: Finding, id: Id, log: Log) {
    && f.review == ReplayFinding(Born(f.creator), Entries(log, FindingKind, id))
    && (f.review == Approved && !f.creator.ReviewAuthority() ==> Vetted(log, FindingKind, id, f.creator))
    && Rated(f)
  }

  ghost predicate ReportOk(r: Report, id: Id, log: Log) {
    && r.status == ReplayReport(Entries(log, ReportKind, id))
    && (r.status == Accepted ==> Vetted(log, ReportKind, id, r.creator))
  }

  ghost predicate Inv(db: Db) {
    && (forall id :: id in db.findings ==> FindingOk(db.findings[id], id, db.log))
    && (forall id :: id in db.reports ==> ReportOk(db.reports[id], id, db.log))
  }

  // ----- every request keeps the invariant -------------------------------------------------

  lemma VettedGrows(log: Log, more: Log, kind: Kind, id: Id, creator: Actor)
    requires Vetted(log, kind, id, creator)
    ensures Vetted(log + more, kind, id, creator)
  {
    var k :| 0 <= k < |log| && Proper(log[k], kind, id, creator);
    assert (log + more)[k] == log[k];
  }

  /** Log entries about other objects leave a finding and a report as they are. */
  lemma ForeignKeepsFinding(f: Finding, id: Id, log: Log, more: Log)
    requires FindingOk(f, id, log)
    requires forall k :: 0 <= k < |more| ==> more[k].kind != FindingKind || more[k].target != id
    ensures FindingOk(f, id, log + more)
  {
    EntriesForeign(log, more, FindingKind, id);
    if Vetted(log, FindingKind, id, f.creator) { VettedGrows(log, more, FindingKind, id, f.creator); }
  }

  lemma ForeignKeepsReport(r: Report, id: Id, log: Log, more: Log)
    requires ReportOk(r, id, log)
    requires forall k :: 0 <= k < |more| ==> more[k].kind != ReportKind || more[k].target != id
    ensures ReportOk(r, id, log + more)
  {
    EntriesForeign(log, more, ReportKind, id);
    if Vetted(log, ReportKind, id, r.creator) { VettedGrows(log, more, ReportKind, id, r.creator); }
  }

  /** A logged change of one finding; the other rows do not notice. */
  lemma FindingLogged(db: Db, id: Id, f: Finding, e: Entry)
    requires Inv(db) && e.kind == FindingKind && e.target == id && FindingOk(f, id, db.log + [e])
    ensures Inv(Db(db.findings[id := f], db.reports, db.log + [e]))
  {
    forall x | x in db.findings && x != id ensures FindingOk(db.findings[x], x, db.log + [e]) {
      ForeignKeepsFinding(db.findings[x], x, db.log, [e]);
    }
    forall x | x in db.reports ensures ReportOk(db.reports[x], x, db.log + [e]) {
      ForeignKeepsReport(db.reports[x], x, db.log, [e]);
    }
  }

  lemma ReportLogged(db: Db, id: Id, r: Report, e: Entry)
    requires Inv(db) && e.kind == ReportKind && e.target == id && ReportOk(r, id, db.log + [e])
    ensures Inv(Db(db.findings, db.reports[id := r], db.log + [e]))
  {
    forall x | x in db.findings ensures FindingOk(db.findings[x], x, db.log + [e]) {
      ForeignKeepsFinding(db.findings[x], x, db.log, [e]);
    }
    forall x | x in db.reports && x != id ensures ReportOk(db.reports[x], x, db.log + [e]) {
      ForeignKeepsReport(db.reports[x], x, db.log, [e]);
    }
  }

  /** A review decision on a finding: the new entry replays to the new state. */
  lemma ReviewedFinding(f: Finding, id: Id, state: ReviewState, who: Actor, now: int, log: Log, action: Action)
    requires Rated(f) && ReplayFinding(Born(f.creator), [action]) == state
    requires action == ReviewApproved ==> CanReview(f.creator, who)
    ensures var g := f.(review := state, reviewedBy := Some(who.id), reviewedAt := Some(now));
      var stored := Save(f, g, Some(REVIEW_COLUMNS), f.internalId);
      stored == g && FindingOk(stored, id, log + [Entry(action, Some(who), FindingKind, id)])
  {}

  lemma TransitionKeeps(db: Db, id: Id, target: ReviewState, who: Actor, now: int)
    requires Inv(db) && target != Pending
    ensures Inv(TransitionStep(db, id, target, who, now).0)
  {
    var (db', o) := TransitionStep(db, id, target, who, now);
    if o == Done {
      var action := AuditActionFor(target).value;
      ReviewedFinding(db.findings[id], id, target, who, now, db.log, action);
      FindingLogged(db, id, db'.findings[id], Entry(action, Some(who), FindingKind, id));
    }
  }

  lemma ResubmitKeeps(db: Db, id: Id, who: Actor, now: int)
    requires Inv(db)
    ensures Inv(ResubmitStep(db, id, who, now).0)
  {
    var (db', o) := ResubmitStep(db, id, who, now);
    if o == Done {
      ReviewedFinding(db.findings[id], id, Pending, who, now, db.log, ReviewResubmitted);
      FindingLogged(db, id, db'.findings[id], Entry(ReviewResubmitted, Some(who), FindingKind, id));
    }
  }

  lemma DeleteKeeps(db: Db, id: Id, who: Actor)
    requires Inv(db)
    ensures Inv(DeleteStep(db, id, who).0)
  {
    var (db', o) := DeleteStep(db, id, who);
    if o == Done {
      var e := Entry(FindingDeleted, Some(who), FindingKind, id);
      forall x | x in db'.findings ensures FindingOk(db'.findings[x], x, db'.log) {
        ForeignKeepsFinding(db.findings[x], x, db.log, [e]);
      }
      forall x | x in db'.reports ensures ReportOk(db'.reports[x], x, db'.log) {
        ForeignKeepsReport(db.reports[x], x, db.log, [e]);
      }
    }
  }

  lemma NewFindingKeeps(db: Db, id: Id, form: Form, newId: string, report: Option<Id>, who: Actor)
    requires Inv(db)
    ensures Inv(NewFindingStep(db, id, form, newId, report, who).0)
  {
    var (db', o) := NewFindingStep(db, id, form, newId, report, who);
    if o == Done {
      DeriveIsWorse(form.score31, form.score4);
      assert FindingOk(db'.findings[id], id, db.log);
      assert forall x :: x in db'.reports ==> x in db.reports && db'.reports[x].status == db.reports[x].status;
    }
  }

  lemma EditFindingKeeps(db: Db, id: Id, form: Form, report: Option<Id>, who: Actor)
    requires Inv(db)
    ensures Inv(EditFindingStep(db, id, form, report, who).0)
  {
    DeriveIsWorse(form.score31, form.score4);
    if id in db.findings { assert FindingOk(db.findings[id], id, db.log); }
  }

  lemma DecideKeeps(db: Db, id: Id, status: Status, action: Action, who: Actor, now: int)
    requires Inv(db) && ReplayReport([action]) == status && (status == Accepted <==> action == ReviewApproved)
    ensures Inv(DecideStep(db, id, status, action, who, now).0)
  {
    var (db', o) := DecideStep(db, id, status, action, who, now);
    if o == Done {
      var e := Entry(action, Some(who), ReportKind, id);
      EntriesAppend(db.log, e, ReportKind, id);
      if action == ReviewApproved { assert Proper((db.log + [e])[|db.log|], ReportKind, id, db.reports[id].creator); }
      ReportLogged(db, id, db'.reports[id], e);
    }
  }

  lemma ReportMoveKeeps(db: Db, id: Id, action: Action, who: Actor, now: int)
    requires Inv(db) && id in db.reports && ReplayReport([action]) == InReview
    ensures Inv(SetReport(db, id, InReview, action, who, now))
  {
    var e := Entry(action, Some(who), ReportKind, id);
    EntriesAppend(db.log, e, ReportKind, id);
    ReportLogged(db, id, SetReport(db, id, InReview, action, who, now).reports[id], e);
  }

  /** What autosave stored in its target: the value, or as much of it as the cap allows, under
      its field and nowhere else. */
  ghost predicate Saved(before: map<string, string>, text: map<string, string>, model: string, field: string,
    value: string)
    requires model in AUTOSAVE_FIELDS && field in AUTOSAVE_FIELDS[model]
  {
    var cap := AUTOSAVE_FIELDS[model][field];
    && field in text && text - {field} == before - {field}
    && text[field] <= value && (text[field] == value || |text[field]| == cap) && |text[field]| <= cap
  }

  /** The one row a successful autosave wrote. */
  ghost predicate AutosaveTarget(db: Db, db': Db, id: Id, model: string, pk: Id, field: string, value: string) {
    && model in AUTOSAVE_FIELDS && field in AUTOSAVE_FIELDS[model] && id in db.reports && id in db'.reports
    && match model
       case "report" =>
         pk == id && Saved(db.reports[id].text, db'.reports[id].text, model, field, value)
         && db' == db.(reports := db.reports[id := db.reports[id].(text := db'.reports[id].text)])
       case "annex" =>
         pk in db.reports[id].annexes && pk in db'.reports[id].annexes &&
           Saved(db.reports[id].annexes[pk], db'.reports[id].annexes[pk], model, field, value)
         && db' == db.(reports :=
           db.reports[id := db.reports[id].(annexes := db.reports[id].annexes[pk := db'.reports[id].annexes[pk]])])
       case _ =>
         pk in db.reports[id].findings && pk in db.findings && pk in db'.findings &&
           Saved(db.findings[pk].text, db'.findings[pk].text, model, field, value)
         && db' == db.(findings := db.findings[pk := db.findings[pk].(text := db'.findings[pk].text)])
  }

  lemma UpdateFindingIsText(f: Finding, field: string, value: string)
    requires field !in ["review_state", "internal_id", "severity", "cvss_31_score", "cvss_4_score"]
    ensures UpdateFinding(f, field, value) == f.(text := f.text[field := value])
  {}

  lemma UpdateReportIsText(r: Report, field: string, value: string)
    requires field != "status"
    ensures UpdateReport(r, field, value) == r.(text := r.text[field := value])
  {}

  lemma AllowlistIsText(model: string, field: string)
    requires model in AUTOSAVE_FIELDS && field in AUTOSAVE_FIELDS[model]
    ensures model == "report" || model == "annex" || model == "finding"
    ensures AUTOSAVE_FIELDS[model][field] <= TEXT_CAP
    ensures model == "report" ==> field != "status"
    ensures model == "finding" ==>
      field !in ["review_state", "internal_id", "severity", "cvss_31_score", "cvss_4_score"]
  {
  }

  lemma CutIsSaved(before: map<string, string>, model: string, field: string, value: string, v: string)
    requires model in AUTOSAVE_FIELDS && field in AUTOSAVE_FIELDS[model]
    requires var cap := AUTOSAVE_FIELDS[model][field]; v == if |value| <= cap then value else value[..cap]
    ensures Saved(before, before[field := v], model, field, value)
  {}

  lemma AutosaveHits(db: Db, id: Id, model: string, pk: Id, field: string, value: string, who: Actor)
    ensures var (db', o) := AutosaveStep(db, id, model, pk, field, value, who);
      if o == Done then AutosaveTarget(db, db', id, model, pk, field, value) else db' == db
  {
    if id in db.reports && CanEditReport(db.reports[id], who) && model in AUTOSAVE_FIELDS &&
      field in AUTOSAVE_FIELDS[model] {
      AllowlistIsText(model, field);
      var cap := AUTOSAVE_FIELDS[model][field];
      var v := if |value| <= cap then value else value[..cap];
      if model == "report" {
        UpdateReportIsText(db.reports[id], field, v);
        CutIsSaved(db.reports[id].text, model, field, value, v);
      } else if model == "annex" && pk in db.reports[id].annexes {
        CutIsSaved(db.reports[id].annexes[pk], model, field, value, v);
      } else if model == "finding" && pk in db.findings {
        UpdateFindingIsText(db.findings[pk], field, v);
        CutIsSaved(db.findings[pk].text, model, field, value, v);
      }
    }
  }

  lemma TargetIsText(db: Db, db': Db, id: Id, model: string, pk: Id, field: string, value: string)
    requires AutosaveTarget(db, db', id, model, pk, field, value)
    ensures OnlyText(db, db')
  {}

  /** No column but text differs, and the log is the same. */
  ghost predicate OnlyText(db: Db, db': Db) {
    && db'.log == db.log && db'.findings.Keys == db.findings.Keys && db'.reports.Keys == db.reports.Keys
    && (forall x :: x in db.findings ==> db'.findings[x] == db.findings[x].(text := db'.findings[x].text))
    && (forall x :: x in db.reports ==>
          db'.reports[x] == db.reports[x].(text := db'.reports[x].text, annexes := db'.reports[x].annexes))
  }

  /** What autosave may write is text: every other column keeps its value, only the addressed
      row of that report changes, and the text is within the cap of its field. */
  lemma AutosaveWritesOnlyText(db: Db, id: Id, model: string, pk: Id, field: string, value: string, who: Actor)
    ensures var (db', o) := AutosaveStep(db, id, model, pk, field, value, who);
      OnlyText(db, db') && if o == Done then AutosaveTarget(db, db', id, model, pk, field, value) else db' == db
  {
    var (db', o) := AutosaveStep(db, id, model, pk, field, value, who);
    AutosaveHits(db, id, model, pk, field, value, who);
    if o == Done { TargetIsText(db, db', id, model, pk, field, value); }
  }

  predicate AboutFinding(op: Op) {
    op.NewFinding? || op.EditFinding? || op.Collaborate? || op.Transition? || op.Resubmit? || op.DeleteFinding? ||
      op.Renumber?
  }

  lemma FindingRequestKeeps(db: Db, q: Request)
    requires Inv(db) && AboutFinding(q.op)
    ensures Inv(Step(db, q))
  {
    var (who, now) := (q.who, q.now);
    match q.op
    case NewFinding(id, form, newId, report) => NewFindingKeeps(db, id, form, newId, report, who);
    case EditFinding(id, form, report) => EditFindingKeeps(db, id, form, report, who);
    case Collaborate(id, user, add) => CollaborateKeeps(db, id, user, add, who);
    case Transition(id, target) => if target != Pending { TransitionKeeps(db, id, target, who, now); }
    case Resubmit(id) => ResubmitKeeps(db, id, who, now);
    case DeleteFinding(id) => DeleteKeeps(db, id, who);
    case Renumber(id, newId) => RenumberKeeps(db, id, newId);
  }

  lemma ReportRequestKeeps(db: Db, q: Request)
    requires Inv(db) && !AboutFinding(q.op)
    ensures Inv(Step(db, q))
  {
    var (who, now) := (q.who, q.now);
    match q.op
    case NewReport(id, client, others, text) => NewReportKeeps(db, id, client, others, text, who);
    case EditReport(id, client, others, text) => EditReportKeeps(db, id, client, others, text, who);
    case LinkFinding(id, finding, add) => LinkKeeps(db, id, finding, add, who);
    case SetAnnex(id, annex, text) => SetAnnexKeeps(db, id, annex, text, who);
    case SubmitReport(id) => SubmitKeeps(db, id, who, now);
    case ApproveReport(id) => DecideKeeps(db, id, Accepted, ReviewApproved, who, now);
    case RejectReport(id) => DecideKeeps(db, id, Declined, ReviewRejected, who, now);
    case ReopenReport(id) => ReopenKeeps(db, id, who, now);
    case Autosave(id, model, pk, field, value) => AutosaveKeeps(db, id, model, pk, field, value, who);
  }

  /** Every request keeps the invariant. */
  lemma StepKeeps(db: Db, q: Request)
    requires Inv(db)
    ensures Inv(Step(db, q))
  {
    if AboutFinding(q.op) { FindingRequestKeeps(db, q); } else { ReportRequestKeeps(db, q); }
  }

  lemma CollaborateKeeps(db: Db, id: Id, user: Id, add: bool, who: Actor)
    requires Inv(db)
    ensures Inv(CollaborateStep(db, id, user, add, who).0)
  {}

  lemma NewReportKeeps(db: Db, id: Id, client: Id, others: set<Id>, text: map<string, string>, who: Actor)
    requires Inv(db)
    ensures Inv(NewReportStep(db, id, client, others, text, who).0)
  {}

  lemma SubmitKeeps(db: Db, id: Id, who: Actor, now: int)
    requires Inv(db)
    ensures Inv(SubmitStep(db, id, who, now).0)
  {
    if SubmitStep(db, id, who, now).1 == Done {
      ReportMoveKeeps(db, id, if db.reports[id].status == Declined then ReviewResubmitted else ReviewStarted, who, now);
    }
  }

  lemma ReopenKeeps(db: Db, id: Id, who: Actor, now: int)
    requires Inv(db)
    ensures Inv(ReopenStep(db, id, who, now).0)
  {
    if ReopenStep(db, id, who, now).1 == Done { ReportMoveKeeps(db, id, ReviewStarted, who, now); }
  }

  lemma EditReportKeeps(db: Db, id: Id, client: Id, others: set<Id>, text: map<string, string>, who: Actor)
    requires Inv(db)
    ensures Inv(EditReportStep(db, id, client, others, text, who).0)
  {}

  lemma LinkKeeps(db: Db, id: Id, finding: Id, add: bool, who: Actor)
    requires Inv(db)
    ensures Inv(LinkStep(db, id, finding, add, who).0)
  {}

  lemma RenumberKeeps(db: Db, id: Id, newId: string)
    requires Inv(db)
    ensures Inv(RenumberStep(db, id, newId).0)
  {
    if id in db.findings { assert FindingOk(db.findings[id], id, db.log); }
  }

  lemma SetAnnexKeeps(db: Db, id: Id, annex: Id, text: Option<map<string, string>>, who: Actor)
    requires Inv(db)
    ensures Inv(SetAnnexStep(db, id, annex, text, who).0)
  {
    if id in db.reports { assert ReportOk(db.reports[id], id, db.log); }
  }

  lemma AutosaveKeeps(db: Db, id: Id, model: string, pk: Id, field: string, value: string, who: Actor)
    requires Inv(db)
    ensures Inv(AutosaveStep(db, id, model, pk, field, value, who).0)
  {
    AutosaveWritesOnlyText(db, id, model, pk, field, value, who);
    var db' := AutosaveStep(db, id, model, pk, field, value, who).0;
    forall x | x in db'.findings
      ensures FindingOk(db'.findings[x], x, db'.log) { assert FindingOk(db.findings[x], x, db.log); }
    forall x | x in db'.reports
      ensures ReportOk(db'.reports[x], x, db'.log) { assert ReportOk(db.reports[x], x, db.log); }
  }

  lemma {:induction false} RunKeeps(db: Db, qs: seq<Request>)
    requires Inv(db)
    ensures Inv(Run(db, qs))
    decreases |qs|
  {
    if qs != [] {
      StepKeeps(db, qs[0]);
      RunKeeps(Step(db, qs[0]), qs[1..]);
    }
  }

  lemma {:induction false} LogGrows(db: Db, qs: seq<Request>)
    ensures db.log <= Run(db, qs).log
    decreases |qs|
  {
    if qs != [] {
      var db' := Step(db, qs[0]);
      assert db.log <= db'.log by { OneEntryAtMost(db, qs[0]); }
      LogGrows(db', qs[1..]);
    }
  }

  ghost predicate AppendsAtMostOne(log: Log, log': Log, who: Actor) {
    log' == log || exists e ::
      log' == log + [e] && e.actor == Some(who) && (e.kind == FindingKind || e.kind == ReportKind)
  }

  lemma FindingRequestAppends(db: Db, q: Request)
    requires AboutFinding(q.op)
    ensures AppendsAtMostOne(db.log, Step(db, q).log, q.who)
  {}

  predicate MovesReport(op: Op) { op.SubmitReport? || op.ApproveReport? || op.RejectReport? || op.ReopenReport? }

  lemma ReportRequestIsQuiet(db: Db, q: Request)
    requires !AboutFinding(q.op) && !MovesReport(q.op)
    ensures Step(db, q).log == db.log
  {}

  lemma ReportMoveAppends(db: Db, q: Request)
    requires MovesReport(q.op)
    ensures AppendsAtMostOne(db.log, Step(db, q).log, q.who)
  {
    var log' := Step(db, q).log;
    if log' != db.log { assert log' == db.log + [log'[|db.log|]]; }
  }

  /** A request appends nothing, or one entry by its actor about its own finding or report. */
  lemma OneEntryAtMost(db: Db, q: Request)
    ensures AppendsAtMostOne(db.log, Step(db, q).log, q.who)
  {
    if AboutFinding(q.op) {
      FindingRequestAppends(db, q);
    } else if MovesReport(q.op) {
      ReportMoveAppends(db, q);
    } else {
      ReportRequestIsQuiet(db, q);
    }
  }

  // ----- main results -----------------------------------------------------------------------

  const EMPTY := Db(map[], map[], [])

  /** In every reachable state each finding's review state and each report's status is the
      replay of its own log entries from its state at creation. */
  lemma LogReplays(qs: seq<Request>)
    ensures var db := Run(EMPTY, qs);
      && (forall id :: id in db.findings ==>
            db.findings[id].review == ReplayFinding(Born(db.findings[id].creator), Entries(db.log, FindingKind, id)))
      && (forall id :: id in db.reports ==> db.reports[id].status == ReplayReport(Entries(db.log, ReportKind, id)))
  {
    RunKeeps(EMPTY, qs);
    var db := Run(EMPTY, qs);
    assert forall id :: id in db.findings ==> FindingOk(db.findings[id], id, db.log);
    assert forall id :: id in db.reports ==> ReportOk(db.reports[id], id, db.log);
  }

  /** In every reachable state: an approved finding whose creator had no review authority, and
      every approved report, was approved by a review authority who did not create it or was
      a superadmin; so nobody exports a report without such an approval. */
  lemma SeparationOfDuty(qs: seq<Request>)
    ensures var db := Run(EMPTY, qs);
      && (forall id :: id in db.findings && db.findings[id].review == Approved ==>
            var creator := db.findings[id].creator;
            creator.superadmin || creator.reviewer || Vetted(db.log, FindingKind, id, creator))
      && (forall id :: id in db.reports && db.reports[id].status == Accepted ==>
            Vetted(db.log, ReportKind, id, db.reports[id].creator))
      && (forall id, who :: id in db.reports && CanExport(db.reports[id], who) ==>
            Vetted(db.log, ReportKind, id, db.reports[id].creator))
  {
    RunKeeps(EMPTY, qs);
    var db := Run(EMPTY, qs);
    assert forall id :: id in db.findings ==> FindingOk(db.findings[id], id, db.log);
    assert forall id :: id in db.reports ==> ReportOk(db.reports[id], id, db.log);
  }

  /** Every stored severity is the worse of the bands of the two stored scores. */
  lemma SeverityStaysDerived(qs: seq<Request>)
    ensures var db := Run(EMPTY, qs);
      forall id :: id in db.findings ==>
        db.findings[id].severity ==
          Worse(SeverityFromScore(db.findings[id].score31), SeverityFromScore(db.findings[id].score4))
  {
    RunKeeps(EMPTY, qs);
    var db := Run(EMPTY, qs);
    assert forall id :: id in db.findings ==> FindingOk(db.findings[id], id, db.log);
  }

  /** What a reviewer may do, from state to state. */
  const REVIEWER_MOVES: set<(ReviewState, ReviewState)> :=
    {(Pending, UnderReview), (UnderReview, Approved), (UnderReview, Rejected), (Approved, UnderReview),
     (Rejected, UnderReview)}

  /** A finding moves only through the review views of its reviewers, or by a resubmission of
      its creator or a superadmin after a rejection. */
  ghost predicate FindingEdge(f: Finding, g: Finding, q: Request, id: Id) {
    && g.reviewedBy == Some(q.who.id) && g.reviewedAt == Some(q.now)
    && (|| (q.op == Transition(id, g.review) && g.review != Pending && q.who.superadmin)
        || (q.op == Transition(id, g.review) && q.who.reviewer && q.who.id != f.creator.id
            && (f.review, g.review) in REVIEWER_MOVES)
        || (q.op == Resubmit(id) && f.review == Rejected && g.review == Pending
            && (f.creator.id == q.who.id || q.who.superadmin)))
  }

  ghost predicate ReportEdge(r: Report, t: Report, q: Request, id: Id) {
    var who := q.who;
    var edits := who.superadmin || who.id == r.creator.id || who.id in r.others;
    var decides := who.superadmin || (who.reviewer && who.id != r.creator.id);
    && t.reviewedBy == Some(who.id) && t.reviewedAt == Some(q.now)
    && match (r.status, t.status)
       case (Draft, InReview) => q.op == SubmitReport(id) && edits
       case (Declined, InReview) => q.op == SubmitReport(id) && edits
       case (InReview, Accepted) => q.op == ApproveReport(id) && decides
       case (InReview, Declined) => q.op == RejectReport(id) && decides
       case (Accepted, InReview) => q.op == ReopenReport(id) && who.superadmin
       case _ => false
  }

  /** The complete set of moves of a finding: no edit, link, autosave or report request changes
      a review state. */
  lemma FindingEdges(db: Db, q: Request, id: Id)
    requires id in db.findings && id in Step(db, q).findings
    ensures Step(db, q).findings[id].review != db.findings[id].review ==>
      FindingEdge(db.findings[id], Step(db, q).findings[id], q, id)
  {
    if q.op.Autosave? {
      AutosaveWritesOnlyText(db, q.op.id, q.op.model, q.op.pk, q.op.field, q.op.value, q.who);
    } else if !AboutFinding(q.op) {
      ReportRequestLeavesFindings(db, q);
    } else if q.op.Transition? || q.op.Resubmit? {
      ReviewMoveEdge(db, q, id);
    } else {
      EditKeepsReview(db, q, id);
    }
  }

  lemma ReportRequestLeavesFindings(db: Db, q: Request)
    requires !AboutFinding(q.op) && !q.op.Autosave?
    ensures Step(db, q).findings == db.findings
  {}

  lemma EditKeepsReview(db: Db, q: Request, id: Id)
    requires AboutFinding(q.op) && !q.op.Transition? && !q.op.Resubmit?
    requires id in db.findings && id in Step(db, q).findings
    ensures Step(db, q).findings[id].review == db.findings[id].review
  {}

  lemma ReviewMoveEdge(db: Db, q: Request, id: Id)
    requires (q.op.Transition? || q.op.Resubmit?) && id in db.findings && id in Step(db, q).findings
    ensures Step(db, q).findings[id].review != db.findings[id].review ==>
      FindingEdge(db.findings[id], Step(db, q).findings[id], q, id)
  {}

  /** The complete set of moves of a report. */
  lemma ReportEdges(db: Db, q: Request, id: Id)
    requires id in db.reports && id in Step(db, q).reports
    ensures Step(db, q).reports[id].status != db.reports[id].status ==>
      ReportEdge(db.reports[id], Step(db, q).reports[id], q, id)
  {
    if q.op.Autosave? {
      AutosaveWritesOnlyText(db, q.op.id, q.op.model, q.op.pk, q.op.field, q.op.value, q.who);
    } else if AboutFinding(q.op) {
      assert Step(db, q).reports[id].status == db.reports[id].status;
    }
  }

  /** The shared transition code also accepts the target Pending, which it does not log: the
      log then stops replaying to the state exactly when a reviewer moves a finding back from
      under review, or a superadmin any finding that is not pending. */
  lemma UnloggedMoveIff(db: Db, id: Id, target: ReviewState, who: Actor, now: int)
    requires Inv(db) && id in db.findings
    ensures var (db', o) := TransitionStep(db, id, target, who, now);
      var f := db'.findings[id];
      f.review == ReplayFinding(Born(f.creator), Entries(db'.log, FindingKind, id)) <==>
        !(target == Pending && db.findings[id].review != Pending && CanReview(db.findings[id].creator, who)
          && (db.findings[id].review == UnderReview || who.superadmin))
  {
    assert FindingOk(db.findings[id], id, db.log);
    if target != Pending {
      TransitionKeeps(db, id, target, who, now);
      var db' := TransitionStep(db, id, target, who, now).0;
      assert FindingOk(db'.findings[id], id, db'.log);
    }
  }
}

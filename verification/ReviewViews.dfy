/** The review and autosave views as they update rows in place; each is proved to take exactly
    the step that module Reviews specifies. */
module ReviewViews {
  import opened Wrappers
  import opened AuditLog
  import opened Findings
  import opened Reviews

  class Views {
    var findings: map<Id, Finding>
    var reports: map<Id, Report>
    var log: seq<Entry>

    function State(): Db
      reads this
    {
      Db(findings, reports, log)
    }

    /** Between requests every state is the replay of its log entries and properly vetted. */
    ghost predicate Valid()
      reads this
    {
      Inv(State())
    }

    constructor ()
      ensures Valid() && State() == EMPTY
    {
      findings, reports, log := map[], map[], [];
    }

    method Audit(action: Action, who: Actor, kind: Kind, target: Id)
      modifies this`log
      ensures log == old(log) + [Entry(action, Some(who), kind, target)]
    {
      log := log + [Entry(action, Some(who), kind, target)];
    }

    /** finding.save(update_fields=["review_state", "reviewed_by", "reviewed_at"]). */
    method SaveReview(id: Id, f: Finding)
      requires id in findings
      modifies this`findings
      ensures findings == old(findings)[id :=
        Save(old(findings)[id], f, Some(REVIEW_COLUMNS), old(findings)[id].internalId)]
      ensures var before := old(findings)[id];
        Rated(before) && f.score31 == before.score31 && f.score4 == before.score4 ==> Rated(findings[id])
    {
      if Rated(findings[id]) && f.score31 == findings[id].score31 && f.score4 == findings[id].score4 {
        SaveRates(findings[id], f, Some(REVIEW_COLUMNS), findings[id].internalId);
      }
      findings := findings[id := Save(findings[id], f, Some(REVIEW_COLUMNS), findings[id].internalId)];
    }

    method TransitionReview(id: Id, target: ReviewState, who: Actor, now: int) returns (o: Outcome)
      requires Valid()
      modifies this
      ensures target != Pending ==> Valid()
      ensures (State(), o) == TransitionStep(old(State()), id, target, who, now)
    {
      if target != Pending { TransitionKeeps(State(), id, target, who, now); }
      if id !in findings || !CanReview(findings[id].creator, who) {
        return NotFound;
      }
      var finding := findings[id];
      if target !in Allowed(finding.review) && !who.superadmin {
        return WrongState;
      }
      finding := finding.(review := target);
      finding := finding.(reviewedBy := Some(who.id));
      finding := finding.(reviewedAt := Some(now));
      SaveReview(id, finding);
      var action := AuditActionFor(target);
      if action.Some? {
        Audit(action.value, who, FindingKind, id);
      }
      o := Done;
    }

    method ReviewResubmit(id: Id, who: Actor, now: int) returns (o: Outcome)
      requires Valid()
      modifies this
      ensures Valid()
      ensures (State(), o) == ResubmitStep(old(State()), id, who, now)
    {
      ResubmitKeeps(State(), id, who, now);
      if id !in findings {
        return NotFound;
      }
      var finding := findings[id];
      var isOwner := finding.creator.id == who.id;
      if !(isOwner || who.superadmin) {
        return NotFound;
      }
      if finding.review != Rejected {
        return WrongState;
      }
      finding := finding.(review := Pending);
      finding := finding.(reviewedBy := Some(who.id));
      finding := finding.(reviewedAt := Some(now));
      SaveReview(id, finding);
      Audit(ReviewResubmitted, who, FindingKind, id);
      o := Done;
    }

    method SetReportState(id: Id, status: Status, action: Action, who: Actor, now: int)
      requires id in reports
      modifies this
      ensures State() == SetReport(old(State()), id, status, action, who, now)
    {
      var report := reports[id];
      report := report.(status := status);
      report := report.(reviewedBy := Some(who.id));
      report := report.(reviewedAt := Some(now));
      reports := reports[id := report];
      Audit(action, who, ReportKind, id);
    }

    method ReportSubmitReview(id: Id, who: Actor, now: int) returns (o: Outcome)
      requires Valid()
      modifies this
      ensures Valid()
      ensures (State(), o) == SubmitStep(old(State()), id, who, now)
    {
      SubmitKeeps(State(), id, who, now);
      if id !in reports || !CanEditReport(reports[id], who) {
        return NotFound;
      }
      if reports[id].status !in {Draft, Declined} {
        return WrongState;
      }
      var wasRejected := reports[id].status == Declined;
      SetReportState(id, InReview, if wasRejected then ReviewResubmitted else ReviewStarted, who, now);
      o := Done;
    }

    method ReportDecide(id: Id, approve: bool, who: Actor, now: int) returns (o: Outcome)
      requires Valid()
      modifies this
      ensures Valid()
      ensures (State(), o) == if approve then DecideStep(old(State()), id, Accepted, ReviewApproved, who, now)
                              else DecideStep(old(State()), id, Declined, ReviewRejected, who, now)
    {
      if approve {
        DecideKeeps(State(), id, Accepted, ReviewApproved, who, now);
      } else {
        DecideKeeps(State(), id, Declined, ReviewRejected, who, now);
      }
      if id !in reports || !CanReview(reports[id].creator, who) {
        return NotFound;
      }
      if reports[id].status != InReview {
        return WrongState;
      }
      if approve {
        SetReportState(id, Accepted, ReviewApproved, who, now);
      } else {
        SetReportState(id, Declined, ReviewRejected, who, now);
      }
      o := Done;
    }

    method ReportReopen(id: Id, who: Actor, now: int) returns (o: Outcome)
      requires Valid()
      modifies this
      ensures Valid()
      ensures (State(), o) == ReopenStep(old(State()), id, who, now)
    {
      ReopenKeeps(State(), id, who, now);
      if id !in reports || !who.superadmin {
        return NotFound;
      }
      if reports[id].status != Accepted {
        return WrongState;
      }
      SetReportState(id, InReview, ReviewStarted, who, now);
      o := Done;
    }

    /** Links an existing finding of the report's client. */
    method ReportAddFinding(id: Id, finding: Id, who: Actor) returns (o: Outcome)
      requires Valid()
      modifies this
      ensures Valid()
      ensures (State(), o) == LinkStep(old(State()), id, finding, true, who)
    {
      LinkKeeps(State(), id, finding, true, who);
      if id !in reports || !CanEditReport(reports[id], who) || finding !in findings {
        return NotFound;
      }
      if findings[finding].vendor != reports[id].client {
        return NotAllowed;
      }
      reports := reports[id := reports[id].(findings := reports[id].findings + {finding})];
      o := Done;
    }

    /** Unlinks a finding; the finding itself stays. */
    method ReportRemoveFinding(id: Id, finding: Id, who: Actor) returns (o: Outcome)
      requires Valid()
      modifies this
      ensures Valid()
      ensures (State(), o) == LinkStep(old(State()), id, finding, false, who)
    {
      LinkKeeps(State(), id, finding, false, who);
      if id !in reports || !CanEditReport(reports[id], who) || finding !in findings {
        return NotFound;
      }
      reports := reports[id := reports[id].(findings := reports[id].findings - {finding})];
      o := Done;
    }

    method ReportAutosave(id: Id, model: string, pk: Id, field: string, value: string, who: Actor) returns (o: Outcome)
      requires Valid()
      modifies this
      ensures Valid()
      ensures (State(), o) == AutosaveStep(old(State()), id, model, pk, field, value, who)
    {
      AutosaveKeeps(State(), id, model, pk, field, value, who);
      if id !in reports || !CanEditReport(reports[id], who) {
        return NotFound;
      }
      if model !in AUTOSAVE_FIELDS || field !in AUTOSAVE_FIELDS[model] {
        return NotAllowed;
      }
      var cap := AUTOSAVE_FIELDS[model][field];
      var v := if |value| <= cap then value else value[..cap];
      if model == "report" {
        if pk != id {
          return NotFound;
        }
        reports := reports[id := UpdateReport(reports[id], field, v)];
      } else if model == "finding" {
        if pk !in reports[id].findings || pk !in findings {
          return NotFound;
        }
        findings := findings[pk := UpdateFinding(findings[pk], field, v)];
      } else {
        AllowlistIsText(model, field);
        if pk !in reports[id].annexes {
          return NotFound;
        }
        reports := reports[id := UpdateAnnex(reports[id], pk, field, v)];
      }
      o := Done;
    }
  }
}

/** The append-only audit log shared by all audited workflows. */
module AuditLog {
  import opened Wrappers

  /** A signed-in user with the roles held at the time of the request. */
  datatype Actor = Actor(id: Id, superadmin: bool, reviewer: bool) {
    predicate ReviewAuthority() { superadmin || reviewer }
  }

  datatype Action =
    | UserCreated | FindingDeleted
    | ReviewStarted | ReviewApproved | ReviewRejected | ReviewResubmitted
    | ApprovalRequested | ApprovalApproved | ApprovalDenied | ApprovalExecuted(ok: bool) | ApprovalExpired

  datatype Kind = ApprovalKind | FindingKind | ReportKind | UserKind

  /** The real row stores only the actor's key; the roles at that time are kept here as
      history so that properties can speak of them. */
  datatype Entry = Entry(action: Action, actor: Option<Actor>, kind: Kind, target: Id)

  type Log = seq<Entry>

  function Matching(e: Entry, kind: Kind, target: Id): seq<Action> {
    if e.kind == kind && e.target == target then [e.action] else []
  }

  ghost function EntriesBelow(log: Log, n: nat, kind: Kind, target: Id): seq<Action>
    requires n <= |log|
  {
    if n == 0 then [] else EntriesBelow(log, n - 1, kind, target) + Matching(log[n - 1], kind, target)
  }

  /** The history of one object: the actions logged for it, oldest first. */
  ghost function Entries(log: Log, kind: Kind, target: Id): seq<Action> {
    EntriesBelow(log, |log|, kind, target)
  }

  lemma {:induction false} EntriesPrefix(log: Log, more: Log, n: nat, kind: Kind, target: Id)
    requires n <= |log|
    ensures EntriesBelow(log + more, n, kind, target) == EntriesBelow(log, n, kind, target)
  {
    if n > 0 { EntriesPrefix(log, more, n - 1, kind, target); }
  }

  lemma EntriesAppend(log: Log, e: Entry, kind: Kind, target: Id)
    ensures Entries(log + [e], kind, target) == Entries(log, kind, target) + Matching(e, kind, target)
  {
    EntriesPrefix(log, [e], |log|, kind, target);
  }

  lemma {:induction false} EntriesForeign(log: Log, more: Log, kind: Kind, target: Id)
    requires forall k :: 0 <= k < |more| ==> more[k].kind != kind || more[k].target != target
    ensures Entries(log + more, kind, target) == Entries(log, kind, target)
  {
    if more == [] {
      assert log + more == log;
    } else {
      var n := |more| - 1;
      EntriesForeign(log, more[..n], kind, target);
      assert log + more == (log + more[..n]) + [more[n]];
      EntriesAppend(log + more[..n], more[n], kind, target);
    }
  }
}

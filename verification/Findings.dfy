/** Finding rows: the severity derived on save, and the bands shared with the calculator. */
module Findings {
  import opened Wrappers
  import opened AuditLog
  import Cvss31

  // ----- severity bands -------------------------------------------------------------------

  datatype Severity = NoSeverity | Low | Medium | High | Critical

  const BANDS: seq<(real, Severity)> := [(9.0, Critical), (7.0, High), (4.0, Medium), (0.1, Low)]

  function FirstBand(score: real, bands: seq<(real, Severity)>): Severity {
    if bands == [] then NoSeverity
    else if score >= bands[0].0 then bands[0].1
    else FirstBand(score, bands[1..])
  }

  /** The server's band of a stored score. */
  function SeverityFromScore(score: Option<real>): Severity {
    if score.None? || score.value <= 0.0 then NoSeverity else FirstBand(score.value, BANDS)
  }

  /** The band the calculator shows in the browser. */
  function CalculatorBand(score: real): Severity {
    if score <= 0.0 then NoSeverity
    else if score < 4.0 then Low
    else if score < 7.0 then Medium
    else if score < 9.0 then High
    else Critical
  }

  lemma UnfoldBands(s: real)
    ensures FirstBand(s, BANDS) ==
      if s >= 9.0 then Critical else if s >= 7.0 then High else if s >= 4.0 then Medium
      else if s >= 0.1 then Low else NoSeverity
  {
    assert BANDS[1..][0] == (7.0, High) && BANDS[1..][1..][0] == (4.0, Medium) && BANDS[1..][1..][1..][0] == (0.1, Low);
    assert BANDS[1..][1..][1..][1..] == [];
    assert FirstBand(s, BANDS[1..][1..][1..]) == if s >= 0.1 then Low else NoSeverity;
    assert FirstBand(s, BANDS[1..][1..]) == if s >= 4.0 then Medium else FirstBand(s, BANDS[1..][1..][1..]);
  }

  /** Server and browser agree on a score unless it lies strictly between 0 and 0.1 ... */
  lemma BandsAgreeIff(s: real)
    ensures SeverityFromScore(Some(s)) == CalculatorBand(s) <==> !(0.0 < s < 0.1)
  {
    UnfoldBands(s);
  }

  lemma BandsAgreeOnTenth(s: real, k: int)
    requires s == Cvss31.Tenths(k)
    ensures SeverityFromScore(Some(s)) == CalculatorBand(s)
  {
    BandsAgreeIff(s);
  }

  /** ... so they agree on every score with one decimal, and on every calculated score. */
  lemma BandsAgreeOnTenths(k: int, m: Cvss31.Metrics)
    ensures SeverityFromScore(Some(Cvss31.Tenths(k))) == CalculatorBand(Cvss31.Tenths(k))
    ensures SeverityFromScore(Some(Cvss31.BaseScore(m))) == CalculatorBand(Cvss31.BaseScore(m))
  {
    BandsAgreeOnTenth(Cvss31.Tenths(k), k);
    Cvss31.ScoreRange(m);
    var j :| Cvss31.BaseScore(m) == Cvss31.Tenths(j);
    BandsAgreeOnTenth(Cvss31.BaseScore(m), j);
  }

  function Rank(s: Severity): nat {
    match s case NoSeverity => 0 case Low => 1 case Medium => 2 case High => 3 case Critical => 4
  }

  function Worse(a: Severity, b: Severity): Severity { if Rank(a) <= Rank(b) then b else a }

  /** max() over the scores that are present. */
  function MaxScore(a: Option<real>, b: Option<real>): Option<real> {
    if a.None? then b else if b.None? then a else if a.value < b.value then b else a
  }

  function Derive(score31: Option<real>, score4: Option<real>): Severity {
    SeverityFromScore(MaxScore(score31, score4))
  }

  /** The derived severity is the worse of the bands of the two scores. */
  lemma DeriveIsWorse(a: Option<real>, b: Option<real>)
    ensures Derive(a, b) == Worse(SeverityFromScore(a), SeverityFromScore(b))
  {
    if a.Some? { UnfoldBands(a.value); }
    if b.Some? { UnfoldBands(b.value); }
  }

  // ----- rows -----------------------------------------------------------------------------

  datatype ReviewState = Pending | UnderReview | Approved | Rejected

  /** `creator` is the reporter, with the roles held when the finding was created (history). */
  datatype Finding = Finding(
    internalId: string, creator: Actor, researchers: set<Id>, vendor: Id,
    score31: Option<real>, score4: Option<real>, severity: Severity,
    review: ReviewState, reviewedBy: Option<Id>, reviewedAt: Option<int>,
    text: map<string, string>)

  datatype Column = InternalIdColumn | Score31Column | Score4Column | SeverityColumn
                  | ReviewColumn | ReviewedByColumn | ReviewedAtColumn | TextColumns | VendorColumn

  /** What Finding.save() computes on the instance before it writes anything. */
  function Prepare(f: Finding, freshId: string): Finding {
    f.(internalId := if f.internalId == "" then freshId else f.internalId,
       severity := Derive(f.score31, f.score4))
  }

  /** save(): every column, or with update_fields only those named. */
  function Save(stored: Finding, f: Finding, only: Option<set<Column>>, freshId: string): Finding {
    var g := Prepare(f, freshId);
    if only.None? then g else
      var s := only.value;
      stored.(
        internalId := if InternalIdColumn in s then g.internalId else stored.internalId,
        score31 := if Score31Column in s then g.score31 else stored.score31,
        score4 := if Score4Column in s then g.score4 else stored.score4,
        severity := if SeverityColumn in s then g.severity else stored.severity,
        review := if ReviewColumn in s then g.review else stored.review,
        reviewedBy := if ReviewedByColumn in s then g.reviewedBy else stored.reviewedBy,
        reviewedAt := if ReviewedAtColumn in s then g.reviewedAt else stored.reviewedAt,
        text := if TextColumns in s then g.text else stored.text,
        vendor := if VendorColumn in s then g.vendor else stored.vendor)
  }

  predicate Rated(f: Finding) {
    f.severity == Worse(SeverityFromScore(f.score31), SeverityFromScore(f.score4)) && f.internalId != ""
  }

  /** Which columns a save stores: all of them, or those named; of the stored row nothing else
      changes. A blank display id is filled, any other is kept, and severity is derived. */
  lemma SaveColumns(stored: Finding, f: Finding, only: Option<set<Column>>, freshId: string)
    ensures var g := Save(stored, f, only, freshId);
      var all := only.None?;
      var named := if all then {} else only.value;
      && (if all || InternalIdColumn in named
          then g.internalId == (if f.internalId == "" then freshId else f.internalId)
          else g.internalId == stored.internalId)
      && g.score31 == (if all || Score31Column in named then f.score31 else stored.score31)
      && g.score4 == (if all || Score4Column in named then f.score4 else stored.score4)
      && g.severity == (if all || SeverityColumn in named
                        then Worse(SeverityFromScore(f.score31), SeverityFromScore(f.score4)) else stored.severity)
      && g.review == (if all || ReviewColumn in named then f.review else stored.review)
      && g.reviewedBy == (if all || ReviewedByColumn in named then f.reviewedBy else stored.reviewedBy)
      && g.reviewedAt == (if all || ReviewedAtColumn in named then f.reviewedAt else stored.reviewedAt)
      && g.text == (if all || TextColumns in named then f.text else stored.text)
      && g.vendor == (if all || VendorColumn in named then f.vendor else stored.vendor)
  {
    DeriveIsWorse(f.score31, f.score4);
  }

  /** A full save always stores the right severity; so does a partial save of an instance
      whose stored row was right and whose scores are not among the fields written. */
  lemma SaveRates(stored: Finding, f: Finding, only: Option<set<Column>>, freshId: string)
    requires freshId != "" && (only.Some? ==> Rated(stored))
    requires only.Some? ==> Score31Column !in only.value && Score4Column !in only.value
    requires only.Some? ==> f.score31 == stored.score31 && f.score4 == stored.score4
    ensures Rated(Save(stored, f, only, freshId))
  {
    DeriveIsWorse(f.score31, f.score4);
  }
}

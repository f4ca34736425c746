/** Display ids ZT-<year>-<7 digits>: allocation on first save and the backfill of legacy ids. */
module InternalIds {
  import opened Wrappers

  const SPACE := 10_000_000

  newtype Draw = x: int | 0 <= x < 10_000_000 witness 0

  datatype Row = Row(year: nat, internalId: string)

  /** What \d matches; the process and the database may differ outside the ten ASCII digits. */
  type DigitClass = d: char -> bool | forall c :: '0' <= c <= '9' ==> d(c) witness (c => true)

  // ----- the format -----------------------------------------------------------------------------

  /** ^ZT-\d{4}-\d{7}$ on the whole string. */
  predicate Exact(s: string, digit: DigitClass) {
    && |s| == 15 && s[..3] == "ZT-" && s[7] == '-'
    && (forall i :: 3 <= i < 7 ==> digit(s[i]))
    && (forall i :: 8 <= i < 15 ==> digit(s[i]))
  }

  /** The same pattern in Python, where $ also matches before a final newline. */
  predicate Canonical(s: string, digit: DigitClass) {
    Exact(s, digit) || (s != "" && s[|s| - 1] == '\n' && Exact(s[..|s| - 1], digit))
  }

  function DigitChar(d: nat): char
    requires d < 10
  {
    ('0' as int + d) as char
  }

  function Dec(n: nat): (s: string)
    ensures s != "" && forall i :: 0 <= i < |s| ==> '0' <= s[i] <= '9'
  {
    if n < 10 then [DigitChar(n)] else Dec(n / 10) + [DigitChar(n % 10)]
  }

  function Zeros(n: nat): (s: string)
    ensures |s| == n && forall i :: 0 <= i < n ==> s[i] == '0'
  {
    seq(n, _ => '0')
  }

  /** f"{n:07d}" */
  function Padded(n: nat): string {
    var s := Dec(n);
    if |s| < 7 then Zeros(7 - |s|) + s else s
  }

  function NewId(year: nat, n: Draw): string { "ZT-" + Dec(year) + "-" + Padded(n as nat) }

  lemma {:induction false} DecLength(n: nat, w: nat, bound: nat)
    requires w > 0 && bound == Pow10(w)
    ensures |Dec(n)| <= w <==> n < bound
    decreases w
  {
    if w > 1 && n >= 10 {
      DecLength(n / 10, w - 1, Pow10(w - 1));
    } else if w == 1 && n >= 10 {
      assert |Dec(n)| == |Dec(n / 10)| + 1;
    } else {
      Pow10Positive(w - 1);
    }
  }

  function Pow10(w: nat): nat { if w == 0 then 1 else 10 * Pow10(w - 1) }

  lemma {:induction false} Pow10Positive(w: nat)
    ensures Pow10(w) > 0
  {
    if w > 0 { Pow10Positive(w - 1); }
  }

  lemma Powers()
    ensures Pow10(3) == 1000 && Pow10(4) == 10_000 && Pow10(7) == SPACE
  {}

  /** A new id has the canonical format exactly for a four-digit year. */
  lemma NewIdCanonicalIff(year: nat, n: Draw, digit: DigitClass)
    ensures Canonical(NewId(year, n), digit) <==> 1000 <= year < 10_000
    ensures Canonical(NewId(year, n), digit) ==> Exact(NewId(year, n), digit)
  {
    Powers();
    DecLength(n as nat, 7, SPACE);
    DecLength(year, 3, 1000);
    DecLength(year, 4, 10_000);
    var (s, y, p) := (NewId(year, n), Dec(year), Padded(n as nat));
    assert |p| == 7 && forall i :: 0 <= i < 7 ==> '0' <= p[i] <= '9';
    assert s[|s| - 1] == p[6];
    if |y| == 4 {
      assert s[..3] == "ZT-" && s[3..7] == y && s[8..] == p;
      assert forall i :: 3 <= i < 7 ==> s[i] == y[i - 3];
      assert forall i :: 8 <= i < 15 ==> s[i] == p[i - 8];
    }
  }

  /** The number that a text of digits stands for. */
  function ReadDec(s: string): int {
    if s == "" then 0 else 10 * ReadDec(s[..|s| - 1]) + (s[|s| - 1] as int - '0' as int)
  }

  lemma {:induction false} DecReads(n: nat)
    ensures ReadDec(Dec(n)) == n
  {
    if n >= 10 { DecReads(n / 10); }
  }

  lemma {:induction false} ZerosRead(k: nat, s: string)
    ensures ReadDec(Zeros(k) + s) == ReadDec(s)
  {
    if s == "" {
      if k > 0 {
        assert (Zeros(k) + s)[..k - 1] == Zeros(k - 1) + s;
        ZerosRead(k - 1, s);
      }
    } else {
      assert (Zeros(k) + s)[..k + |s| - 1] == Zeros(k) + s[..|s| - 1];
      ZerosRead(k, s[..|s| - 1]);
    }
  }

  ghost predicate Decimal(s: string) { forall i :: 0 <= i < |s| ==> '0' <= s[i] <= '9' }

  /** An id spells its year and its number: ZT, the year, and the number in seven digits. */
  lemma NewIdReads(year: nat, n: Draw)
    ensures exists y, p :: NewId(year, n) == "ZT-" + y + "-" + p && SpelledAs(y, p, year, n as int)
  {
    Powers();
    DecLength(n as nat, 7, SPACE);
    DecReads(year);
    DecLeads(year);
    DecReads(n as nat);
    var s := Dec(n as nat);
    if |s| < 7 { ZerosRead(7 - |s|, s); }
    assert Dec(0) == "0";
    assert NewId(year, n) == "ZT-" + Dec(year) + "-" + Padded(n as nat);
    assert SpelledAs(Dec(year), Padded(n as nat), year, n as int);
  }

  ghost predicate SpelledAs(y: string, p: string, year: int, n: int) {
    && Decimal(y) && Decimal(p) && |p| == 7 && ReadDec(y) == year && ReadDec(p) == n
    && y != "" && (y[0] == '0' ==> y == "0")
  }

  lemma {:induction false} DecLeads(n: nat)
    ensures Dec(n)[0] == '0' ==> n == 0
  {
    if n >= 10 { DecLeads(n / 10); }
  }

  /** The canonical format, spelled out. */
  lemma ExactIff(s: string, digit: DigitClass)
    ensures Exact(s, digit) <==> exists y, p :: s == "ZT-" + y + "-" + p && FourAndSeven(y, p, digit)
    ensures Canonical(s, digit) <==> Exact(s, digit) || exists t :: s == t + "\n" && Exact(t, digit)
  {
    if Exact(s, digit) {
      var (y, p) := (s[3..7], s[8..]);
      assert s == s[..3] + s[3..7] + s[7..8] + s[8..] && s[7..8] == "-";
      assert FourAndSeven(y, p, digit);
    }
    if Canonical(s, digit) && !Exact(s, digit) {
      assert s == s[..|s| - 1] + "\n";
    }
  }

  ghost predicate FourAndSeven(y: string, p: string, digit: DigitClass) {
    |y| == 4 && |p| == 7 && (forall i :: 0 <= i < 4 ==> digit(y[i])) && forall i :: 0 <= i < 7 ==> digit(p[i])
  }

  // ----- allocation -------------------------------------------------------------------------------

  /** The random numbers a run draws, one after the other. */
  type Draws = nat -> Draw

  /** At most `tries` draws from position `at`; also returns the next position. */
  function Allocate(year: nat, used: set<string>, draws: Draws, at: nat, tries: nat): Option<(string, nat)>
    decreases tries
  {
    if tries == 0 then None
    else if NewId(year, draws(at)) !in used then Some((NewId(year, draws(at)), at + 1))
    else Allocate(year, used, draws, at + 1, tries - 1)
  }

  ghost predicate Fits(s: string, year: nat) { exists n: Draw :: s == NewId(year, n) }

  /** Allocation fails exactly when every draw it may use is taken ... */
  lemma {:induction false} AllocateIff(year: nat, used: set<string>, draws: Draws, at: nat, tries: nat)
    ensures var r := Allocate(year, used, draws, at, tries);
      && (r.None? <==> forall k :: at <= k < at + tries ==> NewId(year, draws(k)) in used)
      && (r.Some? ==> r.value.0 !in used && Fits(r.value.0, year) && at < r.value.1 <= at + tries)
    decreases tries
  {
    if tries > 0 {
      if NewId(year, draws(at)) in used {
        AllocateIff(year, used, draws, at + 1, tries - 1);
      } else {
        assert at <= at < at + tries;
      }
    }
  }

  /** ... and otherwise takes the first that is free. */
  lemma {:induction false} AllocateFirst(year: nat, used: set<string>, draws: Draws, at: nat, tries: nat, k: nat)
    requires at <= k < at + tries && NewId(year, draws(k)) !in used
    requires forall j :: at <= j < k ==> NewId(year, draws(j)) in used
    ensures Allocate(year, used, draws, at, tries) == Some((NewId(year, draws(k)), k + 1))
    decreases tries
  {
    if at < k {
      assert NewId(year, draws(at)) in used;
      AllocateFirst(year, used, draws, at + 1, tries - 1, k);
    }
  }

  // ----- first save ---------------------------------------------------------------------------------

  type Table = map<Id, Row>

  ghost predicate Unique(rows: Table) {
    forall a, b :: a in rows && b in rows && a != b ==> rows[a].internalId != rows[b].internalId
  }

  function AllIds(rows: Table): set<string> { set id | id in rows :: rows[id].internalId }

  const SAVE_TRIES := 50

  /** The first save of a finding: an empty id is replaced by a generated one, or the save fails. */
  function Create(rows: Table, id: Id, year: nat, draws: Draws, at: nat): Table {
    var r := Allocate(year, AllIds(rows), draws, at, SAVE_TRIES);
    if id in rows || r.None? then rows else rows[id := Row(year, r.value.0)]
  }

  /** A first save keeps the ids unique, fails exactly when its fifty draws are all taken, and
      in a four-digit year leaves nothing for the backfill to do. */
  lemma CreateKeeps(rows: Table, id: Id, year: nat, draws: Draws, at: nat, digit: DigitClass)
    requires Unique(rows) && id !in rows
    ensures var after := Create(rows, id, year, draws, at);
      && Unique(after) && (forall other :: other in rows ==> other in after && after[other] == rows[other])
      && (id in after <==> exists k :: at <= k < at + SAVE_TRIES && NewId(year, draws(k)) !in AllIds(rows))
      && (id in after && 1000 <= year < 10_000 ==> Canonical(after[id].internalId, digit))
  {
    AllocateIff(year, AllIds(rows), draws, at, SAVE_TRIES);
    forall other | other in rows ensures rows[other].internalId in AllIds(rows) { }
    var r := Allocate(year, AllIds(rows), draws, at, SAVE_TRIES);
    if r.Some? {
      var n: Draw :| r.value.0 == NewId(year, n);
      NewIdCanonicalIff(year, n, digit);
    }
  }

  /** The first of the fifty draws that is free becomes the id. */
  lemma CreateStores(rows: Table, id: Id, year: nat, draws: Draws, at: nat, k: nat)
    requires id !in rows && at <= k < at + 50 && NewId(year, draws(k)) !in AllIds(rows)
    requires forall j :: at <= j < k ==> NewId(year, draws(j)) in AllIds(rows)
    ensures Create(rows, id, year, draws, at) == rows[id := Row(year, NewId(year, draws(k)))]
  {
    AllocateFirst(year, AllIds(rows), draws, at, SAVE_TRIES, k);
  }

  // ----- planning the backfill ------------------------------------------------------------------------

  datatype Change = Change(id: Id, newId: string)

  const BACKFILL_TRIES := 100

  /** The ids that will not be touched, as the database filter sees them. */
  function KeptIds(rows: Table, database: DigitClass): set<string> {
    set id | id in rows && Exact(rows[id].internalId, database) :: rows[id].internalId
  }

  function Plan(order: seq<Id>, rows: Table, used: set<string>, draws: Draws, at: nat, process: DigitClass)
    : (plan: Option<seq<Change>>)
    requires forall id :: id in order ==> id in rows
    ensures plan.Some? ==> forall i :: 0 <= i < |plan.value| ==> plan.value[i].id in rows
  {
    if order == [] then Some([])
    else
      var row := rows[order[0]];
      if Canonical(row.internalId, process) then Plan(order[1..], rows, used, draws, at, process)
      else match Allocate(row.year, used, draws, at, BACKFILL_TRIES)
        case None => None
        case Some((s, next)) => Before([Change(order[0], s)], Plan(order[1..], rows, used + {s}, draws, next, process))
  }

  function Before(done: seq<Change>, rest: Option<seq<Change>>): Option<seq<Change>> {
    if rest.Some? then Some(done + rest.value) else None
  }

  ghost predicate Distinct(order: seq<Id>) {
    forall i, j :: 0 <= i < j < |order| ==> order[i] != order[j]
  }

  /** The rows in some order without repetition: created_at with any order of ties. */
  ghost predicate Lists(order: seq<Id>, rows: Table) {
    Distinct(order) && (forall id :: id in order <==> id in rows)
  }

  ghost predicate Sound(changes: seq<Change>, order: seq<Id>, rows: Table, used: set<string>, process: DigitClass) {
    && (forall i :: 0 <= i < |changes| ==>
      && changes[i].id in order && changes[i].id in rows && changes[i].newId !in used
      && !Canonical(rows[changes[i].id].internalId, process) && Fits(changes[i].newId, rows[changes[i].id].year))
    && (forall i, j :: 0 <= i < j < |changes| ==>
      changes[i].id != changes[j].id && changes[i].newId != changes[j].newId)
  }

  ghost predicate Covers(changes: seq<Change>, order: seq<Id>, rows: Table, process: DigitClass) {
    forall id :: id in order && id in rows && !Canonical(rows[id].internalId, process) ==> Named(changes, id)
  }

  ghost predicate Named(changes: seq<Change>, id: Id) { exists i :: 0 <= i < |changes| && changes[i].id == id }

  /** A plan names exactly the non-canonical rows and gives them distinct unused ids. */
  lemma {:induction false} PlanFacts(order: seq<Id>, rows: Table, used: set<string>, draws: Draws, at: nat,
          process: DigitClass)
    requires Distinct(order) && forall id :: id in order ==> id in rows
    ensures var plan := Plan(order, rows, used, draws, at, process);
      plan.Some? ==> Sound(plan.value, order, rows, used, process) && Covers(plan.value, order, rows, process)
    decreases |order|
  {
    if order != [] {
      var (row, rest) := (rows[order[0]], order[1..]);
      if Canonical(row.internalId, process) {
        PlanFacts(rest, rows, used, draws, at, process);
      } else {
        AllocateIff(row.year, used, draws, at, BACKFILL_TRIES);
        match Allocate(row.year, used, draws, at, BACKFILL_TRIES)
        case None =>
        case Some((s, next)) =>
          PlanFacts(rest, rows, used + {s}, draws, next, process);
          var tail := Plan(rest, rows, used + {s}, draws, next, process);
          if tail.Some? {
            SoundCons(Change(order[0], s), tail.value, order, rows, used, process);
            CoversCons(Change(order[0], s), tail.value, order, rows, process);
          }
      }
    }
  }

  lemma SoundCons(c: Change, tail: seq<Change>, order: seq<Id>, rows: Table, used: set<string>, process: DigitClass)
    requires Distinct(order) && order != [] && c.id == order[0] && c.id in rows && c.newId !in used
    requires !Canonical(rows[c.id].internalId, process) && Fits(c.newId, rows[c.id].year)
    requires Sound(tail, order[1..], rows, used + {c.newId}, process)
    ensures Sound([c] + tail, order, rows, used, process)
  {
    forall i | 0 <= i < |tail| ensures tail[i].id in order && tail[i].id != c.id { InTail(order, tail[i].id); }
  }

  lemma InTail(order: seq<Id>, id: Id)
    requires Distinct(order) && order != [] && id in order[1..]
    ensures id in order && id != order[0]
  {
    var k :| 0 <= k < |order[1..]| && order[1..][k] == id;
    assert order[k + 1] == id;
  }

  lemma CoversCons(c: Change, tail: seq<Change>, order: seq<Id>, rows: Table, process: DigitClass)
    requires order != [] && c.id == order[0] && Covers(tail, order[1..], rows, process)
    ensures Covers([c] + tail, order, rows, process)
  {
    forall id | id in order && id in rows && !Canonical(rows[id].internalId, process) ensures Named([c] + tail, id) {
      if id == c.id {
        assert ([c] + tail)[0].id == id;
      } else {
        assert id in order[1..];
        var i :| 0 <= i < |tail| && tail[i].id == id;
        assert ([c] + tail)[i + 1].id == id;
      }
    }
  }

  /** Rows the command has to change. */
  function Legacy(order: seq<Id>, rows: Table, process: DigitClass): set<Id>
    requires forall id :: id in order ==> id in rows
  {
    set id | id in order && !Canonical(rows[id].internalId, process)
  }

  /** A plan has as many changes as there are rows without a canonical id. */
  lemma {:induction false} PlanCounts(order: seq<Id>, rows: Table, used: set<string>, draws: Draws, at: nat,
          process: DigitClass)
    requires Distinct(order) && forall id :: id in order ==> id in rows
    ensures var plan := Plan(order, rows, used, draws, at, process);
      plan.Some? ==> |plan.value| == |Legacy(order, rows, process)|
    decreases |order|
  {
    if order != [] {
      var (first, rest) := (order[0], order[1..]);
      LegacyCons(order, rows, process);
      if Canonical(rows[first].internalId, process) {
        PlanCounts(rest, rows, used, draws, at, process);
      } else {
        var r := Allocate(rows[first].year, used, draws, at, BACKFILL_TRIES);
        if r.Some? { PlanCounts(rest, rows, used + {r.value.0}, draws, r.value.1, process); }
      }
    }
  }

  lemma LegacyCons(order: seq<Id>, rows: Table, process: DigitClass)
    requires order != [] && Distinct(order) && forall id :: id in order ==> id in rows
    ensures |Legacy(order, rows, process)| ==
      |Legacy(order[1..], rows, process)| + if Canonical(rows[order[0]].internalId, process) then 0 else 1
  {
    var (first, rest) := (order[0], order[1..]);
    assert forall id :: id in order <==> id == first || id in rest;
    assert first !in rest by { assert forall i :: 0 <= i < |rest| ==> rest[i] == order[i + 1]; }
    if Canonical(rows[first].internalId, process) {
      assert Legacy(order, rows, process) == Legacy(rest, rows, process);
    } else {
      assert Legacy(order, rows, process) == Legacy(rest, rows, process) + {first};
    }
  }

  /** The command tries a hundred numbers for a row. */
  lemma OneRowPlan(id: Id, rows: Table, used: set<string>, draws: Draws, at: nat, process: DigitClass)
    requires id in rows
    ensures Plan([id], rows, used, draws, at, process).None? <==>
      !Canonical(rows[id].internalId, process) &&
      forall k :: at <= k < at + 100 ==> NewId(rows[id].year, draws(k)) in used
  {
    AllocateIff(rows[id].year, used, draws, at, BACKFILL_TRIES);
    assert [id][1..] == [];
  }

  // ----- applying the plan ------------------------------------------------------------------------------

  function SetId(rows: Table, c: Change): Table
    requires c.id in rows
  {
    rows[c.id := rows[c.id].(internalId := c.newId)]
  }

  /** Would the update break the UNIQUE constraint? */
  predicate Taken(rows: Table, c: Change) {
    exists id :: id in rows && id != c.id && rows[id].internalId == c.newId
  }

  /** Row by row, in one transaction; None when the database refuses an update. */
  function Apply(rows: Table, changes: seq<Change>): Option<Table>
    requires forall i :: 0 <= i < |changes| ==> changes[i].id in rows
    decreases |changes|
  {
    if changes == [] then Some(rows)
    else if Taken(rows, changes[0]) then None
    else Apply(SetId(rows, changes[0]), changes[1..])
  }

  /** What a successful update leaves: the named rows have their new ids, nothing else moved. */
  ghost predicate Rewritten(rows: Table, changes: seq<Change>, after: Table) {
    && after.Keys == rows.Keys
    && (forall id :: id in rows && !Named(changes, id) ==> after[id] == rows[id])
    && (forall i :: 0 <= i < |changes| && changes[i].id in rows ==>
      after[changes[i].id] == rows[changes[i].id].(internalId := changes[i].newId))
  }

  lemma {:induction false} ApplyRewrites(rows: Table, changes: seq<Change>)
    requires forall i :: 0 <= i < |changes| ==> changes[i].id in rows
    requires forall i, j :: 0 <= i < j < |changes| ==> changes[i].id != changes[j].id
    ensures Apply(rows, changes).Some? ==> Rewritten(rows, changes, Apply(rows, changes).value)
    decreases |changes|
  {
    if changes != [] && !Taken(rows, changes[0]) {
      var (next, rest) := (SetId(rows, changes[0]), changes[1..]);
      ApplyRewrites(next, rest);
      if Apply(next, rest).Some? { RewrittenCons(rows, changes, Apply(next, rest).value); }
    }
  }

  lemma RewrittenCons(rows: Table, changes: seq<Change>, after: Table)
    requires changes != [] && changes[0].id in rows && Rewritten(SetId(rows, changes[0]), changes[1..], after)
    requires forall i, j :: 0 <= i < j < |changes| ==> changes[i].id != changes[j].id
    ensures Rewritten(rows, changes, after)
  {}

  ghost predicate Clear(rows: Table, changes: seq<Change>) {
    && (forall i :: 0 <= i < |changes| ==> changes[i].id in rows)
    && (forall i, id :: 0 <= i < |changes| && id in rows ==> rows[id].internalId != changes[i].newId)
    && (forall i, j :: 0 <= i < j < |changes| ==>
      changes[i].id != changes[j].id && changes[i].newId != changes[j].newId)
  }

  lemma {:induction false} ApplyKeepsUnique(rows: Table, changes: seq<Change>)
    requires Unique(rows) && forall i :: 0 <= i < |changes| ==> changes[i].id in rows
    ensures Apply(rows, changes).Some? ==> Unique(Apply(rows, changes).value)
    decreases |changes|
  {
    if changes != [] && !Taken(rows, changes[0]) {
      ApplyKeepsUnique(SetId(rows, changes[0]), changes[1..]);
    }
  }

  /** When no row holds a planned id, every state the update loop passes through satisfies the
      UNIQUE constraint. */
  lemma {:induction false} ApplySucceeds(rows: Table, changes: seq<Change>, k: nat)
    requires Unique(rows) && Clear(rows, changes) && k <= |changes|
    ensures Apply(rows, changes[..k]).Some? && Unique(Apply(rows, changes[..k]).value)
    decreases |changes|
  {
    if k > 0 {
      assert changes[..k][0] == changes[0] && changes[..k][1..] == changes[1..][..k - 1];
      ApplySucceeds(SetId(rows, changes[0]), changes[1..], k - 1);
    }
  }

  // ----- the backfill -----------------------------------------------------------------------------------

  ghost predicate AllCanonical(rows: Table, process: DigitClass) {
    forall id :: id in rows ==> Canonical(rows[id].internalId, process)
  }

  ghost predicate FourDigitYears(rows: Table, process: DigitClass) {
    forall id :: id in rows && !Canonical(rows[id].internalId, process) ==> 1000 <= rows[id].year < 10_000
  }

  ghost predicate CanonicalKept(rows: Table, after: Table, process: DigitClass) {
    && after.Keys == rows.Keys
    && forall id :: id in rows && Canonical(rows[id].internalId, process) ==> after[id] == rows[id]
  }

  lemma PlanIsClear(changes: seq<Change>, order: seq<Id>, rows: Table, process: DigitClass, database: DigitClass)
    requires Sound(changes, order, rows, KeptIds(rows, database), process) && FourDigitYears(rows, process)
    ensures Clear(rows, changes)
  {
    forall i, id | 0 <= i < |changes| && id in rows ensures rows[id].internalId != changes[i].newId {
      var n: Draw :| changes[i].newId == NewId(rows[changes[i].id].year, n);
      NewIdCanonicalIff(rows[changes[i].id].year, n, database);
      if Exact(rows[id].internalId, database) { assert rows[id].internalId in KeptIds(rows, database); }
    }
  }

  lemma CanonicalAfter(changes: seq<Change>, order: seq<Id>, rows: Table, used: set<string>, after: Table,
          process: DigitClass)
    requires Sound(changes, order, rows, used, process) && Covers(changes, order, rows, process) && Lists(order, rows)
    requires Rewritten(rows, changes, after)
    ensures AllCanonical(after, process) <==> FourDigitYears(rows, process)
    ensures CanonicalKept(rows, after, process)
  {
    forall id | id in rows
      ensures Canonical(rows[id].internalId, process) ==> after[id] == rows[id]
      ensures !Canonical(rows[id].internalId, process) ==>
        (Canonical(after[id].internalId, process) <==> 1000 <= rows[id].year < 10_000)
    {
      if Canonical(rows[id].internalId, process) {
        assert !Named(changes, id);
      } else {
        assert id in order && Named(changes, id);
        var i :| 0 <= i < |changes| && changes[i].id == id;
        var n: Draw :| changes[i].newId == NewId(rows[id].year, n);
        NewIdCanonicalIff(rows[id].year, n, process);
      }
    }
  }

  /** Once a plan is found, applying it succeeds and makes every id canonical exactly when the
      rows to change were created in four-digit years. */
  lemma BackfillIff(rows: Table, order: seq<Id>, draws: Draws, at: nat, process: DigitClass, database: DigitClass)
    requires Unique(rows) && Lists(order, rows)
    requires Plan(order, rows, KeptIds(rows, database), draws, at, process).Some?
    ensures var changes := Plan(order, rows, KeptIds(rows, database), draws, at, process).value;
      && (forall i :: 0 <= i < |changes| ==> changes[i].id in rows)
      && var after := Apply(rows, changes);
      && (after.Some? && AllCanonical(after.value, process) <==> FourDigitYears(rows, process))
      && (after.Some? ==> CanonicalKept(rows, after.value, process))
      && (FourDigitYears(rows, process) ==>
        forall k :: 0 <= k <= |changes| ==> Apply(rows, changes[..k]).Some? && Unique(Apply(rows, changes[..k]).value))
  {
    var used := KeptIds(rows, database);
    PlanFacts(order, rows, used, draws, at, process);
    var changes := Plan(order, rows, used, draws, at, process).value;
    ApplyRewrites(rows, changes);
    if FourDigitYears(rows, process) {
      PlanIsClear(changes, order, rows, process, database);
      forall k | 0 <= k <= |changes|
        ensures Apply(rows, changes[..k]).Some? && Unique(Apply(rows, changes[..k]).value)
      {
        ApplySucceeds(rows, changes, k);
      }
      assert changes[..|changes|] == changes;
    }
    if Apply(rows, changes).Some? {
      CanonicalAfter(changes, order, rows, used, Apply(rows, changes).value, process);
    }
  }

  // ----- the command --------------------------------------------------------------------------------------

  datatype Outcome = NothingToDo | DryRun(count: nat) | Applied(count: nat) | AllocationFailed | ConstraintFailed

  function Handle(rows: Table, order: seq<Id>, apply: bool, draws: Draws, at: nat, process: DigitClass,
          database: DigitClass)
      : (Table, Outcome)
    requires forall id :: id in order ==> id in rows
  {
    match Plan(order, rows, KeptIds(rows, database), draws, at, process)
    case None => (rows, AllocationFailed)
    case Some(changes) =>
      if changes == [] then (rows, NothingToDo)
      else if !apply then (rows, DryRun(|changes|))
      else match Apply(rows, changes)
        case None => (rows, ConstraintFailed)
        case Some(after) => (after, Applied(|changes|))
  }

  lemma {:induction false} NothingPlannedIff(order: seq<Id>, rows: Table, used: set<string>, draws: Draws, at: nat,
          process: DigitClass)
    requires forall id :: id in order ==> id in rows
    ensures Plan(order, rows, used, draws, at, process) == Some([]) <==>
      forall id :: id in order ==> Canonical(rows[id].internalId, process)
    decreases |order|
  {
    if order != [] {
      assert order[0] in order && forall id :: id in order <==> id == order[0] || id in order[1..];
      if Canonical(rows[order[0]].internalId, process) {
        NothingPlannedIff(order[1..], rows, used, draws, at, process);
      }
    }
  }

  /** A run that does not apply anything changes no row. One that applies keeps the ids unique
      and the canonical rows untouched; with four-digit years it leaves only canonical ids, and
      a second run, with any draws, changes nothing. */
  lemma HandleEffect(rows: Table, order: seq<Id>, apply: bool, draws: Draws, process: DigitClass, database: DigitClass)
    requires Unique(rows) && Lists(order, rows)
    ensures var (after, outcome) := Handle(rows, order, apply, draws, 0, process, database);
      && Unique(after) && CanonicalKept(rows, after, process)
      && (after != rows ==> apply && outcome.Applied?)
      && (outcome.NothingToDo? <==> AllCanonical(rows, process))
      && (FourDigitYears(rows, process) ==> outcome != ConstraintFailed)
      && (outcome.Applied? && FourDigitYears(rows, process) ==>
        AllCanonical(after, process)
        && forall o, more :: Lists(o, after) ==>
          Handle(after, o, apply, more, 0, process, database) == (after, NothingToDo))
  {
    var used := KeptIds(rows, database);
    NothingPlannedIff(order, rows, used, draws, 0, process);
    var plan := Plan(order, rows, used, draws, 0, process);
    if plan.Some? {
      ApplyKeepsUnique(rows, plan.value);
      BackfillIff(rows, order, draws, 0, process, database);
      var after := Handle(rows, order, apply, draws, 0, process, database).0;
      if AllCanonical(after, process) {
        forall o, more: Draws | Lists(o, after)
          ensures Handle(after, o, apply, more, 0, process, database) == (after, NothingToDo)
        {
          NothingPlannedIff(o, after, KeptIds(after, database), more, 0, process);
        }
      }
    }
  }

  /** The number a run reports is the number of rows without a canonical id. */
  lemma HandleCounts(rows: Table, order: seq<Id>, apply: bool, draws: Draws, process: DigitClass, database: DigitClass)
    requires Lists(order, rows)
    ensures var outcome := Handle(rows, order, apply, draws, 0, process, database).1;
      && (outcome.DryRun? ==> !apply && outcome.count == |Legacy(order, rows, process)|)
      && (outcome.Applied? ==> apply && outcome.count == |Legacy(order, rows, process)|)
      && (outcome.ConstraintFailed? ==> apply)
  {
    PlanCounts(order, rows, KeptIds(rows, database), draws, 0, process);
  }

  class Command {
    var findings: Table

    /** The UNIQUE constraint. */
    ghost predicate Valid()
      reads this
    {
      Unique(findings)
    }

    /** Returns None where `_allocate` in reassign_internal_ids.py raises CommandError. */
    method AllocateId(year: nat, used: set<string>, draws: Draws, at: nat, tries: nat)
      returns (r: Option<(string, nat)>)
      ensures r == Allocate(year, used, draws, at, tries)
    {
      for i := 0 to tries
        invariant Allocate(year, used, draws, at, tries) == Allocate(year, used, draws, at + i, tries - i)
      {
        var candidate := NewId(year, draws(at + i));
        if candidate !in used {
          return Some((candidate, at + i + 1));
        }
      }
      r := None;
    }

    method PlanChanges(order: seq<Id>, draws: Draws, at: nat, process: DigitClass, database: DigitClass)
      returns (r: Option<seq<Change>>)
      requires forall id :: id in order ==> id in findings
      ensures r == Plan(order, findings, KeptIds(findings, database), draws, at, process)
    {
      var rows, used := findings, KeptIds(findings, database);
      var toChange: seq<Change>, next := [], at;
      ghost var plan := Plan(order, rows, used, draws, at, process);
      BeforeNothing(plan);
      assert order[0..] == order;
      for i := 0 to |order|
        invariant Before(toChange, Plan(order[i..], rows, used, draws, next, process)) == plan
      {
        PlanStep(toChange, order[i..], rows, used, draws, next, process);
        assert order[i..][1..] == order[i + 1..];
        var row := rows[order[i]];
        if Canonical(row.internalId, process) {
          continue;
        }
        var found := AllocateId(row.year, used, draws, next, BACKFILL_TRIES);
        if found.None? {
          return None;
        }
        used, next := used + {found.value.0}, found.value.1;
        toChange := toChange + [Change(order[i], found.value.0)];
      }
      assert order[|order|..] == [] && toChange + [] == toChange;
      r := Some(toChange);
    }

    method Run(order: seq<Id>, apply: bool, draws: Draws, process: DigitClass, database: DigitClass)
      returns (outcome: Outcome)
      requires forall id :: id in order ==> id in findings
      modifies this
      ensures (findings, outcome) == Handle(old(findings), order, apply, draws, 0, process, database)
      ensures old(Valid()) && Lists(order, old(findings)) ==> Valid()
    {
      if Unique(findings) && Lists(order, findings) {
        HandleEffect(findings, order, apply, draws, process, database);
      }
      var plan := PlanChanges(order, draws, 0, process, database);
      if plan.None? {
        return AllocationFailed;
      }
      var toChange := plan.value;
      if toChange == [] {
        return NothingToDo;
      }
      if !apply {
        return DryRun(|toChange|);
      }
      var before := findings;
      assert toChange[0..] == toChange;
      for i := 0 to |toChange|
        invariant findings.Keys == before.Keys
        invariant Apply(before, toChange) == Apply(findings, toChange[i..])
      {
        assert toChange[i..][1..] == toChange[i + 1..];
        if Taken(findings, toChange[i]) {
          findings := before;   // the transaction rolls back
          return ConstraintFailed;
        }
        findings := SetId(findings, toChange[i]);
      }
      outcome := Applied(|toChange|);
    }
  }

  lemma BeforeNothing(rest: Option<seq<Change>>)
    ensures Before([], rest) == rest
  {
    if rest.Some? { assert [] + rest.value == rest.value; }
  }

  lemma PlanStep(done: seq<Change>, order: seq<Id>, rows: Table, used: set<string>, draws: Draws, at: nat,
          process: DigitClass)
    requires order != [] && forall id :: id in order ==> id in rows
    ensures Before(done, Plan(order, rows, used, draws, at, process)) ==
      if Canonical(rows[order[0]].internalId, process) then
        Before(done, Plan(order[1..], rows, used, draws, at, process))
      else match Allocate(rows[order[0]].year, used, draws, at, BACKFILL_TRIES)
        case None => None
        case Some((s, next)) =>
          Before(done + [Change(order[0], s)], Plan(order[1..], rows, used + {s}, draws, next, process))
  {
    match Allocate(rows[order[0]].year, used, draws, at, BACKFILL_TRIES)
    case None =>
    case Some((s, next)) =>
      BeforeTwice(done, Change(order[0], s), Plan(order[1..], rows, used + {s}, draws, next, process));
  }

  lemma BeforeTwice(done: seq<Change>, c: Change, rest: Option<seq<Change>>)
    ensures Before(done, Before([c], rest)) == Before(done + [c], rest)
  {
    if rest.Some? { assert done + ([c] + rest.value) == (done + [c]) + rest.value; }
  }
}

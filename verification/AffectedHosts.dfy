/** Hosts of a finding: parsed from one text field and always scoped to the finding's vendor. */
module AffectedHosts {
  import opened Wrappers
  import opened Text

  const CAP := 500

  datatype Host = Host(vendor: Id, value: string)

  /** Case folding is a parameter. */
  type Fold = string -> string

  // ----- parsing ------------------------------------------------------------------------------

  function Value(line: string): string {
    var s := Strip(line, PySpace);
    if |s| <= CAP then s else s[..CAP]
  }

  /** The values of the lines whose folded form is new, in order. */
  function Collect(lines: seq<string>, seen: set<string>, fold: Fold): seq<string>
    decreases |lines|
  {
    if lines == [] then [] else
      var v := Value(lines[0]);
      if v == "" || fold(v) in seen then Collect(lines[1..], seen, fold)
      else [v] + Collect(lines[1..], seen + {fold(v)}, fold)
  }

  /** A "\r\n" pair splits twice here; the empty line it adds is skipped like any blank one. */
  function Values(text: string, fold: Fold): seq<string> { Collect(Split(text, LineBreak), {}, fold) }

  function HostsOf(vendor: Id, values: seq<string>): set<Host> {
    set v | v in values :: Host(vendor, v)
  }

  // ----- state --------------------------------------------------------------------------------

  datatype Db = Db(hosts: set<Host>, vendors: map<Id, Id>, linked: map<Id, set<Host>>)

  function Sync(db: Db, finding: Id, values: seq<string>): Db
    requires finding in db.vendors
  {
    var hosts := HostsOf(db.vendors[finding], values);
    db.(hosts := db.hosts + hosts, linked := db.linked[finding := hosts])
  }

  /** Creating or editing a finding saves its vendor and then synchronises its hosts. */
  function Save(db: Db, finding: Id, vendor: Id, text: string, fold: Fold): Db {
    Sync(db.(vendors := db.vendors[finding := vendor]), finding, Values(text, fold))
  }

  function Drop(db: Db, finding: Id): Db {
    Db(db.hosts, db.vendors - {finding}, db.linked - {finding})
  }

  datatype Op = SaveOp(finding: Id, vendor: Id, text: string) | DropOp(finding: Id)

  function Run(db: Db, ops: seq<Op>, fold: Fold): Db
    decreases |ops|
  {
    if ops == [] then db else
      match ops[0]
      case SaveOp(f, v, text) => Run(Save(db, f, v, text, fold), ops[1..], fold)
      case DropOp(f) => Run(Drop(db, f), ops[1..], fold)
  }

  // ----- vendor isolation -----------------------------------------------------------------------

  ghost predicate Isolated(db: Db) {
    && db.vendors.Keys == db.linked.Keys
    && forall f, h :: f in db.linked && h in db.linked[f] ==> h.vendor == db.vendors[f] && h in db.hosts
  }

  lemma SaveIsolates(db: Db, finding: Id, vendor: Id, text: string, fold: Fold)
    requires Isolated(db)
    ensures Isolated(Save(db, finding, vendor, text, fold))
  {
  }

  /** In every reachable state all hosts of a finding belong to its current vendor, also after
      edits that change the vendor. */
  lemma {:induction false} VendorIsolation(db: Db, ops: seq<Op>, fold: Fold)
    requires Isolated(db)
    ensures Isolated(Run(db, ops, fold))
    decreases |ops|
  {
    if ops != [] {
      match ops[0]
      case SaveOp(f, v, text) => SaveIsolates(db, f, v, text, fold);
        VendorIsolation(Save(db, f, v, text, fold), ops[1..], fold);
      case DropOp(f) => VendorIsolation(Drop(db, f), ops[1..], fold);
    }
  }

  // ----- what is linked ---------------------------------------------------------------------------

  /** Line i is the first whose value, folded, is that of v, and it gives v. */
  ghost predicate FirstAt(lines: seq<string>, i: nat, v: string, fold: Fold) {
    && i < |lines| && Value(lines[i]) == v && v != ""
    && forall j :: 0 <= j < i ==> Value(lines[j]) == "" || fold(Value(lines[j])) != fold(v)
  }

  ghost predicate ComesFirst(lines: seq<string>, v: string, fold: Fold) { exists i :: FirstAt(lines, i, v, fold) }

  lemma {:induction false} CollectFirst(lines: seq<string>, seen: set<string>, fold: Fold, v: string)
    ensures v in Collect(lines, seen, fold) <==> fold(v) !in seen && exists i :: FirstAt(lines, i, v, fold)
    decreases |lines|
  {
    if lines != [] {
      var (u, rest) := (Value(lines[0]), lines[1..]);
      var skipped := u == "" || fold(u) in seen;
      var seen' := if skipped then seen else seen + {fold(u)};
      CollectFirst(rest, seen', fold, v);
      if i: nat :| FirstAt(lines, i, v, fold) {
        if i > 0 {
          assert rest[i - 1] == lines[i];
          assert forall j :: 0 <= j < i - 1 ==> rest[j] == lines[j + 1];
          assert FirstAt(rest, i - 1, v, fold);
        }
      }
      if v in Collect(rest, seen', fold) {
        var i: nat :| FirstAt(rest, i, v, fold);
        assert rest[i] == lines[i + 1];
        assert forall j :: 0 < j < i + 1 ==> lines[j] == rest[j - 1];
        assert FirstAt(lines, i + 1, v, fold);
      } else if !skipped && v == u {
        assert FirstAt(lines, 0, v, fold);
      }
    }
  }

  /** A value is a stripped line, cut to 500 characters. */
  lemma ValueIff(line: string, v: string)
    ensures Value(line) == v <==>
      v <= Strip(line, PySpace) && |v| <= 500 && (v == Strip(line, PySpace) || |v| == 500)
  {}

  lemma HostIff(vendor: Id, values: seq<string>, h: Host)
    ensures h in HostsOf(vendor, values) <==> h.vendor == vendor && h.value in values
  {}

  /** Saving links exactly the first lines, up to case, with the vendor; hosts are only added, and
      other findings keep theirs. */
  lemma LinkedIff(db: Db, finding: Id, vendor: Id, text: string, fold: Fold, h: Host)
    ensures var db' := Save(db, finding, vendor, text, fold);
      && db'.vendors == db.vendors[finding := vendor]
      && finding in db'.linked && db'.linked - {finding} == db.linked - {finding}
      && (h in db'.linked[finding] <==> h.vendor == vendor && ComesFirst(Split(text, LineBreak), h.value, fold))
      && (h in db'.hosts <==> h in db.hosts || h in db'.linked[finding])
  {
    var none: set<string> := {};
    CollectFirst(Split(text, LineBreak), none, fold, h.value);
    var values := Values(text, fold);
    assert values == Collect(Split(text, LineBreak), none, fold);
    assert Save(db, finding, vendor, text, fold).linked[finding] == HostsOf(vendor, values);
    HostIff(vendor, values, h);
  }

  // ----- saving the displayed hosts again ---------------------------------------------------------

  ghost predicate DistinctFolds(values: seq<string>, fold: Fold) {
    forall i, j :: 0 <= i < j < |values| ==> fold(values[i]) != fold(values[j])
  }

  lemma ValueFacts(line: string)
    requires Free(line, LineBreak)
    ensures Free(Value(line), LineBreak) && |Value(line)| <= CAP
    ensures |Strip(line, PySpace)| <= CAP ==> Stripped(Value(line), PySpace)
  {
    StripFacts(line, PySpace);
  }

  lemma {:induction false} CollectFacts(lines: seq<string>, seen: set<string>, fold: Fold)
    requires forall i :: 0 <= i < |lines| ==> Free(lines[i], LineBreak)
    ensures var c := Collect(lines, seen, fold);
      && DistinctFolds(c, fold)
      && forall i :: 0 <= i < |c| ==> c[i] != "" && Free(c[i], LineBreak) && |c[i]| <= CAP && fold(c[i]) !in seen
    ensures (forall i :: 0 <= i < |lines| ==> |Strip(lines[i], PySpace)| <= CAP) ==>
      forall i :: 0 <= i < |Collect(lines, seen, fold)| ==> Stripped(Collect(lines, seen, fold)[i], PySpace)
    decreases |lines|
  {
    if lines != [] {
      var v := Value(lines[0]);
      ValueFacts(lines[0]);
      if v == "" || fold(v) in seen {
        CollectFacts(lines[1..], seen, fold);
      } else {
        CollectFacts(lines[1..], seen + {fold(v)}, fold);
      }
    }
  }

  /** Every non-blank line is represented, up to case, and nothing else is collected. */
  lemma {:induction false} CollectIff(lines: seq<string>, seen: set<string>, fold: Fold, key: string)
    ensures (exists v :: v in Collect(lines, seen, fold) && fold(v) == key) <==>
      key !in seen && exists line :: line in lines && Value(line) != "" && fold(Value(line)) == key
    ensures forall v :: v in Collect(lines, seen, fold) ==> exists line :: line in lines && Value(line) == v
    decreases |lines|
  {
    if lines != [] {
      var v := Value(lines[0]);
      assert lines == [lines[0]] + lines[1..];
      var added := v != "" && fold(v) !in seen;
      CollectIff(lines[1..], if added then seen + {fold(v)} else seen, fold, key);
    }
  }

  /** Stripped, short, pairwise different values are collected as they are. */
  lemma {:induction false} CollectKeeps(values: seq<string>, seen: set<string>, fold: Fold)
    requires DistinctFolds(values, fold)
    requires forall i :: 0 <= i < |values| ==>
      values[i] != "" && Stripped(values[i], PySpace) && |values[i]| <= CAP && fold(values[i]) !in seen
    ensures Collect(values, seen, fold) == values
    decreases |values|
  {
    if values != [] {
      StripFacts(values[0], PySpace);
      CollectKeeps(values[1..], seen + {fold(values[0])}, fold);
    }
  }

  /** The displayed text lists the current values in some order. */
  ghost predicate Displays(shown: seq<string>, values: seq<string>) {
    (forall v :: v in shown <==> v in values) && (forall i, j :: 0 <= i < j < |shown| ==> shown[i] != shown[j])
  }

  lemma ShownFolds(shown: seq<string>, values: seq<string>, fold: Fold)
    requires Displays(shown, values) && DistinctFolds(values, fold)
    ensures DistinctFolds(shown, fold)
  {
    forall i, j | 0 <= i < j < |shown| ensures fold(shown[i]) != fold(shown[j]) {
      assert shown[i] in values && shown[j] in values;
      var a :| 0 <= a < |values| && values[a] == shown[i];
      var b :| 0 <= b < |values| && values[b] == shown[j];
      assert a < b || b < a;
    }
  }

  lemma ShownValues(shown: seq<string>, fold: Fold)
    requires forall i :: 0 <= i < |shown| ==> shown[i] != "" && Free(shown[i], LineBreak)
    ensures Values(Join(shown, '\n'), fold) == Collect(shown, {}, fold)
  {
    if shown == [] {
      assert Value("") == "" && Split("", LineBreak) == [""];
      assert Collect([""], {}, fold) == Collect([""][1..], {}, fold);
    } else {
      SplitJoin(shown, '\n', LineBreak);
    }
  }

  /** Nothing changes when the displayed hosts are saved again exactly if every value is
      stripped: a value cut at 500 characters may end in white space, which is lost. */
  lemma ResaveIff(db: Db, finding: Id, vendor: Id, text: string, fold: Fold, shown: seq<string>)
    requires Displays(shown, Values(text, fold))
    ensures var saved := Save(db, finding, vendor, text, fold);
      Save(saved, finding, vendor, Join(shown, '\n'), fold) == saved <==>
      forall v :: v in Values(text, fold) ==> Stripped(v, PySpace)
  {
    var (values, again) := (Values(text, fold), Values(Join(shown, '\n'), fold));
    ShownAgain(text, fold, shown);
    if forall v :: v in values ==> Stripped(v, PySpace) {
      SameHosts(vendor, shown, values);
    } else {
      LostValue(vendor, values, again);
    }
    SyncTwice(db.(vendors := db.vendors[finding := vendor]), finding, values, again);
  }

  /** What the displayed hosts parse to: themselves, or stripped values only. */
  lemma ShownAgain(text: string, fold: Fold, shown: seq<string>)
    requires Displays(shown, Values(text, fold))
    ensures var again := Values(Join(shown, '\n'), fold);
      && (forall v :: v in again ==> Stripped(v, PySpace))
      && ((forall v :: v in Values(text, fold) ==> Stripped(v, PySpace)) ==> again == shown)
  {
    var values := Values(text, fold);
    SplitParts(text, LineBreak);
    CollectFacts(Split(text, LineBreak), {}, fold);
    ShownFolds(shown, values, fold);
    forall i | 0 <= i < |shown|
      ensures shown[i] != "" && Free(shown[i], LineBreak) && |shown[i]| <= CAP && shown[i] in values
    {
      assert shown[i] in shown;
    }
    ShownValues(shown, fold);
    CollectStripped(shown, {}, fold);
    if forall v :: v in values ==> Stripped(v, PySpace) {
      CollectKeeps(shown, {}, fold);
    }
  }

  lemma SameHosts(vendor: Id, shown: seq<string>, values: seq<string>)
    requires Displays(shown, values)
    ensures HostsOf(vendor, shown) == HostsOf(vendor, values)
  {
  }

  lemma SyncTwice(db: Db, finding: Id, values: seq<string>, again: seq<string>)
    requires finding in db.vendors
    ensures var (once, vendor) := (Sync(db, finding, values), db.vendors[finding]);
      Sync(once, finding, again) == once <==> HostsOf(vendor, again) == HostsOf(vendor, values)
  {
    var (once, vendor) := (Sync(db, finding, values), db.vendors[finding]);
    assert once.linked[finding] == HostsOf(vendor, values) &&
      Sync(once, finding, again).linked[finding] == HostsOf(vendor, again);
    if HostsOf(vendor, again) == HostsOf(vendor, values) {
      assert once.linked[finding := HostsOf(vendor, again)] == once.linked;
      assert once.hosts + HostsOf(vendor, again) == once.hosts;
    }
  }

  /** In particular when no stripped line exceeds 500 characters. */
  lemma ShortLinesResave(db: Db, finding: Id, vendor: Id, text: string, fold: Fold, shown: seq<string>)
    requires Displays(shown, Values(text, fold))
    requires forall line :: line in Split(text, LineBreak) ==> |Strip(line, PySpace)| <= CAP
    ensures var saved := Save(db, finding, vendor, text, fold);
      Save(saved, finding, vendor, Join(shown, '\n'), fold) == saved
  {
    SplitParts(text, LineBreak);
    CollectFacts(Split(text, LineBreak), {}, fold);
    ResaveIff(db, finding, vendor, text, fold, shown);
  }

  lemma {:induction false} CollectStripped(lines: seq<string>, seen: set<string>, fold: Fold)
    requires forall i :: 0 <= i < |lines| ==> |lines[i]| <= CAP
    ensures forall v :: v in Collect(lines, seen, fold) ==> Stripped(v, PySpace)
    decreases |lines|
  {
    if lines != [] {
      var v := Value(lines[0]);
      StripFacts(lines[0], PySpace);
      CollectStripped(lines[1..], seen, fold);
      CollectStripped(lines[1..], seen + {fold(v)}, fold);
    }
  }

  lemma LostValue(vendor: Id, values: seq<string>, kept: seq<string>)
    requires exists v :: v in values && !Stripped(v, PySpace)
    requires forall v :: v in kept ==> Stripped(v, PySpace)
    ensures HostsOf(vendor, values) != HostsOf(vendor, kept)
  {
    var v :| v in values && !Stripped(v, PySpace);
    assert Host(vendor, v) in HostsOf(vendor, values) && Host(vendor, v) !in HostsOf(vendor, kept);
  }

  /** 499 characters, a space and more text on one line: the cut leaves a trailing space. */
  lemma LongLineLost(db: Db, finding: Id, vendor: Id, a: string, b: string, fold: Fold)
    requires |a| == CAP - 1 && Free(a + b, LineBreak) && Free(a + b, PySpace) && b != ""
    ensures Values(a + " " + b, fold) == [a + " "]
    ensures var saved := Save(db, finding, vendor, a + " " + b, fold);
      Save(saved, finding, vendor, Join([a + " "], '\n'), fold) != saved
  {
    var (line, v) := (a + " " + b, a + " ");
    assert line[|line| - 1] == (a + b)[|a + b| - 1] && line[0] == (a + b)[0];
    StripFacts(line, PySpace);
    assert Free(line, LineBreak) by {
      forall i | 0 <= i < |line| ensures !LineBreak(line[i]) {
        assert i < |a| ==> line[i] == (a + b)[i];
        assert i > |a| ==> line[i] == (a + b)[i - 1];
      }
    }
    SplitFree(line, LineBreak);
    assert Value(line) == v && v[|v| - 1] == ' ';
    var none: set<string> := {};
    assert Collect([line][1..], none + {fold(v)}, fold) == [] && Collect([line], none, fold) == [v] + [];
    assert !Stripped(v, PySpace) && v in Values(line, fold);
    ResaveIff(db, finding, vendor, line, fold, [v]);
  }

  /** Such lines exist. */
  lemma ResaveExample(db: Db, finding: Id, vendor: Id, fold: Fold, a: string)
    requires a == seq(CAP - 1, _ => 'h')
    ensures var saved := Save(db, finding, vendor, a + " " + "x", fold);
      Save(saved, finding, vendor, Join([a + " "], '\n'), fold) != saved
  {
    LongLineLost(db, finding, vendor, a, "x", fold);
  }

  // ----- the view -----------------------------------------------------------------------------

  lemma CollectStep(done: seq<string>, lines: seq<string>, seen: set<string>, fold: Fold)
    requires lines != []
    ensures var v := Value(lines[0]);
      done + Collect(lines, seen, fold) ==
        if v == "" || fold(v) in seen then done + Collect(lines[1..], seen, fold)
        else (done + [v]) + Collect(lines[1..], seen + {fold(v)}, fold)
  {
  }

  lemma HostsOfAppend(vendor: Id, values: seq<string>, v: string)
    ensures HostsOf(vendor, values + [v]) == HostsOf(vendor, values) + {Host(vendor, v)}
  {}

  class Views {
    var hosts: set<Host>
    var vendors: map<Id, Id>
    var linked: map<Id, set<Host>>

    function State(): Db
      reads this
    {
      Db(hosts, vendors, linked)
    }

    /** All hosts of a finding belong to its vendor. */
    ghost predicate Valid()
      reads this
    {
      Isolated(State())
    }

    /** finding_new and finding_edit: the finding is saved with its vendor, then its hosts. */
    method SaveFinding(finding: Id, vendor: Id, text: string, fold: Fold)
      requires Valid()
      modifies this
      ensures Valid()
      ensures State() == Save(old(State()), finding, vendor, text, fold)
    {
      SaveIsolates(State(), finding, vendor, text, fold);
      vendors := vendors[finding := vendor];
      SyncAffectedHosts(finding, text, fold);
    }

    method DeleteFinding(finding: Id)
      requires Valid()
      modifies this`vendors, this`linked
      ensures Valid()
      ensures State() == Drop(old(State()), finding)
    {
      vendors, linked := vendors - {finding}, linked - {finding};
    }

    /** _sync_affected_hosts for a finding whose vendor was just saved. */
    method SyncAffectedHosts(finding: Id, text: string, fold: Fold)
      requires finding in vendors
      modifies this`hosts, this`linked
      ensures State() == Sync(old(State()), finding, Values(text, fold))
    {
      var vendor := vendors[finding];
      var seen: set<string>, values: seq<string> := {}, [];
      var lines := Split(text, LineBreak);
      for i := 0 to |lines|
        invariant values + Collect(lines[i..], seen, fold) == Values(text, fold)
        invariant hosts == old(hosts) + HostsOf(vendor, values) && linked == old(linked)
      {
        var value := Value(lines[i]);
        var key := fold(value);
        CollectStep(values, lines[i..], seen, fold);
        assert lines[i..][1..] == lines[i + 1..];
        if value != "" && key !in seen {
          HostsOfAppend(vendor, values, value);
          seen := seen + {key};
          hosts := hosts + {Host(vendor, value)};   // get_or_create
          values := values + [value];
        }
      }
      assert values == Values(text, fold) by {
        assert lines[|lines|..] == [] && values + [] == values;
      }
      linked := linked[finding := HostsOf(vendor, values)];
    }
  }
}

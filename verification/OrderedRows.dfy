/** Rows that carry an integer `order` column and are shown as a list: the annexes of a
    report, the scope categories and the sections of a template.  The three groups of views
    share one algorithm; the table is an unordered map, and every list is the answer of an
    ORDER BY query. */
module OrderedRows {
  import opened Wrappers

  datatype Row = Row(title: string, order: nat)
  type Table = map<Id, Row>

  /** One request.  `blocked` is the check of scope categories that are in use by a report. */
  datatype Op =
    | New(id: Id, title: string)
    | Edit(id: Id, title: string)
    | Remove(id: Id, blocked: bool)
    | Move(id: Id, direction: string)

  // ----- lists of ids ---------------------------------------------------------------

  ghost predicate NoDup<T(!new)>(l: seq<T>) {
    forall i, j :: 0 <= i < j < |l| ==> l[i] != l[j]
  }

  ghost function IndexOf<T(!new)>(l: seq<T>, x: T): (i: nat)
    requires x in l
    ensures i < |l| && l[i] == x
  {
    var i: nat :| i < |l| && l[i] == x;
    i
  }

  function Swap<T>(l: seq<T>, i: nat, j: nat): seq<T>
    requires i < |l| && j < |l|
  {
    l[i := l[j]][j := l[i]]
  }

  function Neighbour(i: nat, direction: string): int {
    if direction == "up" then i - 1 else i + 1
  }

  /** What the user sees: the effect of a request on the displayed list. */
  ghost function ListStep(l: seq<Id>, op: Op): seq<Id> {
    match op
    case New(id, _) => if id in l then l else l + [id]
    case Edit(_, _) => l
    case Remove(id, blocked) =>
      if id !in l || blocked then l else var i := IndexOf(l, id); l[..i] + l[i + 1..]
    case Move(id, direction) =>
      if id !in l then l else
        var i := IndexOf(l, id);
        var j := Neighbour(i, direction);
        if 0 <= j < |l| then Swap(l, i, j) else l
  }

  ghost function ListRun(l: seq<Id>, ops: seq<Op>): seq<Id>
    decreases |ops|
  {
    if ops == [] then l else ListRun(ListStep(l, ops[0]), ops[1..])
  }

  // ----- tables ---------------------------------------------------------------------

  /** `l` names every row of the table once. */
  ghost predicate Enumerates(t: Table, l: seq<Id>) {
    && NoDup(l)
    && (forall k :: 0 <= k < |l| ==> l[k] in t)
    && (forall id :: id in t ==> id in l)
  }

  ghost function Orders(t: Table, l: seq<Id>): (o: seq<nat>)
    requires forall k :: 0 <= k < |l| ==> l[k] in t
    ensures |o| == |l| && forall k :: 0 <= k < |l| ==> o[k] == t[l[k]].order
  {
    seq(|l|, k requires 0 <= k < |l| => t[l[k]].order)
  }

  ghost predicate NonDecreasing(o: seq<nat>) {
    forall i, j :: 0 <= i < j < |o| ==> o[i] <= o[j]
  }

  /** `l` is a possible answer of ORDER BY order: every row once, orders ascending.  Rows of
      equal order may come in any sequence, which covers a tie-break on title or name. */
  ghost predicate Listing(t: Table, l: seq<Id>) {
    Enumerates(t, l) && NonDecreasing(Orders(t, l))
  }

  ghost predicate DistinctOrders(t: Table) {
    forall x, y :: x in t && y in t && x != y ==> t[x].order != t[y].order
  }

  function SetOrder(t: Table, id: Id, order: nat): Table
    requires id in t
  {
    t[id := t[id].(order := order)]
  }

  /** Rows i and j of the query swap their order values, with the two positions as a
      fallback when the values are equal. */
  ghost function Exchange(t: Table, l: seq<Id>, i: nat, j: nat): Table
    requires Listing(t, l) && i < |l| && j < |l|
  {
    if t[l[i]].order == t[l[j]].order
    then SetOrder(SetOrder(t, l[i], j), l[j], i)
    else SetOrder(SetOrder(t, l[i], t[l[j]].order), l[j], t[l[i]].order)
  }

  /** The move views, on the list `l` their query returned. */
  ghost function MoveRow(t: Table, l: seq<Id>, id: Id, direction: string): Table
    requires Listing(t, l)
  {
    if id !in t then t else
      var i := IndexOf(l, id);
      var j := Neighbour(i, direction);
      if 0 <= j < |l| then Exchange(t, l, i, j) else t
  }

  ghost function StepWith(t: Table, l: seq<Id>, op: Op): Table
    requires Listing(t, l)
  {
    match op
    case New(id, title) =>
      if id in t then t else
        t[id := Row(title, if l == [] then 0 else t[l[|l| - 1]].order + 1)]
    case Edit(id, title) => if id in t then t[id := t[id].(title := title)] else t
    case Remove(id, blocked) => if blocked then t else t - {id}
    case Move(id, direction) => MoveRow(t, l, id, direction)
  }

  lemma InsertSorted(t: Table, l: seq<Id>, id: Id, row: Row, k: nat)
    requires Listing(t, l) && id !in t && k <= |l|
    requires forall i :: 0 <= i < k ==> Orders(t, l)[i] <= row.order
    requires k < |l| ==> row.order < Orders(t, l)[k]
    ensures Listing(t[id := row], l[..k] + [id] + l[k..])
  {
    var t', l' := t[id := row], l[..k] + [id] + l[k..];
    InsertEnumerates(t, l, id, row, k);
    InsertOrder(Orders(t, l), row.order, k);
    assert Orders(t', l') == Orders(t, l)[..k] + [row.order] + Orders(t, l)[k..];
  }

  lemma InsertEnumerates(t: Table, l: seq<Id>, id: Id, row: Row, k: nat)
    requires Enumerates(t, l) && id !in t && k <= |l|
    ensures Enumerates(t[id := row], l[..k] + [id] + l[k..])
  {}

  lemma InsertOrder(o: seq<nat>, v: nat, k: nat)
    requires NonDecreasing(o) && k <= |o|
    requires (forall i :: 0 <= i < k ==> o[i] <= v) && (k < |o| ==> v < o[k])
    ensures NonDecreasing(o[..k] + [v] + o[k..])
  {}

  lemma AppendSorted(t: Table, l: seq<Id>, id: Id, row: Row)
    requires Listing(t, l) && id !in t
    requires forall i :: 0 <= i < |l| ==> Orders(t, l)[i] <= row.order
    ensures Listing(t[id := row], l + [id])
    ensures Orders(t[id := row], l + [id]) == Orders(t, l) + [row.order]
  {}

  lemma {:induction false} ListingExists(t: Table)
    ensures exists l :: Listing(t, l)
    decreases |t|
  {
    if t == map[] {
      assert Listing(t, []);
    } else {
      var top := Topmost(t);
      var rest := t - {top};
      assert |rest.Keys| < |t.Keys| by { assert rest.Keys == t.Keys - {top}; }
      ListingExists(rest);
      var l :| Listing(rest, l);
      AppendSorted(rest, l, top, t[top]);
      assert rest[top := t[top]] == t;
    }
  }

  lemma {:induction false} Topmost(t: Table) returns (top: Id)
    requires t != map[]
    ensures top in t && forall id :: id in t ==> t[id].order <= t[top].order
    decreases |t|
  {
    var x :| x in t.Keys;
    var rest := t - {x};
    assert |rest.Keys| < |t.Keys| by { assert rest.Keys == t.Keys - {x}; }
    assert forall id :: id in t ==> id in rest || id == x;
    if rest == map[] {
      top := x;
    } else {
      var y := Topmost(rest);
      top := if t[y].order <= t[x].order then x else y;
    }
  }

  ghost function Sorted(t: Table): (l: seq<Id>)
    ensures Listing(t, l)
  {
    ListingExists(t);
    var l :| Listing(t, l);
    l
  }

  ghost function Step(t: Table, op: Op): Table {
    StepWith(t, Sorted(t), op)
  }

  ghost function Run(t: Table, ops: seq<Op>): Table
    decreases |ops|
  {
    if ops == [] then t else Run(Step(t, ops[0]), ops[1..])
  }

  // ----- refinement: the table implements the list ------------------------------------

  ghost predicate Increasing(o: seq<nat>) {
    forall i, j :: 0 <= i < j < |o| ==> o[i] < o[j]
  }

  lemma DistinctIffIncreasing(t: Table, l: seq<Id>)
    requires Listing(t, l)
    ensures DistinctOrders(t) <==> Increasing(Orders(t, l))
  {}

  lemma FirstIsLeast(t: Table, l: seq<Id>, m: seq<Id>)
    requires l != [] && m != [] && l[0] in m && m[0] in l && forall x :: x in l || x in m ==> x in t
    requires Increasing(Orders(t, l)) && Increasing(Orders(t, m))
    ensures l[0] == m[0]
  {}

  lemma SameTail(l: seq<Id>, m: seq<Id>)
    requires l != [] && m != [] && l[0] == m[0] && NoDup(l) && NoDup(m)
    requires forall x :: x in l <==> x in m
    ensures forall x :: x in l[1..] <==> x in m[1..]
  {
    assert forall x :: x in l[1..] ==> x in l && x != l[0];
    assert forall x :: x in m[1..] ==> x in m && x != m[0];
  }

  lemma {:induction false} IncreasingUnique(t: Table, l: seq<Id>, m: seq<Id>)
    requires NoDup(l) && NoDup(m)
    requires (forall x :: x in l <==> x in m) && forall x :: x in l || x in m ==> x in t
    requires Increasing(Orders(t, l)) && Increasing(Orders(t, m))
    ensures l == m
  {
    if l != [] {
      var x := l[0];
      assert x in l && m != [];
      var y := m[0];
      assert y in m;
      FirstIsLeast(t, l, m);
      SameTail(l, m);
      assert Orders(t, l[1..]) == Orders(t, l)[1..] && Orders(t, m[1..]) == Orders(t, m)[1..];
      IncreasingUnique(t, l[1..], m[1..]);
      SameFromParts(l, m);
    } else {
      HeadIsMember(m);
    }
  }

  lemma SameFromParts(l: seq<Id>, m: seq<Id>)
    requires l != [] && m != [] && l[0] == m[0] && l[1..] == m[1..]
    ensures l == m
  {
    assert l == [l[0]] + l[1..] && m == [m[0]] + m[1..];
  }

  lemma HeadIsMember(l: seq<Id>)
    ensures l == [] || l[0] in l
  {}

  /** With distinct orders the query has exactly one answer. */
  lemma ListingUnique(t: Table, l: seq<Id>, m: seq<Id>)
    requires DistinctOrders(t) && Listing(t, l) && Listing(t, m)
    ensures l == m
  {
    DistinctIffIncreasing(t, l);
    DistinctIffIncreasing(t, m);
    IncreasingUnique(t, l, m);
  }

  /** One request on any table with distinct orders, whatever list its query returned: the
      orders stay distinct and the displayed list changes as `ListStep` says. */
  lemma StepRefines(t: Table, l: seq<Id>, op: Op)
    requires DistinctOrders(t) && Listing(t, l)
    ensures DistinctOrders(StepWith(t, l, op))
    ensures Listing(StepWith(t, l, op), ListStep(l, op))
  {
    match op
    case New(id, title) => NewRefines(t, l, id, title);
    case Edit(id, title) => 
    case Remove(id, blocked) => RemoveRefines(t, l, id, blocked);
    case Move(id, direction) => MoveRefines(t, l, id, direction);
  }

  lemma NewRefines(t: Table, l: seq<Id>, id: Id, title: string)
    requires DistinctOrders(t) && Listing(t, l)
    ensures DistinctOrders(StepWith(t, l, New(id, title)))
    ensures Listing(StepWith(t, l, New(id, title)), ListStep(l, New(id, title)))
  {
    if id !in t {
      var t', l' := StepWith(t, l, New(id, title)), l + [id];
      DistinctIffIncreasing(t, l);
      AppendSorted(t, l, id, t'[id]);
      DistinctIffIncreasing(t', l');
    }
  }

  lemma RemoveRefines(t: Table, l: seq<Id>, id: Id, blocked: bool)
    requires DistinctOrders(t) && Listing(t, l)
    ensures DistinctOrders(StepWith(t, l, Remove(id, blocked)))
    ensures Listing(StepWith(t, l, Remove(id, blocked)), ListStep(l, Remove(id, blocked)))
  {
    if id !in t {
      assert t - {id} == t;
    } else if !blocked {
      DeleteRefines(t, l, IndexOf(l, id));
    }
  }

  lemma DeleteRefines(t: Table, l: seq<Id>, i: nat)
    requires Listing(t, l) && i < |l|
    ensures Listing(t - {l[i]}, l[..i] + l[i + 1..])
  {}

  lemma SwapFacts(l: seq<Id>, i: nat, j: nat)
    requires NoDup(l) && i < |l| && j < |l|
    ensures NoDup(Swap(l, i, j))
    ensures forall x :: x in Swap(l, i, j) <==> x in l
    ensures Swap(Swap(l, i, j), i, j) == l && Swap(l, i, j) == Swap(l, j, i)
  {
    var l' := Swap(l, i, j);
    forall x | x in l ensures x in l' {
      var k := IndexOf(l, x);
      assert x == l'[if k == i then j else if k == j then i else k];
    }
  }

  lemma ExchangeEnumerates(t: Table, l: seq<Id>, i: nat, j: nat)
    requires Listing(t, l) && i < |l| && j < |l| && i != j
    ensures Enumerates(Exchange(t, l, i, j), Swap(l, i, j))
  {
    SwapFacts(l, i, j);
    assert Exchange(t, l, i, j).Keys == t.Keys;
  }

  /** The order values seen position by position, before and after an exchange. */
  lemma ExchangeOrders(t: Table, l: seq<Id>, i: nat, j: nat)
    requires Listing(t, l) && i < |l| && j < |l| && i != j
    requires Enumerates(Exchange(t, l, i, j), Swap(l, i, j))
    ensures var o := Orders(t, l);
      Orders(Exchange(t, l, i, j), Swap(l, i, j)) == if o[i] == o[j] then o[i := i][j := j] else o
  {}

  lemma ExchangeKeepsDistinct(t: Table, l: seq<Id>, i: nat, j: nat)
    requires DistinctOrders(t) && Listing(t, l) && i < |l| && j < |l| && i != j
    ensures DistinctOrders(Exchange(t, l, i, j))
    ensures Listing(Exchange(t, l, i, j), Swap(l, i, j))
  {
    ExchangeEnumerates(t, l, i, j);
    ExchangeOrders(t, l, i, j);
    DistinctIffIncreasing(t, l);
    DistinctIffIncreasing(Exchange(t, l, i, j), Swap(l, i, j));
  }

  lemma MoveRefines(t: Table, l: seq<Id>, id: Id, direction: string)
    requires DistinctOrders(t) && Listing(t, l)
    ensures DistinctOrders(MoveRow(t, l, id, direction))
    ensures Listing(MoveRow(t, l, id, direction), ListStep(l, Move(id, direction)))
  {
    if id in t {
      var i := IndexOf(l, id);
      var j := Neighbour(i, direction);
      if 0 <= j < |l| { ExchangeKeepsDistinct(t, l, i, j); }
    }
  }

  /** Every run, from any table with distinct orders (the empty one in particular), displays
      the list that the same requests build on plain lists. */
  lemma {:induction false} RunRefines(t: Table, ops: seq<Op>)
    requires DistinctOrders(t)
    ensures DistinctOrders(Run(t, ops))
    ensures Sorted(Run(t, ops)) == ListRun(Sorted(t), ops)
    decreases |ops|
  {
    if ops != [] {
      StepRefines(t, Sorted(t), ops[0]);
      var t' := Step(t, ops[0]);
      ListingUnique(t', Sorted(t'), ListStep(Sorted(t), ops[0]));
      RunRefines(t', ops[1..]);
    }
  }

  /** The fallback for equal orders is never taken in a reachable state: a move with a
      neighbour leaves that neighbour with the row's order and the row with the neighbour's,
      and touches no other row and no title. */
  lemma MoveConservesOrders(t: Table, l: seq<Id>, id: Id, direction: string)
    requires DistinctOrders(t) && Listing(t, l) && id in t
    ensures
      var (t', j) := (MoveRow(t, l, id, direction), Neighbour(IndexOf(l, id), direction));
      if 0 <= j < |l| then
        t' == t[id := t[id].(order := t[l[j]].order)][l[j] := t[l[j]].(order := t[id].order)]
      else t' == t
  {}

  // ----- tables with ties ------------------------------------------------------------------

  /** Whatever the database does with ties, the query shows `l`. */
  ghost predicate Shows(t: Table, l: seq<Id>) {
    Listing(t, l) && forall m :: Listing(t, m) ==> m == l
  }

  lemma ShowsIffIncreasing(t: Table, l: seq<Id>)
    requires Listing(t, l)
    ensures Shows(t, l) <==> Increasing(Orders(t, l))
  {
    if Increasing(Orders(t, l)) {
      DistinctIffIncreasing(t, l);
      forall m | Listing(t, m) ensures m == l { ListingUnique(t, m, l); }
    } else {
      var i, j :| 0 <= i < j < |l| && Orders(t, l)[i] >= Orders(t, l)[j];
      TieSwaps(t, l, i, j);
    }
  }

  lemma TieSwaps(t: Table, l: seq<Id>, i: nat, j: nat)
    requires Listing(t, l) && i < j < |l| && Orders(t, l)[i] >= Orders(t, l)[j]
    ensures Listing(t, Swap(l, i, j)) && Swap(l, i, j) != l
  {
    SwapFacts(l, i, j);
    assert Orders(t, Swap(l, i, j)) == Orders(t, l);
  }

  /** The rows other than `lo` and its successor have strictly increasing orders. */
  ghost predicate OthersIncreasing(o: seq<nat>, lo: nat) {
    forall a, b :: 0 <= a < b < |o| && a != lo && a != lo + 1 && b != lo && b != lo + 1 ==> o[a] < o[b]
  }

  /** On an arbitrary table, ties included, a move that has a neighbour is sure to show the
      transposition if and only if all orders differ, or the only tie is between the two rows
      and the two positions written by the fallback fit strictly between the rows around them. */
  lemma MoveTransposesIff(t: Table, l: seq<Id>, id: Id, direction: string, lo: nat, hi: nat)
    requires Listing(t, l) && id in t && hi == lo + 1 < |l|
    requires {lo as int, hi} == {IndexOf(l, id) as int, Neighbour(IndexOf(l, id), direction)}
    ensures var o := Orders(t, l);
      Shows(MoveRow(t, l, id, direction), Swap(l, lo, hi)) <==>
        if o[lo] != o[hi] then Increasing(o)
        else OthersIncreasing(o, lo) && (lo > 0 ==> o[lo - 1] < lo) && (hi + 1 < |o| ==> hi < o[hi + 1])
  {
    var i := IndexOf(l, id);
    var j := Neighbour(i, direction);
    assert (i == lo && j == hi) || (i == hi && j == lo) by {
      assert i in {lo as int, hi} && j in {lo as int, hi};
    }
    SwapFacts(l, i, j);
    ExchangeShowsIff(t, l, i, j, lo, hi);
  }

  lemma ExchangeShowsIff(t: Table, l: seq<Id>, i: nat, j: nat, lo: nat, hi: nat)
    requires Listing(t, l) && hi == lo + 1 < |l|
    requires (i == lo && j == hi) || (i == hi && j == lo)
    ensures var o := Orders(t, l);
      Shows(Exchange(t, l, i, j), Swap(l, i, j)) <==>
        if o[lo] != o[hi] then Increasing(o)
        else OthersIncreasing(o, lo) && (lo > 0 ==> o[lo - 1] < lo) && (hi + 1 < |o| ==> hi < o[hi + 1])
  {
    var o, t', l' := Orders(t, l), Exchange(t, l, i, j), Swap(l, i, j);
    ExchangeEnumerates(t, l, i, j);
    ExchangeOrders(t, l, i, j);
    if o[i] == o[j] {
      assert Orders(t', l') == o[lo := lo][hi := hi];
      PlugIff(o, lo);
    }
    if Listing(t', l') { ShowsIffIncreasing(t', l'); }
  }

  lemma PlugIff(o: seq<nat>, lo: nat)
    requires NonDecreasing(o) && lo + 1 < |o|
    ensures Increasing(o[lo := lo][lo + 1 := lo + 1]) <==>
      OthersIncreasing(o, lo) && (lo > 0 ==> o[lo - 1] < lo) && (lo + 2 < |o| ==> lo + 1 < o[lo + 2])
  {
    var p := o[lo := lo][lo + 1 := lo + 1];
    assert p[lo] == lo && p[lo + 1] == lo + 1;
    assert lo > 0 ==> p[lo - 1] == o[lo - 1];
    assert lo + 2 < |o| ==> p[lo + 2] == o[lo + 2];
    if OthersIncreasing(o, lo) && (lo > 0 ==> o[lo - 1] < lo) && (lo + 2 < |o| ==> lo + 1 < o[lo + 2]) {
      forall a, b | 0 <= a < b < |p| ensures p[a] < p[b] {
        assert a < lo ==> o[a] <= o[lo - 1] < lo;
        assert b > lo + 1 ==> lo + 1 < o[lo + 2] <= o[b];
      }
    } else if Increasing(p) {
      forall a, b | 0 <= a < b < |o| && a != lo && a != lo + 1 && b != lo && b != lo + 1 ensures o[a] < o[b] {
        assert p[a] == o[a] && p[b] == o[b] && p[a] < p[b];
      }
    }
  }

  /** A tie elsewhere is enough: with C and D at 0 and A at 1, moving A up may show A, C, D as
      well as C, A, D. */
  lemma TiedMoveExample(t: Table, c: Id, d: Id, a: Id)
    requires t == map[c := Row("C", 0), d := Row("D", 0), a := Row("A", 1)] && c != d && c != a && d != a
    ensures Listing(t, [c, d, a])
    ensures var after := MoveRow(t, [c, d, a], a, "up");
      Listing(after, [c, a, d]) && Listing(after, [a, c, d]) && !Shows(after, [c, a, d])
  {
    var l := [c, d, a];
    ThreeRows(t, c, d, a);
    assert l[0] == c && l[1] == d && l[2] == a && IndexOf(l, a) == 2;
    var after := MoveRow(t, l, a, "up");
    assert after == map[c := Row("C", 0), d := Row("D", 1), a := Row("A", 0)];
    var (m, n) := ([c, a, d], [a, c, d]);
    ThreeRows(after, c, a, d);
    ThreeRows(after, a, c, d);
    assert m[0] != n[0];
  }

  lemma ThreeRows(t: Table, x: Id, y: Id, z: Id)
    requires t.Keys == {x, y, z} && x != y && x != z && y != z && t[x].order <= t[y].order <= t[z].order
    ensures Listing(t, [x, y, z])
  {
    var l := [x, y, z];
    assert l[0] == x && l[1] == y && l[2] == z;
  }

  lemma RunTwo(t: Table, a: Op, b: Op)
    ensures Run(t, [a, b]) == Step(Step(t, a), b)
  {
    assert [a, b][1..] == [b] && [b][1..] == [];
    assert Run(Step(t, a), [b]) == Run(Step(Step(t, a), b), []);
  }

  /** "up" then "down" on the same row restores the whole table, order values included,
      exactly when the row was not first in a list of two or more. */
  lemma UpThenDown(t: Table, id: Id)
    requires DistinctOrders(t) && id in t
    ensures Run(t, [Move(id, "up"), Move(id, "down")]) == t
       <==> (IndexOf(Sorted(t), id) > 0 || |Sorted(t)| == 1)
  {
    var l := Sorted(t);
    var i := IndexOf(l, id);
    var t1 := Step(t, Move(id, "up"));
    var l1 := ListStep(l, Move(id, "up"));
    MoveRefines(t, l, id, "up");
    ListingUnique(t1, Sorted(t1), l1);
    var t2 := Step(t1, Move(id, "down"));
    RunTwo(t, Move(id, "up"), Move(id, "down"));
    if i > 0 {
      SwapFacts(l, i, i - 1);
      assert l1[i - 1] == id && l1[i] == l[i - 1] != id;
      assert IndexOf(l1, id) == i - 1;
      UndoExchange(t, l, l1, id);
    } else if |l| > 1 {
      MoveConservesOrders(t, l, id, "up");
      MoveConservesOrders(t, l, id, "down");
      assert l[1] in t && l[1] != id;
    }
  }

  /** With two rows, up then down on the first one leaves them exchanged. */
  lemma UpThenDownExample(t: Table, a: Id, b: Id)
    requires a != b && t == map[a := Row("A", 0), b := Row("B", 1)]
    ensures Run(t, [Move(a, "up"), Move(a, "down")]) == map[a := Row("A", 1), b := Row("B", 0)] != t
  {
    var l := [a, b];
    assert l[0] == a && l[1] == b && IndexOf(l, a) == 0;
    assert Listing(t, l);
    ListingUnique(t, Sorted(t), l);
    RunTwo(t, Move(a, "up"), Move(a, "down"));
    assert Step(t, Move(a, "up")) == t;
  }

  lemma UndoExchange(t: Table, l: seq<Id>, l1: seq<Id>, id: Id)
    requires DistinctOrders(t) && Listing(t, l) && id in t && IndexOf(l, id) > 0
    requires DistinctOrders(MoveRow(t, l, id, "up")) && Listing(MoveRow(t, l, id, "up"), l1)
    requires IndexOf(l1, id) + 1 < |l1| && l1[IndexOf(l1, id) + 1] == l[IndexOf(l, id) - 1]
    ensures MoveRow(MoveRow(t, l, id, "up"), l1, id, "down") == t
  {
    var t1 := MoveRow(t, l, id, "up");
    MoveConservesOrders(t, l, id, "up");
    MoveConservesOrders(t1, l1, id, "down");
    assert MoveRow(t1, l1, id, "down") == Trade(Trade(t, id, l[IndexOf(l, id) - 1]), id, l[IndexOf(l, id) - 1]);
    TradeTwice(t, id, l[IndexOf(l, id) - 1]);
  }

  function Trade(t: Table, x: Id, y: Id): Table
    requires x in t && y in t
  {
    t[x := t[x].(order := t[y].order)][y := t[y].(order := t[x].order)]
  }

  lemma TradeTwice(t: Table, x: Id, y: Id)
    requires x in t && y in t && x != y
    ensures Trade(Trade(t, x, y), x, y) == t
  {}

  // ----- rows and positions, spelled out ----------------------------------------------------

  /** What a request does to the rows themselves: a new row gets its title and the order behind the
      last one, an edit writes one title, a removal takes one row, and a move writes no title. */
  lemma RowsAfter(t: Table, l: seq<Id>, op: Op, x: Id)
    requires DistinctOrders(t) && Listing(t, l)
    ensures var t' := StepWith(t, l, op);
      match op
      case New(id, title) =>
        if id in t then t' == t else
          && t'.Keys == t.Keys + {id} && (x in t ==> t'[x] == t[x]) && t'[id].title == title
          && (if l == [] then t'[id].order == 0 else t'[id].order == t[l[|l| - 1]].order + 1)
          && (x in t ==> t[x].order < t'[id].order)
      case Edit(id, title) =>
        t'.Keys == t.Keys &&
        (x in t ==> t'[x].order == t[x].order && t'[x].title == (if x == id then title else t[x].title))
      case Remove(id, blocked) =>
        (x in t' <==> x in t && (blocked || x != id)) && (x in t' ==> t'[x] == t[x])
      case Move(id, direction) => t'.Keys == t.Keys && (x in t ==> t'[x].title == t[x].title)
  {
    if op.New? && op.id !in t && x in t {
      var i := IndexOf(l, x);
      assert Orders(t, l)[i] <= Orders(t, l)[|l| - 1];
    }
  }

  /** "up" moves a row one place towards the front, any other direction one place towards the end;
      the row it passes takes its place, and at the ends nothing moves. */
  lemma MoveShifts(l: seq<Id>, i: nat, direction: string)
    requires NoDup(l) && i < |l|
    ensures var (l', up) := (ListStep(l, Move(l[i], direction)), direction == "up");
      && |l'| == |l|
      && (up && i > 0 ==> l' == l[..i - 1] + [l[i], l[i - 1]] + l[i + 1..])
      && (!up && i + 1 < |l| ==> l' == l[..i] + [l[i + 1], l[i]] + l[i + 2..])
      && ((up && i == 0) || (!up && i + 1 == |l|) ==> l' == l)
  {}

  /** The displayed list after the other requests: appended, unchanged, or without the row. */
  lemma ListAfter(l: seq<Id>, op: Op)
    requires NoDup(l)
    ensures var l' := ListStep(l, op);
      match op
      case New(id, title) => l' == if id in l then l else l + [id]
      case Edit(id, title) => l' == l
      case Remove(id, blocked) =>
        (blocked || id !in l ==> l' == l) &&
        (!blocked && id in l ==> exists a, b :: l == a + [id] + b && l' == a + b)
      case Move(id, direction) => id !in l ==> l' == l
  {
    if op.Remove? && op.id in l && !op.blocked {
      var i := IndexOf(l, op.id);
      assert l == l[..i] + [op.id] + l[i + 1..];
    }
  }

  lemma MoveAt(t: Table, l: seq<Id>, i: nat, id: Id, direction: string)
    requires Listing(t, l) && i <= |l| && (if i < |l| then l[i] == id else id !in l)
    ensures var j := if direction == "up" then i - 1 else i + 1;
      MoveRow(t, l, id, direction) == if i < |l| && 0 <= j < |l| then Exchange(t, l, i, j) else t
  {
    if i < |l| { assert IndexOf(l, id) == i; }
  }

  lemma MoveIsStep(t: Table, l: seq<Id>, id: Id, direction: string)
    requires Listing(t, l)
    ensures DistinctOrders(t) ==>
      MoveRow(t, l, id, direction) == Step(t, Move(id, direction)) && DistinctOrders(MoveRow(t, l, id, direction))
  {
    if DistinctOrders(t) {
      ListingUnique(t, l, Sorted(t));
      MoveRefines(t, l, id, direction);
    }
  }

  // ----- the views ------------------------------------------------------------------------

  /** The rows of one list, as the new, edit, remove and move views update them. */
  class OrderedTable {
    var rows: Table

    /** No two rows share an order; then the query has one answer. */
    ghost predicate Valid()
      reads this
    {
      DistinctOrders(rows)
    }

    constructor ()
      ensures Valid() && rows == map[]
    {
      rows := map[];
    }

    /** ORDER BY order, by insertion into a sorted list; the answer promises no more than
        the query does. */
    method OrderBy() returns (l: seq<Id>)
      ensures Listing(rows, l)
    {
      l := [];
      var done: Table, todo := map[], rows.Keys;
      while todo != {}
        invariant todo <= rows.Keys && done.Keys == rows.Keys - todo
        invariant forall id :: id in done ==> done[id] == rows[id]
        invariant Listing(done, l)
        decreases |todo|
      {
        var id :| id in todo;
        var k := 0;
        while k < |l| && rows[l[k]].order <= rows[id].order
          invariant k <= |l|
          invariant forall i :: 0 <= i < k ==> Orders(done, l)[i] <= rows[id].order
        {
          k := k + 1;
        }
        InsertSorted(done, l, id, rows[id], k);
        l := l[..k] + [id] + l[k..];
        done, todo := done[id := rows[id]], todo - {id};
      }
      assert done == rows;
    }

    method New(id: Id, title: string)
      requires id !in rows
      modifies this
      ensures old(Valid()) ==> Valid()
      ensures exists l :: Listing(old(rows), l) && rows == StepWith(old(rows), l, Op.New(id, title))
    {
      var l := OrderBy();
      if DistinctOrders(rows) { NewRefines(rows, l, id, title); }
      rows := rows[id := Row(title, if l == [] then 0 else rows[l[|l| - 1]].order + 1)];
      assert rows == StepWith(old(rows), l, Op.New(id, title));
    }

    /** The edit views change the title only. */
    method Edit(id: Id, title: string) returns (found: bool)
      modifies this
      ensures old(Valid()) ==> Valid()
      ensures found == (id in old(rows))
      ensures rows == if found then old(rows)[id := old(rows)[id].(title := title)] else old(rows)
    {
      found := id in rows;
      if found {
        rows := rows[id := rows[id].(title := title)];
      }
    }

    /** Returns false for an unknown row (404) and for a row in use. */
    method Remove(id: Id, blocked: bool) returns (removed: bool)
      modifies this
      ensures old(Valid()) ==> Valid()
      ensures removed == (id in old(rows) && !blocked)
      ensures rows == if blocked then old(rows) else old(rows) - {id}
    {
      removed := id in rows && !blocked;
      if removed {
        rows := rows - {id};
      } else if !blocked {
        assert rows - {id} == rows;
      }
    }

    /** Returns false for an unknown row (404). */
    method Move(id: Id, direction: string) returns (found: bool)
      modifies this
      ensures old(Valid()) ==> Valid()
      ensures found == (id in old(rows))
      ensures exists l :: Listing(old(rows), l) && rows == MoveRow(old(rows), l, id, direction)
      ensures DistinctOrders(old(rows)) ==> rows == Step(old(rows), Op.Move(id, direction))
    {
      var ordered := OrderBy();
      var idx := 0;
      while idx < |ordered| && ordered[idx] != id
        invariant idx <= |ordered| && id !in ordered[..idx]
      {
        idx := idx + 1;
      }
      found := idx < |ordered|;
      if found {
        var swap := if direction == "up" then idx - 1 else idx + 1;
        if 0 <= swap < |ordered| {
          var a, b := ordered[idx], ordered[swap];
          var orderA, orderB := rows[b].order, rows[a].order;
          if orderA == orderB {
            orderA, orderB := swap, idx;
          }
          rows := rows[a := rows[a].(order := orderA)][b := rows[b].(order := orderB)];
        }
      }
      MoveAt(old(rows), ordered, idx, id, direction);
      MoveIsStep(old(rows), ordered, id, direction);
    }
  }
}

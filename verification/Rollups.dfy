// src/analytics_store.rs: the hourly and daily materializations, and the query that reads finalized windows
// from them and the current window from the canonical table.
//
// SQL is modelled by its relational meaning: a table is a sequence of rows, and an answer is a sequence of groups.

module Rollups {
  import opened Numbers
  import opened Buckets
  import opened Aggregate
  import opened WideRows

  const MAX_QUERY_RECORDS: nat := 100_000

  datatype Labels = Labels(organization: nat, project: nat, environment: nat, connection: nat,
                           realm: string, assignmentEpoch: nat, schema: int)

  // A canonical row at its bucket start, or a materialized row at its window start.
  datatype Row = Row(labels: Labels, at: nat, cells: seq<nat>)
  datatype Key = Key(labels: Labels, window: nat)

  predicate WellFormed(table: seq<Row>) {
    forall i :: 0 <= i < |table| ==>
      |table[i].cells| == CELLS && forall c :: 0 <= c < CELLS && IsPresence(c) ==> table[i].cells[c] <= 1
  }

  // date_bin with the epoch as origin
  function Bin(at: nat, step: nat): nat
    requires step > 0
  {
    at - at % step
  }

  lemma BinIsTheWindow(at: nat, step: nat)
    requires step > 0
    ensures Bin(at, step) <= at < Bin(at, step) + step && Bin(at, step) % step == 0
  {
    var q := at / step;
    assert at == q * step + at % step;
    UniqueRemainder(q * step, q, 0, step);
  }

  function KeyOf(r: Row, step: nat): Key
    requires step > 0
  {
    Key(r.labels, Bin(r.at, step))
  }

  // ------------------------------------------------------------ SUM and MAX

  datatype Op = Add | Larger

  function Apply(op: Op, a: nat, b: nat): nat {
    match op
    case Add => a + b
    case Larger => Max(a, b)
  }

  function Cell(r: Row, c: nat): nat {
    if c < |r.cells| then r.cells[c] else 0
  }

  function Fold(op: Op, rows: seq<Row>, keep: Row -> bool, c: nat): nat {
    if rows == [] then 0 else
    var last := rows[|rows| - 1];
    Apply(op, Fold(op, rows[..|rows| - 1], keep, c), if keep(last) then Cell(last, c) else 0)
  }

  // The flow keeps MAX of the flags and of the profile; the rollup query counts the flags that are set.
  function FlowOp(c: nat): Op {
    if IsPresence(c) || c == PROFILE_CELL then Larger else Add
  }

  function QueryOp(c: nat): Op {
    if c == PROFILE_CELL then Larger else Add
  }

  lemma {:induction false} FoldAgrees(op: Op, rows: seq<Row>, p: Row -> bool, q: Row -> bool, c: nat)
    requires forall i :: 0 <= i < |rows| ==> p(rows[i]) == q(rows[i])
    ensures Fold(op, rows, p, c) == Fold(op, rows, q, c)
  {
    if rows != [] {
      FoldAgrees(op, rows[..|rows| - 1], p, q, c);
    }
  }

  lemma {:induction false} PositiveFold(op: Op, rows: seq<Row>, p: Row -> bool, c: nat)
    ensures Fold(op, rows, p, c) > 0 <==> exists i :: 0 <= i < |rows| && p(rows[i]) && Cell(rows[i], c) > 0
  {
    if rows != [] {
      var front := rows[..|rows| - 1];
      PositiveFold(op, front, p, c);
      assert forall i :: 0 <= i < |front| ==> front[i] == rows[i];
    }
  }

  // ------------------------------------------------------------ the materialized table

  function With(step: nat, keys: set<Key>): Row -> bool
    requires step > 0
  {
    (r: Row) => KeyOf(r, step) in keys
  }

  ghost predicate Distinct(table: seq<Row>, step: nat)
    requires step > 0
  {
    forall i, j :: 0 <= i < j < |table| ==> KeyOf(table[i], step) != KeyOf(table[j], step)
  }

  ghost predicate HasKey(table: seq<Row>, step: nat, k: Key)
    requires step > 0
  {
    exists i :: 0 <= i < |table| && KeyOf(table[i], step) == k
  }

  ghost predicate Covers(table: seq<Row>, rows: seq<Row>, step: nat)
    requires step > 0
  {
    forall j :: 0 <= j < |rows| ==> HasKey(table, step, KeyOf(rows[j], step))
  }

  ghost predicate Folded(m: Row, rows: seq<Row>, step: nat)
    requires step > 0
  {
    && Bin(m.at, step) == m.at
    && forall c :: 0 <= c < CELLS ==> Cell(m, c) == Fold(FlowOp(c), rows, With(step, {KeyOf(m, step)}), c)
  }

  // Folding keeps the flags flags.
  lemma {:induction false} FlagsStayFlags(rows: seq<Row>, keep: Row -> bool, c: nat)
    requires WellFormed(rows) && c < CELLS && IsPresence(c)
    ensures Fold(FlowOp(c), rows, keep, c) <= 1
  {
    if rows != [] {
      FlagsStayFlags(rows[..|rows| - 1], keep, c);
    }
  }

  lemma FoldedIsWellFormed(table: seq<Row>, rows: seq<Row>, step: nat)
    requires step > 0 && WellFormed(rows) && forall i :: 0 <= i < |table| ==> |table[i].cells| == CELLS && Folded(table[i], rows, step)
    ensures WellFormed(table)
  {
    forall i, c | 0 <= i < |table| && 0 <= c < CELLS && IsPresence(c)
      ensures table[i].cells[c] <= 1
    {
      FlagsStayFlags(rows, With(step, {KeyOf(table[i], step)}), c);
      assert Cell(table[i], c) == Fold(FlowOp(c), rows, With(step, {KeyOf(table[i], step)}), c);
    }
  }

  // The flow has run on every accepted row: one row for each key, folded over the rows of that key.
  ghost predicate Materialized(table: seq<Row>, rows: seq<Row>, step: nat)
    requires step > 0
  {
    && WellFormed(table) && Distinct(table, step) && Covers(table, rows, step) && Covers(rows, table, step)
    && forall i :: 0 <= i < |table| ==> Folded(table[i], rows, step)
  }

  lemma {:induction false} FoldSplits(op: Op, rows: seq<Row>, step: nat, keys: set<Key>, k: Key, c: nat)
    requires step > 0 && k !in keys
    ensures Fold(op, rows, With(step, keys + {k}), c)
         == Apply(op, Fold(op, rows, With(step, keys), c), Fold(op, rows, With(step, {k}), c))
  {
    if rows != [] {
      FoldSplits(op, rows[..|rows| - 1], step, keys, k, c);
    }
  }

  lemma {:induction false} FoldOfNothing(op: Op, rows: seq<Row>, step: nat, c: nat)
    requires step > 0
    ensures Fold(op, rows, With(step, {}), c) == 0
  {
    if rows != [] {
      FoldOfNothing(op, rows[..|rows| - 1], step, c);
    }
  }

  function KeysOf(table: seq<Row>, step: nat, p: Key -> bool): set<Key>
    requires step > 0
  {
    set i | 0 <= i < |table| && p(KeyOf(table[i], step)) :: KeyOf(table[i], step)
  }

  function ByKey(step: nat, p: Key -> bool): Row -> bool
    requires step > 0
  {
    (r: Row) => p(KeyOf(r, step))
  }

  lemma {:induction false} FoldOfTable(table: seq<Row>, n: nat, rows: seq<Row>, step: nat, p: Key -> bool, c: nat)
    requires step > 0 && Materialized(table, rows, step) && n <= |table| && c < CELLS
    ensures Fold(FlowOp(c), table[..n], ByKey(step, p), c)
         == Fold(FlowOp(c), rows, With(step, KeysOf(table[..n], step, p)), c)
  {
    if n == 0 {
      assert KeysOf(table[..0], step, p) == {};
      FoldOfNothing(FlowOp(c), rows, step, c);
    } else {
      FoldOfTable(table, n - 1, rows, step, p, c);
      assert table[..n][..n - 1] == table[..n - 1];
      KeysStep(table, n, step, p);
      var k, shorter := KeyOf(table[n - 1], step), KeysOf(table[..n - 1], step, p);
      if p(k) {
        FoldSplits(FlowOp(c), rows, step, shorter, k, c);
        assert Folded(table[n - 1], rows, step);
      } else {
        assert KeysOf(table[..n], step, p) == shorter;
      }
    }
  }

  lemma KeysStep(table: seq<Row>, n: nat, step: nat, p: Key -> bool)
    requires step > 0 && 0 < n <= |table|
    requires Distinct(table, step)
    ensures var k, shorter := KeyOf(table[n - 1], step), KeysOf(table[..n - 1], step, p);
            k !in shorter && KeysOf(table[..n], step, p) == shorter + if p(k) then {k} else {}
  {
    var k, shorter, longer := KeyOf(table[n - 1], step), KeysOf(table[..n - 1], step, p), KeysOf(table[..n], step, p);
    assert forall i :: 0 <= i < n - 1 ==> table[..n - 1][i] == table[i];
    assert forall i :: 0 <= i < n ==> table[..n][i] == table[i];
  }

  // Aggregating the materialized rows is aggregating the canonical rows: sums of sums, maxima of maxima.
  lemma MaterializedFold(table: seq<Row>, rows: seq<Row>, step: nat, p: Key -> bool, c: nat)
    requires step > 0 && Materialized(table, rows, step) && c < CELLS
    ensures Fold(FlowOp(c), table, ByKey(step, p), c) == Fold(FlowOp(c), rows, ByKey(step, p), c)
  {
    FoldOfTable(table, |table|, rows, step, p, c);
    assert table[..|table|] == table;
    var keys := KeysOf(table, step, p);
    forall j | 0 <= j < |rows|
      ensures With(step, keys)(rows[j]) == ByKey(step, p)(rows[j])
    {
      assert HasKey(table, step, KeyOf(rows[j], step));
    }
    FoldAgrees(FlowOp(c), rows, With(step, keys), ByKey(step, p), c);
  }

  // The number of rows with a flag set differs between the two tables, but not whether there is one.
  lemma MaterializedPresence(table: seq<Row>, rows: seq<Row>, step: nat, p: Key -> bool, c: nat)
    requires step > 0 && Materialized(table, rows, step) && c < CELLS && IsPresence(c)
    ensures Fold(Add, table, ByKey(step, p), c) > 0 <==> Fold(Add, rows, ByKey(step, p), c) > 0
  {
    MaterializedFold(table, rows, step, p, c);
    PositiveFold(Add, table, ByKey(step, p), c);
    PositiveFold(Larger, table, ByKey(step, p), c);
    PositiveFold(Add, rows, ByKey(step, p), c);
    PositiveFold(Larger, rows, ByKey(step, p), c);
  }

  // ------------------------------------------------------------ the rollup query

  datatype Scope = Scope(organization: Option<nat>, project: Option<nat>, environment: Option<nat>,
                         connection: Option<nat>, realm: Option<string>)

  predicate Matches(scope: Scope, l: Labels) {
    && (scope.organization.None? || scope.organization.value == l.organization)
    && (scope.project.None? || scope.project.value == l.project)
    && (scope.environment.None? || scope.environment.value == l.environment)
    && (scope.connection.None? || scope.connection.value == l.connection)
    && (scope.realm.None? || scope.realm.value == l.realm)
  }

  // The group of an answer: one organization and one window.
  datatype Slot = Slot(organization: nat, window: nat)
  datatype Group = Group(slot: Slot, cells: seq<nat>)
  datatype Query = Query(scope: Scope, from: nat, to: nat, step: nat)

  // WHERE on the stored time, GROUP BY organization and date_bin of that time
  predicate InSlot(r: Row, q: Query, slot: Slot)
    requires q.step > 0
  {
    && Matches(q.scope, r.labels) && q.from <= r.at < q.to
    && r.labels.organization == slot.organization && Bin(r.at, q.step) == slot.window
  }

  function RowsOf(q: Query, slot: Slot): Row -> bool
    requires q.step > 0
  {
    (r: Row) => InSlot(r, q, slot)
  }

  predicate HasSlot(table: seq<Row>, q: Query, slot: Slot)
    requires q.step > 0
  {
    exists i :: 0 <= i < |table| && InSlot(table[i], q, slot)
  }

  predicate Precedes(a: Slot, b: Slot) {
    a.window < b.window || (a.window == b.window && a.organization < b.organization)
  }

  ghost predicate Ordered(answer: seq<Group>) {
    forall i, j :: 0 <= i < j < |answer| ==> Precedes(answer[i].slot, answer[j].slot)
  }

  ghost predicate Answers(g: Group, table: seq<Row>, q: Query)
    requires q.step > 0
  {
    && HasSlot(table, q, g.slot) && |g.cells| == CELLS
    && forall c :: 0 <= c < CELLS ==> g.cells[c] == Fold(QueryOp(c), table, RowsOf(q, g.slot), c)
  }

  ghost predicate HasGroup(answer: seq<Group>, slot: Slot) {
    exists i :: 0 <= i < |answer| && answer[i].slot == slot
  }

  // What the database returns for a query, before LIMIT.
  ghost predicate IsAnswer(answer: seq<Group>, table: seq<Row>, q: Query)
    requires q.step > 0
  {
    && Ordered(answer)
    && (forall i :: 0 <= i < |answer| ==> Answers(answer[i], table, q))
    && (forall slot :: HasSlot(table, q, slot) ==> HasGroup(answer, slot))
  }

  // Someone else's row, or one from another time.
  ghost predicate Foreign(q: Query, r: Row) {
    || (exists o :: q.scope.organization == Some(o) && r.labels.organization != o)
    || (exists p :: q.scope.project == Some(p) && r.labels.project != p)
    || (exists e :: q.scope.environment == Some(e) && r.labels.environment != e)
    || (exists c :: q.scope.connection == Some(c) && r.labels.connection != c)
    || (exists name :: q.scope.realm == Some(name) && r.labels.realm != name)
    || r.at < q.from || q.to <= r.at
  }

  // A row is in an answer exactly when it is not foreign, and then in the group of its organization and window.
  lemma ShownExactly(q: Query, r: Row, slot: Slot)
    requires q.step > 0
    ensures InSlot(r, q, slot) <==> !Foreign(q, r) && slot == Slot(r.labels.organization, Bin(r.at, q.step))
  {
  }

  // So what others store changes no number of an answer.
  lemma ForeignRowsDoNotShow(q: Query, rows: seq<Row>, r: Row, g: Group)
    requires q.step > 0 && Foreign(q, r)
    ensures Answers(g, rows + [r], q) <==> Answers(g, rows, q)
  {
    var longer := rows + [r];
    assert longer[..|rows|] == rows;
    ShownExactly(q, r, g.slot);
    assert forall i :: 0 <= i < |rows| ==> longer[i] == rows[i];
    assert HasSlot(longer, q, g.slot) <==> HasSlot(rows, q, g.slot);
  }

  predicate Aligned(q: Query)
    requires q.step > 0
  {
    Bin(q.from, q.step) == q.from && Bin(q.to, q.step) == q.to
  }

  lemma BinBounds(at: nat, step: nat, edge: nat)
    requires step > 0 && Bin(edge, step) == edge
    ensures edge <= at <==> edge <= Bin(at, step)
  {
    if edge <= at {
      ModOfSum(edge, at - edge, step);
      ModAtMost(at - edge, step);
    }
  }

  predicate KeyInSlot(k: Key, q: Query, slot: Slot) {
    && Matches(q.scope, k.labels) && q.from <= k.window < q.to
    && k.labels.organization == slot.organization && k.window == slot.window
  }

  function KeysIn(q: Query, slot: Slot): Key -> bool {
    (k: Key) => KeyInSlot(k, q, slot)
  }

  // With an aligned range the query selects whole windows, so it can be read off the keys.
  lemma SelectsByKey(r: Row, q: Query, slot: Slot)
    requires q.step > 0 && Aligned(q)
    ensures InSlot(r, q, slot) <==> KeyInSlot(KeyOf(r, q.step), q, slot)
  {
    BinBounds(r.at, q.step, q.from);
    BinBounds(r.at, q.step, q.to);
  }

  lemma FoldByKey(op: Op, table: seq<Row>, q: Query, slot: Slot, c: nat)
    requires q.step > 0 && Aligned(q)
    ensures Fold(op, table, RowsOf(q, slot), c) == Fold(op, table, ByKey(q.step, KeysIn(q, slot)), c)
  {
    forall i | 0 <= i < |table|
      ensures RowsOf(q, slot)(table[i]) == ByKey(q.step, KeysIn(q, slot))(table[i])
    {
      SelectsByKey(table[i], q, slot);
    }
    FoldAgrees(op, table, RowsOf(q, slot), ByKey(q.step, KeysIn(q, slot)), c);
  }

  // Two groups that decode alike: equal cells, except that only the sign of a presence count matters.
  ghost predicate Alike(a: Group, b: Group) {
    && a.slot == b.slot && |a.cells| == |b.cells| == CELLS
    && forall c :: 0 <= c < CELLS ==>
         if IsPresence(c) then a.cells[c] > 0 <==> b.cells[c] > 0 else a.cells[c] == b.cells[c]
  }

  // Reading a window from the materialized table instead of the canonical one.
  lemma MaterializedGroup(a: Group, b: Group, table: seq<Row>, rows: seq<Row>, q: Query)
    requires q.step > 0 && Aligned(q) && Materialized(table, rows, q.step)
    requires Answers(a, table, q) && Answers(b, rows, q) && a.slot == b.slot
    ensures Alike(a, b)
  {
    forall c | 0 <= c < CELLS
      ensures if IsPresence(c) then a.cells[c] > 0 <==> b.cells[c] > 0 else a.cells[c] == b.cells[c]
    {
      FoldByKey(QueryOp(c), table, q, a.slot, c);
      FoldByKey(QueryOp(c), rows, q, a.slot, c);
      if IsPresence(c) {
        MaterializedPresence(table, rows, q.step, KeysIn(q, a.slot), c);
      } else {
        MaterializedFold(table, rows, q.step, KeysIn(q, a.slot), c);
      }
    }
  }

  lemma MaterializedSlots(table: seq<Row>, rows: seq<Row>, q: Query, slot: Slot)
    requires q.step > 0 && Aligned(q) && Materialized(table, rows, q.step)
    ensures HasSlot(table, q, slot) <==> HasSlot(rows, q, slot)
  {
    SlotCarriesOver(table, rows, q, slot);
    SlotCarriesOver(rows, table, q, slot);
  }

  lemma SlotCarriesOver(these: seq<Row>, those: seq<Row>, q: Query, slot: Slot)
    requires q.step > 0 && Aligned(q) && Covers(those, these, q.step)
    ensures HasSlot(these, q, slot) ==> HasSlot(those, q, slot)
  {
    if HasSlot(these, q, slot) {
      var i :| 0 <= i < |these| && InSlot(these[i], q, slot);
      assert HasKey(those, q.step, KeyOf(these[i], q.step));
      var j :| 0 <= j < |those| && KeyOf(those[j], q.step) == KeyOf(these[i], q.step);
      SelectsByKey(these[i], q, slot);
      SelectsByKey(those[j], q, slot);
    }
  }

  // ------------------------------------------------------------ splitting at the current window

  // The start of the current window, in milliseconds.
  function CurrentWindowStart(nowSeconds: nat, widthSeconds: nat): nat
    requires widthSeconds > 0
  {
    nowSeconds / widthSeconds * widthSeconds * 1_000
  }

  lemma BoundaryIsAligned(nowSeconds: nat, widthSeconds: nat)
    requires widthSeconds > 0
    ensures Bin(CurrentWindowStart(nowSeconds, widthSeconds), widthSeconds * 1_000)
         == CurrentWindowStart(nowSeconds, widthSeconds)
    ensures CurrentWindowStart(nowSeconds, widthSeconds) <= nowSeconds * 1_000
          < CurrentWindowStart(nowSeconds, widthSeconds) + widthSeconds * 1_000
  {
    var n := nowSeconds / widthSeconds;
    assert nowSeconds == n * widthSeconds + nowSeconds % widthSeconds;
    assert n * widthSeconds * 1_000 == n * (widthSeconds * 1_000);
    UniqueRemainder(n * (widthSeconds * 1_000), n, 0, widthSeconds * 1_000);
  }

  function Finalized(q: Query, boundary: nat): Query {
    q.(to := Min(q.to, boundary))
  }

  function Live(q: Query, boundary: nat): Query {
    q.(from := Max(q.from, boundary))
  }

  lemma SplitSlots(rows: seq<Row>, q: Query, boundary: nat, slot: Slot)
    requires q.step > 0 && Aligned(q) && Bin(boundary, q.step) == boundary
    ensures HasSlot(rows, Finalized(q, boundary), slot) <==> HasSlot(rows, q, slot) && slot.window < boundary
    ensures HasSlot(rows, Live(q, boundary), slot) <==> HasSlot(rows, q, slot) && slot.window >= boundary
  {
    forall i | 0 <= i < |rows|
      ensures InSlot(rows[i], Finalized(q, boundary), slot) <==> InSlot(rows[i], q, slot) && slot.window < boundary
      ensures InSlot(rows[i], Live(q, boundary), slot) <==> InSlot(rows[i], q, slot) && slot.window >= boundary
    {
      BinBounds(rows[i].at, q.step, boundary);
    }
  }

  lemma SplitGroup(g: Group, rows: seq<Row>, q: Query, boundary: nat)
    requires q.step > 0 && Aligned(q) && Bin(boundary, q.step) == boundary && Answers(g, rows, q)
    ensures g.slot.window < boundary ==> Answers(g, rows, Finalized(q, boundary))
    ensures g.slot.window >= boundary ==> Answers(g, rows, Live(q, boundary))
  {
    SplitSlots(rows, q, boundary, g.slot);
    var part := if g.slot.window < boundary then Finalized(q, boundary) else Live(q, boundary);
    forall i | 0 <= i < |rows|
      ensures RowsOf(q, g.slot)(rows[i]) == RowsOf(part, g.slot)(rows[i])
    {
      BinBounds(rows[i].at, q.step, boundary);
    }
    forall c | 0 <= c < CELLS
      ensures g.cells[c] == Fold(QueryOp(c), rows, RowsOf(part, g.slot), c)
    {
      FoldAgrees(QueryOp(c), rows, RowsOf(q, g.slot), RowsOf(part, g.slot), c);
    }
  }

  lemma HasGroupOfFront(answer: seq<Group>, slot: Slot)
    requires Ordered(answer) && answer != []
    ensures var n := |answer| - 1;
            && (HasGroup(answer[..n], slot) <==> HasGroup(answer, slot) && slot != answer[n].slot)
            && Ordered(answer[..n])
            && (HasGroup(answer, slot) ==> slot == answer[n].slot || Precedes(slot, answer[n].slot))
  {
    var n := |answer| - 1;
    assert forall i :: 0 <= i < n ==> answer[..n][i] == answer[i];
  }

  // An ordered answer is determined by its slots.
  lemma {:induction false} SameSlotsSameOrder(a: seq<Group>, b: seq<Group>)
    requires Ordered(a) && Ordered(b)
    requires forall slot :: HasGroup(a, slot) <==> HasGroup(b, slot)
    ensures |a| == |b| && forall i :: 0 <= i < |a| ==> a[i].slot == b[i].slot
  {
    if a == [] {
      assert b != [] ==> HasGroup(b, b[0].slot);
    } else {
      var m, n := |a| - 1, |b| - 1;
      assert HasGroup(a, a[m].slot);
      HasGroupOfFront(b, a[m].slot);
      assert HasGroup(b, b[n].slot);
      HasGroupOfFront(a, b[n].slot);
      assert a[m].slot == b[n].slot;
      forall slot ensures HasGroup(a[..m], slot) <==> HasGroup(b[..n], slot) {
        HasGroupOfFront(a, slot);
        HasGroupOfFront(b, slot);
      }
      SameSlotsSameOrder(a[..m], b[..n]);
    }
  }

  // The two parts of the query, with the assumptions under which they are read.
  ghost predicate SplitRead(q: Query, boundary: nat, table: seq<Row>, rows: seq<Row>,
                            finalized: seq<Group>, live: seq<Group>)
    requires q.step > 0
  {
    && Aligned(q) && Bin(boundary, q.step) == boundary && Materialized(table, rows, q.step)
    && IsAnswer(finalized, table, Finalized(q, boundary)) && IsAnswer(live, rows, Live(q, boundary))
  }

  lemma PartsAreOrdered(q: Query, boundary: nat, table: seq<Row>, rows: seq<Row>,
                        finalized: seq<Group>, live: seq<Group>)
    requires q.step > 0 && SplitRead(q, boundary, table, rows, finalized, live)
    ensures Ordered(finalized + live)
    ensures forall i :: 0 <= i < |finalized| ==> finalized[i].slot.window < boundary
    ensures forall i :: 0 <= i < |live| ==> live[i].slot.window >= boundary
  {
    forall i | 0 <= i < |finalized|
      ensures finalized[i].slot.window < boundary
    {
      MaterializedSlots(table, rows, Finalized(q, boundary), finalized[i].slot);
      SplitSlots(rows, q, boundary, finalized[i].slot);
    }
    forall i | 0 <= i < |live|
      ensures live[i].slot.window >= boundary
    {
      SplitSlots(rows, q, boundary, live[i].slot);
    }
  }

  lemma PartsHaveTheSlots(q: Query, boundary: nat, table: seq<Row>, rows: seq<Row>,
                          finalized: seq<Group>, live: seq<Group>, slot: Slot)
    requires q.step > 0 && SplitRead(q, boundary, table, rows, finalized, live)
    ensures HasGroup(finalized + live, slot) <==> HasSlot(rows, q, slot)
  {
    MaterializedSlots(table, rows, Finalized(q, boundary), slot);
    SplitSlots(rows, q, boundary, slot);
    var both := finalized + live;
    assert forall i :: 0 <= i < |finalized| ==> both[i] == finalized[i];
    assert forall i :: 0 <= i < |live| ==> both[|finalized| + i] == live[i];
    assert HasGroup(both, slot) <==> HasGroup(finalized, slot) || HasGroup(live, slot);
  }

  // Reading finalized windows from the materialized table and the current one from the canonical table gives,
  // group for group, what one query over the canonical table gives.
  lemma SplitIsTheDirectQuery(q: Query, boundary: nat, table: seq<Row>, rows: seq<Row>,
                              finalized: seq<Group>, live: seq<Group>, direct: seq<Group>)
    requires q.step > 0 && SplitRead(q, boundary, table, rows, finalized, live) && IsAnswer(direct, rows, q)
    ensures |finalized + live| == |direct|
    ensures forall i :: 0 <= i < |direct| ==> Alike((finalized + live)[i], direct[i])
  {
    var both := finalized + live;
    PartsAreOrdered(q, boundary, table, rows, finalized, live);
    forall slot ensures HasGroup(both, slot) <==> HasGroup(direct, slot) {
      PartsHaveTheSlots(q, boundary, table, rows, finalized, live, slot);
    }
    SameSlotsSameOrder(both, direct);
    forall i | 0 <= i < |direct|
      ensures Alike(both[i], direct[i])
    {
      SplitGroup(direct[i], rows, q, boundary);
      if i < |finalized| {
        assert Answers(both[i], table, Finalized(q, boundary));
        MaterializedGroup(both[i], direct[i], table, rows, Finalized(q, boundary));
      } else {
        assert Answers(both[i], rows, Live(q, boundary));
      }
    }
  }

  lemma AlikeIsReadAlike(a: Group, b: Group, c: nat)
    requires Alike(a, b) && c < CELLS
    ensures IsRead(a.cells, c) <==> IsRead(b.cells, c)
  {
    assert a.cells[PresenceOf(c)] > 0 <==> b.cells[PresenceOf(c)] > 0;
  }

  lemma AlikeIsReadable(a: Group, b: Group)
    requires Alike(a, b) && Readable(a.cells)
    requires forall c :: 0 <= c < CELLS && IsPresence(c) ==> b.cells[c] <= U64_MAX
    ensures Readable(b.cells)
  {
    forall c | 0 <= c < CELLS && IsRead(b.cells, c)
      ensures b.cells[c] <= U64_MAX
    {
      AlikeIsReadAlike(a, b, c);
    }
  }

  // Groups that are alike decode to the same record.
  lemma AlikeDecodesTheSame(a: Group, b: Group, window: i64, step: nat)
    requires Alike(a, b) && step / 1_000 <= U32_MAX
    requires forall c :: 0 <= c < CELLS && IsPresence(c) ==> a.cells[c] <= U64_MAX && b.cells[c] <= U64_MAX
    ensures Decode(a.cells, window, step) == Decode(b.cells, window, step)
  {
    if Readable(a.cells) {
      AlikeIsReadable(a, b);
      ReadAlike(a, b, ReadCells(a.cells), ReadCells(b.cells));
      OnlyReadCellsMatter(ReadCells(a.cells), ReadCells(b.cells), window, step);
    } else if Readable(b.cells) {
      AlikeIsReadable(b, a);
      assert false;
    }
  }

  lemma ReadAlike(a: Group, b: Group, v: seq<u64>, w: seq<u64>)
    requires Alike(a, b) && Readable(a.cells) && Readable(b.cells) && v == ReadCells(a.cells) && w == ReadCells(b.cells)
    ensures forall c :: 0 <= c < CELLS && IsPresence(c) ==> (v[c] > 0 <==> w[c] > 0)
    ensures forall c :: 0 <= c < CELLS && !IsPresence(c) && IsRead(v, c) ==> v[c] == w[c]
  {
    forall c | 0 <= c < CELLS
      ensures IsPresence(c) ==> (v[c] > 0 <==> w[c] > 0)
      ensures !IsPresence(c) && IsRead(v, c) ==> v[c] == w[c]
    {
      AlikeIsReadAlike(a, b, c);
      assert IsRead(a.cells, PresenceOf(c)) && v[PresenceOf(c)] == a.cells[PresenceOf(c)];
    }
  }

  // ------------------------------------------------------------ the row limit

  function Limited(answer: seq<Group>): seq<Group> {
    answer[..Min(|answer|, MAX_QUERY_RECORDS)]
  }

  function InsertByWindow(g: Group, sorted: seq<Group>): seq<Group> {
    if sorted == [] || g.slot.window <= sorted[0].slot.window then [g] + sorted
    else [sorted[0]] + InsertByWindow(g, sorted[1..])
  }

  function SortByWindow(gs: seq<Group>): seq<Group> {
    if gs == [] then [] else InsertByWindow(gs[|gs| - 1], SortByWindow(gs[..|gs| - 1]))
  }

  ghost predicate ByWindow(gs: seq<Group>) {
    forall i, j :: 0 <= i < j < |gs| ==> gs[i].slot.window <= gs[j].slot.window
  }

  lemma {:induction false} InsertOrders(g: Group, sorted: seq<Group>, low: int)
    requires ByWindow(sorted) && low <= g.slot.window && forall i :: 0 <= i < |sorted| ==> low <= sorted[i].slot.window
    ensures ByWindow(InsertByWindow(g, sorted))
    ensures forall i :: 0 <= i < |InsertByWindow(g, sorted)| ==> low <= InsertByWindow(g, sorted)[i].slot.window
  {
    if sorted != [] && g.slot.window > sorted[0].slot.window {
      InsertOrders(g, sorted[1..], sorted[0].slot.window);
    }
  }

  lemma {:induction false} SortOrders(gs: seq<Group>)
    ensures ByWindow(SortByWindow(gs))
  {
    if gs != [] {
      var init, last := SortByWindow(gs[..|gs| - 1]), gs[|gs| - 1];
      SortOrders(gs[..|gs| - 1]);
      InsertOrders(last, init, if init == [] then last.slot.window else Min(init[0].slot.window, last.slot.window));
    }
  }

  lemma {:induction false} InsertKeepsGroups(g: Group, sorted: seq<Group>)
    ensures multiset(InsertByWindow(g, sorted)) == multiset(sorted) + multiset{g}
  {
    if sorted != [] && g.slot.window > sorted[0].slot.window {
      InsertKeepsGroups(g, sorted[1..]);
      assert sorted == [sorted[0]] + sorted[1..];
    }
  }

  lemma {:induction false} SortKeepsGroups(gs: seq<Group>)
    ensures multiset(SortByWindow(gs)) == multiset(gs)
  {
    if gs != [] {
      var n := |gs| - 1;
      SortKeepsGroups(gs[..n]);
      InsertKeepsGroups(gs[n], SortByWindow(gs[..n]));
      assert gs == gs[..n] + [gs[n]];
    }
  }

  // The combined read: both parts under LIMIT, sorted by window, refused when they are too many together.
  method QueryRollups(q: Query, boundary: nat, finalized: seq<Group>, live: seq<Group>,
                      ghost table: seq<Row>, ghost rows: seq<Row>) returns (r: Option<seq<Group>>)
    requires q.step > 0 && SplitRead(q, boundary, table, rows, finalized, live)
    ensures r.Some? <==> |Limited(finalized)| + |Limited(live)| <= MAX_QUERY_RECORDS
    ensures r.Some? ==> multiset(r.value) == multiset(Limited(finalized)) + multiset(Limited(live)) && ByWindow(r.value)
  {
    var records := [];
    if q.from < Min(q.to, boundary) {
      records := records + Limited(finalized);
    } else {
      NoWindows(finalized, table, Finalized(q, boundary));
    }
    if Max(q.from, boundary) < q.to {
      records := records + Limited(live);
    } else {
      NoWindows(live, rows, Live(q, boundary));
    }
    assert records == Limited(finalized) + Limited(live);
    SortKeepsGroups(records);
    SortOrders(records);
    var sorted := SortByWindow(records);
    SameSize(sorted, records);
    if |sorted| > MAX_QUERY_RECORDS {
      return None;
    }
    return Some(sorted);
  }

  lemma SameSize(a: seq<Group>, b: seq<Group>)
    ensures multiset(a) == multiset(b) ==> |a| == |b|
  {
    assert |multiset(a)| == |a| && |multiset(b)| == |b|;
  }

  lemma NoWindows(answer: seq<Group>, table: seq<Row>, q: Query)
    requires q.step > 0 && IsAnswer(answer, table, q) && q.from >= q.to
    ensures answer == []
  {
    assert answer != [] ==> Answers(answer[0], table, q);
  }

  // The limit drops nothing exactly when the whole answer has at most that many groups.
  lemma CompleteExactlyUnderTheLimit(finalized: seq<Group>, live: seq<Group>, r: Option<seq<Group>>)
    requires r.Some? <==> |Limited(finalized)| + |Limited(live)| <= MAX_QUERY_RECORDS
    requires r.Some? ==> multiset(r.value) == multiset(Limited(finalized)) + multiset(Limited(live))
    ensures r.Some? && multiset(r.value) == multiset(finalized + live)
       <==> |finalized + live| <= MAX_QUERY_RECORDS
  {
    var got := if r.Some? then r.value else [];
    SameSize(got, Limited(finalized) + Limited(live));
    SameSize(got, finalized + live);
    if |finalized + live| <= MAX_QUERY_RECORDS {
      assert Limited(finalized) == finalized && Limited(live) == live;
    }
  }

  // ------------------------------------------------------------ rows of accepted buckets

  ghost predicate Stored(rows: seq<Row>, bs: seq<TelemetryBucket>) {
    && |rows| == |bs| && AllValid(bs)
    && forall i :: 0 <= i < |rows| ==> rows[i].cells == Cells(bs[i]) && rows[i].at == bs[i].start
  }

  function Pick(rows: seq<Row>, bs: seq<TelemetryBucket>, keep: Row -> bool): seq<TelemetryBucket>
    requires |rows| == |bs|
  {
    if rows == [] then []
    else
      var n := |rows| - 1;
      var front := Pick(rows[..n], bs[..n], keep);
      if keep(rows[n]) then front + [bs[n]] else front
  }

  lemma StoredPrefix(rows: seq<Row>, bs: seq<TelemetryBucket>, n: nat)
    requires Stored(rows, bs) && n <= |rows|
    ensures Stored(rows[..n], bs[..n])
  {
    assert forall i :: 0 <= i < n ==> rows[..n][i] == rows[i] && bs[..n][i] == bs[i];
  }

  lemma {:induction false} PickedMembers(rows: seq<Row>, bs: seq<TelemetryBucket>, keep: Row -> bool,
                                         picked: seq<TelemetryBucket>)
    requires |rows| == |bs| && picked == Pick(rows, bs, keep)
    ensures forall i :: 0 <= i < |picked| ==> picked[i] in bs
    ensures (exists i :: 0 <= i < |rows| && keep(rows[i])) ==> picked != []
  {
    if rows != [] {
      var n := |rows| - 1;
      PickedMembers(rows[..n], bs[..n], keep, Pick(rows[..n], bs[..n], keep));
      assert forall i :: 0 <= i < n ==> rows[..n][i] == rows[i];
    }
  }

  lemma {:induction false} PickedProfile(rows: seq<Row>, bs: seq<TelemetryBucket>, keep: Row -> bool,
                                         picked: seq<TelemetryBucket>)
    requires Stored(rows, bs) && picked == Pick(rows, bs, keep)
    ensures Fold(Larger, rows, keep, PROFILE_CELL) == if CellSum(picked, 0) > 0 then PROFILE_INTERACTIVE else 0
  {
    if rows != [] {
      var n := |rows| - 1;
      var front := Pick(rows[..n], bs[..n], keep);
      StoredPrefix(rows, bs, n);
      PickedProfile(rows[..n], bs[..n], keep, front);
      assert ValidBucket(bs[n]);
      ProfileOf(bs[n]);
      CellSumExtends(front, bs[n], 0);
    }
  }

  lemma ProfileOf(b: TelemetryBucket)
    requires ValidBucket(b)
    ensures Cells(b)[PROFILE_CELL] == if b.authentication.Some? then PROFILE_INTERACTIVE else 0
    ensures Cells(b)[0] == Bit(b.authentication.Some?)
  {
  }

  lemma {:induction false} FoldIsCellSum(rows: seq<Row>, bs: seq<TelemetryBucket>, keep: Row -> bool, c: nat,
                                         picked: seq<TelemetryBucket>)
    requires Stored(rows, bs) && c < CELLS && picked == Pick(rows, bs, keep)
    ensures Fold(Add, rows, keep, c) == CellSum(picked, c)
  {
    if rows != [] {
      var n := |rows| - 1;
      var front := Pick(rows[..n], bs[..n], keep);
      StoredPrefix(rows, bs, n);
      FoldIsCellSum(rows[..n], bs[..n], keep, c, front);
      CellSumExtends(front, bs[n], c);
    }
  }

  lemma GroupIsAggregatedFrom(g: Group, rows: seq<Row>, bs: seq<TelemetryBucket>, q: Query,
                              picked: seq<TelemetryBucket>)
    requires q.step > 0 && Stored(rows, bs) && Answers(g, rows, q) && picked == Pick(rows, bs, RowsOf(q, g.slot))
    ensures picked != [] && AllValid(picked) && AggregatedFrom(g.cells, picked)
    ensures g.cells[PROFILE_CELL] == if g.cells[0] > 0 then PROFILE_INTERACTIVE else 0
  {
    var keep := RowsOf(q, g.slot);
    PickedMembers(rows, bs, keep, picked);
    MembersAreValid(picked, bs);
    PickedProfile(rows, bs, keep, picked);
    forall c | 0 <= c < CELLS && c != PROFILE_CELL
      ensures g.cells[c] == CellSum(picked, c)
    {
      FoldIsCellSum(rows, bs, keep, c, picked);
    }
    var i :| 0 <= i < |rows| && InSlot(rows[i], q, g.slot);
    assert keep(rows[i]);
  }

  // The records of a rollup query go back through the bucket contract when an overview or a series is computed.
  // They pass exactly when the step is five minutes and the window saw no authentication attempt, no webhook
  // metrics and no platform metrics (and no total is past the counter bound); any other record fails the call.
  lemma RollupRecordIsValidExactly(g: Group, rows: seq<Row>, bs: seq<TelemetryBucket>, q: Query)
    requires q.step == 300_000 || q.step == 3_600_000 || q.step == 86_400_000
    requires Stored(rows, bs) && Answers(g, rows, q)
    requires ValidStart(g.slot.window) && g.slot.window < 0x8000_0000_0000_0000
    requires forall c :: 0 <= c < CELLS ==> g.cells[c] <= U64_MAX
    ensures var record := Decode(g.cells, g.slot.window, q.step);
            && record.Some?
            && (ValidBucket(record.value)
                <==> q.step == 300_000 && Total(Pick(rows, bs, RowsOf(q, g.slot)), 0) == 0
                     && g.cells[WEBHOOKS_CELL] == 0 && g.cells[PLATFORM_CELL] == 0 && SmallCounters(g.cells))
  {
    var picked := Pick(rows, bs, RowsOf(q, g.slot));
    GroupIsAggregatedFrom(g, rows, bs, q, picked);
    DecodedRowIsValidExactly(picked, g.cells, g.slot.window, q.step);
  }
}

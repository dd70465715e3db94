/**
 The coverage ratchet (scripts/check_coverage_ratchet.py): the equality gate,
 the accept step that may only lower a budget, waivers, and the command line
 over whole histories of invocations.
 */
module Ratchet {
  import opened Ordering
  import opened RunRecord

  const MIN_REASON_CHARS := 80
  const EXIT_OK := 0
  const EXIT_FAIL := 1
  const EXIT_REFUSED := 2

  /** One area on one run; `Uncovered` is the ratcheted number. */
  datatype Measurement = Measurement(area: string, files: nat, executed: nat, missing: nat, partialBranches: nat, suppressed: nat) {
    function Uncovered(): nat { missing + partialBranches + suppressed }
  }

  datatype Waiver = Waiver(ceiling: int, reason: string)

  type Budgets = map<string, int>
  type Waivers = map<string, Waiver>

  predicate LongReason(reason: string) {
    |Strip(reason)| >= MIN_REASON_CHARS
  }

  /** Every missing line, partial branch and suppressed line counts once, and nothing
      else does. */
  lemma EveryUnitCountsOnce(r: Measurement)
    ensures r.(missing := r.missing + 1).Uncovered() == r.Uncovered() + 1
    ensures r.(partialBranches := r.partialBranches + 1).Uncovered() == r.Uncovered() + 1
    ensures r.(suppressed := r.suppressed + 1).Uncovered() == r.Uncovered() + 1
    ensures r.missing == 0 && r.partialBranches == 0 && r.suppressed == 0 ==> r.Uncovered() == 0
  {
  }

  ghost predicate DistinctAreas(rows: seq<Measurement>) {
    forall i, j :: 0 <= i < j < |rows| ==> rows[i].area != rows[j].area
  }

  function AreasOf(rows: seq<Measurement>): set<string> {
    set r | r in rows :: r.area
  }

  /** The measured numbers, by area. */
  function Measured(rows: seq<Measurement>): Budgets {
    if rows == [] then map[] else Measured(rows[..|rows| - 1])[rows[|rows| - 1].area := rows[|rows| - 1].Uncovered()]
  }

  lemma {:induction false} MeasuredIs(rows: seq<Measurement>)
    ensures Measured(rows).Keys == AreasOf(rows)
    ensures DistinctAreas(rows) ==> forall r :: r in rows ==> r.area in Measured(rows) && Measured(rows)[r.area] == r.Uncovered()
  {
    if rows != [] {
      var last := |rows| - 1;
      MeasuredIs(rows[..last]);
      assert forall r :: r in rows <==> r in rows[..last] || r == rows[last];
    }
  }

  // ----- the gate -----------------------------------------------------------------------

  datatype GateFailure =
    | NoBudget(area: string)
    | Regressed(area: string, measured: int, budget: int)
    | Slack(area: string, measured: int, budget: int)
    | Orphan(area: string)

  ghost predicate RowFailure(r: Measurement, budgets: Budgets, f: GateFailure) {
    if r.area !in budgets then f == NoBudget(r.area)
    else if r.Uncovered() > budgets[r.area] then f == Regressed(r.area, r.Uncovered(), budgets[r.area])
    else r.Uncovered() < budgets[r.area] && f == Slack(r.area, r.Uncovered(), budgets[r.area])
  }

  ghost predicate IsGateFailure(rows: seq<Measurement>, budgets: Budgets, f: GateFailure) {
    (exists r :: r in rows && RowFailure(r, budgets, f)) ||
    (f.Orphan? && f.area in budgets && f.area !in AreasOf(rows))
  }

  ghost predicate AtFloor(rows: seq<Measurement>, budgets: Budgets) {
    (forall r :: r in rows ==> r.area in budgets && budgets[r.area] == r.Uncovered()) && budgets.Keys <= AreasOf(rows)
  }

  /** The row's lines, branches and suppressions add up to `n`. */
  ghost predicate Measures(r: Measurement, n: int) {
    n == r.missing + r.partialBranches + r.suppressed
  }

  /** The same, read off the rows and the file. */
  ghost predicate GateSays(rows: seq<Measurement>, budgets: Budgets, f: GateFailure) {
    match f
    case NoBudget(a) => a !in budgets && exists r :: r in rows && r.area == a
    case Regressed(a, n, b) => a in budgets && budgets[a] == b && n > b && exists r :: r in rows && r.area == a && Measures(r, n)
    case Slack(a, n, b) => a in budgets && budgets[a] == b && n < b && exists r :: r in rows && r.area == a && Measures(r, n)
    case Orphan(a) => a in budgets && forall r :: r in rows ==> r.area != a
  }

  lemma GateSaysIff(rows: seq<Measurement>, budgets: Budgets, f: GateFailure)
    ensures IsGateFailure(rows, budgets, f) <==> GateSays(rows, budgets, f)
  {
    match f
    case NoBudget(a) =>
      if r :| r in rows && r.area == a { assert a !in budgets ==> RowFailure(r, budgets, f); }
    case Regressed(a, n, b) =>
      if r :| r in rows && r.area == a && Measures(r, n) { assert a in budgets && budgets[a] == b && n > b ==> RowFailure(r, budgets, f); }
    case Slack(a, n, b) =>
      if r :| r in rows && r.area == a && Measures(r, n) { assert a in budgets && budgets[a] == b && n < b ==> RowFailure(r, budgets, f); }
    case Orphan(a) =>
  }

  /** `evaluate`: measured == budget, in both directions. */
  method EvaluateGate(rows: seq<Measurement>, budgets: Budgets) returns (failures: seq<GateFailure>)
    ensures forall f :: f in failures <==> GateSays(rows, budgets, f)
    ensures forall f :: f in failures <==> IsGateFailure(rows, budgets, f)
    ensures failures == [] <==> AtFloor(rows, budgets)
  {
    failures := [];
    for i := 0 to |rows|
      invariant forall f :: f in failures <==> exists j :: 0 <= j < i && RowFailure(rows[j], budgets, f)
    {
      var r := rows[i];
      if r.area !in budgets {
        failures := failures + [NoBudget(r.area)];
        continue;
      }
      var budget := budgets[r.area];
      if r.Uncovered() > budget {
        failures := failures + [Regressed(r.area, r.Uncovered(), budget)];
      } else if r.Uncovered() < budget {
        failures := failures + [Slack(r.area, r.Uncovered(), budget)];
      }
    }
    ghost var first := failures;
    assert forall f :: f in first <==> exists r :: r in rows && RowFailure(r, budgets, f);
    var orphans := SortedNames(budgets.Keys - AreasOf(rows));
    for i := 0 to |orphans|
      invariant forall f :: f in failures <==> (f in first || (f.Orphan? && f.area in orphans[..i]))
    {
      assert orphans[..i + 1] == orphans[..i] + [orphans[i]];
      failures := failures + [Orphan(orphans[i])];
    }
    assert orphans[..|orphans|] == orphans;
    forall f ensures f in failures <==> GateSays(rows, budgets, f) { GateSaysIff(rows, budgets, f); }
    GreenIff(rows, budgets);
    if failures != [] {
      assert failures[0] in failures;
    } else {
      forall f ensures !IsGateFailure(rows, budgets, f) { assert f !in failures; }
    }
  }

  lemma GreenIff(rows: seq<Measurement>, budgets: Budgets)
    ensures (forall f :: !IsGateFailure(rows, budgets, f)) <==> AtFloor(rows, budgets)
  {
    if forall f :: !IsGateFailure(rows, budgets, f) {
      forall r | r in rows
        ensures r.area in budgets && budgets[r.area] == r.Uncovered()
      {
        assert !IsGateFailure(rows, budgets, NoBudget(r.area));
        if r.area in budgets {
          assert !IsGateFailure(rows, budgets, Regressed(r.area, r.Uncovered(), budgets[r.area]));
          assert !IsGateFailure(rows, budgets, Slack(r.area, r.Uncovered(), budgets[r.area]));
        }
      }
      forall a | a in budgets ensures a in AreasOf(rows) { assert !IsGateFailure(rows, budgets, Orphan(a)); }
    }
  }

  /** For one row per area, green means: the baseline is the measurement. */
  lemma GreenIsEquality(rows: seq<Measurement>, budgets: Budgets)
    requires DistinctAreas(rows)
    ensures AtFloor(rows, budgets) <==> budgets == Measured(rows)
  {
    MeasuredIs(rows);
    if AtFloor(rows, budgets) {
      assert budgets.Keys == AreasOf(rows) by {
        forall a | a in AreasOf(rows) ensures a in budgets { var r :| r in rows && r.area == a; }
      }
      forall a | a in budgets
        ensures budgets[a] == Measured(rows)[a]
      {
        var r :| r in rows && r.area == a;
      }
    }
  }

  // ----- the accept step -------------------------------------------------------------------

  /** A waiver allows the number: its ceiling is high enough, and its reason long enough to
      be reviewed. */
  ghost predicate Authorized(waivers: Waivers, area: string, n: int) {
    area in waivers && n <= waivers[area].ceiling && |Strip(waivers[area].reason)| >= 80
  }

  ghost predicate Admits(current: Budgets, r: Measurement, waivers: Waivers) {
    r.area !in current || r.Uncovered() <= current[r.area] || Authorized(waivers, r.area, r.Uncovered())
  }

  ghost function NewBudget(current: Budgets, r: Measurement, waivers: Waivers): int {
    if Admits(current, r, waivers) then r.Uncovered() else current[r.area]
  }

  /** The baseline `save_baseline` writes: one entry per row, and nothing else. */
  ghost function Accepted(current: Budgets, rows: seq<Measurement>, waivers: Waivers): Budgets {
    if rows == [] then map[]
    else
      var last := rows[|rows| - 1];
      Accepted(current, rows[..|rows| - 1], waivers)[last.area := NewBudget(current, last, waivers)]
  }

  ghost function Refused(current: Budgets, rows: seq<Measurement>, waivers: Waivers): seq<Measurement> {
    if rows == [] then []
    else
      var last := rows[|rows| - 1];
      Refused(current, rows[..|rows| - 1], waivers) + (if Admits(current, last, waivers) then [] else [last])
  }

  /** The baseline file. */
  class BaselineFile {
    var areas: Budgets

    constructor (initial: Budgets)
      ensures areas == initial
    {
      areas := initial;
    }

    /** `save_baseline`. */
    method Save(rows: seq<Measurement>, waivers: Waivers) returns (refused: seq<Measurement>)
      modifies this
      ensures areas == Accepted(old(areas), rows, waivers)
      ensures refused == Refused(old(areas), rows, waivers)
      ensures forall r :: r in refused <==>
                            r in rows && r.area in old(areas) &&
                            exists n :: Measures(r, n) && n > old(areas)[r.area] && !Authorized(waivers, r.area, n)
    {
      var current := areas;
      var accepted: Budgets := map[];
      refused := [];
      var i := 0;
      while i < |rows|
        invariant 0 <= i <= |rows| && areas == current
        invariant accepted == Accepted(current, rows[..i], waivers)
        invariant refused == Refused(current, rows[..i], waivers)
      {
        var r := rows[i];
        assert rows[..i + 1][..i] == rows[..i] && rows[..i + 1][i] == r;
        i := i + 1;
        var waiver := if r.area in waivers then waivers[r.area] else Waiver(0, "");
        assert Strip("") == "";
        var authorized := r.Uncovered() <= waiver.ceiling && LongReason(waiver.reason);
        if r.area !in current || r.Uncovered() <= current[r.area] || authorized {
          accepted := accepted[r.area := r.Uncovered()];
          continue;
        }
        refused := refused + [r];
        accepted := accepted[r.area := current[r.area]];
      }
      assert rows[..|rows|] == rows;
      AcceptedIs(current, rows, waivers);
      forall r ensures !Admits(current, r, waivers) <==>
                       r.area in current && exists n :: Measures(r, n) && n > current[r.area] && !Authorized(waivers, r.area, n)
      {
        assert Measures(r, r.Uncovered());
      }
      areas := accepted;
    }
  }

  lemma {:induction false} AcceptedIs(current: Budgets, rows: seq<Measurement>, waivers: Waivers)
    ensures Accepted(current, rows, waivers).Keys == AreasOf(rows)
    ensures DistinctAreas(rows) ==>
              forall r :: r in rows ==> r.area in Accepted(current, rows, waivers) && Accepted(current, rows, waivers)[r.area] == NewBudget(current, r, waivers)
    ensures forall r :: r in Refused(current, rows, waivers) <==> r in rows && !Admits(current, r, waivers)
  {
    if rows != [] {
      var last := |rows| - 1;
      AcceptedIs(current, rows[..last], waivers);
      assert forall r :: r in rows <==> r in rows[..last] || r == rows[last];
    }
  }

  /** After an accept, the gate on the same rows fails for exactly the refused
      ones, and for each as a regression against the kept budget. */
  lemma AcceptThenGate(current: Budgets, rows: seq<Measurement>, waivers: Waivers, f: GateFailure)
    requires DistinctAreas(rows)
    ensures IsGateFailure(rows, Accepted(current, rows, waivers), f) <==>
            exists r :: r in Refused(current, rows, waivers) && r.area in current && f == Regressed(r.area, r.Uncovered(), current[r.area])
  {
    AcceptedIs(current, rows, waivers);
    var after := Accepted(current, rows, waivers);
    forall r | r in rows
      ensures RowFailure(r, after, f) <==> r in Refused(current, rows, waivers) && r.area in current && f == Regressed(r.area, r.Uncovered(), current[r.area])
    {
      assert after[r.area] == NewBudget(current, r, waivers);
    }
    assert f.Orphan? ==> !(f.area in after && f.area !in AreasOf(rows));
  }

  /** An accept without refusals leaves the ratchet green. */
  lemma CleanAcceptIsGreen(current: Budgets, rows: seq<Measurement>, waivers: Waivers)
    requires DistinctAreas(rows)
    ensures Refused(current, rows, waivers) == [] <==> AtFloor(rows, Accepted(current, rows, waivers))
  {
    GreenIff(rows, Accepted(current, rows, waivers));
    forall f
      ensures IsGateFailure(rows, Accepted(current, rows, waivers), f) <==>
              exists r :: r in Refused(current, rows, waivers) && r.area in current && f == Regressed(r.area, r.Uncovered(), current[r.area])
    {
      AcceptThenGate(current, rows, waivers, f);
    }
    AcceptedIs(current, rows, waivers);
    if Refused(current, rows, waivers) != [] {
      var r := Refused(current, rows, waivers)[0];
      assert r in Refused(current, rows, waivers);
      assert IsGateFailure(rows, Accepted(current, rows, waivers), Regressed(r.area, r.Uncovered(), current[r.area]));
    }
  }

  /** Repeating an accept changes nothing and refuses the same rows. */
  lemma AcceptIsIdempotent(current: Budgets, rows: seq<Measurement>, waivers: Waivers)
    requires DistinctAreas(rows)
    ensures Accepted(Accepted(current, rows, waivers), rows, waivers) == Accepted(current, rows, waivers)
    ensures forall r :: r in Refused(Accepted(current, rows, waivers), rows, waivers) <==> r in Refused(current, rows, waivers)
  {
    var once := Accepted(current, rows, waivers);
    var twice := Accepted(once, rows, waivers);
    AcceptedIs(current, rows, waivers);
    AcceptedIs(once, rows, waivers);
    forall a | a in once
      ensures twice[a] == once[a]
    {
      var r :| r in rows && r.area == a;
      assert once[a] == NewBudget(current, r, waivers);
      assert twice[a] == NewBudget(once, r, waivers);
    }
  }

  /** What one accept does to the budgets there are: each is kept, lowered or raised
      under a waiver, if and only if no area has left the list. */
  lemma AcceptKeepsIff(current: Budgets, rows: seq<Measurement>, waivers: Waivers)
    requires DistinctAreas(rows)
    ensures (forall a :: a in current ==>
              && a in Accepted(current, rows, waivers)
              && (Accepted(current, rows, waivers)[a] <= current[a] || Authorized(waivers, a, Accepted(current, rows, waivers)[a])))
            <==> current.Keys <= AreasOf(rows)
  {
    AcceptedIs(current, rows, waivers);
    var after := Accepted(current, rows, waivers);
    if current.Keys <= AreasOf(rows) {
      forall a | a in current
        ensures a in after && (after[a] <= current[a] || Authorized(waivers, a, after[a]))
      {
        assert a in AreasOf(rows);
        var r :| r in rows && r.area == a;
        assert after[a] == NewBudget(current, r, waivers);
      }
    }
  }

  // ----- whole histories of accepts ------------------------------------------------------------

  datatype Accept = Accept(rows: seq<Measurement>, waivers: Waivers)

  /** The baseline after the accepts, in order. */
  ghost function After(initial: Budgets, steps: seq<Accept>): Budgets {
    if steps == [] then initial
    else
      var last := steps[|steps| - 1];
      Accepted(After(initial, steps[..|steps| - 1]), last.rows, last.waivers)
  }

  ghost function Minimum(s: seq<int>): int
    requires s != []
  {
    if |s| == 1 then s[0]
    else var m := Minimum(s[..|s| - 1]); if s[|s| - 1] < m then s[|s| - 1] else m
  }

  /** The initial budget of `a`, if any, then everything measured for it since,
      accepted or not. */
  ghost function Seen(initial: Budgets, steps: seq<Accept>, a: string): seq<int> {
    if steps == [] then (if a in initial then [initial[a]] else [])
    else
      var rows := steps[|steps| - 1].rows;
      Seen(initial, steps[..|steps| - 1], a) + (if a in Measured(rows) then [Measured(rows)[a]] else [])
  }

  /** What was seen since the area was last missing from an accept. */
  ghost function Recent(initial: Budgets, steps: seq<Accept>, a: string): seq<int> {
    if steps == [] then (if a in initial then [initial[a]] else [])
    else
      var rows := steps[|steps| - 1].rows;
      if a in Measured(rows) then Recent(initial, steps[..|steps| - 1], a) + [Measured(rows)[a]] else []
  }

  /** What was seen before that. */
  ghost function Forgotten(initial: Budgets, steps: seq<Accept>, a: string): seq<int> {
    if steps == [] then []
    else if a in Measured(steps[|steps| - 1].rows) then Forgotten(initial, steps[..|steps| - 1], a)
    else Seen(initial, steps[..|steps| - 1], a)
  }

  lemma {:induction false} SeenSplits(initial: Budgets, steps: seq<Accept>, a: string)
    ensures Seen(initial, steps, a) == Forgotten(initial, steps, a) + Recent(initial, steps, a)
  {
    if steps != [] {
      SeenSplits(initial, steps[..|steps| - 1], a);
    }
  }

  /** One row per area in every accept, and no waiver for `a`. */
  ghost predicate Unwaived(steps: seq<Accept>, a: string) {
    forall s :: s in steps ==> DistinctAreas(s.rows) && a !in s.waivers
  }

  /** Over every history: an unwaived area has a budget if and only if the last accept
      lists it (or there was none and it began with one), and the budget is then the
      least number seen since the area was last missing. */
  lemma {:induction false} BudgetIsMinimum(initial: Budgets, steps: seq<Accept>, a: string)
    requires Unwaived(steps, a)
    ensures a in After(initial, steps) <==> if steps == [] then a in initial else a in AreasOf(steps[|steps| - 1].rows)
    ensures a in After(initial, steps) <==> Recent(initial, steps, a) != []
    ensures a in After(initial, steps) ==> After(initial, steps)[a] == Minimum(Recent(initial, steps, a))
  {
    if steps != [] {
      var rest, s := steps[..|steps| - 1], steps[|steps| - 1];
      assert s in steps && forall t :: t in rest ==> t in steps;
      BudgetIsMinimum(initial, rest, a);
      AcceptedIs(After(initial, rest), s.rows, s.waivers);
      MeasuredIs(s.rows);
      if a in AreasOf(s.rows) {
        OneMoreSeen(After(initial, rest), Recent(initial, rest, a), s, a);
      }
    }
  }

  lemma OneMoreSeen(before: Budgets, recent: seq<int>, s: Accept, a: string)
    requires DistinctAreas(s.rows) && a in AreasOf(s.rows) && a !in s.waivers
    requires a in before <==> recent != []
    requires a in before ==> before[a] == Minimum(recent)
    ensures a in Measured(s.rows) && a in Accepted(before, s.rows, s.waivers)
    ensures Accepted(before, s.rows, s.waivers)[a] == Minimum(recent + [Measured(s.rows)[a]])
  {
    AcceptedIs(before, s.rows, s.waivers);
    MeasuredIs(s.rows);
    var r :| r in s.rows && r.area == a;
    var more := recent + [r.Uncovered()];
    assert more[..|more| - 1] == recent;
    assert Accepted(before, s.rows, s.waivers)[a] == NewBudget(before, r, s.waivers);
  }

  lemma {:induction false} MinimumIs(s: seq<int>)
    requires s != []
    ensures Minimum(s) in s && forall n :: n in s ==> Minimum(s) <= n
  {
    if |s| > 1 {
      MinimumIs(s[..|s| - 1]);
      assert forall n :: n in s <==> n in s[..|s| - 1] || n == s[|s| - 1];
    }
  }

  /** The budget is the least number ever seen if and only if nothing smaller was
      forgotten. */
  lemma LeastEverIff(initial: Budgets, steps: seq<Accept>, a: string)
    requires Unwaived(steps, a) && a in After(initial, steps)
    ensures Seen(initial, steps, a) != [] && Recent(initial, steps, a) != []
    ensures After(initial, steps)[a] == Minimum(Seen(initial, steps, a)) <==>
            forall n :: n in Forgotten(initial, steps, a) ==> Minimum(Recent(initial, steps, a)) <= n
  {
    var seen, recent, forgotten := Seen(initial, steps, a), Recent(initial, steps, a), Forgotten(initial, steps, a);
    BudgetIsMinimum(initial, steps, a);
    SeenSplits(initial, steps, a);
    MinimumIs(recent);
    MinimumIs(seen);
    assert forall n :: n in seen <==> n in forgotten || n in recent;
  }

  /** Nothing is forgotten while every accept lists the area. */
  lemma {:induction false} AlwaysListedForgetsNothing(initial: Budgets, steps: seq<Accept>, a: string)
    requires forall s :: s in steps ==> a in AreasOf(s.rows)
    ensures Forgotten(initial, steps, a) == []
  {
    if steps != [] {
      var rest, s := steps[..|steps| - 1], steps[|steps| - 1];
      assert s in steps && forall t :: t in rest ==> t in steps;
      MeasuredIs(s.rows);
      AlwaysListedForgetsNothing(initial, rest, a);
    }
  }

  /** For a fixed list: while every accept lists the area and none waives it, its budget
      is the least of its initial value, if any, and everything measured. */
  lemma FixedListKeepsMinimum(initial: Budgets, steps: seq<Accept>, a: string)
    requires Unwaived(steps, a) && (forall s :: s in steps ==> a in AreasOf(s.rows))
    requires steps != [] || a in initial
    ensures Seen(initial, steps, a) != []
    ensures a in After(initial, steps) && After(initial, steps)[a] == Minimum(Seen(initial, steps, a))
  {
    assert steps != [] ==> steps[|steps| - 1] in steps;
    BudgetIsMinimum(initial, steps, a);
    LeastEverIff(initial, steps, a);
    AlwaysListedForgetsNothing(initial, steps, a);
  }

  /** An area that leaves the list is forgotten: when it returns, any number is
      accepted.  An instance of `LeastEverIff` with something forgotten. */
  lemma DroppedAreaIsForgotten(a: string, b: string, low: nat, high: nat)
    requires a != b && low < high
    ensures var row, other := (n: nat) => Measurement(a, 1, 1, n, 0, 0), Measurement(b, 1, 1, 0, 0, 0);
            var steps := [Accept([row(low)], map[]), Accept([other], map[]), Accept([row(high)], map[])];
            && After(map[], steps[..1]) == map[a := low]
            && After(map[], steps) == map[a := high]
  {
    var row, other := (n: nat) => Measurement(a, 1, 1, n, 0, 0), Measurement(b, 1, 1, 0, 0, 0);
    var steps := [Accept([row(low)], map[]), Accept([other], map[]), Accept([row(high)], map[])];
    OneRow(map[], row(low));
    assert steps[..1][..0] == [] && After(map[], steps[..1]) == map[a := low];
    OneRow(map[a := low], other);
    assert steps[..2][..1] == steps[..1] && After(map[], steps[..2]) == map[b := 0];
    OneRow(map[b := 0], row(high));
    assert steps[..3] == steps && steps[..2] == steps[..|steps| - 1];
  }

  lemma OneRow(current: Budgets, r: Measurement)
    requires r.area !in current
    ensures Accepted(current, [r], map[]) == map[r.area := r.Uncovered()]
  {
    assert [r][..0] == [];
  }

  /** The budget of `a` after `k` accepts, if it has one. */
  ghost predicate HasBudget(initial: Budgets, steps: seq<Accept>, a: string, k: nat) {
    k <= |steps| && a in After(initial, steps[..k])
  }

  ghost function BudgetAt(initial: Budgets, steps: seq<Accept>, a: string, k: nat): int
    requires HasBudget(initial, steps, a, k)
  {
    After(initial, steps[..k])[a]
  }

  /** Accept number `k` raised the budget of `a` under a waiver that argues its
      case and whose ceiling is at least the new budget. */
  ghost predicate RaisedUnderWaiver(initial: Budgets, steps: seq<Accept>, a: string, k: nat) {
    && HasBudget(initial, steps, a, k) && HasBudget(initial, steps, a, k + 1)
    && BudgetAt(initial, steps, a, k) < BudgetAt(initial, steps, a, k + 1)
    && Authorized(steps[k].waivers, a, BudgetAt(initial, steps, a, k + 1))
  }

  /** However waivers and areas come and go: if a budget is larger at `j` than it was at
      `i`, then the area had no budget at some point in between, or some accept in between
      raised it under a waiver, to at least what it is at `j`. */
  lemma {:induction false} EveryRaiseIsWaived(initial: Budgets, steps: seq<Accept>, a: string, i: nat, j: nat)
    requires i <= j <= |steps| && HasBudget(initial, steps, a, i) && HasBudget(initial, steps, a, j)
    requires forall s :: s in steps ==> DistinctAreas(s.rows)
    requires BudgetAt(initial, steps, a, j) > BudgetAt(initial, steps, a, i)
    ensures || (exists m :: i < m < j && !HasBudget(initial, steps, a, m))
            || (exists k :: i <= k < j && RaisedUnderWaiver(initial, steps, a, k) &&
                            BudgetAt(initial, steps, a, k + 1) >= BudgetAt(initial, steps, a, j))
    decreases j
  {
    hide After;
    var m := j - 1;
    if HasBudget(initial, steps, a, m) {
      if BudgetAt(initial, steps, a, j) > BudgetAt(initial, steps, a, m) {
        assert steps[m] in steps;
        StepRaisesUnderWaiver(initial, steps, a, m);
        assert RaisedUnderWaiver(initial, steps, a, m);
      } else {
        EveryRaiseIsWaived(initial, steps, a, i, m);
      }
    }
  }

  lemma StepRaisesUnderWaiver(initial: Budgets, steps: seq<Accept>, a: string, m: nat)
    requires m < |steps| && DistinctAreas(steps[m].rows)
    requires a in After(initial, steps[..m]) && a in After(initial, steps[..m + 1])
    requires After(initial, steps[..m + 1])[a] > After(initial, steps[..m])[a]
    ensures Authorized(steps[m].waivers, a, After(initial, steps[..m + 1])[a])
  {
    var before, after := After(initial, steps[..m]), After(initial, steps[..m + 1]);
    var s := steps[m];
    assert steps[..m + 1][..m] == steps[..m] && steps[..m + 1][m] == s;
    AcceptedIs(before, s.rows, s.waivers);
    var r :| r in s.rows && r.area == a;
    assert after[a] == NewBudget(before, r, s.waivers);
  }

  // ----- waivers do not outlive their raise -------------------------------------------------------

  datatype WaiverFailure = NamesNoArea(area: string) | TooThin(area: string) | Spent(area: string)

  function Recorded(budgets: Budgets, a: string): int {
    if a in budgets then budgets[a] else 0
  }

  /** The waiver names an area, argues its case, and is the budget still. */
  ghost predicate WaiverHolds(budgets: Budgets, a: string, w: Waiver, areas: set<string>) {
    a in areas && |Strip(w.reason)| >= 80 && (if a in budgets then budgets[a] >= w.ceiling else w.ceiling <= 0)
  }

  ghost predicate WaiversHold(budgets: Budgets, waivers: Waivers, areas: set<string>) {
    forall a :: a in waivers ==> WaiverHolds(budgets, a, waivers[a], areas)
  }

  /** What is wrong with a waiver, in the order the guard asks. */
  ghost predicate WaiverFails(budgets: Budgets, a: string, w: Waiver, areas: set<string>, f: WaiverFailure) {
    if a !in areas then f == NamesNoArea(a)
    else if |Strip(w.reason)| < 80 then f == TooThin(a)
    else (if a in budgets then budgets[a] < w.ceiling else w.ceiling > 0) && f == Spent(a)
  }

  /** `stale_waivers`: for each waiver the first thing that is wrong with it. */
  method StaleWaivers(budgets: Budgets, waivers: Waivers, areas: set<string>) returns (failures: seq<WaiverFailure>)
    ensures forall f :: f in failures <==> exists a :: a in waivers && WaiverFails(budgets, a, waivers[a], areas, f)
    ensures failures == [] <==> WaiversHold(budgets, waivers, areas)
  {
    failures := [];
    var names := SortedNames(waivers.Keys);
    for i := 0 to |names|
      invariant forall f :: f in failures <==> exists j :: 0 <= j < i && names[j] in waivers && WaiverFails(budgets, names[j], waivers[names[j]], areas, f)
    {
      var a := names[i];
      assert a in names;
      if a !in areas {
        failures := failures + [NamesNoArea(a)];
      } else if !LongReason(waivers[a].reason) {
        failures := failures + [TooThin(a)];
      } else if Recorded(budgets, a) < waivers[a].ceiling {
        failures := failures + [Spent(a)];
      }
    }
    assert forall a :: a in waivers <==> exists j :: 0 <= j < |names| && names[j] == a;
    NoWaiverFails(budgets, waivers, areas, failures);
  }

  lemma NoWaiverFails(budgets: Budgets, waivers: Waivers, areas: set<string>, failures: seq<WaiverFailure>)
    requires forall f :: f in failures <==> exists a :: a in waivers && WaiverFails(budgets, a, waivers[a], areas, f)
    ensures failures == [] <==> WaiversHold(budgets, waivers, areas)
  {
    if failures != [] {
      assert failures[0] in failures;
    } else {
      forall a | a in waivers
        ensures WaiverHolds(budgets, a, waivers[a], areas)
      {
        assert NamesNoArea(a) !in failures && TooThin(a) !in failures && Spent(a) !in failures;
      }
    }
  }

  /** A raise leaves no headroom: if an accept raised a budget, and the whole gate
      is green on the resulting baseline with the waiver still listed, then
      budget, measurement and ceiling are one number. */
  lemma RaiseLeavesNoHeadroom(before: Budgets, accept: Accept, a: string, rows: seq<Measurement>, areas: set<string>)
    requires DistinctAreas(accept.rows) && a in before
    requires var after := Accepted(before, accept.rows, accept.waivers);
             && a in after && after[a] > before[a]
             && AtFloor(rows, after) && WaiversHold(after, accept.waivers, areas)
    ensures a in accept.waivers && a in Measured(rows)
    ensures var after := Accepted(before, accept.rows, accept.waivers);
            after[a] == accept.waivers[a].ceiling == Measured(rows)[a]
  {
    var after := Accepted(before, accept.rows, accept.waivers);
    AcceptedIs(before, accept.rows, accept.waivers);
    var r :| r in accept.rows && r.area == a;
    assert after[a] == NewBudget(before, r, accept.waivers);
    MeasuredIs(rows);
    MeasuredAgrees(rows, after, a);
  }

  lemma {:induction false} MeasuredAgrees(rows: seq<Measurement>, budgets: Budgets, a: string)
    requires forall r :: r in rows ==> r.area in budgets && budgets[r.area] == r.Uncovered()
    requires a in Measured(rows)
    ensures a in budgets && Measured(rows)[a] == budgets[a]
  {
    var last := |rows| - 1;
    assert rows[last] in rows;
    if rows[last].area != a {
      MeasuredAgrees(rows[..last], budgets, a);
    }
  }

  // ----- the command line ---------------------------------------------------------------------------

  datatype ManifestFile = Absent | Unreadable | Contents(raw: map<string, Json>)

  /** One run of the script: its flag and everything it reads but the baseline. */
  datatype Invocation = Invocation(
    update: bool,
    measured: bool,                 // the coverage data file exists
    manifest: ManifestFile,
    measuredAt: real,
    branchCoverage: bool,
    staleSources: bool,
    rows: seq<Measurement>,
    waivers: Waivers,
    areas: set<string>,
    surfacesGuarded: bool,
    patternsLive: bool)

  /** `unvouched_run` finds nothing. */
  ghost predicate RunVouched(inv: Invocation) {
    inv.manifest.Contents? && Parse(inv.manifest.raw).Ok? && Trusted(Parse(inv.manifest.raw).value, inv.measuredAt)
  }

  /** `blind_spots` finds nothing. */
  predicate ReportReadable(inv: Invocation) {
    inv.branchCoverage && !inv.staleSources && forall r :: r in inv.rows ==> r.files != 0 && r.executed != 0
  }

  /** The run may be scored: it was measured, its manifest is trusted, and the report has
      branch data, is no older than a guarded source, and has in each area files that
      executed. */
  ghost predicate Scored(inv: Invocation) {
    && inv.measured && RunVouched(inv)
    && inv.branchCoverage && !inv.staleSources
    && forall r :: r in inv.rows ==> r.files > 0 && r.executed > 0
  }

  ghost predicate Green(inv: Invocation, baseline: Budgets) {
    inv.surfacesGuarded && inv.patternsLive && AtFloor(inv.rows, baseline) && WaiversHold(baseline, inv.waivers, inv.areas)
  }

  ghost function NextBaseline(baseline: Budgets, inv: Invocation): Budgets {
    if Scored(inv) && inv.update then Accepted(baseline, inv.rows, inv.waivers) else baseline
  }

  ghost function ExitCode(baseline: Budgets, inv: Invocation): int {
    if !Scored(inv) then 2
    else if inv.update then (if Refused(baseline, inv.rows, inv.waivers) == [] then 0 else 1)
    else if Green(inv, baseline) then 0
    else 1
  }

  method RunIsVouched(inv: Invocation) returns (ok: bool)
    ensures ok == RunVouched(inv)
  {
    if !inv.manifest.Contents? {
      return false;
    }
    var parsed := Parse(inv.manifest.raw);
    if parsed.Err? {
      return false;
    }
    var reasons := Vouch(parsed.value, inv.measuredAt);
    return reasons == [];
  }

  /** `main`: refuse, accept or judge, in that order. */
  method RunScript(inv: Invocation, file: BaselineFile) returns (code: int)
    modifies file
    ensures file.areas == NextBaseline(old(file.areas), inv)
    ensures code == ExitCode(old(file.areas), inv)
    ensures code == 2 <==>
            || !inv.measured || !RunVouched(inv) || !inv.branchCoverage || inv.staleSources
            || exists r :: r in inv.rows && (r.files == 0 || r.executed == 0)
    ensures file.areas != old(file.areas) ==> inv.update && Scored(inv) && code != 2
  {
    if !inv.measured {
      return EXIT_REFUSED;
    }
    var vouched := RunIsVouched(inv);
    if !vouched || !ReportReadable(inv) {
      return EXIT_REFUSED;
    }
    if inv.update {
      var refused := file.Save(inv.rows, inv.waivers);
      return if refused != [] then EXIT_FAIL else EXIT_OK;
    }
    var budgets := file.areas;
    var failures := EvaluateGate(inv.rows, budgets);
    var stale := StaleWaivers(budgets, inv.waivers, inv.areas);
    var failed := !inv.surfacesGuarded || !inv.patternsLive || failures != [] || stale != [];
    return if failed then EXIT_FAIL else EXIT_OK;
  }

  // ----- whole histories of invocations --------------------------------------------------------------

  /** The accepts among the invocations: those that were scored updates. */
  ghost function Accepts(runs: seq<Invocation>): seq<Accept> {
    if runs == [] then [] else Accepts(runs[..|runs| - 1]) + NewAccept(runs[|runs| - 1])
  }

  ghost function NewAccept(inv: Invocation): seq<Accept> {
    if Scored(inv) && inv.update then [Accept(inv.rows, inv.waivers)] else []
  }

  lemma OneMoreRun(initial: Budgets, steps: seq<Accept>, inv: Invocation)
    ensures NextBaseline(After(initial, steps), inv) == After(initial, steps + NewAccept(inv))
  {
    var more := NewAccept(inv);
    if more == [] {
      assert steps + more == steps;
    } else {
      assert (steps + more)[..|steps + more| - 1] == steps;
    }
  }

  /** The baselines between the invocations of a history, and the codes they gave. */
  ghost predicate IsHistory(runs: seq<Invocation>, baselines: seq<Budgets>, codes: seq<int>) {
    && |baselines| == |runs| + 1 && |codes| == |runs|
    && forall i :: 0 <= i < |runs| ==>
                     && baselines[i + 1] == NextBaseline(baselines[i], runs[i])
                     && codes[i] == ExitCode(baselines[i], runs[i])
  }

  /** The baseline moved at invocation `i`. */
  ghost predicate Moved(baselines: seq<Budgets>, i: nat)
    requires i + 1 < |baselines|
  {
    baselines[i + 1] != baselines[i]
  }

  /** The script, called again and again on one file.  A refused invocation gives the
      refusal code, and no other does; the baseline moves only at an update of a run
      that both trust checks let through; and what is left is what those updates alone
      make of the first baseline. */
  method RunHistory(runs: seq<Invocation>, file: BaselineFile) returns (codes: seq<int>, baselines: seq<Budgets>)
    modifies file
    ensures IsHistory(runs, baselines, codes) && baselines[0] == old(file.areas) && baselines[|runs|] == file.areas
    ensures forall i :: 0 <= i < |runs| ==> (codes[i] == 2 <==> !Scored(runs[i]))
    ensures forall i :: 0 <= i < |runs| && Moved(baselines, i) ==> runs[i].update && Scored(runs[i]) && codes[i] != 2
    ensures file.areas == After(old(file.areas), Accepts(runs))
  {
    codes, baselines := [], [file.areas];
    for n := 0 to |runs|
      invariant IsHistory(runs[..n], baselines, codes) && baselines[0] == old(file.areas) && baselines[n] == file.areas
      invariant file.areas == After(old(file.areas), Accepts(runs[..n]))
    {
      hide ExitCode, NextBaseline, Accepted, Refused, Scored, After;
      assert runs[..n + 1][..n] == runs[..n] && runs[..n + 1][n] == runs[n];
      OneMoreRun(old(file.areas), Accepts(runs[..n]), runs[n]);
      var code := RunScript(runs[n], file);
      OneMoreEntry(runs[..n], baselines, codes, runs[n], file.areas, code);
      codes, baselines := codes + [code], baselines + [file.areas];
      assert runs[..n + 1] == runs[..n] + [runs[n]];
    }
    assert runs[..|runs|] == runs;
    hide Accepted, Refused, Scored, Green, After;
  }

  lemma OneMoreEntry(runs: seq<Invocation>, baselines: seq<Budgets>, codes: seq<int>, inv: Invocation, next: Budgets, code: int)
    requires IsHistory(runs, baselines, codes)
    requires next == NextBaseline(baselines[|runs|], inv) && code == ExitCode(baselines[|runs|], inv)
    ensures IsHistory(runs + [inv], baselines + [next], codes + [code])
  {
    hide ExitCode, NextBaseline;
  }

  /** Over any history of invocations, the budget of an area that no scored update waives
      is the least number a scored update measured since one last missed the area. */
  lemma {:induction false} HistoryKeepsMinimum(runs: seq<Invocation>, baselines: seq<Budgets>, codes: seq<int>, a: string)
    requires IsHistory(runs, baselines, codes) && Unwaived(Accepts(runs), a)
    ensures var recent := Recent(baselines[0], Accepts(runs), a);
            && (a in baselines[|runs|] <==> recent != [])
            && (a in baselines[|runs|] ==> baselines[|runs|][a] == Minimum(recent))
  {
    HistoryIsAfter(runs, baselines, codes);
    BudgetIsMinimum(baselines[0], Accepts(runs), a);
  }

  lemma {:induction false} HistoryIsAfter(runs: seq<Invocation>, baselines: seq<Budgets>, codes: seq<int>)
    requires IsHistory(runs, baselines, codes)
    ensures baselines[|runs|] == After(baselines[0], Accepts(runs))
  {
    if runs != [] {
      var n := |runs| - 1;
      hide ExitCode, NextBaseline;
      assert IsHistory(runs[..n], baselines[..n + 1], codes[..n]);
      HistoryIsAfter(runs[..n], baselines[..n + 1], codes[..n]);
      OneMoreRun(baselines[0], Accepts(runs[..n]), runs[n]);
      assert baselines[n + 1] == NextBaseline(baselines[n], runs[n]);
    }
  }

  /** Invocation `k` was a scored update that raised the budget of `a` under a waiver
      that argues its case and whose ceiling is at least the new budget. */
  ghost predicate RaisedAt(runs: seq<Invocation>, baselines: seq<Budgets>, a: string, k: nat)
    requires k < |runs| && |baselines| == |runs| + 1
  {
    && runs[k].update && Scored(runs[k])
    && a in baselines[k] && a in baselines[k + 1] && baselines[k][a] < baselines[k + 1][a]
    && Authorized(runs[k].waivers, a, baselines[k + 1][a])
  }

  /** Over any history of invocations: if a budget is larger at `j` than it was at `i`,
      then the area was missing from a baseline in between, or a scored update in
      between raised it under a waiver, to at least what it is at `j`. */
  lemma {:induction false} HistoryRaisesAreWaived(runs: seq<Invocation>, baselines: seq<Budgets>, codes: seq<int>, a: string, i: nat, j: nat)
    requires IsHistory(runs, baselines, codes) && (forall r :: r in runs ==> DistinctAreas(r.rows))
    requires i <= j <= |runs| && a in baselines[i] && a in baselines[j] && baselines[j][a] > baselines[i][a]
    ensures || (exists m :: i < m < j && a !in baselines[m])
            || (exists k :: i <= k < j && RaisedAt(runs, baselines, a, k) && baselines[k + 1][a] >= baselines[j][a])
    decreases j
  {
    var m := j - 1;
    if a in baselines[m] {
      assert runs[m] in runs && baselines[m + 1] == NextBaseline(baselines[m], runs[m]);
      if baselines[j][a] > baselines[m][a] {
        AcceptedIs(baselines[m], runs[m].rows, runs[m].waivers);
        var r :| r in runs[m].rows && r.area == a;
        assert baselines[j][a] == NewBudget(baselines[m], r, runs[m].waivers);
        assert RaisedAt(runs, baselines, a, m);
      } else {
        HistoryRaisesAreWaived(runs, baselines, codes, a, i, m);
      }
    }
  }

  /** From recorder to baseline: a baseline changes only after a session whose
      history was clean and, a session start having been recorded, whose stores
      were up and empty. */
  lemma ChangeNeedsCleanHistory(baseline: Budgets, inv: Invocation, history: seq<HookEvent>, f: Finish)
    requires inv.manifest == Contents(Write(Replay(history), f))
    requires exists e :: e in history && e.SessionStart?
    requires NextBaseline(baseline, inv) != baseline
    ensures CleanHistory(history, f, inv.measuredAt)
    ensures StoresSeen(history).Probed? && EmptyStore(StoresSeen(history).postgres) && EmptyStore(StoresSeen(history).redis)
  {
    TrustedRunHadEmptyStores(history, f, inv.measuredAt);
  }
}

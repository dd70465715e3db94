/**
 May this test run be scored? (scripts/check_coverage_ratchet.py, the recorder,
 the manifest and `vouch`.)

 pytest hooks update a record in place; at the end of the session it is written
 as a JSON manifest, which the gate parses back and judges.  The theorem relates
 the gate's trust to the history of hook calls, through the writer and the
 strict reader.
 */
module RunRecord {
  import opened Ordering

  // ----- JSON -----------------------------------------------------------------------

  datatype Json =
    | JNull
    | JBool(b: bool)
    | JInt(i: int)
    | JReal(r: real)
    | JStr(s: string)
    | JArr(items: seq<Json>)
    | JObj(entries: map<string, Json>)

  /** Python's truth value. */
  predicate Truthy(j: Json) {
    match j
    case JNull => false
    case JBool(b) => b
    case JInt(i) => i != 0
    case JReal(r) => r != 0.0
    case JStr(s) => s != ""
    case JArr(items) => items != []
    case JObj(entries) => entries != map[]
  }

  /** Everything is true but these seven. */
  lemma FalseValues(j: Json)
    ensures Truthy(j) <==> j !in {JNull, JBool(false), JInt(0), JReal(0.0), JStr(""), JArr([]), JObj(map[])}
  {
  }

  /** `mapping.get(key)`. */
  function Get(m: map<string, Json>, key: string): Json {
    if key in m then m[key] else JNull
  }

  /** `value.get(key)` where `value` is itself a JSON object. */
  function GetIn(j: Json, key: string): Json {
    if j.JObj? then Get(j.entries, key) else JNull
  }

  // ----- the record ---------------------------------------------------------------------

  /** What a probe of a store found before the first test. */
  datatype Probe = Down(detail: string) | Up(held: map<string, nat>)

  datatype Status = Passed | Failed | Skipped

  datatype When = Setup | Call | Teardown

  datatype HookEvent =
    | SessionStart(postgres: Probe, redis: Probe)
    | Deselected(count: nat)
    | CollectionFinish(count: nat)
    | CollectReport(status: Status)
    | LogReport(when: When, status: Status, wasXfail: bool, reason: string)

  datatype Stores = NotProbed | Probed(postgres: Probe, redis: Probe)

  datatype Record = Record(
    passed: nat, failed: nat, errors: nat, skipped: nat, xfailed: nat,
    deselected: nat, collected: nat, collectionErrors: nat, collectionSkips: nat,
    skipReasons: seq<(string, nat)>, stores: Stores)

  const EMPTY := Record(0, 0, 0, 0, 0, 0, 0, 0, 0, [], NotProbed)

  function Clip(reason: string): string {
    if |reason| <= 160 then reason else reason[..160]
  }

  /** `_note_skip`: one more skip for this reason, in first-seen order. */
  function NoteSkip(reasons: seq<(string, nat)>, reason: string): seq<(string, nat)> {
    if reasons == [] then [(reason, 1)]
    else if reasons[0].0 == reason then [(reason, reasons[0].1 + 1)] + reasons[1..]
    else [reasons[0]] + NoteSkip(reasons[1..], reason)
  }

  function Apply(r: Record, e: HookEvent): Record {
    match e
    case SessionStart(pg, redis) => r.(stores := Probed(pg, redis))
    case Deselected(n) => r.(deselected := r.deselected + n)
    case CollectionFinish(n) => r.(collected := n)
    case CollectReport(status) =>
      (match status
       case Failed => r.(collectionErrors := r.collectionErrors + 1)
       case Skipped => r.(collectionSkips := r.collectionSkips + 1)
       case Passed => r)
    case LogReport(when, status, wasXfail, reason) =>
      if when == Call then
        (match status
         case Passed => r.(passed := r.passed + 1)
         case Failed => r.(failed := r.failed + 1)
         case Skipped =>
           if wasXfail then r.(xfailed := r.xfailed + 1)
           else r.(skipped := r.skipped + 1, skipReasons := NoteSkip(r.skipReasons, Clip(reason))))
      else if status == Failed then r.(errors := r.errors + 1)
      else if status == Skipped && when == Setup then
        r.(skipped := r.skipped + 1, skipReasons := NoteSkip(r.skipReasons, Clip(reason)))
      else r
  }

  function Replay(history: seq<HookEvent>): Record {
    if history == [] then EMPTY else Apply(Replay(history[..|history| - 1]), history[|history| - 1])
  }

  // ----- what the record counts ------------------------------------------------------------

  ghost function Count(history: seq<HookEvent>, p: HookEvent -> bool): nat {
    if history == [] then 0
    else Count(history[..|history| - 1], p) + (if p(history[|history| - 1]) then 1 else 0)
  }

  /** A test's own call, reported with the status. */
  ghost predicate CallReport(e: HookEvent, status: Status) {
    e.LogReport? && e.when == Call && e.status == status
  }

  /** A test that was skipped, by itself or by its setup. */
  ghost predicate SkippedTest(e: HookEvent) {
    (CallReport(e, Skipped) && !e.wasXfail) || (e.LogReport? && e.when == Setup && e.status == Skipped)
  }

  /** A skip whose reason, at most 160 characters of it, is this. */
  ghost predicate SkippedFor(e: HookEvent, why: string) {
    SkippedTest(e) && why == if |e.reason| > 160 then e.reason[..160] else e.reason
  }

  ghost function SkipsFor(why: string): HookEvent -> bool {
    e => SkippedFor(e, why)
  }

  ghost function Deselections(history: seq<HookEvent>): nat {
    if history == [] then 0
    else Deselections(history[..|history| - 1]) + (if history[|history| - 1].Deselected? then history[|history| - 1].count else 0)
  }

  /** What the last collection found. */
  ghost function LastCollected(history: seq<HookEvent>): nat {
    if history == [] then 0
    else if history[|history| - 1].CollectionFinish? then history[|history| - 1].count
    else LastCollected(history[..|history| - 1])
  }

  /** Every counter of the record is a count over the history. */
  lemma {:induction false} CountersAre(history: seq<HookEvent>)
    ensures var r := Replay(history);
            && r.passed == Count(history, (e: HookEvent) => CallReport(e, Passed))
            && r.failed == Count(history, (e: HookEvent) => CallReport(e, Failed))
            && r.xfailed == Count(history, (e: HookEvent) => CallReport(e, Skipped) && e.wasXfail)
            && r.errors == Count(history, (e: HookEvent) => e.LogReport? && e.when != Call && e.status == Failed)
            && r.skipped == Count(history, (e: HookEvent) => SkippedTest(e))
            && r.collectionErrors == Count(history, (e: HookEvent) => e == CollectReport(Failed))
            && r.collectionSkips == Count(history, (e: HookEvent) => e == CollectReport(Skipped))
            && r.deselected == Deselections(history)
            && r.collected == LastCollected(history)
  {
    if history != [] {
      CountersAre(history[..|history| - 1]);
    }
  }

  ghost predicate UniqueReasons(reasons: seq<(string, nat)>) {
    forall i, j :: 0 <= i < j < |reasons| ==> reasons[i].0 != reasons[j].0
  }

  /** How often the table says the reason occurred. */
  ghost function Times(reasons: seq<(string, nat)>, why: string): nat {
    if reasons == [] then 0 else if reasons[0].0 == why then reasons[0].1 else Times(reasons[1..], why)
  }

  lemma {:induction false} NoteSkipCounts(reasons: seq<(string, nat)>, reason: string, why: string)
    ensures Times(NoteSkip(reasons, reason), why) == Times(reasons, why) + if why == reason then 1 else 0
  {
    if reasons != [] && reasons[0].0 != reason {
      NoteSkipCounts(reasons[1..], reason, why);
      assert NoteSkip(reasons, reason)[1..] == NoteSkip(reasons[1..], reason);
    }
  }

  lemma {:induction false} NoteSkipUnique(reasons: seq<(string, nat)>, reason: string)
    requires UniqueReasons(reasons) && forall x :: x in reasons ==> x.1 > 0
    ensures UniqueReasons(NoteSkip(reasons, reason)) && forall x :: x in NoteSkip(reasons, reason) ==> x.1 > 0
    ensures forall x :: x in NoteSkip(reasons, reason) ==> x.0 == reason || exists y :: y in reasons && y.0 == x.0
  {
    if reasons != [] && reasons[0].0 != reason {
      var rest := NoteSkip(reasons[1..], reason);
      NoteSkipUnique(reasons[1..], reason);
      forall j | 0 <= j < |rest| ensures rest[j].0 != reasons[0].0 {
        assert rest[j] in rest;
        if rest[j].0 != reason {
          var y :| y in reasons[1..] && y.0 == rest[j].0;
          var k :| 0 <= k < |reasons[1..]| && reasons[1..][k] == y;
          assert reasons[k + 1] == y;
        }
      }
    }
  }

  lemma {:induction false} TimesOf(reasons: seq<(string, nat)>, x: (string, nat))
    requires UniqueReasons(reasons) && x in reasons
    ensures Times(reasons, x.0) == x.1
  {
    if reasons[0] != x {
      var i :| 0 <= i < |reasons| && reasons[i] == x;
      assert x in reasons[1..];
      TimesOf(reasons[1..], x);
    }
  }

  lemma {:induction false} TimesOfNone(reasons: seq<(string, nat)>, why: string)
    requires Times(reasons, why) > 0
    ensures (why, Times(reasons, why)) in reasons
  {
    if reasons[0].0 != why { TimesOfNone(reasons[1..], why); }
  }

  /** The table of skip reasons counts each reason of the history, once each. */
  lemma {:induction false} SkipReasonsAre(history: seq<HookEvent>, why: string)
    ensures var reasons := Replay(history).skipReasons;
            && UniqueReasons(reasons) && (forall x :: x in reasons ==> x.1 > 0)
            && Times(reasons, why) == Count(history, SkipsFor(why))
  {
    if history != [] {
      var before, e := history[..|history| - 1], history[|history| - 1];
      SkipReasonsAre(before, why);
      var reasons := Replay(before).skipReasons;
      if e.LogReport? {
        NoteSkipCounts(reasons, Clip(e.reason), why);
        NoteSkipUnique(reasons, Clip(e.reason));
      }
    }
  }

  /** The plugin: one mutable record, updated by the hooks. */
  class Recorder {
    var passed: nat
    var failed: nat
    var errors: nat
    var skipped: nat
    var xfailed: nat
    var deselected: nat
    var collected: nat
    var collectionErrors: nat
    var collectionSkips: nat
    var skipReasons: seq<(string, nat)>
    var stores: Stores

    function Value(): Record
      reads this
    {
      Record(passed, failed, errors, skipped, xfailed, deselected, collected, collectionErrors, collectionSkips, skipReasons, stores)
    }

    constructor ()
      ensures Value() == EMPTY
    {
      passed, failed, errors, skipped, xfailed := 0, 0, 0, 0, 0;
      deselected, collected, collectionErrors, collectionSkips := 0, 0, 0, 0;
      skipReasons, stores := [], NotProbed;
    }

    method OnSessionStart(pg: Probe, redis: Probe)
      modifies this
      ensures Value() == Apply(old(Value()), SessionStart(pg, redis))
    {
      stores := Probed(pg, redis);
    }

    method OnDeselected(count: nat)
      modifies this
      ensures Value() == Apply(old(Value()), Deselected(count))
    {
      deselected := deselected + count;
    }

    method OnCollectionFinish(count: nat)
      modifies this
      ensures Value() == Apply(old(Value()), CollectionFinish(count))
    {
      collected := count;
    }

    method OnCollectReport(status: Status)
      modifies this
      ensures Value() == Apply(old(Value()), CollectReport(status))
    {
      if status == Failed {
        collectionErrors := collectionErrors + 1;
      } else if status == Skipped {
        collectionSkips := collectionSkips + 1;
      }
    }

    method OnLogReport(when: When, status: Status, wasXfail: bool, reason: string)
      modifies this
      ensures Value() == Apply(old(Value()), LogReport(when, status, wasXfail, reason))
    {
      if when == Call {
        if status == Passed {
          passed := passed + 1;
        } else if status == Failed {
          failed := failed + 1;
        } else if wasXfail {
          xfailed := xfailed + 1;
        } else {
          skipped := skipped + 1;
          skipReasons := NoteSkip(skipReasons, Clip(reason));
        }
      } else if status == Failed {
        errors := errors + 1;
      } else if status == Skipped && when == Setup {
        skipped := skipped + 1;
        skipReasons := NoteSkip(skipReasons, Clip(reason));
      }
    }

    method On(e: HookEvent)
      modifies this
      ensures Value() == Apply(old(Value()), e)
    {
      match e {
        case SessionStart(pg, redis) => OnSessionStart(pg, redis);
        case Deselected(n) => OnDeselected(n);
        case CollectionFinish(n) => OnCollectionFinish(n);
        case CollectReport(status) => OnCollectReport(status);
        case LogReport(when, status, wasXfail, reason) => OnLogReport(when, status, wasXfail, reason);
      }
    }

    /** Any sequence of hook calls leaves the record of that history. */
    method Observe(history: seq<HookEvent>)
      requires Value() == EMPTY
      modifies this
      ensures Value() == Replay(history)
    {
      var i := 0;
      while i < |history|
        invariant 0 <= i <= |history|
        invariant Value() == Replay(history[..i])
      {
        assert history[..i + 1][..i] == history[..i];
        On(history[i]);
        i := i + 1;
      }
      assert history[..|history|] == history;
    }
  }

  // ----- the writer ---------------------------------------------------------------------------

  const MANIFEST_SCHEMA := 1
  const TOP_SKIP_REASONS := 5

  /** What `pytest_sessionfinish` reads off the session, the clock and coverage. */
  datatype Finish = Finish(
    exitStatus: int, coverageActive: bool, finishedAt: real,
    args: seq<string>, argsSource: string, keyword: string, markexpr: string, lastFailed: bool)

  function ServiceJson(env: string, p: Probe): Json {
    JObj(map["env" := JStr(env), "reachable" := JBool(p.Up?), "detail" := JStr(if p.Down? then p.detail else "")])
  }

  function HeldJson(held: map<string, nat>): Json {
    JObj(map k | k in held :: JInt(held[k]))
  }

  function StateJson(p: Probe): Json {
    match p
    case Down(detail) => JObj(map["probed" := JBool(false), "detail" := JStr(detail)])
    case Up(held) => JObj(map["probed" := JBool(true), "held" := HeldJson(held), "detail" := JStr("")])
  }

  function ServicesJson(s: Stores): map<string, Json> {
    match s
    case NotProbed => map[]
    case Probed(pg, redis) =>
      map["postgres" := ServiceJson("DATABASE_URL", pg), "redis" := ServiceJson("REDIS_URL", redis)]
  }

  function StatesJson(s: Stores): map<string, Json> {
    match s
    case NotProbed => map[]
    case Probed(pg, redis) => map["postgres" := StateJson(pg), "redis" := StateJson(redis)]
  }

  /** The commonest skip reasons, most frequent first. */
  function TopSkips(reasons: seq<(string, nat)>): seq<(string, nat)> {
    var s := Sort(reasons, (a: (string, nat), b: (string, nat)) => a.1 >= b.1);
    if |s| <= TOP_SKIP_REASONS then s else s[..TOP_SKIP_REASONS]
  }

  lemma {:induction false} TopSkipsAre(reasons: seq<(string, nat)>)
    ensures |TopSkips(reasons)| == if |reasons| <= 5 then |reasons| else 5
    ensures forall x :: x in TopSkips(reasons) ==> x in reasons
    ensures forall x, y :: x in TopSkips(reasons) && y in reasons && y !in TopSkips(reasons) ==> x.1 >= y.1
  {
    var le := (a: (string, nat), b: (string, nat)) => a.1 >= b.1;
    var s := Sort(reasons, le);
    SortKeeps(reasons, le);
    assert |s| == |multiset(s)| == |reasons|;
    forall x ensures x in s <==> x in reasons { assert x in multiset(s) <==> x in multiset(reasons); }
    var kept := TopSkips(reasons);
    forall x, y | x in kept && y in reasons && y !in kept
      ensures x.1 >= y.1
    {
      assert y in s;
      var i :| 0 <= i < |kept| && kept[i] == x;
      var j :| 0 <= j < |s| && s[j] == y;
      assert s[i] == x;
      assert j >= |kept|;
      assert le(s[i], s[j]);
    }
  }

  lemma {:induction false} SkipsJsonIs(kept: seq<(string, nat)>)
    requires UniqueReasons(kept)
    ensures forall why :: why in SkipsJson(kept) <==> exists x :: x in kept && x.0 == why
    ensures forall x :: x in kept ==> x.0 in SkipsJson(kept) && SkipsJson(kept)[x.0] == JInt(x.1)
    ensures |SkipsJson(kept)| == |kept|
  {
    if kept != [] {
      var last := |kept| - 1;
      SkipsJsonIs(kept[..last]);
      assert forall x :: x in kept <==> x in kept[..last] || x == kept[last];
      assert kept[last].0 !in SkipsJson(kept[..last]);
    }
  }

  lemma UniqueKept(reasons: seq<(string, nat)>)
    requires UniqueReasons(reasons)
    ensures UniqueReasons(TopSkips(reasons))
  {
    var le := (a: (string, nat), b: (string, nat)) => a.1 >= b.1;
    var s := Sort(reasons, le);
    SortKeeps(reasons, le);
    forall i, j | 0 <= i < j < |s| && s[i].0 == s[j].0
      ensures false
    {
      assert s[i] in multiset(reasons) && s[j] in multiset(reasons);
      TimesOf(reasons, s[i]);
      TimesOf(reasons, s[j]);
      TwiceIfEqual(s, i, j);
      UniqueOnce(reasons);
      OnceIfDistinct(reasons, s[i]);
    }
  }

  lemma UniqueOnce(reasons: seq<(string, nat)>)
    requires UniqueReasons(reasons)
    ensures Distinct(reasons)
  {
  }

  /** The manifest keeps, with their counts, at most five skip reasons of the history, and
      drops none that is more frequent than one it keeps. */
  lemma SkipReasonsWritten(history: seq<HookEvent>, kept: map<string, Json>)
    requires kept == SkipsJson(TopSkips(Replay(history).skipReasons))
    ensures |kept| <= 5
    ensures forall why :: why in kept ==> kept[why] == JInt(Count(history, SkipsFor(why))) && Count(history, SkipsFor(why)) > 0
    ensures forall why, other :: why in kept && other !in kept ==> Count(history, SkipsFor(why)) >= Count(history, SkipsFor(other))
    ensures |kept| < 5 ==> forall why :: Count(history, SkipsFor(why)) > 0 ==> why in kept
  {
    hide Replay, Sort, TopSkips, SkipsJson;
    var reasons := Replay(history).skipReasons;
    var top := TopSkips(reasons);
    SkipReasonsAre(history, "");
    TopSkipsAre(reasons);
    UniqueKept(reasons);
    SkipsJsonIs(top);
    forall why ensures Times(reasons, why) == Count(history, SkipsFor(why)) { SkipReasonsAre(history, why); }
    hide Count, UniqueReasons;
    forall why | why in kept
      ensures (why, Count(history, SkipsFor(why))) in top && kept[why] == JInt(Count(history, SkipsFor(why))) && Count(history, SkipsFor(why)) > 0
    {
      var x :| x in top && x.0 == why;
      TimesOf(reasons, x);
    }
    forall why | why !in kept && Times(reasons, why) > 0
      ensures (why, Times(reasons, why)) in reasons && (why, Times(reasons, why)) !in top
    {
      TimesOfNone(reasons, why);
    }
    if |kept| < 5 {
      forall why | Count(history, SkipsFor(why)) > 0
        ensures why in kept
      {
        TimesOfNone(reasons, why);
        AllKept(reasons, top, (why, Times(reasons, why)));
      }
    }
  }

  lemma AllKept(reasons: seq<(string, nat)>, top: seq<(string, nat)>, x: (string, nat))
    requires top == TopSkips(reasons) && |top| < 5 && x in reasons
    ensures x in top
  {
    var le := (a: (string, nat), b: (string, nat)) => a.1 >= b.1;
    SortKeeps(reasons, le);
    assert |Sort(reasons, le)| == |multiset(Sort(reasons, le))| == |reasons|;
    assert x in multiset(Sort(reasons, le));
  }

  function SkipsJson(reasons: seq<(string, nat)>): map<string, Json> {
    if reasons == [] then map[] else SkipsJson(reasons[..|reasons| - 1])[reasons[|reasons| - 1].0 := JInt(reasons[|reasons| - 1].1)]
  }

  function SelectionJson(f: Finish): map<string, Json> {
    map["args" := JArr(seq(|f.args|, i requires 0 <= i < |f.args| => JStr(f.args[i]))),
        "args_source" := JStr(f.argsSource),
        "keyword" := JStr(f.keyword),
        "markexpr" := JStr(f.markexpr),
        "last_failed" := JBool(f.lastFailed)]
  }

  function OutcomesJson(r: Record): map<string, Json> {
    map["passed" := JInt(r.passed), "failed" := JInt(r.failed), "errors" := JInt(r.errors),
        "skipped" := JInt(r.skipped), "xfailed" := JInt(r.xfailed)]
  }

  /** `pytest_sessionfinish`. */
  function Write(r: Record, f: Finish): map<string, Json> {
    map["schema" := JInt(MANIFEST_SCHEMA),
        "finished_at" := JReal(f.finishedAt),
        "coverage_active" := JBool(f.coverageActive),
        "exit_status" := JInt(f.exitStatus),
        "collected" := JInt(r.collected),
        "collection_errors" := JInt(r.collectionErrors),
        "collection_skips" := JInt(r.collectionSkips),
        "deselected" := JInt(r.deselected),
        "outcomes" := JObj(OutcomesJson(r)),
        "selection" := JObj(SelectionJson(f)),
        "skip_reasons" := JObj(SkipsJson(TopSkips(r.skipReasons))),
        "services" := JObj(ServicesJson(r.stores)),
        "pre_suite_state" := JObj(StatesJson(r.stores))]
  }

  /** What is written about a store and about the selection. */
  lemma WrittenFacts(env: string, p: Probe, f: Finish)
    ensures var s := ServiceJson(env, p);
            && GetIn(s, "env") == JStr(env) && GetIn(s, "reachable") == JBool(p.Up?)
            && GetIn(s, "detail") == JStr(match p case Down(detail) => detail case Up(_) => "")
    ensures var s := StateJson(p);
            && GetIn(s, "probed") == JBool(p.Up?)
            && GetIn(s, "detail") == JStr(match p case Down(detail) => detail case Up(_) => "")
            && GetIn(s, "held") == match p case Down(_) => JNull case Up(held) => JObj(map k | k in held :: JInt(held[k]))
    ensures Get(SelectionJson(f), "args").JArr? && |Get(SelectionJson(f), "args").items| == |f.args|
    ensures forall i :: 0 <= i < |f.args| ==> Get(SelectionJson(f), "args").items[i] == JStr(f.args[i])
  {
  }

  // ----- the strict reader ------------------------------------------------------------------------

  datatype Why = KeyError(key: string) | TypeError(key: string) | WrongSchema(found: int)

  datatype Parsed<T> = Ok(value: T) | Err(why: Why) {
    predicate IsFailure() { Err? }
    function PropagateFailure<U>(): Parsed<U> requires Err? { Err(why) }
    function Extract(): T requires Ok? { value }
  }

  datatype Manifest = Manifest(
    schema: int, finishedAt: real, coverageActive: bool, exitStatus: int,
    passed: int, failed: int, errors: int, skipped: int, xfailed: int,
    collected: int, collectionErrors: int, collectionSkips: int, deselected: int,
    selection: map<string, Json>, skipReasons: map<string, Json>,
    services: map<string, Json>, preSuiteState: map<string, Json>)

  function Truncate(r: real): int {
    if r >= 0.0 then r.Floor else -((-r).Floor)
  }

  function IntAt(m: map<string, Json>, key: string): Parsed<int> {
    if key !in m then Err(KeyError(key))
    else match m[key]
         case JInt(i) => Ok(i)
         case JBool(b) => Ok(if b then 1 else 0)
         case JReal(r) => Ok(Truncate(r))
         case _ => Err(TypeError(key))
  }

  function RealAt(m: map<string, Json>, key: string): Parsed<real> {
    if key !in m then Err(KeyError(key))
    else match m[key]
         case JInt(i) => Ok(i as real)
         case JBool(b) => Ok(if b then 1.0 else 0.0)
         case JReal(r) => Ok(r)
         case _ => Err(TypeError(key))
  }

  function BoolAt(m: map<string, Json>, key: string): Parsed<bool> {
    if key !in m then Err(KeyError(key)) else Ok(Truthy(m[key]))
  }

  /** The integer next to `r` on the side of zero. */
  ghost predicate TowardZero(r: real, i: int) {
    if r >= 0.0 then 0 <= i && i as real <= r < (i + 1) as real else i <= 0 && (i - 1) as real < r <= i as real
  }

  /** What `int(raw[key])` accepts, and what it makes of it. */
  lemma IntAtIs(m: map<string, Json>, key: string, i: int)
    ensures IntAt(m, key) == Ok(i) <==>
            key in m && (m[key] == JInt(i) || (m[key].JBool? && i == if m[key].b then 1 else 0) || (m[key].JReal? && TowardZero(m[key].r, i)))
  {
    if key in m && m[key].JReal? {
      TruncateIs(m[key].r, i);
    }
  }

  lemma TruncateIs(r: real, i: int)
    ensures Truncate(r) == i <==> TowardZero(r, i)
  {
    if r >= 0.0 {
      assert r.Floor as real <= r < (r.Floor + 1) as real;
    } else {
      assert (-r).Floor as real <= -r < ((-r).Floor + 1) as real;
    }
  }

  lemma RealAtIs(m: map<string, Json>, key: string, r: real)
    ensures RealAt(m, key) == Ok(r) <==>
            key in m && (m[key] == JReal(r) || (m[key].JInt? && r == m[key].i as real) || (m[key].JBool? && r == if m[key].b then 1.0 else 0.0))
  {
  }

  function ObjAt(m: map<string, Json>, key: string): Parsed<map<string, Json>> {
    if key !in m then Err(KeyError(key))
    else if m[key].JObj? then Ok(m[key].entries)
    else Err(TypeError(key))
  }

  /** `RunManifest.parse`: a missing key or another schema is an error. */
  function Parse(raw: map<string, Json>): Parsed<Manifest> {
    var schema :- IntAt(raw, "schema");
    if schema != MANIFEST_SCHEMA then Err(WrongSchema(schema))
    else
      var outcomes :- ObjAt(raw, "outcomes");
      var finishedAt :- RealAt(raw, "finished_at");
      var coverageActive :- BoolAt(raw, "coverage_active");
      var exitStatus :- IntAt(raw, "exit_status");
      var passed :- IntAt(outcomes, "passed");
      var failed :- IntAt(outcomes, "failed");
      var errors :- IntAt(outcomes, "errors");
      var skipped :- IntAt(outcomes, "skipped");
      var xfailed :- IntAt(outcomes, "xfailed");
      var collected :- IntAt(raw, "collected");
      var collectionErrors :- IntAt(raw, "collection_errors");
      var collectionSkips :- IntAt(raw, "collection_skips");
      var deselected :- IntAt(raw, "deselected");
      var selection :- ObjAt(raw, "selection");
      var skipReasons :- ObjAt(raw, "skip_reasons");
      var services :- ObjAt(raw, "services");
      var preSuiteState :- ObjAt(raw, "pre_suite_state");
      Ok(Manifest(schema, finishedAt, coverageActive, exitStatus, passed, failed, errors, skipped, xfailed,
                  collected, collectionErrors, collectionSkips, deselected, selection, skipReasons, services, preSuiteState))
  }

  /** The reader gets back every field the writer wrote. */
  lemma ParseReadsBack(r: Record, f: Finish)
    ensures Parse(Write(r, f)) ==
            Ok(Manifest(MANIFEST_SCHEMA, f.finishedAt, f.coverageActive, f.exitStatus,
                        r.passed, r.failed, r.errors, r.skipped, r.xfailed,
                        r.collected, r.collectionErrors, r.collectionSkips, r.deselected,
                        SelectionJson(f), SkipsJson(TopSkips(r.skipReasons)), ServicesJson(r.stores), StatesJson(r.stores)))
  {
    var raw := Write(r, f);
    WrittenCounts(r, f);
    WrittenParts(r, f);
    WrittenOutcomes(r);
    ParseOf(raw, OutcomesJson(r),
            Manifest(MANIFEST_SCHEMA, f.finishedAt, f.coverageActive, f.exitStatus,
                     r.passed, r.failed, r.errors, r.skipped, r.xfailed,
                     r.collected, r.collectionErrors, r.collectionSkips, r.deselected,
                     SelectionJson(f), SkipsJson(TopSkips(r.skipReasons)), ServicesJson(r.stores), StatesJson(r.stores)));
  }

  lemma WrittenCounts(r: Record, f: Finish)
    ensures var raw := Write(r, f);
            && IntAt(raw, "schema") == Ok(MANIFEST_SCHEMA) && IntAt(raw, "exit_status") == Ok(f.exitStatus)
            && RealAt(raw, "finished_at") == Ok(f.finishedAt) && BoolAt(raw, "coverage_active") == Ok(f.coverageActive)
            && IntAt(raw, "collected") == Ok(r.collected) && IntAt(raw, "deselected") == Ok(r.deselected)
            && IntAt(raw, "collection_errors") == Ok(r.collectionErrors)
            && IntAt(raw, "collection_skips") == Ok(r.collectionSkips)
  {
  }

  lemma WrittenParts(r: Record, f: Finish)
    ensures var raw := Write(r, f);
            && ObjAt(raw, "outcomes") == Ok(OutcomesJson(r)) && ObjAt(raw, "selection") == Ok(SelectionJson(f))
            && ObjAt(raw, "skip_reasons") == Ok(SkipsJson(TopSkips(r.skipReasons)))
            && ObjAt(raw, "services") == Ok(ServicesJson(r.stores))
            && ObjAt(raw, "pre_suite_state") == Ok(StatesJson(r.stores))
  {
  }

  lemma WrittenOutcomes(r: Record)
    ensures var o := OutcomesJson(r);
            && IntAt(o, "passed") == Ok(r.passed) && IntAt(o, "failed") == Ok(r.failed) && IntAt(o, "errors") == Ok(r.errors)
            && IntAt(o, "skipped") == Ok(r.skipped) && IntAt(o, "xfailed") == Ok(r.xfailed)
  {
  }

  lemma ParseOf(raw: map<string, Json>, o: map<string, Json>, m: Manifest)
    requires IntAt(raw, "schema") == Ok(m.schema) && m.schema == MANIFEST_SCHEMA && ObjAt(raw, "outcomes") == Ok(o)
    requires RealAt(raw, "finished_at") == Ok(m.finishedAt) && BoolAt(raw, "coverage_active") == Ok(m.coverageActive)
    requires IntAt(raw, "exit_status") == Ok(m.exitStatus) && IntAt(raw, "collected") == Ok(m.collected)
    requires IntAt(o, "passed") == Ok(m.passed) && IntAt(o, "failed") == Ok(m.failed) && IntAt(o, "errors") == Ok(m.errors)
    requires IntAt(o, "skipped") == Ok(m.skipped) && IntAt(o, "xfailed") == Ok(m.xfailed)
    requires IntAt(raw, "collection_errors") == Ok(m.collectionErrors)
    requires IntAt(raw, "collection_skips") == Ok(m.collectionSkips) && IntAt(raw, "deselected") == Ok(m.deselected)
    requires ObjAt(raw, "selection") == Ok(m.selection) && ObjAt(raw, "skip_reasons") == Ok(m.skipReasons)
    requires ObjAt(raw, "services") == Ok(m.services) && ObjAt(raw, "pre_suite_state") == Ok(m.preSuiteState)
    ensures Parse(raw) == Ok(m)
  {
  }

  const MANIFEST_KEYS := {"schema", "finished_at", "coverage_active", "exit_status", "collected", "collection_errors",
                          "collection_skips", "deselected", "outcomes", "selection", "skip_reasons", "services", "pre_suite_state"}

  const OUTCOME_KEYS := {"passed", "failed", "errors", "skipped", "xfailed"}

  /** The schema must be this one, and every one of the keys is needed, those inside
      `outcomes` too: otherwise the manifest is refused. */
  lemma ParseIsStrict(raw: map<string, Json>)
    ensures Parse(raw).Ok? ==> IntAt(raw, "schema") == Ok(1)
    ensures Parse(raw).Ok? ==> MANIFEST_KEYS <= raw.Keys && raw["outcomes"].JObj? && OUTCOME_KEYS <= raw["outcomes"].entries.Keys
  {
    if Parse(raw).Ok? {
      assert "outcomes" in raw && raw["outcomes"].JObj?;
      forall key | key in MANIFEST_KEYS ensures key in raw {}
      forall key | key in OUTCOME_KEYS ensures key in raw["outcomes"].entries {}
    }
  }

  // ----- the judgement ---------------------------------------------------------------------------

  const PAIRING_NEWER_SECONDS := 900.0
  const PAIRING_OLDER_SECONDS := 5.0

  datatype Reason =
    | NotInstrumented
    | NotPaired
    | DidNotPass
    | Filtered
    | CollectionSkipped
    | Unreachable(store: string)
    | StateUnknown(store: string)
    | NotFresh(store: string)

  /** `_filters`: was this less than the whole suite? */
  predicate HasFilters(m: Manifest) {
    || Truthy(Get(m.selection, "keyword"))
    || Truthy(Get(m.selection, "markexpr"))
    || Truthy(Get(m.selection, "last_failed"))
    || Get(m.selection, "args_source") != JStr("TESTPATHS")
    || m.deselected != 0
  }

  predicate StoreReason(m: Manifest, name: string, why: Reason)
    requires name in m.services
  {
    var state := if name in m.preSuiteState then m.preSuiteState[name] else JObj(map[]);
    if !Truthy(GetIn(m.services[name], "reachable")) then why == Unreachable(name)
    else if !Truthy(GetIn(state, "probed")) then why == StateUnknown(name)
    else Truthy(GetIn(state, "held")) && why == NotFresh(name)
  }

  ghost predicate RunReason(m: Manifest, measuredAt: real, why: Reason) {
    || (why == NotInstrumented && !m.coverageActive)
    || (why == NotPaired && !(-PAIRING_OLDER_SECONDS <= measuredAt - m.finishedAt <= PAIRING_NEWER_SECONDS))
    || (why == DidNotPass && (m.exitStatus != 0 || m.failed != 0 || m.errors != 0 || m.collectionErrors != 0))
    || (why == Filtered && HasFilters(m))
    || (why == CollectionSkipped && m.collectionSkips != 0)
  }

  /** `vouch`: the reasons this run cannot stand behind its number. */
  method Vouch(m: Manifest, measuredAt: real) returns (failures: seq<Reason>)
    ensures forall why :: why in failures <==>
                            RunReason(m, measuredAt, why) || exists name :: name in m.services && StoreReason(m, name, why)
    ensures failures == [] <==> Trusted(m, measuredAt)
  {
    failures := [];
    if !m.coverageActive {
      failures := failures + [NotInstrumented];
    }
    var drift := measuredAt - m.finishedAt;
    if !(-PAIRING_OLDER_SECONDS <= drift <= PAIRING_NEWER_SECONDS) {
      failures := failures + [NotPaired];
    }
    if m.exitStatus != 0 || m.failed != 0 || m.errors != 0 || m.collectionErrors != 0 {
      failures := failures + [DidNotPass];
    }
    if HasFilters(m) {
      failures := failures + [Filtered];
    }
    if m.collectionSkips != 0 {
      failures := failures + [CollectionSkipped];
    }
    assert forall why :: why in failures <==> RunReason(m, measuredAt, why);
    ghost var run := failures;
    var names := SortedNames(m.services.Keys);
    for i := 0 to |names|
      invariant forall why :: why in failures <==>
                                (why in run || exists name :: name in names[..i] && name in m.services && StoreReason(m, name, why))
    {
      var name := names[i];
      assert name in names;
      assert names[..i + 1] == names[..i] + [name];
      var more := JudgeStore(m, name);
      failures := failures + more;
    }
    assert names[..|names|] == names;
    TrustedIff(m, measuredAt);
    if failures != [] {
      assert failures[0] in failures;
    } else {
      forall why ensures !RunReason(m, measuredAt, why) { assert why !in failures; }
      forall name, why | name in m.services ensures !StoreReason(m, name, why) { assert why !in failures; }
    }
  }

  /** The reachability test and `_stale_state` for one store. */
  method JudgeStore(m: Manifest, name: string) returns (failures: seq<Reason>)
    requires name in m.services
    ensures forall why :: why in failures <==> StoreReason(m, name, why)
  {
    if !Truthy(GetIn(m.services[name], "reachable")) {
      return [Unreachable(name)];
    }
    var state := if name in m.preSuiteState then m.preSuiteState[name] else JObj(map[]);
    if !Truthy(GetIn(state, "probed")) {
      return [StateUnknown(name)];
    }
    if !Truthy(GetIn(state, "held")) {
      return [];
    }
    return [NotFresh(name)];
  }

  ghost predicate Trusted(m: Manifest, measuredAt: real) {
    && m.coverageActive
    && -PAIRING_OLDER_SECONDS <= measuredAt - m.finishedAt <= PAIRING_NEWER_SECONDS
    && m.exitStatus == 0 && m.failed == 0 && m.errors == 0 && m.collectionErrors == 0
    && !HasFilters(m) && m.collectionSkips == 0
    && forall name :: name in m.services ==> Fresh(m, name)
  }

  ghost predicate Fresh(m: Manifest, name: string)
    requires name in m.services
  {
    && Truthy(GetIn(m.services[name], "reachable"))
    && name in m.preSuiteState
    && Truthy(GetIn(m.preSuiteState[name], "probed")) && !Truthy(GetIn(m.preSuiteState[name], "held"))
  }

  lemma TrustedIff(m: Manifest, measuredAt: real)
    ensures Trusted(m, measuredAt) <==>
            (forall why :: !RunReason(m, measuredAt, why)) &&
            (forall name, why :: name in m.services ==> !StoreReason(m, name, why))
  {
    RunTrustedIff(m, measuredAt);
    forall name | name in m.services
      ensures Fresh(m, name) <==> forall why :: !StoreReason(m, name, why)
    {
      if forall why :: !StoreReason(m, name, why) {
        assert !StoreReason(m, name, Unreachable(name));
        assert !StoreReason(m, name, StateUnknown(name));
        assert !StoreReason(m, name, NotFresh(name));
      }
    }
  }

  lemma RunTrustedIff(m: Manifest, measuredAt: real)
    ensures (forall why :: !RunReason(m, measuredAt, why)) <==>
            && m.coverageActive
            && -PAIRING_OLDER_SECONDS <= measuredAt - m.finishedAt <= PAIRING_NEWER_SECONDS
            && m.exitStatus == 0 && m.failed == 0 && m.errors == 0 && m.collectionErrors == 0
            && !HasFilters(m) && m.collectionSkips == 0
  {
    if forall why :: !RunReason(m, measuredAt, why) {
      assert !RunReason(m, measuredAt, NotInstrumented);
      assert !RunReason(m, measuredAt, NotPaired);
      assert !RunReason(m, measuredAt, DidNotPass);
      assert !RunReason(m, measuredAt, Filtered);
      assert !RunReason(m, measuredAt, CollectionSkipped);
    }
  }

  // ----- trust, in terms of the history ------------------------------------------------------------

  ghost predicate Spoils(e: HookEvent) {
    match e
    case CollectReport(status) => status != Passed
    case LogReport(_, status, _, _) => status == Failed
    case Deselected(n) => n != 0
    case _ => false
  }

  ghost predicate EmptyStore(p: Probe) {
    p.Up? && p.held == map[]
  }

  /** What the last session start found, if there was one. */
  ghost function StoresSeen(history: seq<HookEvent>): Stores {
    if history == [] then NotProbed
    else if history[|history| - 1].SessionStart? then Probed(history[|history| - 1].postgres, history[|history| - 1].redis)
    else StoresSeen(history[..|history| - 1])
  }

  lemma {:induction false} ReplayCounts(history: seq<HookEvent>)
    ensures var r := Replay(history);
            && r.stores == StoresSeen(history)
            && (r.failed == 0 && r.errors == 0 && r.collectionErrors == 0 && r.collectionSkips == 0 && r.deselected == 0 <==>
                forall e :: e in history ==> !Spoils(e))
  {
    if history != [] {
      var last := |history| - 1;
      ReplayCounts(history[..last]);
      assert (forall e :: e in history ==> !Spoils(e)) <==>
             (forall e :: e in history[..last] ==> !Spoils(e)) && !Spoils(history[last]) by {
        assert forall e :: e in history <==> e in history[..last] || e == history[last];
      }
    }
  }

  /** The run was instrumented and paired with the measurement, the whole suite
      ran and passed, nothing was skipped at collection or deselected, and both
      stores were up and empty. */
  ghost predicate CleanHistory(history: seq<HookEvent>, f: Finish, measuredAt: real) {
    && f.coverageActive
    && -5.0 <= measuredAt - f.finishedAt <= 900.0
    && f.exitStatus == 0
    && f.keyword == "" && f.markexpr == "" && !f.lastFailed && f.argsSource == "TESTPATHS"
    && (forall e :: e in history ==> !Spoils(e))
  }

  /** Exactly which histories the gate trusts, through the written and re-read
      manifest.  A history in which no session start was recorded says nothing
      about the stores, and the gate then asks nothing about them. */
  lemma TrustIffClean(history: seq<HookEvent>, f: Finish, measuredAt: real)
    ensures Parse(Write(Replay(history), f)).Ok?
    ensures Trusted(Parse(Write(Replay(history), f)).value, measuredAt) <==>
            && CleanHistory(history, f, measuredAt)
            && (match StoresSeen(history)
                case NotProbed => true
                case Probed(pg, redis) => EmptyStore(pg) && EmptyStore(redis))
  {
    hide Replay, Parse, Write, HasFilters, Fresh, StoresSeen;
    var r := Replay(history);
    ReplayCounts(history);
    ParseReadsBack(r, f);
    var m := Parse(Write(r, f)).value;
    FiltersWritten(r, f, m);
    match r.stores {
      case NotProbed =>
      case Probed(pg, redis) =>
        FreshWritten(m, "postgres", "DATABASE_URL", pg);
        FreshWritten(m, "redis", "REDIS_URL", redis);
        assert (forall name :: name in m.services ==> Fresh(m, name)) <==> Fresh(m, "postgres") && Fresh(m, "redis");
    }
  }

  lemma FiltersWritten(r: Record, f: Finish, m: Manifest)
    requires m.selection == SelectionJson(f) && m.deselected == r.deselected
    ensures HasFilters(m) <==>
            !(f.keyword == "" && f.markexpr == "" && !f.lastFailed && f.argsSource == "TESTPATHS" && r.deselected == 0)
  {
    var s := SelectionJson(f);
    assert Get(s, "keyword") == JStr(f.keyword);
    assert Get(s, "markexpr") == JStr(f.markexpr);
    assert Get(s, "last_failed") == JBool(f.lastFailed);
    assert Get(s, "args_source") == JStr(f.argsSource);
  }

  lemma FreshWritten(m: Manifest, name: string, env: string, p: Probe)
    requires name in m.services && m.services[name] == ServiceJson(env, p)
    requires name in m.preSuiteState && m.preSuiteState[name] == StateJson(p)
    ensures Fresh(m, name) <==> EmptyStore(p)
  {
    assert GetIn(m.services[name], "reachable") == JBool(p.Up?);
    if p.Up? {
      assert GetIn(m.preSuiteState[name], "held") == HeldJson(p.held);
      assert HeldJson(p.held).entries.Keys == p.held.Keys;
      if p.held != map[] {
        assert p.held.Keys != {};
      }
    }
  }

  /** pytest starts a session before anything else: then trust says that both
      stores were reachable and empty. */
  lemma TrustedRunHadEmptyStores(history: seq<HookEvent>, f: Finish, measuredAt: real)
    requires exists e :: e in history && e.SessionStart?
    requires Parse(Write(Replay(history), f)).Ok?
    requires Trusted(Parse(Write(Replay(history), f)).value, measuredAt)
    ensures CleanHistory(history, f, measuredAt)
    ensures StoresSeen(history).Probed? && EmptyStore(StoresSeen(history).postgres) && EmptyStore(StoresSeen(history).redis)
  {
    TrustIffClean(history, f, measuredAt);
    SessionSeen(history);
  }

  lemma {:induction false} SessionSeen(history: seq<HookEvent>)
    requires exists e :: e in history && e.SessionStart?
    ensures StoresSeen(history).Probed?
  {
    var last := |history| - 1;
    if !history[last].SessionStart? {
      var e :| e in history && e.SessionStart?;
      assert e in history[..last];
      SessionSeen(history[..last]);
    }
  }

  /** A record that never saw a session start is trusted without any store. */
  lemma UnprobedRunIsTrusted()
    ensures exists f: Finish, at: real ::
              var p := Parse(Write(Replay([]), f)); p.Ok? && Trusted(p.value, at)
  {
    var f := Finish(0, true, 10.0, [], "TESTPATHS", "", "", false);
    TrustIffClean([], f, 10.0);
  }
}

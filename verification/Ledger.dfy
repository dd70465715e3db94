/**
 The database refuses to rewrite a ledger
 (scripts/check_ledger_immutability.py, `TriggerFacts` and `evaluate_triggers`).

 The guard judges catalog facts about triggers.  Beside it stands a model of what
 triggers do to statements, and the theorem that a clean verdict makes the table
 append-only under every run of statements and role switches.
 */
module Ledger {

  // ----- the catalog and the guard's reading of it --------------------------------------

  /** One row of pg_trigger: `enabled` is tgenabled (O, A, R or D), `mentionsRaise`
      that the function's text raises, and `always` that it does so whenever it
      is called -- which the guard cannot see. */
  datatype Trigger = Trigger(table: string, name: string, enabled: char, tgtype: nat, mentionsRaise: bool, always: bool)

  const TG_ROW := 1
  const TG_INSERT := 4
  const TG_DELETE := 8
  const TG_UPDATE := 16
  const TG_TRUNCATE := 32

  /** `tgtype & flag`, for a power of two. */
  predicate HasFlag(tgtype: nat, flag: nat)
    requires flag > 0
  {
    tgtype / flag % 2 == 1
  }

  datatype TriggerFacts = TriggerFacts(
    table: string, name: string, enabled: bool, rowLevel: bool,
    onUpdate: bool, onDelete: bool, onTruncate: bool, always: bool, raises: bool)

  /** `TriggerFacts.from_row`. */
  function FromRow(t: Trigger): TriggerFacts {
    TriggerFacts(t.table, t.name, t.enabled == 'O' || t.enabled == 'A', HasFlag(t.tgtype, TG_ROW),
                 HasFlag(t.tgtype, TG_UPDATE), HasFlag(t.tgtype, TG_DELETE), HasFlag(t.tgtype, TG_TRUNCATE),
                 t.enabled == 'A', t.mentionsRaise)
  }

  predicate Blocking(t: TriggerFacts) {
    t.enabled && t.raises
  }

  datatype Failure = NoTrigger(table: string) | DoesNotBlock(table: string) | Uncovered(table: string) | OriginOnly(table: string)

  /** The verdict on one table, in the order the guard asks. */
  ghost function Verdict(facts: seq<TriggerFacts>, table: string): set<Failure> {
    if !(exists t :: t in facts && t.table == table) then {NoTrigger(table)}
    else if !(exists t :: t in facts && t.table == table && Blocking(t) && t.rowLevel) then {DoesNotBlock(table)}
    else if !Covered(facts, table) then {Uncovered(table)}
    else if exists t :: t in facts && t.table == table && Blocking(t) && !t.always then {OriginOnly(table)}
    else {}
  }

  lemma VerdictNames(facts: seq<TriggerFacts>, f: Failure)
    ensures forall table :: f in Verdict(facts, table) ==> f.table == table
  {
  }

  ghost predicate Covered(facts: seq<TriggerFacts>, table: string) {
    && (exists t :: t in facts && t.table == table && Blocking(t) && t.rowLevel && t.onUpdate)
    && (exists t :: t in facts && t.table == table && Blocking(t) && t.rowLevel && t.onDelete)
    && (exists t :: t in facts && t.table == table && Blocking(t) && t.onTruncate)
  }

  /** Every verb that can remove a row is covered, and no blocking trigger can be
      switched off by a plain SET. */
  ghost predicate Clean(facts: seq<TriggerFacts>, table: string) {
    Covered(facts, table) && forall t :: t in facts && t.table == table && Blocking(t) ==> t.always
  }

  /** `evaluate_triggers` for one table: at most one failure. */
  method JudgeTable(facts: seq<TriggerFacts>, table: string) returns (failures: seq<Failure>)
    ensures forall f :: f in failures <==> f in Verdict(facts, table)
    ensures failures == [] <==> Clean(facts, table)
  {
    failures := [];
    var candidate := exists t :: t in facts && t.table == table;
    if !candidate {
      return [NoTrigger(table)];
    }
    var blocks := exists t :: t in facts && t.table == table && Blocking(t) && t.rowLevel;
    if !blocks {
      return [DoesNotBlock(table)];
    }
    var update := exists t :: t in facts && t.table == table && Blocking(t) && t.rowLevel && t.onUpdate;
    var delete := exists t :: t in facts && t.table == table && Blocking(t) && t.rowLevel && t.onDelete;
    var truncate := exists t :: t in facts && t.table == table && Blocking(t) && t.onTruncate;
    if !update || !delete || !truncate {
      return [Uncovered(table)];
    }
    var origin := exists t :: t in facts && t.table == table && Blocking(t) && !t.always;
    if origin {
      return [OriginOnly(table)];
    }
  }

  /** `evaluate_triggers`. */
  method EvaluateTriggers(facts: seq<TriggerFacts>, tables: seq<string>) returns (failures: seq<Failure>)
    ensures forall f :: f in failures <==> exists t :: t in tables && f in Verdict(facts, t)
    ensures failures == [] <==> forall t :: t in tables ==> Clean(facts, t)
  {
    failures := [];
    for i := 0 to |tables|
      invariant forall f :: f in failures <==> exists j :: 0 <= j < i && f in Verdict(facts, tables[j])
      invariant failures == [] <==> forall j :: 0 <= j < i ==> Clean(facts, tables[j])
    {
      var more := JudgeTable(facts, tables[i]);
      failures := failures + more;
    }
    assert forall t :: t in tables <==> exists j :: 0 <= j < |tables| && tables[j] == t;
  }

  // ----- what triggers do -------------------------------------------------------------------

  datatype Role = Origin | Replica

  type Row = int

  /** `abstain` is the worst case for conditional triggers: a function that does
      not always raise does not raise this time. */
  datatype Stmt =
    | Insert(rows: seq<Row>, abstain: bool)
    | Update(changes: map<nat, Row>, abstain: bool)
    | Delete(at: set<nat>, abstain: bool)
    | Truncate(abstain: bool)
    | SetRole(role: Role)

  datatype Db = Db(rows: seq<Row>, role: Role)

  datatype Verb = INSERT | UPDATE | DELETE | TRUNCATE

  function FlagOf(v: Verb): nat {
    match v case INSERT => TG_INSERT case UPDATE => TG_UPDATE case DELETE => TG_DELETE case TRUNCATE => TG_TRUNCATE
  }

  /** Whether a trigger is awake under the session's replication role. */
  predicate Awake(t: Trigger, role: Role) {
    t.enabled == 'A' || (t.enabled == 'O' && role == Origin) || (t.enabled == 'R' && role == Replica)
  }

  /** A row-level trigger fires once per affected row, and never for TRUNCATE. */
  predicate Fires(t: Trigger, v: Verb, role: Role, affected: bool) {
    Awake(t, role) && HasFlag(t.tgtype, FlagOf(v)) && (HasFlag(t.tgtype, TG_ROW) ==> affected && v != TRUNCATE)
  }

  predicate Stops(triggers: seq<Trigger>, v: Verb, role: Role, affected: bool, abstain: bool) {
    exists t :: t in triggers && Fires(t, v, role, affected) && t.mentionsRaise && (t.always || !abstain)
  }

  function UpdateRows(rows: seq<Row>, at: map<nat, Row>): (r: seq<Row>)
    ensures |r| == |rows|
  {
    seq(|rows|, i requires 0 <= i < |rows| => if i in at then at[i] else rows[i])
  }

  function DeleteRows(rows: seq<Row>, at: set<nat>): (r: seq<Row>)
    ensures |r| <= |rows|
  {
    if rows == [] then []
    else
      var last := |rows| - 1;
      DeleteRows(rows[..last], at) + (if last in at then [] else [rows[last]])
  }

  predicate Touches(rows: seq<Row>, at: set<nat>) {
    exists i :: 0 <= i < |rows| && i in at
  }

  /** One statement against the ledger whose triggers are given. */
  function Exec(triggers: seq<Trigger>, db: Db, s: Stmt): Db {
    match s
    case SetRole(role) => db.(role := role)
    case Insert(rows, abstain) =>
      if Stops(triggers, INSERT, db.role, rows != [], abstain) then db else db.(rows := db.rows + rows)
    case Update(at, abstain) =>
      if Stops(triggers, UPDATE, db.role, Touches(db.rows, at.Keys), abstain) then db else db.(rows := UpdateRows(db.rows, at))
    case Delete(at, abstain) =>
      if Stops(triggers, DELETE, db.role, Touches(db.rows, at), abstain) then db else db.(rows := DeleteRows(db.rows, at))
    case Truncate(abstain) =>
      if Stops(triggers, TRUNCATE, db.role, db.rows != [], abstain) then db else db.(rows := [])
  }

  function Run(triggers: seq<Trigger>, db: Db, stmts: seq<Stmt>): Db {
    if stmts == [] then db else Exec(triggers, Run(triggers, db, stmts[..|stmts| - 1]), stmts[|stmts| - 1])
  }

  /** Whatever is executed, the rows that were there stay, in order. */
  ghost predicate AppendOnly(triggers: seq<Trigger>) {
    forall db: Db, stmts :: db.rows <= Run(triggers, db, stmts).rows
  }

  // ----- when a table is append-only ----------------------------------------------------------

  /** Some trigger that always raises is awake for the verb under the role. */
  ghost predicate Guarded(triggers: seq<Trigger>, v: Verb, role: Role) {
    exists t :: t in triggers && Fires(t, v, role, true) && t.mentionsRaise && t.always
  }

  ghost predicate FullyGuarded(triggers: seq<Trigger>) {
    forall v, role :: v != INSERT ==> Guarded(triggers, v, role)
  }

  lemma GuardedStops(triggers: seq<Trigger>, v: Verb, role: Role, abstain: bool)
    requires Guarded(triggers, v, role)
    ensures Stops(triggers, v, role, true, abstain)
  {
    var t :| t in triggers && Fires(t, v, role, true) && t.mentionsRaise && t.always;
  }

  lemma {:induction false} UntouchedDelete(rows: seq<Row>, at: set<nat>)
    requires !Touches(rows, at)
    ensures DeleteRows(rows, at) == rows
  {
    if rows != [] {
      var last := |rows| - 1;
      assert !Touches(rows[..last], at);
      UntouchedDelete(rows[..last], at);
    }
  }

  /** Guarded while the session has this role. */
  ghost predicate GuardedIn(triggers: seq<Trigger>, role: Role) {
    forall v :: v != INSERT ==> Guarded(triggers, v, role)
  }

  lemma StatementKeepsRows(triggers: seq<Trigger>, db: Db, s: Stmt)
    requires GuardedIn(triggers, db.role)
    ensures db.rows <= Exec(triggers, db, s).rows
  {
    match s
    case SetRole(_) =>
    case Insert(_, _) =>
    case Update(at, abstain) =>
      GuardedStops(triggers, UPDATE, db.role, abstain);
      if !Touches(db.rows, at.Keys) {
        assert UpdateRows(db.rows, at) == db.rows;
      }
    case Delete(at, abstain) =>
      GuardedStops(triggers, DELETE, db.role, abstain);
      if !Touches(db.rows, at) {
        UntouchedDelete(db.rows, at);
      }
    case Truncate(abstain) =>
      GuardedTruncate(triggers, db, abstain);
  }

  lemma GuardedTruncate(triggers: seq<Trigger>, db: Db, abstain: bool)
    requires GuardedIn(triggers, db.role)
    ensures Stops(triggers, TRUNCATE, db.role, db.rows != [], abstain)
  {
    assert Guarded(triggers, TRUNCATE, db.role);
    var t :| t in triggers && Fires(t, TRUNCATE, db.role, true) && t.mentionsRaise && t.always;
    assert Fires(t, TRUNCATE, db.role, db.rows != []);
  }

  lemma {:induction false} RunKeepsRows(triggers: seq<Trigger>, db: Db, stmts: seq<Stmt>)
    requires FullyGuarded(triggers)
    ensures db.rows <= Run(triggers, db, stmts).rows
  {
    if stmts != [] {
      var mid := Run(triggers, db, stmts[..|stmts| - 1]);
      RunKeepsRows(triggers, db, stmts[..|stmts| - 1]);
      StatementKeepsRows(triggers, mid, stmts[|stmts| - 1]);
    }
  }

  /** A guard that is awake in one role only keeps the rows as long as nobody switches
      to the other. */
  lemma {:induction false} RoleKeepsRows(triggers: seq<Trigger>, db: Db, stmts: seq<Stmt>)
    requires GuardedIn(triggers, db.role) && forall s :: s in stmts && s.SetRole? ==> s.role == db.role
    ensures db.rows <= Run(triggers, db, stmts).rows && Run(triggers, db, stmts).role == db.role
  {
    if stmts != [] {
      var before, last := stmts[..|stmts| - 1], stmts[|stmts| - 1];
      assert last in stmts && forall s :: s in before ==> s in stmts;
      RoleKeepsRows(triggers, db, before);
      StatementKeepsRows(triggers, Run(triggers, db, before), last);
    }
  }

  /** Rows can be added to a ledger exactly as far as no raising trigger has the INSERT bit
      (bit 2) and is awake. */
  lemma InsertIff(triggers: seq<Trigger>, db: Db, rows: seq<Row>)
    requires rows != []
    ensures Exec(triggers, db, Insert(rows, true)).rows == db.rows + rows <==>
            !exists t :: t in triggers && t.tgtype / 4 % 2 == 1 && t.mentionsRaise && t.always &&
                         (t.enabled == 'A' || t.enabled == if db.role == Origin then 'O' else 'R')
  {
    assert |db.rows + rows| > |db.rows|;
  }

  /** The statement that empties or rewrites a one-row ledger through a verb
      nothing guards. */
  function Attack(v: Verb): Stmt {
    match v
    case UPDATE => Update(map[0 := 1], true)
    case DELETE => Delete({0}, true)
    case _ => Truncate(true)
  }

  lemma UnguardedLosesRow(triggers: seq<Trigger>, v: Verb, role: Role)
    requires v != INSERT && !Guarded(triggers, v, role)
    ensures !([0] <= Run(triggers, Db([0], Origin), [SetRole(role), Attack(v)]).rows)
  {
    var start := Db([0], Origin);
    var stmts := [SetRole(role), Attack(v)];
    assert stmts[..1] == [SetRole(role)] && stmts[..1][..0] == [];
    assert Run(triggers, start, stmts[..1]) == Db([0], role);
    var db := Db([0], role);
    forall t | t in triggers ensures !(Fires(t, v, role, true) && t.mentionsRaise && t.always) {}
    assert !Stops(triggers, v, role, true, true);
    match v
    case UPDATE =>
      assert 0 in map[0 := 1].Keys;
      assert Touches(db.rows, map[0 := 1].Keys);
      assert UpdateRows(db.rows, map[0 := 1])[0] == 1;
    case DELETE =>
      assert 0 in {0};
      assert Touches(db.rows, {0});
      assert [0][..0] == [];
      assert DeleteRows([0], {0}) == [];
    case TRUNCATE =>
  }

  /** A table is append-only under every run if and only if each of UPDATE, DELETE
      and TRUNCATE meets, under either replication role, a trigger that always
      raises. */
  lemma AppendOnlyIff(triggers: seq<Trigger>)
    ensures AppendOnly(triggers) <==> FullyGuarded(triggers)
  {
    if FullyGuarded(triggers) {
      forall db: Db, stmts ensures db.rows <= Run(triggers, db, stmts).rows { RunKeepsRows(triggers, db, stmts); }
    } else {
      var v, role :| v != INSERT && !Guarded(triggers, v, role);
      UnguardedLosesRow(triggers, v, role);
    }
  }

  // ----- what the verdict says about it ----------------------------------------------------------

  function Facts(triggers: seq<Trigger>): (r: seq<TriggerFacts>)
    ensures |r| == |triggers| && forall i :: 0 <= i < |r| ==> r[i] == FromRow(triggers[i])
  {
    seq(|triggers|, i requires 0 <= i < |triggers| => FromRow(triggers[i]))
  }

  /** The triggers of one table, out of a list that mixes tables. */
  function Of(triggers: seq<Trigger>, table: string): (r: seq<Trigger>)
    ensures forall t :: t in r <==> t in triggers && t.table == table
  {
    if triggers == [] then []
    else (if triggers[0].table == table then [triggers[0]] else []) + Of(triggers[1..], table)
  }

  /** PostgreSQL has no row-level TRUNCATE trigger, and here every function whose text
      raises does so whenever it is called. */
  ghost predicate PlainTriggers(triggers: seq<Trigger>) {
    forall t :: t in triggers ==> (t.mentionsRaise ==> t.always) && !(HasFlag(t.tgtype, TG_ROW) && HasFlag(t.tgtype, TG_TRUNCATE))
  }

  /** A clean verdict on a table, among catalog rows that mix tables, makes the table
      append-only. */
  lemma CleanIsAppendOnly(triggers: seq<Trigger>, table: string)
    requires PlainTriggers(triggers) && Clean(Facts(triggers), table)
    ensures AppendOnly(Of(triggers, table))
  {
    var facts := Facts(triggers);
    forall v, role | v != INSERT
      ensures Guarded(Of(triggers, table), v, role)
    {
      var f :| f in facts && f.table == table && Blocking(f) && f.always &&
               (match v case UPDATE => f.rowLevel && f.onUpdate case DELETE => f.rowLevel && f.onDelete case _ => f.onTruncate);
      var i :| 0 <= i < |facts| && facts[i] == f;
      assert triggers[i] in triggers;
      assert Fires(triggers[i], v, role, true);
    }
    AppendOnlyIff(Of(triggers, table));
  }

  /** The row is an enabled trigger of the table whose function's text raises. */
  ghost predicate RaisesOn(t: Trigger, table: string) {
    t.table == table && (t.enabled == 'O' || t.enabled == 'A') && t.mentionsRaise
  }

  /** Some such row is for each row (bit 0 of tgtype), or not, and has the verb's bit. */
  ghost predicate RaisesFor(rows: seq<Trigger>, table: string, perRow: bool, bit: nat)
    requires bit > 0
  {
    exists t :: t in rows && RaisesOn(t, table) && (perRow ==> t.tgtype % 2 == 1) && t.tgtype / bit % 2 == 1
  }

  /** UPDATE (bit 4) and DELETE (bit 3) raise for each row, TRUNCATE (bit 5) raises. */
  ghost predicate AllVerbs(rows: seq<Trigger>, table: string) {
    RaisesFor(rows, table, true, 16) && RaisesFor(rows, table, true, 8) && RaisesFor(rows, table, false, 32)
  }

  /** Each failure, read off the catalog's rows. */
  ghost predicate RowsSay(rows: seq<Trigger>, f: Failure) {
    match f
    case NoTrigger(table) => forall t :: t in rows ==> t.table != table
    case DoesNotBlock(table) =>
      (exists t :: t in rows && t.table == table) && forall t :: t in rows && RaisesOn(t, table) ==> t.tgtype % 2 == 0
    case Uncovered(table) =>
      (exists t :: t in rows && RaisesOn(t, table) && t.tgtype % 2 == 1) && !AllVerbs(rows, table)
    case OriginOnly(table) =>
      AllVerbs(rows, table) && exists t :: t in rows && RaisesOn(t, table) && t.enabled != 'A'
  }

  lemma FactIs(t: Trigger, table: string)
    ensures var f := FromRow(t);
            && f.table == t.table && (f.table == table && Blocking(f) <==> RaisesOn(t, table)) && (f.always <==> t.enabled == 'A')
            && (f.rowLevel <==> t.tgtype % 2 == 1) && (f.onUpdate <==> t.tgtype / 16 % 2 == 1)
            && (f.onDelete <==> t.tgtype / 8 % 2 == 1) && (f.onTruncate <==> t.tgtype / 32 % 2 == 1)
  {
    assert t.tgtype / 1 == t.tgtype;
  }

  lemma SomeFact(rows: seq<Trigger>, p: TriggerFacts -> bool)
    ensures (exists x :: x in Facts(rows) && p(x)) <==> exists t :: t in rows && p(FromRow(t))
  {
    var facts := Facts(rows);
    if x :| x in facts && p(x) {
      var i :| 0 <= i < |facts| && facts[i] == x;
      assert rows[i] in rows;
    }
    if t :| t in rows && p(FromRow(t)) {
      var i :| 0 <= i < |rows| && rows[i] == t;
      assert facts[i] in facts;
    }
  }

  /** The guard's four questions about a table, asked of the rows. */
  lemma QuestionsAre(rows: seq<Trigger>, table: string)
    ensures (exists x :: x in Facts(rows) && x.table == table) <==> exists t :: t in rows && t.table == table
    ensures (exists x :: x in Facts(rows) && x.table == table && Blocking(x) && x.rowLevel) <==>
            exists t :: t in rows && RaisesOn(t, table) && t.tgtype % 2 == 1
    ensures (exists x :: x in Facts(rows) && x.table == table && Blocking(x) && !x.always) <==>
            exists t :: t in rows && RaisesOn(t, table) && t.enabled != 'A'
  {
    hide FromRow, Facts, Blocking, RaisesOn;
    forall t: Trigger { FactIs(t, table); }
    SomeFact(rows, (x: TriggerFacts) => x.table == table);
    SomeFact(rows, (x: TriggerFacts) => x.table == table && Blocking(x) && x.rowLevel);
    SomeFact(rows, (x: TriggerFacts) => x.table == table && Blocking(x) && !x.always);
  }

  lemma VerdictIs(rows: seq<Trigger>, f: Failure)
    ensures f in Verdict(Facts(rows), f.table) <==> RowsSay(rows, f)
  {
    hide FromRow, Facts, Blocking, Covered, AllVerbs, RaisesOn;
    QuestionsAre(rows, f.table);
    CoveredIs(rows, f.table);
    BlockingIsOfTable(rows, f.table);
  }

  lemma BlockingIsOfTable(rows: seq<Trigger>, table: string)
    ensures (exists t :: t in rows && RaisesOn(t, table) && t.tgtype % 2 == 1) ==> exists t :: t in rows && t.table == table
    ensures AllVerbs(rows, table) ==> exists t :: t in rows && RaisesOn(t, table) && t.tgtype % 2 == 1
  {
  }

  lemma CoveredIs(rows: seq<Trigger>, table: string)
    ensures Covered(Facts(rows), table) <==> AllVerbs(rows, table)
  {
    hide FromRow, Facts, Blocking, RaisesOn;
    forall t: Trigger { FactIs(t, table); }
    SomeFact(rows, (x: TriggerFacts) => x.table == table && Blocking(x) && x.rowLevel && x.onUpdate);
    SomeFact(rows, (x: TriggerFacts) => x.table == table && Blocking(x) && x.rowLevel && x.onDelete);
    SomeFact(rows, (x: TriggerFacts) => x.table == table && Blocking(x) && x.onTruncate);
  }

  /** From the catalog's rows to the verdict: exactly the failures the rows say, and a
      report without failures makes every listed table append-only. */
  method CheckTriggers(rows: seq<Trigger>, tables: seq<string>) returns (failures: seq<Failure>)
    ensures forall f :: f in failures <==> f.table in tables && RowsSay(rows, f)
    ensures failures == [] <==> forall t :: t in tables ==> Clean(Facts(rows), t)
    ensures failures == [] && PlainTriggers(rows) ==> forall t :: t in tables ==> AppendOnly(Of(rows, t))
  {
    failures := EvaluateTriggers(Facts(rows), tables);
    hide Clean, AppendOnly, PlainTriggers, RowsSay, Verdict;
    forall f ensures f in failures <==> f.table in tables && RowsSay(rows, f) {
      VerdictIs(rows, f);
      VerdictNames(Facts(rows), f);
    }
    if failures == [] && PlainTriggers(rows) {
      forall t | t in tables ensures AppendOnly(Of(rows, t)) { CleanIsAppendOnly(rows, t); }
    }
  }

  /** Each demand is needed: a table that meets all of them but the named one. */
  const WITHOUT_TRUNCATE := [Trigger("audit_log", "no_mutation", 'A', TG_ROW + TG_DELETE + TG_UPDATE, true, true)]

  const WITHOUT_DELETE := [Trigger("audit_log", "no_mutation", 'A', TG_ROW + TG_UPDATE, true, true),
                           Trigger("audit_log", "no_truncate", 'A', TG_TRUNCATE, true, true)]

  const WITHOUT_UPDATE := [Trigger("audit_log", "no_mutation", 'A', TG_ROW + TG_DELETE, true, true),
                           Trigger("audit_log", "no_truncate", 'A', TG_TRUNCATE, true, true)]

  const REPLICA_ONLY := [Trigger("audit_log", "no_mutation", 'R', TG_ROW + TG_DELETE + TG_UPDATE, true, true),
                         Trigger("audit_log", "no_truncate", 'R', TG_TRUNCATE, true, true)]

  const WITHOUT_ALWAYS := [Trigger("audit_log", "no_mutation", 'O', TG_ROW + TG_DELETE + TG_UPDATE, true, true),
                           Trigger("audit_log", "no_truncate", 'O', TG_TRUNCATE, true, true)]

  const CONDITIONAL := [Trigger("audit_log", "no_mutation", 'A', TG_ROW + TG_DELETE + TG_UPDATE, true, false),
                        Trigger("audit_log", "no_truncate", 'A', TG_TRUNCATE, true, false)]

  /** Without the TRUNCATE demand one statement empties the ledger. */
  lemma TruncateDemandIsNeeded()
    ensures var facts := Facts(WITHOUT_TRUNCATE);
            && (exists t :: t in facts && Blocking(t) && t.rowLevel && t.onUpdate && t.onDelete)
            && (forall t :: t in facts && Blocking(t) ==> t.always)
            && PlainTriggers(WITHOUT_TRUNCATE) && Of(WITHOUT_TRUNCATE, "audit_log") == WITHOUT_TRUNCATE
            && forall db :: Run(WITHOUT_TRUNCATE, db, [Truncate(true)]).rows == []
  {
    var facts := Facts(WITHOUT_TRUNCATE);
    assert facts[0] in facts;
    forall db ensures Run(WITHOUT_TRUNCATE, db, [Truncate(true)]).rows == [] {
      assert [Truncate(true)][..0] == [];
    }
  }

  /** Without the DELETE demand, or the UPDATE demand, one statement takes or rewrites a
      row. */
  lemma MutationDemandsAreNeeded()
    ensures PlainTriggers(WITHOUT_DELETE) && PlainTriggers(WITHOUT_UPDATE)
    ensures Run(WITHOUT_DELETE, Db([0], Origin), [Delete({0}, true)]).rows == []
    ensures Run(WITHOUT_UPDATE, Db([0], Origin), [Update(map[0 := 1], true)]).rows == [1]
  {
    assert [Delete({0}, true)][..0] == [] && [Update(map[0 := 1], true)][..0] == [];
    DeleteIsNotStopped();
    UpdateIsNotStopped();
    assert [0][..0] == [];
    assert DeleteRows([0], {0}) == [];
    assert UpdateRows([0], map[0 := 1]) == [1];
    hide Stops, PlainTriggers;
  }

  lemma DeleteIsNotStopped()
    ensures !Stops(WITHOUT_DELETE, DELETE, Origin, Touches([0], {0}), true) && PlainTriggers(WITHOUT_DELETE)
  {
  }

  lemma UpdateIsNotStopped()
    ensures !Stops(WITHOUT_UPDATE, UPDATE, Origin, Touches([0], map[0 := 1].Keys), true) && PlainTriggers(WITHOUT_UPDATE)
  {
  }

  /** Replica triggers sleep in an ordinary session: the verdict does not take them for
      enabled, and one statement empties the table; in a replica session they do guard. */
  lemma ReplicaTriggersDoNotGuard()
    ensures PlainTriggers(REPLICA_ONLY) && RowsSay(REPLICA_ONLY, DoesNotBlock("audit_log"))
    ensures forall rows :: Run(REPLICA_ONLY, Db(rows, Origin), [Truncate(true)]).rows == []
    ensures GuardedIn(REPLICA_ONLY, Replica)
  {
    assert REPLICA_ONLY[0] in REPLICA_ONLY && REPLICA_ONLY[1] in REPLICA_ONLY;
    forall rows ensures Run(REPLICA_ONLY, Db(rows, Origin), [Truncate(true)]).rows == [] {
      assert [Truncate(true)][..0] == [];
    }
    forall v | v != INSERT ensures Guarded(REPLICA_ONLY, v, Replica) {
      var t := if v == TRUNCATE then REPLICA_ONLY[1] else REPLICA_ONLY[0];
      assert Fires(t, v, Replica, true);
    }
  }

  /** Without the ENABLE ALWAYS demand a plain SET switches the guard off; until then it
      holds. */
  lemma AlwaysDemandIsNeeded()
    ensures PlainTriggers(WITHOUT_ALWAYS) && Covered(Facts(WITHOUT_ALWAYS), "audit_log")
    ensures GuardedIn(WITHOUT_ALWAYS, Origin)
    ensures forall db :: Run(WITHOUT_ALWAYS, db, [SetRole(Replica), Truncate(true)]).rows == []
  {
    var facts := Facts(WITHOUT_ALWAYS);
    assert facts[0] in facts && facts[1] in facts;
    forall v | v != INSERT ensures Guarded(WITHOUT_ALWAYS, v, Origin) {
      var t := if v == TRUNCATE then WITHOUT_ALWAYS[1] else WITHOUT_ALWAYS[0];
      assert t in WITHOUT_ALWAYS && Fires(t, v, Origin, true);
    }
    forall db ensures Run(WITHOUT_ALWAYS, db, [SetRole(Replica), Truncate(true)]).rows == [] {
      var stmts := [SetRole(Replica), Truncate(true)];
      assert stmts[..1] == [SetRole(Replica)] && stmts[..1][..0] == [];
    }
  }

  /** The text of a function is not its behaviour: one that mentions RAISE and
      does not always raise passes the verdict and protects nothing. */
  lemma ConditionalRaisePasses()
    ensures Clean(Facts(CONDITIONAL), "audit_log") && !AppendOnly(CONDITIONAL)
  {
    ConditionalIsClean();
    assert forall t :: t in CONDITIONAL ==> !t.always;
    assert !Guarded(CONDITIONAL, TRUNCATE, Origin);
    hide Guarded, Clean;
    AppendOnlyIff(CONDITIONAL);
  }

  lemma ConditionalIsClean()
    ensures Clean(Facts(CONDITIONAL), "audit_log")
  {
    var facts := Facts(CONDITIONAL);
    assert facts[0] in facts && facts[1] in facts;
  }
}

/**
 The erasure verdict (scripts/check_erasure_coverage.py, `evaluate`).

 A report is judged against two registers of exemptions.  The report is proved
 to hold exactly the deserved failures, and to be empty exactly when, for each
 erasure, the tables in scope split into three disjoint parts.
 */
module ErasureVerdict {
  import opened Ordering
  import ErasureWalk

  const MIN_EXEMPTION_REASON := 40

  datatype Schema = Schema(handles: set<string>, linked: set<string>, prose: set<string>, all: set<string>) {
    function InScope(): set<string> { handles + linked + prose }
  }

  type Reached = map<string, set<string>>                 // entrypoint -> tables
  type Register = map<string, string>                     // table -> reason
  type EntryRegister = map<string, Register>              // entrypoint -> register

  /** `ErasureReach.tables`: what some erasure reaches. */
  function AllReached(reach: Reached): set<string> {
    set e, t | e in reach && t in reach[e] :: t
  }

  datatype Failure =
    | Uncovered(table: string, entrypoint: string)
    | UnknownEntrypoint(entrypoint: string)
    | EntryNoSuchTable(table: string, entrypoint: string)
    | EntryOutOfScope(table: string, entrypoint: string)
    | EntryReached(table: string, entrypoint: string)
    | EntryAlsoExempt(table: string, entrypoint: string)
    | EntryThinReason(table: string, entrypoint: string)
    | NoSuchTable(table: string)
    | OutOfScope(table: string)
    | ExemptReached(table: string)
    | ThinReason(table: string)

  predicate Thin(reason: string) {
    |Strip(reason)| < MIN_EXEMPTION_REASON
  }

  function RegisteredFor(per: EntryRegister, e: string): Register {
    if e in per then per[e] else map[]
  }

  // ----- which failures are deserved --------------------------------------------------

  ghost predicate EntrypointFailure(st: Schema, reach: Reached, exempt: Register, per: EntryRegister, f: Failure) {
    f.Uncovered? && f.entrypoint in reach && f.table in st.InScope() && f.table !in exempt &&
    f.table !in reach[f.entrypoint] && f.table !in RegisteredFor(per, f.entrypoint)
  }

  ghost predicate EntryTableFailure(st: Schema, reach: Reached, exempt: Register, reason: string, t: string, e: string, f: Failure)
    requires e in reach
  {
    || (t !in st.all && f == EntryNoSuchTable(t, e))
    || (t in st.all && t !in st.InScope() && f == EntryOutOfScope(t, e))
    || (t in reach[e] && f == EntryReached(t, e))
    || (t in exempt && f == EntryAlsoExempt(t, e))
    || (Thin(reason) && f == EntryThinReason(t, e))
  }

  ghost predicate EntryFailure(st: Schema, reach: Reached, exempt: Register, per: EntryRegister, e: string, f: Failure)
    requires e in per
  {
    if e !in reach then f == UnknownEntrypoint(e)
    else exists t :: t in per[e] && EntryTableFailure(st, reach, exempt, per[e][t], t, e, f)
  }

  ghost predicate ExemptFailure(st: Schema, reach: Reached, reason: string, t: string, f: Failure) {
    || (t !in st.all && f == NoSuchTable(t))
    || (t in st.all && t !in st.InScope() && f == OutOfScope(t))
    || (t in AllReached(reach) && f == ExemptReached(t))
    || (Thin(reason) && f == ThinReason(t))
  }

  ghost predicate Deserved(st: Schema, reach: Reached, exempt: Register, per: EntryRegister, f: Failure) {
    || EntrypointFailure(st, reach, exempt, per, f)
    || (exists e :: e in per && EntryFailure(st, reach, exempt, per, e, f))
    || (exists t :: t in exempt && ExemptFailure(st, reach, exempt[t], t, f))
  }

  /** The same, read off the registers: what each failure says is so. */
  ghost predicate IsSo(st: Schema, reach: Reached, exempt: Register, per: EntryRegister, f: Failure) {
    match f
    case Uncovered(t, e) =>
      e in reach && (t in st.handles || t in st.linked || t in st.prose) &&
      t !in reach[e] && t !in exempt && !(e in per && t in per[e])
    case UnknownEntrypoint(e) => e in per && e !in reach
    case EntryNoSuchTable(t, e) => Registered(reach, per, t, e) && t !in st.all
    case EntryOutOfScope(t, e) =>
      Registered(reach, per, t, e) && t in st.all && t !in st.handles && t !in st.linked && t !in st.prose
    case EntryReached(t, e) => Registered(reach, per, t, e) && t in reach[e]
    case EntryAlsoExempt(t, e) => Registered(reach, per, t, e) && t in exempt
    case EntryThinReason(t, e) => Registered(reach, per, t, e) && |Strip(per[e][t])| < 40
    case NoSuchTable(t) => t in exempt && t !in st.all
    case OutOfScope(t) => t in exempt && t in st.all && t !in st.handles && t !in st.linked && t !in st.prose
    case ExemptReached(t) => t in exempt && exists e :: e in reach && t in reach[e]
    case ThinReason(t) => t in exempt && |Strip(exempt[t])| < 40
  }

  /** The table is registered against an entrypoint that was walked. */
  ghost predicate Registered(reach: Reached, per: EntryRegister, t: string, e: string) {
    e in per && e in reach && t in per[e]
  }

  lemma DeservedIff(st: Schema, reach: Reached, exempt: Register, per: EntryRegister, f: Failure)
    ensures Deserved(st, reach, exempt, per, f) <==> IsSo(st, reach, exempt, per, f)
  {
    EntriesIff(st, reach, exempt, per, f);
    ExemptIff(st, reach, exempt, per, f);
    hide EntryFailure, ExemptFailure;
  }

  /** A failure about the per-entrypoint registers. */
  predicate AboutEntry(f: Failure) {
    f.UnknownEntrypoint? || f.EntryNoSuchTable? || f.EntryOutOfScope? || f.EntryReached? || f.EntryAlsoExempt? || f.EntryThinReason?
  }

  lemma EntriesIff(st: Schema, reach: Reached, exempt: Register, per: EntryRegister, f: Failure)
    ensures (exists e :: e in per && EntryFailure(st, reach, exempt, per, e, f)) <==>
            AboutEntry(f) && IsSo(st, reach, exempt, per, f)
  {
    if AboutEntry(f) && IsSo(st, reach, exempt, per, f) {
      var e := f.entrypoint;
      if !f.UnknownEntrypoint? {
        assert EntryTableFailure(st, reach, exempt, per[e][f.table], f.table, e, f);
      }
      assert EntryFailure(st, reach, exempt, per, e, f);
    }
    if e :| e in per && EntryFailure(st, reach, exempt, per, e, f) {
      if e in reach {
        var t :| t in per[e] && EntryTableFailure(st, reach, exempt, per[e][t], t, e, f);
      }
    }
  }

  lemma ExemptIff(st: Schema, reach: Reached, exempt: Register, per: EntryRegister, f: Failure)
    ensures (exists t :: t in exempt && ExemptFailure(st, reach, exempt[t], t, f)) <==>
            !AboutEntry(f) && !f.Uncovered? && IsSo(st, reach, exempt, per, f)
  {
    if !AboutEntry(f) && !f.Uncovered? && IsSo(st, reach, exempt, per, f) {
      assert ExemptFailure(st, reach, exempt[f.table], f.table, f);
    }
  }

  // ----- the evaluation ------------------------------------------------------------------

  method CheckEntrypoints(st: Schema, reach: Reached, exempt: Register, per: EntryRegister) returns (failures: seq<Failure>)
    ensures forall f :: f in failures <==> EntrypointFailure(st, reach, exempt, per, f)
  {
    failures := [];
    var entrypoints, tables := SortedNames(reach.Keys), SortedNames(st.InScope());
    for i := 0 to |entrypoints|
      invariant forall f :: f in failures <==> EntrypointFailure(st, reach, exempt, per, f) && f.entrypoint in entrypoints[..i]
    {
      var e := entrypoints[i];
      assert e in entrypoints;
      var registered := RegisteredFor(per, e);
      ghost var before := failures;
      for j := 0 to |tables|
        invariant forall f :: f in failures <==>
                                (f in before || (EntrypointFailure(st, reach, exempt, per, f) && f.entrypoint == e && f.table in tables[..j]))
      {
        var t := tables[j];
        assert t in tables;
        assert tables[..j + 1] == tables[..j] + [t];
        if !(t in exempt || t in reach[e] || t in registered) {
          failures := failures + [Uncovered(t, e)];
        }
      }
      assert tables[..|tables|] == tables;
      assert entrypoints[..i + 1] == entrypoints[..i] + [e];
    }
    assert entrypoints[..|entrypoints|] == entrypoints;
  }

  method CheckEntryTable(st: Schema, reach: Reached, exempt: Register, e: string, t: string, reason: string) returns (failures: seq<Failure>)
    requires e in reach
    ensures forall f :: f in failures <==> EntryTableFailure(st, reach, exempt, reason, t, e, f)
  {
    failures := [];
    if t !in st.all {
      failures := failures + [EntryNoSuchTable(t, e)];
    } else if t !in st.InScope() {
      failures := failures + [EntryOutOfScope(t, e)];
    }
    if t in reach[e] {
      failures := failures + [EntryReached(t, e)];
    }
    if t in exempt {
      failures := failures + [EntryAlsoExempt(t, e)];
    }
    if Thin(reason) {
      failures := failures + [EntryThinReason(t, e)];
    }
  }

  method CheckEntryRegister(st: Schema, reach: Reached, exempt: Register, e: string, registered: Register) returns (failures: seq<Failure>)
    requires e in reach
    ensures forall f :: f in failures <==> exists t :: t in registered && EntryTableFailure(st, reach, exempt, registered[t], t, e, f)
  {
    failures := [];
    var tables := SortedNames(registered.Keys);
    for i := 0 to |tables|
      invariant forall f :: f in failures <==> exists t :: t in registered && t in tables[..i] && EntryTableFailure(st, reach, exempt, registered[t], t, e, f)
    {
      var t := tables[i];
      assert t in tables;
      assert tables[..i + 1] == tables[..i] + [t];
      var more := CheckEntryTable(st, reach, exempt, e, t, registered[t]);
      failures := failures + more;
    }
    assert tables[..|tables|] == tables;
  }

  method CheckEntryRegisters(st: Schema, reach: Reached, exempt: Register, per: EntryRegister) returns (failures: seq<Failure>)
    ensures forall f :: f in failures <==> exists e :: e in per && EntryFailure(st, reach, exempt, per, e, f)
  {
    failures := [];
    var entrypoints := SortedNames(per.Keys);
    for i := 0 to |entrypoints|
      invariant forall f :: f in failures <==> exists e :: e in per && e in entrypoints[..i] && EntryFailure(st, reach, exempt, per, e, f)
    {
      var e := entrypoints[i];
      assert e in entrypoints;
      assert entrypoints[..i + 1] == entrypoints[..i] + [e];
      ghost var before := failures;
      if e !in reach {
        failures := failures + [UnknownEntrypoint(e)];
      } else {
        var more := CheckEntryRegister(st, reach, exempt, e, per[e]);
        failures := failures + more;
      }
      assert forall f :: f in failures <==> f in before || EntryFailure(st, reach, exempt, per, e, f);
    }
    assert entrypoints[..|entrypoints|] == entrypoints;
  }

  method CheckExemptTable(st: Schema, reach: Reached, t: string, reason: string) returns (failures: seq<Failure>)
    ensures forall f :: f in failures <==> ExemptFailure(st, reach, reason, t, f)
  {
    failures := [];
    if t !in st.all {
      failures := failures + [NoSuchTable(t)];
    } else if t !in st.InScope() {
      failures := failures + [OutOfScope(t)];
    }
    if t in AllReached(reach) {
      failures := failures + [ExemptReached(t)];
    }
    if Thin(reason) {
      failures := failures + [ThinReason(t)];
    }
  }

  method CheckExempt(st: Schema, reach: Reached, exempt: Register) returns (failures: seq<Failure>)
    ensures forall f :: f in failures <==> exists t :: t in exempt && ExemptFailure(st, reach, exempt[t], t, f)
  {
    failures := [];
    var tables := SortedNames(exempt.Keys);
    for i := 0 to |tables|
      invariant forall f :: f in failures <==> exists t :: t in exempt && t in tables[..i] && ExemptFailure(st, reach, exempt[t], t, f)
    {
      var t := tables[i];
      assert t in tables;
      assert tables[..i + 1] == tables[..i] + [t];
      var more := CheckExemptTable(st, reach, t, exempt[t]);
      failures := failures + more;
    }
    assert tables[..|tables|] == tables;
  }

  /** `evaluate`: exactly the failures that are so, and none exactly when the
      registers and the reach split the schema. */
  method Evaluate(st: Schema, reach: Reached, exempt: Register, per: EntryRegister) returns (failures: seq<Failure>)
    ensures forall f :: f in failures <==> IsSo(st, reach, exempt, per, f)
    ensures forall f :: f in failures <==> Deserved(st, reach, exempt, per, f)
    ensures failures == [] <==> Covered(st, reach, exempt, per)
  {
    var first := CheckEntrypoints(st, reach, exempt, per);
    var second := CheckEntryRegisters(st, reach, exempt, per);
    var third := CheckExempt(st, reach, exempt);
    failures := first + second + third;
    CleanIff(st, reach, exempt, per);
    if failures != [] {
      assert failures[0] in failures;
    }
    hide Deserved, IsSo, Covered;
    forall f ensures f in failures <==> IsSo(st, reach, exempt, per, f) { DeservedIff(st, reach, exempt, per, f); }
  }

  // ----- what a clean report means ----------------------------------------------------------

  /** `whole` is the disjoint union of the three parts. */
  ghost predicate Splits(whole: set<string>, a: set<string>, b: set<string>, c: set<string>) {
    whole == a + b + c && a !! b && b !! c && a !! c
  }

  ghost predicate ReasonsHold(exempt: Register, per: EntryRegister) {
    && (forall t :: t in exempt ==> !Thin(exempt[t]))
    && (forall e, t :: e in per && t in per[e] ==> !Thin(per[e][t]))
  }

  /** Every reason can be reviewed, every registered entrypoint is walked, no
      exempt table is reached by any erasure, and for each erasure the tables in
      scope split into the reached, the exempt and the registered ones (the last
      two naming real tables). */
  ghost predicate Covered(st: Schema, reach: Reached, exempt: Register, per: EntryRegister) {
    && ReasonsHold(exempt, per)
    && per.Keys <= reach.Keys
    && exempt.Keys <= st.InScope() * st.all
    && exempt.Keys !! AllReached(reach)
    && forall e :: e in reach ==>
         && RegisteredFor(per, e).Keys <= st.all
         && Splits(st.InScope(), reach[e] * st.InScope(), exempt.Keys, RegisteredFor(per, e).Keys)
  }

  lemma CleanIff(st: Schema, reach: Reached, exempt: Register, per: EntryRegister)
    ensures (forall f :: !Deserved(st, reach, exempt, per, f)) <==> Covered(st, reach, exempt, per)
  {
    if forall f :: !Deserved(st, reach, exempt, per, f) {
      CleanIsCovered(st, reach, exempt, per);
    }
    if Covered(st, reach, exempt, per) {
      forall f ensures !Deserved(st, reach, exempt, per, f) {
        CoveredIsClean(st, reach, exempt, per, f);
      }
    }
  }

  lemma CleanIsCovered(st: Schema, reach: Reached, exempt: Register, per: EntryRegister)
    requires forall f :: !Deserved(st, reach, exempt, per, f)
    ensures Covered(st, reach, exempt, per)
  {
    forall t | t in exempt
      ensures t in st.all && t in st.InScope() && t !in AllReached(reach) && !Thin(exempt[t])
    {
      assert !Deserved(st, reach, exempt, per, NoSuchTable(t));
      assert !Deserved(st, reach, exempt, per, OutOfScope(t));
      assert !Deserved(st, reach, exempt, per, ExemptReached(t));
      assert !Deserved(st, reach, exempt, per, ThinReason(t));
    }
    forall e | e in per
      ensures e in reach
    {
      assert !Deserved(st, reach, exempt, per, UnknownEntrypoint(e));
    }
    forall e, t | e in per && t in per[e]
      ensures t in st.all && t in st.InScope() && t !in reach[e] && t !in exempt && !Thin(per[e][t])
    {
      assert e in reach;
      EntryClean(st, reach, exempt, per, e, t, EntryNoSuchTable(t, e));
      EntryClean(st, reach, exempt, per, e, t, EntryOutOfScope(t, e));
      EntryClean(st, reach, exempt, per, e, t, EntryReached(t, e));
      EntryClean(st, reach, exempt, per, e, t, EntryAlsoExempt(t, e));
      EntryClean(st, reach, exempt, per, e, t, EntryThinReason(t, e));
    }
    forall e | e in reach
      ensures RegisteredFor(per, e).Keys <= st.all
      ensures Splits(st.InScope(), reach[e] * st.InScope(), exempt.Keys, RegisteredFor(per, e).Keys)
    {
      SplitsFor(st, reach, exempt, per, e);
    }
  }

  lemma EntryClean(st: Schema, reach: Reached, exempt: Register, per: EntryRegister, e: string, t: string, f: Failure)
    requires e in per && t in per[e] && e in reach
    requires !Deserved(st, reach, exempt, per, f)
    ensures !EntryTableFailure(st, reach, exempt, per[e][t], t, e, f)
  {
    assert !EntryFailure(st, reach, exempt, per, e, f);
  }

  lemma SplitsFor(st: Schema, reach: Reached, exempt: Register, per: EntryRegister, e: string)
    requires e in reach && forall f :: !Deserved(st, reach, exempt, per, f)
    requires forall t :: t in exempt ==> t in st.InScope() && t !in AllReached(reach)
    requires e in per ==> forall t :: t in per[e] ==> t in st.all && t in st.InScope() && t !in reach[e] && t !in exempt
    ensures RegisteredFor(per, e).Keys <= st.all
    ensures Splits(st.InScope(), reach[e] * st.InScope(), exempt.Keys, RegisteredFor(per, e).Keys)
  {
    var registered := RegisteredFor(per, e);
    forall t | t in st.InScope()
      ensures t in reach[e] || t in exempt || t in registered
    {
      assert !Deserved(st, reach, exempt, per, Uncovered(t, e));
    }
    forall t | t in exempt ensures t !in reach[e] {}
  }

  lemma CoveredIsClean(st: Schema, reach: Reached, exempt: Register, per: EntryRegister, f: Failure)
    requires Covered(st, reach, exempt, per)
    ensures !Deserved(st, reach, exempt, per, f)
  {
    if f.Uncovered? && f.entrypoint in reach {
      CoveredEntry(st, reach, exempt, per, f.entrypoint);
    }
    forall e | e in per ensures !EntryFailure(st, reach, exempt, per, e, f) { CoveredRegister(st, reach, exempt, per, e, f); }
    forall t | t in exempt ensures !ExemptFailure(st, reach, exempt[t], t, f) { CoveredExempt(st, reach, exempt, per, t, f); }
  }

  lemma CoveredExempt(st: Schema, reach: Reached, exempt: Register, per: EntryRegister, t: string, f: Failure)
    requires Covered(st, reach, exempt, per) && t in exempt
    ensures !ExemptFailure(st, reach, exempt[t], t, f)
  {
    assert t in exempt.Keys;
  }

  lemma CoveredRegister(st: Schema, reach: Reached, exempt: Register, per: EntryRegister, e: string, f: Failure)
    requires Covered(st, reach, exempt, per) && e in per
    ensures !EntryFailure(st, reach, exempt, per, e, f)
  {
    assert e in per.Keys;
    CoveredEntry(st, reach, exempt, per, e);
    forall t | t in per[e]
      ensures !EntryTableFailure(st, reach, exempt, per[e][t], t, e, f)
    {
      CoveredEntryTable(st, reach, exempt, per[e], e, t);
    }
  }

  lemma CoveredEntry(st: Schema, reach: Reached, exempt: Register, per: EntryRegister, e: string)
    requires Covered(st, reach, exempt, per) && e in reach
    ensures RegisteredFor(per, e).Keys <= st.all
    ensures Splits(st.InScope(), reach[e] * st.InScope(), exempt.Keys, RegisteredFor(per, e).Keys)
  {
  }

  lemma CoveredEntryTable(st: Schema, reach: Reached, exempt: Register, registered: Register, e: string, t: string)
    requires e in reach && t in registered && registered.Keys <= st.all
    requires Splits(st.InScope(), reach[e] * st.InScope(), exempt.Keys, registered.Keys)
    ensures t in st.all && t in st.InScope() && t !in reach[e] && t !in exempt
  {
    assert t in registered.Keys;
    assert t !in reach[e] * st.InScope();
  }

  /** Where scope is read off existing tables, a clean report says that every
      certificate is complete: each table in scope is erased by that erasure or
      carries a reviewed reason, and never both. */
  lemma CleanCertificates(st: Schema, reach: Reached, exempt: Register, per: EntryRegister, e: string, t: string)
    requires st.InScope() <= st.all && e in reach && t in st.InScope()
    requires forall f :: !Deserved(st, reach, exempt, per, f)
    ensures t in reach[e] <==> t !in exempt && t !in RegisteredFor(per, e)
    ensures t !in reach[e] ==> (t in exempt && !Thin(exempt[t])) || (e in per && t in per[e] && !Thin(per[e][t]))
  {
    CleanIsCovered(st, reach, exempt, per);
    assert Splits(st.InScope(), reach[e] * st.InScope(), exempt.Keys, RegisteredFor(per, e).Keys);
  }

  /** From call graph to certificate: with the reach the walk computes, a clean
      report says of every table in scope that a function this erasure can call
      names it, or that a reviewed reason says why none does. */
  lemma CertificatesAreHonest(st: Schema, reach: Reached, exempt: Register, per: EntryRegister,
                              fs: ErasureWalk.Functions, constants: ErasureWalk.Constants, e: string, t: string)
    requires e in reach && reach[e] == ErasureWalk.Answer(fs, constants, e)
    requires st.InScope() <= st.all && t in st.InScope()
    requires forall f :: !Deserved(st, reach, exempt, per, f)
    ensures ErasureWalk.NamedIn(fs, constants, ErasureWalk.Reach(fs, e), t) <==>
            t !in exempt && t !in RegisteredFor(per, e)
    ensures t in exempt ==> !Thin(exempt[t])
    ensures t !in exempt && e in per && t in per[e] ==> !Thin(per[e][t])
  {
    CleanCertificates(st, reach, exempt, per, e, t);
    CleanIsCovered(st, reach, exempt, per);
    ErasureWalk.AnswerNames(fs, constants, e);
  }
}

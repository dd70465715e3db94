/**
 Every queued job is answered (scripts/check_job_wiring.py).

 The guard compares three lists: the jobs defined, the jobs workers register, and
 the names enqueue sites say.  Here the queues and workers run, and the guard's
 sections are proved to decide exactly whether a job can be dropped with
 "function not found".
 */
module JobWiring {
  import opened Ordering
  import opened Wrappers

  /** An enqueue call; `job` is None where the name is not a readable constant. */
  datatype Site = Site(job: Option<string>, key: string)

  /** What the workers boot with.  Registered functions are objects, `names` is
      their `__name__`; a list is an object too, since the guard compares which
      list a worker holds and not what is in it. */
  datatype Registry = Registry(
    names: map<nat, string>,
    lists: map<nat, set<nat>>,      // lists of functions
    cronLists: map<nat, set<string>>,
    functionsAt: nat,               // FUNCTIONS
    cronsAt: nat,                   // CRON_JOBS
    mainFunctionsAt: nat,           // WorkerSettings.functions
    mainCronsAt: nat,               // WorkerSettings.cron_jobs
    bulkFunctions: set<nat>,        // BulkWorkerSettings.functions
    bulkJobs: set<string>)          // core.queue.BULK_JOBS
  {
    const functions: set<nat> := if functionsAt in lists then lists[functionsAt] else {}
    const mainFunctions: set<nat> := if mainFunctionsAt in lists then lists[mainFunctionsAt] else {}
    const crons: set<string> := if cronsAt in cronLists then cronLists[cronsAt] else {}
    const mainCrons: set<string> := if mainCronsAt in cronLists then cronLists[mainCronsAt] else {}
  }

  function NameOf(r: Registry, f: nat): string {
    if f in r.names then r.names[f] else ""
  }

  function NamesOf(r: Registry, fs: set<nat>): set<string> {
    set f | f in fs :: NameOf(r, f)
  }

  /** The names the guard takes to be registered; an object without a name is none. */
  function Known(r: Registry): set<string> {
    (NamesOf(r, r.functions) - {""}) + (r.crons - {""})
  }

  // ----- the guard's sections ---------------------------------------------------------------

  function DefinedButNotRegistered(definitions: seq<string>, known: set<string>): set<string> {
    set d | d in definitions && d !in known
  }

  function Resolved(sites: seq<Site>): set<string> {
    set s | s in sites && s.job.Some? :: s.job.value
  }

  function RegisteredButNeverEnqueued(r: Registry, sites: seq<Site>): set<string> {
    (NamesOf(r, r.functions) - {""}) - r.crons - Resolved(sites)
  }

  function EnqueuedButNotRegistered(sites: seq<Site>, known: set<string>): set<Site> {
    set s | s in sites && s.job.Some? && s.job.value !in known
  }

  function Unresolvable(sites: seq<Site>, acknowledged: set<string>): set<Site> {
    set s | s in sites && s.job.None? && s.key !in acknowledged
  }

  function StaleExemptions(sites: seq<Site>, acknowledged: set<string>): set<string> {
    acknowledged - set s | s in sites && s.job.None? :: s.key
  }

  datatype RegistryFailure = OtherFunctions | OtherCrons | ForeignBulkObject | BulkNamesDiffer

  /** `registry_is_the_one_the_worker_boots`. */
  method RegistryProblems(r: Registry) returns (failures: seq<RegistryFailure>)
    ensures OtherFunctions in failures <==> r.mainFunctionsAt != r.functionsAt
    ensures OtherCrons in failures <==> r.mainCronsAt != r.cronsAt
    ensures ForeignBulkObject in failures <==> exists f :: f in r.bulkFunctions && f !in r.functions
    ensures BulkNamesDiffer in failures <==> exists n :: (n in r.bulkJobs) != (exists f :: f in r.bulkFunctions && NameOf(r, f) == n)
    ensures Distinct(failures) && (failures == [] <==> RegistryAgrees(r))
  {
    failures := [];
    if r.mainFunctionsAt != r.functionsAt {
      failures := failures + [OtherFunctions];
    }
    if r.mainCronsAt != r.cronsAt {
      failures := failures + [OtherCrons];
    }
    if !(r.bulkFunctions <= r.functions) {
      failures := failures + [ForeignBulkObject];
    }
    if NamesOf(r, r.bulkFunctions) != r.bulkJobs {
      failures := failures + [BulkNamesDiffer];
    }
  }

  ghost predicate RegistryAgrees(r: Registry) {
    && r.mainFunctionsAt == r.functionsAt && r.mainCronsAt == r.cronsAt
    && r.bulkFunctions <= r.functions && NamesOf(r, r.bulkFunctions) == r.bulkJobs
  }

  // ----- the running system -------------------------------------------------------------------

  datatype System = System(outbox: seq<string>, main: seq<string>, bulk: seq<string>, ran: set<string>, dropped: seq<string>)

  const IDLE := System([], [], [], {}, [])

  datatype Step =
    | Emit(site: Site, name: string, outbox: bool)   // a call site says a name, directly or through the outbox
    | Drain                                          // the dispatcher publishes the oldest outbox row
    | MainWork
    | BulkWork
    | Tick(cron: string)

  /** What a call site can say: its constant; at an acknowledged dynamic site, a
      name chosen at a producer the scan reads; anywhere else, anything. */
  ghost predicate CanSay(sites: seq<Site>, acknowledged: set<string>, s: Site, name: string) {
    s in sites &&
    match s.job
    case Some(job) => name == job
    case None => s.key in acknowledged ==> name in Resolved(sites)
  }

  function Publish(r: Registry, sys: System, name: string): System {
    if name in r.bulkJobs then sys.(bulk := sys.bulk + [name]) else sys.(main := sys.main + [name])
  }

  /** A worker answers a name, or drops the job. */
  function Work(sys: System, name: string, answered: bool): System {
    if answered then sys.(ran := sys.ran + {name}) else sys.(dropped := sys.dropped + [name])
  }

  predicate MainAnswers(r: Registry, name: string) {
    name in (NamesOf(r, r.mainFunctions) + r.mainCrons) - {""}
  }

  predicate BulkAnswers(r: Registry, name: string) {
    name in NamesOf(r, r.bulkFunctions) - {""}
  }

  ghost function Apply(r: Registry, sites: seq<Site>, acknowledged: set<string>, sys: System, step: Step): System {
    match step
    case Emit(s, name, outbox) =>
      if !CanSay(sites, acknowledged, s, name) then sys
      else if outbox then sys.(outbox := sys.outbox + [name])
      else Publish(r, sys, name)
    case Drain =>
      if sys.outbox == [] then sys else Publish(r, sys.(outbox := sys.outbox[1..]), sys.outbox[0])
    case MainWork =>
      if sys.main == [] then sys else Work(sys.(main := sys.main[1..]), sys.main[0], MainAnswers(r, sys.main[0]))
    case BulkWork =>
      if sys.bulk == [] then sys else Work(sys.(bulk := sys.bulk[1..]), sys.bulk[0], BulkAnswers(r, sys.bulk[0]))
    case Tick(cron) => if cron in r.mainCrons then sys.(ran := sys.ran + {cron}) else sys
  }

  ghost function Run(r: Registry, sites: seq<Site>, acknowledged: set<string>, steps: seq<Step>): System {
    if steps == [] then IDLE
    else Apply(r, sites, acknowledged, Run(r, sites, acknowledged, steps[..|steps| - 1]), steps[|steps| - 1])
  }

  /** No run ever drops a job. */
  ghost predicate NeverDrops(r: Registry, sites: seq<Site>, acknowledged: set<string>) {
    forall steps :: Run(r, sites, acknowledged, steps).dropped == []
  }

  ghost predicate Sayable(sites: seq<Site>, acknowledged: set<string>, name: string) {
    exists s :: CanSay(sites, acknowledged, s, name)
  }

  predicate Answered(r: Registry, name: string) {
    if name in r.bulkJobs then BulkAnswers(r, name) else MainAnswers(r, name)
  }

  // ----- what every step keeps -------------------------------------------------------------------

  ghost predicate Inv(r: Registry, sites: seq<Site>, acknowledged: set<string>, sys: System) {
    && (forall n :: n in sys.outbox || n in sys.main || n in sys.bulk ==> Sayable(sites, acknowledged, n))
    && (forall n :: n in sys.main ==> n !in r.bulkJobs)
    && (forall n :: n in sys.bulk ==> n in r.bulkJobs)
    && (forall n :: n in sys.ran ==> n in r.mainCrons || (Sayable(sites, acknowledged, n) && Answered(r, n)))
    && (forall n :: n in sys.dropped ==> Sayable(sites, acknowledged, n) && !Answered(r, n))
  }

  lemma StepKeepsInv(r: Registry, sites: seq<Site>, acknowledged: set<string>, sys: System, step: Step)
    requires Inv(r, sites, acknowledged, sys)
    ensures Inv(r, sites, acknowledged, Apply(r, sites, acknowledged, sys, step))
  {
    match step
    case Emit(s, name, outbox) =>
      if CanSay(sites, acknowledged, s, name) { assert Sayable(sites, acknowledged, name); }
    case Drain => if sys.outbox != [] { assert sys.outbox[0] in sys.outbox; }
    case MainWork => if sys.main != [] { assert sys.main[0] in sys.main; }
    case BulkWork => if sys.bulk != [] { assert sys.bulk[0] in sys.bulk; }
    case Tick(_) =>
  }

  lemma {:induction false} RunKeepsInv(r: Registry, sites: seq<Site>, acknowledged: set<string>, steps: seq<Step>)
    ensures Inv(r, sites, acknowledged, Run(r, sites, acknowledged, steps))
  {
    if steps != [] {
      var rest := steps[..|steps| - 1];
      RunKeepsInv(r, sites, acknowledged, rest);
      StepKeepsInv(r, sites, acknowledged, Run(r, sites, acknowledged, rest), steps[|steps| - 1]);
    }
  }

  /** The run in which a site says a name and the worker in charge picks it up. */
  lemma SayAndWork(r: Registry, sites: seq<Site>, acknowledged: set<string>, s: Site, name: string) returns (steps: seq<Step>)
    requires CanSay(sites, acknowledged, s, name)
    ensures Run(r, sites, acknowledged, steps) == Work(IDLE, name, Answered(r, name))
  {
    var say, work := Emit(s, name, false), if name in r.bulkJobs then BulkWork else MainWork;
    steps := [say, work];
    assert steps[..1] == [say] && steps[..1][..0] == [];
    assert Run(r, sites, acknowledged, steps[..0]) == IDLE;
    var one := Run(r, sites, acknowledged, steps[..1]);
    assert one == Publish(r, IDLE, name);
    assert [name][1..] == [];
  }

  /** No job is ever dropped if and only if every name a site can say is answered
      by the worker it is routed to. */
  lemma NeverDropsIff(r: Registry, sites: seq<Site>, acknowledged: set<string>)
    ensures NeverDrops(r, sites, acknowledged) <==> forall n :: Sayable(sites, acknowledged, n) ==> Answered(r, n)
  {
    if NeverDrops(r, sites, acknowledged) {
      forall n | Sayable(sites, acknowledged, n)
        ensures Answered(r, n)
      {
        var s :| CanSay(sites, acknowledged, s, n);
        var steps := SayAndWork(r, sites, acknowledged, s, n);
        assert Run(r, sites, acknowledged, steps).dropped == [];
      }
    }
    if forall n :: Sayable(sites, acknowledged, n) ==> Answered(r, n) {
      forall steps
        ensures Run(r, sites, acknowledged, steps).dropped == []
      {
        var dropped := Run(r, sites, acknowledged, steps).dropped;
        assert dropped == [] || dropped[0] in dropped;
        RunKeepsInv(r, sites, acknowledged, steps);
      }
    }
  }

  // ----- the sections decide it -------------------------------------------------------------------

  lemma {:induction false} LongerThanAll(s: set<string>) returns (n: nat)
    ensures forall x :: x in s ==> |x| < n
    decreases |s|
  {
    if s == {} {
      n := 0;
    } else {
      var x :| x in s;
      var m := LongerThanAll(s - {x});
      n := if |x| < m then m else |x| + 1;
      forall y | y in s ensures |y| < n { if y != x { assert y in s - {x}; } }
    }
  }

  /** When the workers boot the registry the guard reads, a name is answered
      exactly when the guard takes it to be registered -- on either queue. */
  lemma AnsweredIffKnown(r: Registry, name: string)
    requires RegistryAgrees(r)
    ensures Answered(r, name) <==> name in Known(r)
  {
    if name in r.bulkJobs {
      assert name in NamesOf(r, r.bulkFunctions);
      var f :| f in r.bulkFunctions && NameOf(r, f) == name;
      assert f in r.functions;
    }
  }

  /** With the registry in agreement, the two enqueue sections decide whether any
      run of the system can drop a job. */
  lemma CleanIffNeverDrops(r: Registry, sites: seq<Site>, acknowledged: set<string>)
    requires RegistryAgrees(r)
    ensures EnqueuedButNotRegistered(sites, Known(r)) == {} && Unresolvable(sites, acknowledged) == {} <==>
            NeverDrops(r, sites, acknowledged)
  {
    NeverDropsIff(r, sites, acknowledged);
    if EnqueuedButNotRegistered(sites, Known(r)) == {} && Unresolvable(sites, acknowledged) == {} {
      forall n | Sayable(sites, acknowledged, n)
        ensures Answered(r, n)
      {
        var s :| CanSay(sites, acknowledged, s, n);
        AnsweredIffKnown(r, n);
        SayableIsResolved(sites, acknowledged, s, n);
        var t :| t in sites && t.job == Some(n);
        assert t !in EnqueuedButNotRegistered(sites, Known(r));
      }
    }
    if s :| s in EnqueuedButNotRegistered(sites, Known(r)) {
      ReportedSiteDrops(r, sites, acknowledged, s);
    } else if s :| s in Unresolvable(sites, acknowledged) {
      var k := LongerThanAll(Known(r));
      var name := seq(k, _ => 'x');
      AnsweredIffKnown(r, name);
      assert CanSay(sites, acknowledged, s, name);
    }
  }

  lemma SayableIsResolved(sites: seq<Site>, acknowledged: set<string>, s: Site, name: string)
    requires CanSay(sites, acknowledged, s, name) && Unresolvable(sites, acknowledged) == {}
    ensures name in Resolved(sites)
  {
    if s.job.None? {
      assert s !in Unresolvable(sites, acknowledged);
    }
  }

  /** A reported enqueue site has a run that drops its job. */
  lemma ReportedSiteDrops(r: Registry, sites: seq<Site>, acknowledged: set<string>, s: Site)
    requires RegistryAgrees(r) && s in EnqueuedButNotRegistered(sites, Known(r))
    ensures Sayable(sites, acknowledged, s.job.value) && !Answered(r, s.job.value)
    ensures exists steps :: Run(r, sites, acknowledged, steps).dropped == [s.job.value]
  {
    var name := s.job.value;
    AnsweredIffKnown(r, name);
    assert CanSay(sites, acknowledged, s, name);
    var steps := SayAndWork(r, sites, acknowledged, s, name);
    assert Run(r, sites, acknowledged, steps).dropped == [name];
  }

  /** A registered function that is no cron runs in some run exactly when the
      guard does not report it as never enqueued. */
  lemma RunsIffEnqueued(r: Registry, sites: seq<Site>, acknowledged: set<string>, name: string)
    requires RegistryAgrees(r) && Unresolvable(sites, acknowledged) == {}
    requires name in NamesOf(r, r.functions) - {""} && name !in r.crons
    ensures (exists steps :: name in Run(r, sites, acknowledged, steps).ran) <==> name !in RegisteredButNeverEnqueued(r, sites)
  {
    AnsweredIffKnown(r, name);
    if steps :| name in Run(r, sites, acknowledged, steps).ran {
      RunKeepsInv(r, sites, acknowledged, steps);
      var s :| CanSay(sites, acknowledged, s, name);
      SayableIsResolved(sites, acknowledged, s, name);
    }
    if name in Resolved(sites) {
      var s :| s in sites && s.job == Some(name);
      assert CanSay(sites, acknowledged, s, name);
      var steps := SayAndWork(r, sites, acknowledged, s, name);
      assert name in Run(r, sites, acknowledged, steps).ran;
    }
  }

  /** A defined job is reported exactly when it runs in no system, whatever its call sites
      say. */
  lemma ReportedIffNeverRuns(r: Registry, definitions: seq<string>, name: string)
    requires RegistryAgrees(r) && name in definitions && name != ""
    ensures name in DefinedButNotRegistered(definitions, Known(r)) <==>
            forall sites, acknowledged, steps :: name !in Run(r, sites, acknowledged, steps).ran
  {
    AnsweredIffKnown(r, name);
    if name in DefinedButNotRegistered(definitions, Known(r)) {
      forall sites, acknowledged, steps ensures name !in Run(r, sites, acknowledged, steps).ran {
        UnregisteredNeverRuns(r, sites, acknowledged, definitions, name, steps);
      }
    } else {
      var s := Site(Some(name), "");
      var steps := SayAndWork(r, [s], {}, s, name);
      assert name in Run(r, [s], {}, steps).ran;
    }
  }

  /** What the guard takes to be registered, read off the lists: the named functions, and
      the crons that have a name. */
  lemma KnownIs(r: Registry, name: string)
    ensures name in Known(r) <==>
            name != "" && (name in r.crons || exists f :: f in r.functions && f in r.names && r.names[f] == name)
  {
  }

  /** A job defined and not registered never runs. */
  lemma UnregisteredNeverRuns(r: Registry, sites: seq<Site>, acknowledged: set<string>, definitions: seq<string>, name: string, steps: seq<Step>)
    requires RegistryAgrees(r) && name in DefinedButNotRegistered(definitions, Known(r)) && name != ""
    ensures name !in Run(r, sites, acknowledged, steps).ran
  {
    RunKeepsInv(r, sites, acknowledged, steps);
    AnsweredIffKnown(r, name);
  }

  /** An exemption is stale exactly when removing it changes nothing about what
      any call site may say. */
  lemma StaleIffIdle(sites: seq<Site>, acknowledged: set<string>, key: string)
    requires key in acknowledged
    ensures key in StaleExemptions(sites, acknowledged) <==>
            forall s, n :: CanSay(sites, acknowledged, s, n) <==> CanSay(sites, acknowledged - {key}, s, n)
  {
    if key !in StaleExemptions(sites, acknowledged) {
      var s :| s in sites && s.job.None? && s.key == key;
      var k := LongerThanAll(Resolved(sites));
      var name := seq(k, _ => 'x');
      assert !CanSay(sites, acknowledged, s, name) && CanSay(sites, acknowledged - {key}, s, name);
    } else {
      forall s, n ensures CanSay(sites, acknowledged, s, n) <==> CanSay(sites, acknowledged - {key}, s, n) {
        assert s in sites && s.job.None? ==> s.key != key;
      }
    }
  }
}

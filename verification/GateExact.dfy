/**
 An exact account of what a function can do.

 `Possible` computes, from the text of a function and its parameters, the events
 that its runs can log.  It is sound and complete for the run semantics, whatever
 the function contains: loops, handlers, copies between names, and nested functions
 called any number of times, recursively included.  So "every run obeys the gate"
 is equivalent to a condition that can be evaluated before anything runs.

 Apart from its log, a state of a given function is one of finitely many (`Cores`).
 What loops and calls can do is tabulated per core, and the table is filled until
 nothing is missing.
 */
module GateExact {
  import opened Program
  import opened Ordering

  /** A state without its log. */
  datatype Core = Core(env: Env, defs: map<string, Closure>, vouched: bool)

  function CoreOf(st: State): Core {
    Core(st.env, st.defs, st.vouched)
  }

  function With(a: Core, log: seq<Event>): State {
    State(a.env, a.defs, a.vouched, log)
  }

  /** What can be observed of a piece of code: it ends, or it logs an event. */
  datatype Sign = Ends(out: Outcome, core: Core) | Shows(event: Event)

  predicate EndsBy(g: Sign, out: Outcome) {
    g.Ends? && g.out == out
  }

  /** A loop or a call, about to run. */
  datatype Key = Key(stmt: Stmt, shadow: set<string>, core: Core)

  datatype Fact = Fact(key: Key, sign: Sign)

  type Table = set<Fact>

  function Known(table: Table, k: Key): set<Sign> {
    set f | f in table && f.key == k :: f.sign
  }

  // ----- tests --------------------------------------------------------------------

  const ANY: set<Truth> := {Yes, No, Fails}

  function MayEval(t: Test, shadow: set<string>, env: Env): set<Truth> {
    match t
    case Opaque => ANY
    case Allowed(x) =>
      if x in shadow then ANY
      else if x !in env then {Fails}
      else (match env[x]
            case Decision(allowed) => if allowed then {Yes} else {No}
            case ScopeKey => {Fails}
            case Raw => ANY)
    case Not(a) => set v | v in MayEval(a, shadow, env) :: Negate(v)
    case And(a, b) =>
      var may := MayEval(a, shadow, env);
      (may - {Yes}) + (if Yes in may then MayEval(b, shadow, env) else {})
    case Or(a, b) =>
      var may := MayEval(a, shadow, env);
      (may - {No}) + (if No in may then MayEval(b, shadow, env) else {})
  }

  lemma {:induction false} EvalInside(t: Test, shadow: set<string>, o: Oracle, env: Env)
    ensures Eval(t, shadow, o, env) in MayEval(t, shadow, env)
  {
    match t
    case Not(a) => EvalInside(a, shadow, o, env);
    case And(a, b) =>
      EvalInside(a, shadow, if o.Fork? then o.left else Leaf, env);
      EvalInside(b, shadow, if o.Fork? then o.right else Leaf, env);
    case Or(a, b) =>
      EvalInside(a, shadow, if o.Fork? then o.left else Leaf, env);
      EvalInside(b, shadow, if o.Fork? then o.right else Leaf, env);
    case _ =>
  }

  lemma {:induction false} EvalReaches(t: Test, shadow: set<string>, env: Env, v: Truth) returns (o: Oracle)
    requires v in MayEval(t, shadow, env)
    ensures Eval(t, shadow, o, env) == v
  {
    match t
    case Not(a) =>
      var w :| w in MayEval(a, shadow, env) && v == Negate(w);
      o := EvalReaches(a, shadow, env, w);
    case And(a, b) =>
      if v in MayEval(a, shadow, env) - {Yes} {
        var l := EvalReaches(a, shadow, env, v);
        o := Fork(true, l, Leaf);
      } else {
        var l := EvalReaches(a, shadow, env, Yes);
        var r := EvalReaches(b, shadow, env, v);
        o := Fork(true, l, r);
      }
    case Or(a, b) =>
      if v in MayEval(a, shadow, env) - {No} {
        var l := EvalReaches(a, shadow, env, v);
        o := Fork(true, l, Leaf);
      } else {
        var l := EvalReaches(a, shadow, env, No);
        var r := EvalReaches(b, shadow, env, v);
        o := Fork(true, l, r);
      }
    case _ =>
      o := Fork(v == Yes, if v == Fails then Fork(true, Leaf, Leaf) else Leaf, Leaf);
  }

  // ----- what code can do, given what loops and calls can do -------------------------

  const BITS: set<bool> := {true, false}

  function SignsOf(r: Result): set<Sign> {
    {Ends(r.out, CoreOf(r.st))} + set e | e in r.st.log :: Shows(e)
  }

  function SimpleSigns(s: Stmt, shadow: set<string>, a: Core): set<Sign>
    requires !Compound(s)
  {
    set ok, bit, g | ok in BITS && bit in BITS && g in SignsOf(Simple(s, shadow, ok, bit, With(a, []))) :: g
  }

  function Signs(b: Block, shadow: set<string>, a: Core, table: Table): set<Sign> {
    match b
    case Nil => {Ends(Next, a)}
    case Cons(s, tail) =>
      var first := SignsIn(s, shadow, a, table);
      (set g | g in first && !EndsBy(g, Next)) +
      (set g, h | g in first && EndsBy(g, Next) && h in Signs(tail, shadow, g.core, table) :: h)
  }

  function SignsIn(s: Stmt, shadow: set<string>, a: Core, table: Table): set<Sign> {
    match s
    case If(_, t, body, orelse) =>
      var may := MayEval(t, shadow, a.env);
      (if Yes in may then Signs(body, shadow, a, table) else {}) +
      (if No in may then Signs(orelse, shadow, a, table) else {}) +
      (if Fails in may then {Ends(Jumps(Raise), a)} else {})
    case Try(body, handler) =>
      var first := Signs(body, shadow, a, table);
      first + (set g, h | g in first && EndsBy(g, Jumps(Raise)) && h in Signs(handler, shadow, g.core, table) :: h)
    case Loop(_) => Known(table, Key(s, shadow, a))
    case Invoke(_) => Known(table, Key(s, shadow, a))
    case _ => SimpleSigns(s, shadow, a)
  }

  predicate TurnsAgain(g: Sign) {
    EndsBy(g, Next) || EndsBy(g, Jumps(Continue))
  }

  /** A sign of a loop's body that is one of the loop. */
  predicate LeavesLoop(g: Sign) {
    g.Shows? || g.out == Jumps(Return) || g.out == Jumps(Raise)
  }

  /** One turn of a loop, or one call. */
  function Unfold(k: Key, table: Table): set<Sign> {
    match k.stmt
    case Loop(body) => LoopSigns(k, Signs(body, k.shadow, k.core, table), table)
    case Invoke(f) =>
      {Ends(Jumps(Raise), k.core)} +
      (if f !in k.core.defs then {Ends(Next, k.core)}
       else
         var c := k.core.defs[f];
         set g | g in Signs(c.body, c.shadow, k.core, table) :: Returned(g, k.core))
    case _ => {}
  }

  function LoopSigns(k: Key, turn: set<Sign>, table: Table): set<Sign> {
    {Ends(Next, k.core), Ends(Jumps(Raise), k.core)} +
    (set g | g in turn && LeavesLoop(g)) +
    (set g | g in turn && EndsBy(g, Jumps(Break)) :: Ends(Next, g.core)) +
    (set g, h | g in turn && TurnsAgain(g) && h in Known(table, Key(k.stmt, k.shadow, g.core)) :: h)
  }

  /** A sign of a called body, seen by the caller. */
  function Returned(g: Sign, caller: Core): Sign {
    match g
    case Shows(_) => g
    case Ends(out, a) => Ends(if out == Cut || out == Jumps(Raise) then out else Next, a.(defs := caller.defs))
  }

  // ----- the finitely many cores of a function -------------------------------------------

  /** A statement of the text, with the names that are not the observed function's. */
  datatype Place = Place(stmt: Stmt, shadow: set<string>)

  function Places(b: Block, shadow: set<string>): set<Place> {
    match b case Nil => {} case Cons(s, tail) => PlacesIn(s, shadow) + Places(tail, shadow)
  }

  function PlacesIn(s: Stmt, shadow: set<string>): set<Place> {
    {Place(s, shadow)} +
    match s
    case If(_, _, body, orelse) => Places(body, shadow) + Places(orelse, shadow)
    case Loop(body) => Places(body, shadow)
    case Try(body, handler) => Places(body, shadow) + Places(handler, shadow)
    case Def(_, body) => Places(body, shadow + Bound(body))
    case _ => {}
  }

  function Written(places: set<Place>): set<string> {
    set p | p in places && (p.stmt.Bind? || p.stmt.Rebind?) :: p.stmt.name
  }

  function Defined(places: set<Place>): set<string> {
    set p | p in places && p.stmt.Def? :: p.stmt.name
  }

  function Closures(places: set<Place>): set<Closure> {
    set p | p in places && p.stmt.Def? :: Closure(p.stmt.body, p.shadow + Bound(p.stmt.body))
  }

  const VALUES: set<Value> := {Decision(true), Decision(false), ScopeKey, Raw}

  /** All maps from some of the keys to the values. */
  function MapsOver<K, V>(keys: seq<K>, values: set<V>): set<map<K, V>> {
    if keys == [] then {map[]}
    else
      var rest := MapsOver(keys[1..], values);
      rest + (set m, v | m in rest && v in values :: m[keys[0] := v])
  }

  lemma {:induction false} MapsOverAll<K, V>(keys: seq<K>, values: set<V>, m: map<K, V>)
    requires forall k :: k in m ==> k in keys && m[k] in values
    ensures m in MapsOver(keys, values)
  {
    if keys != [] {
      var k, n := keys[0], m - {keys[0]};
      forall x | x in n ensures x in keys[1..] && n[x] in values { assert x in keys; }
      MapsOverAll(keys[1..], values, n);
      if k in m {
        assert m == n[k := m[k]];
      } else {
        assert m == n;
      }
    }
  }

  lemma {:induction false} MapsOverOnly<K, V>(keys: seq<K>, values: set<V>, m: map<K, V>)
    requires m in MapsOver(keys, values)
    ensures forall k :: k in m ==> k in keys && m[k] in values
  {
    if keys != [] {
      var rest := MapsOver(keys[1..], values);
      if m in rest {
        MapsOverOnly(keys[1..], values, m);
      } else {
        var n, v :| n in rest && v in values && m == n[keys[0] := v];
        MapsOverOnly(keys[1..], values, n);
      }
    }
  }

  /** The text a function runs, and the names its environment can have. */
  datatype World = World(places: set<Place>, names: set<string>)

  function WorldOf(f: Block, params: Env): World {
    World(Places(f, {}), params.Keys + Written(Places(f, {})))
  }

  function Cores(w: World): set<Core> {
    set e, d, v | e in MapsOver(SortedNames(w.names), VALUES) &&
                  d in MapsOver(SortedNames(Defined(w.places)), Closures(w.places)) && v in BITS :: Core(e, d, v)
  }

  function Keys(w: World): set<Key> {
    set p, a | p in w.places && (p.stmt.Loop? || p.stmt.Invoke?) && a in Cores(w) :: Key(p.stmt, p.shadow, a)
  }

  /** What one more look at every loop and call adds to the table. */
  function Round(w: World, table: Table): Table {
    set k, g | k in Keys(w) && g in Unfold(k, table) :: Fact(k, g)
  }

  ghost predicate Fits(w: World, a: Core) {
    && a.env.Keys <= w.names
    && forall f :: f in a.defs ==> f in Defined(w.places) && a.defs[f] in Closures(w.places)
  }

  lemma FitsIff(w: World, a: Core)
    ensures a in Cores(w) <==> Fits(w, a)
  {
    hide MapsOver, Closures, Defined;
    var names, defined, closures := SortedNames(w.names), SortedNames(Defined(w.places)), Closures(w.places);
    if a in Cores(w) {
      MapsOverOnly(names, VALUES, a.env);
      MapsOverOnly(defined, closures, a.defs);
    }
    if Fits(w, a) {
      forall x | x in a.env ensures a.env[x] in VALUES { ValueIsListed(a.env[x]); }
      MapsOverAll(names, VALUES, a.env);
      MapsOverAll(defined, closures, a.defs);
      assert a.vouched in BITS;
      assert a == Core(a.env, a.defs, a.vouched);
    }
  }

  lemma ValueIsListed(v: Value)
    ensures v in VALUES
  {
    match v case Decision(allowed) => case ScopeKey => case Raw =>
  }

  /** Code inside code of the text is of the text. */
  lemma {:induction false} PlacesNest(b: Block, shadow: set<string>, p: Place)
    requires p in Places(b, shadow)
    ensures PlacesIn(p.stmt, p.shadow) <= Places(b, shadow)
  {
    if p in PlacesIn(b.head, shadow) {
      PlacesInNest(b.head, shadow, p);
    } else {
      PlacesNest(b.tail, shadow, p);
    }
  }

  lemma {:induction false} PlacesInNest(s: Stmt, shadow: set<string>, p: Place)
    requires p in PlacesIn(s, shadow)
    ensures PlacesIn(p.stmt, p.shadow) <= PlacesIn(s, shadow)
  {
    if p != Place(s, shadow) {
      match s
      case If(_, _, body, orelse) =>
        if p in Places(body, shadow) { PlacesNest(body, shadow, p); } else { PlacesNest(orelse, shadow, p); }
      case Loop(body) => PlacesNest(body, shadow, p);
      case Try(body, handler) =>
        if p in Places(body, shadow) { PlacesNest(body, shadow, p); } else { PlacesNest(handler, shadow, p); }
      case Def(_, body) => PlacesNest(body, shadow + Bound(body), p);
      case _ =>
    }
  }

  ghost predicate Nests(w: World) {
    forall p :: p in w.places ==> PlacesIn(p.stmt, p.shadow) <= w.places
  }

  lemma WorldNests(f: Block, params: Env)
    ensures Nests(WorldOf(f, params)) && Fits(WorldOf(f, params), Core(params, map[], false))
  {
    forall p | p in Places(f, {}) ensures PlacesIn(p.stmt, p.shadow) <= Places(f, {}) { PlacesNest(f, {}, p); }
  }

  // ----- the table is filled in finitely many rounds -----------------------------------

  const OUTS: set<Outcome> := {Next, Cut, Jumps(Return), Jumps(Raise), Jumps(Continue), Jumps(Break)}

  /** Everything a sign of this text can be. */
  ghost function AllSigns(w: World): set<Sign> {
    (set out, a | out in OUTS && a in Cores(w) :: Ends(out, a)) +
    (set p, a, g | p in w.places && !Compound(p.stmt) && a in Cores(w) && g in SimpleSigns(p.stmt, p.shadow, a) && g.Shows? :: g)
  }

  ghost function AllFacts(w: World): Table {
    set k, g | k in Keys(w) && g in AllSigns(w) :: Fact(k, g)
  }

  lemma EndIsListed(w: World, g: Sign)
    requires g.Ends? && Fits(w, g.core)
    ensures g in AllSigns(w)
  {
    FitsIff(w, g.core);
    assert g.out in OUTS by {
      match g.out case Next => case Cut => case Jumps(j) => match j case Return => case Raise => case Continue => case Break =>
    }
    assert g == Ends(g.out, g.core);
  }

  lemma ListedEnd(w: World, g: Sign)
    requires g in AllSigns(w) && g.Ends?
    ensures Fits(w, g.core)
  {
    FitsIff(w, g.core);
  }

  lemma SimpleFits(w: World, s: Stmt, shadow: set<string>, ok: bool, bit: bool, a: Core)
    requires !Compound(s) && Place(s, shadow) in w.places && Fits(w, a) && Written(w.places) <= w.names
    ensures Fits(w, CoreOf(Simple(s, shadow, ok, bit, With(a, [])).st))
  {
    var p := Place(s, shadow);
    match s
    case Bind(_, x, _, _) => assert p.stmt.name in Written(w.places);
    case Rebind(x) => assert p.stmt.name in Written(w.places);
    case Def(f, body) =>
      assert p.stmt.name in Defined(w.places);
      assert Closure(p.stmt.body, p.shadow + Bound(p.stmt.body)) in Closures(w.places);
    case _ =>
  }

  lemma SimpleSignsListed(w: World, s: Stmt, shadow: set<string>, a: Core)
    requires !Compound(s) && Place(s, shadow) in w.places && Fits(w, a) && Written(w.places) <= w.names
    ensures SimpleSigns(s, shadow, a) <= AllSigns(w)
  {
    hide Simple, Fits, Cores;
    FitsIff(w, a);
    var p := Place(s, shadow);
    forall g | g in SimpleSigns(s, shadow, a)
      ensures g in AllSigns(w)
    {
      if g.Ends? {
        SimpleEndFits(w, s, shadow, a, g);
        EndIsListed(w, g);
      } else {
        assert p in w.places && g in SimpleSigns(p.stmt, p.shadow, a);
      }
    }
  }

  lemma SimpleEndFits(w: World, s: Stmt, shadow: set<string>, a: Core, g: Sign)
    requires !Compound(s) && Place(s, shadow) in w.places && Fits(w, a) && Written(w.places) <= w.names
    requires g in SimpleSigns(s, shadow, a) && g.Ends?
    ensures Fits(w, g.core)
  {
    hide Simple, Fits;
    var ok, bit :| ok in BITS && bit in BITS && g in SignsOf(Simple(s, shadow, ok, bit, With(a, [])));
    SimpleFits(w, s, shadow, ok, bit, a);
  }

  ghost predicate Sane(w: World, table: Table) {
    Nests(w) && Written(w.places) <= w.names && table <= AllFacts(w)
  }

  lemma KnownListed(w: World, table: Table, k: Key)
    requires table <= AllFacts(w)
    ensures Known(table, k) <= AllSigns(w)
  {
    forall g | g in Known(table, k) ensures g in AllSigns(w) {
      assert Fact(k, g) in AllFacts(w);
    }
  }

  lemma {:induction false} SignsListed(w: World, b: Block, shadow: set<string>, a: Core, table: Table)
    requires Sane(w, table) && Places(b, shadow) <= w.places && Fits(w, a)
    ensures Signs(b, shadow, a, table) <= AllSigns(w)
    decreases b
  {
    match b
    case Nil => EndIsListed(w, Ends(Next, a));
    case Cons(s, tail) =>
      SignsInListed(w, s, shadow, a, table);
      forall g | g in SignsIn(s, shadow, a, table) && EndsBy(g, Next)
        ensures Signs(tail, shadow, g.core, table) <= AllSigns(w)
      {
        ListedEnd(w, g);
        SignsListed(w, tail, shadow, g.core, table);
      }
  }

  lemma {:induction false} SignsInListed(w: World, s: Stmt, shadow: set<string>, a: Core, table: Table)
    requires Sane(w, table) && PlacesIn(s, shadow) <= w.places && Fits(w, a)
    ensures SignsIn(s, shadow, a, table) <= AllSigns(w)
    decreases s
  {
    match s
    case If(_, t, body, orelse) =>
      SignsListed(w, body, shadow, a, table);
      SignsListed(w, orelse, shadow, a, table);
      EndIsListed(w, Ends(Jumps(Raise), a));
    case Try(body, handler) =>
      SignsListed(w, body, shadow, a, table);
      forall g | g in Signs(body, shadow, a, table) && EndsBy(g, Jumps(Raise))
        ensures Signs(handler, shadow, g.core, table) <= AllSigns(w)
      {
        ListedEnd(w, g);
        SignsListed(w, handler, shadow, g.core, table);
      }
    case Loop(_) => KnownListed(w, table, Key(s, shadow, a));
    case Invoke(_) => KnownListed(w, table, Key(s, shadow, a));
    case _ => SimpleSignsListed(w, s, shadow, a);
  }

  /** The body of a function that can be called is code of the text. */
  lemma CalledIsText(w: World, a: Core, f: string)
    requires Nests(w) && Fits(w, a) && f in a.defs
    ensures Places(a.defs[f].body, a.defs[f].shadow) <= w.places
  {
    hide Places, Bound, Defined;
    assert a.defs[f] in Closures(w.places);
    var p :| p in w.places && p.stmt.Def? && a.defs[f] == Closure(p.stmt.body, p.shadow + Bound(p.stmt.body));
    assert PlacesIn(p.stmt, p.shadow) <= w.places;
  }

  lemma UnfoldListed(w: World, k: Key, table: Table)
    requires Sane(w, table) && k in Keys(w)
    ensures Unfold(k, table) <= AllSigns(w)
  {
    FitsIff(w, k.core);
    assert Place(k.stmt, k.shadow) in w.places;
    var p := Place(k.stmt, k.shadow);
    assert PlacesIn(p.stmt, p.shadow) <= w.places;
    EndIsListed(w, Ends(Next, k.core));
    EndIsListed(w, Ends(Jumps(Raise), k.core));
    match k.stmt
    case Loop(body) =>
      SignsListed(w, body, k.shadow, k.core, table);
      LoopSignsListed(w, k, Signs(body, k.shadow, k.core, table), table);
    case Invoke(f) =>
      if f in k.core.defs {
        var c := k.core.defs[f];
        CalledIsText(w, k.core, f);
        SignsListed(w, c.body, c.shadow, k.core, table);
        forall g | g in Signs(c.body, c.shadow, k.core, table)
          ensures Returned(g, k.core) in AllSigns(w)
        {
          if g.Ends? {
            ListedEnd(w, g);
            EndIsListed(w, Returned(g, k.core));
          }
        }
      }
  }

  lemma LoopSignsListed(w: World, k: Key, turn: set<Sign>, table: Table)
    requires table <= AllFacts(w) && turn <= AllSigns(w) && Fits(w, k.core)
    ensures LoopSigns(k, turn, table) <= AllSigns(w)
  {
    EndIsListed(w, Ends(Next, k.core));
    EndIsListed(w, Ends(Jumps(Raise), k.core));
    forall g | g in turn && EndsBy(g, Jumps(Break)) ensures Ends(Next, g.core) in AllSigns(w) {
      ListedEnd(w, g);
      EndIsListed(w, Ends(Next, g.core));
    }
    forall g | g in turn && TurnsAgain(g) ensures Known(table, Key(k.stmt, k.shadow, g.core)) <= AllSigns(w) {
      KnownListed(w, table, Key(k.stmt, k.shadow, g.core));
    }
  }

  lemma RoundListed(w: World, table: Table)
    requires Sane(w, table)
    ensures Sane(w, table + Round(w, table))
  {
    forall x | x in Round(w, table)
      ensures x in AllFacts(w)
    {
      UnfoldListed(w, x.key, table);
      assert x == Fact(x.key, x.sign);
    }
  }

  lemma SubsetIsSmaller<T>(a: set<T>, b: set<T>)
    requires a < b
    ensures |a| < |b|
  {
    assert b == a + (b - a);
    assert b - a != {};
  }

  lemma RoundShrinks(w: World, table: Table)
    requires Sane(w, table) && table + Round(w, table) != table
    ensures |AllFacts(w) - (table + Round(w, table))| < |AllFacts(w) - table|
  {
    RoundListed(w, table);
    var more := table + Round(w, table);
    var x :| x in more && x !in table;
    assert x in AllFacts(w) - table && x !in AllFacts(w) - more;
    SubsetIsSmaller(AllFacts(w) - more, AllFacts(w) - table);
  }

  /** Rounds, until one adds nothing. */
  function Saturate(w: World, table: Table): Table
    requires Sane(w, table)
    decreases |AllFacts(w) - table|
  {
    var more := table + Round(w, table);
    if more == table then table
    else
      RoundListed(w, table);
      RoundShrinks(w, table);
      Saturate(w, more)
  }

  /** The events the runs of a function can log, computed from its text. */
  function Possible(f: Block, params: Env): set<Event> {
    WorldNests(f, params);
    var table := Saturate(WorldOf(f, params), {});
    set g | g in Signs(f, {}, Core(params, map[], false), table) && g.Shows? :: g.event
  }

  // ----- the log does not influence the run ---------------------------------------------

  /** The result of a run from `With(a, log)`, given the one from `With(a, [])`. */
  function After(log: seq<Event>, r: Result): Result {
    Result(r.out, With(CoreOf(r.st), log + r.st.log))
  }

  lemma AfterAfter(log: seq<Event>, more: seq<Event>, r: Result)
    ensures After(log + more, r) == After(log, After(more, r))
  {
    assert log + (more + r.st.log) == (log + more) + r.st.log;
  }

  lemma SimpleIgnoresLog(s: Stmt, shadow: set<string>, ok: bool, bit: bool, a: Core, log: seq<Event>)
    requires !Compound(s)
    ensures Simple(s, shadow, ok, bit, With(a, log)) == After(log, Simple(s, shadow, ok, bit, With(a, [])))
  {
    match s
    case Dial(_, id) => LoggedAfter(a, log, Dialled(id, a.env, a.vouched));
    case Claim(id, ProducerArg) => LoggedAfter(a, log, Claimed(id, ScopeKey));
    case Claim(id, OtherArg) => LoggedAfter(a, log, Claimed(id, Raw));
    case Claim(id, NameArg(x)) => if x in a.env { LoggedAfter(a, log, Claimed(id, a.env[x])); }
    case _ =>
  }

  lemma LoggedAfter(a: Core, log: seq<Event>, e: Event)
    ensures Logged(With(a, log), e) == With(a, log + Logged(With(a, []), e).log)
  {
  }

  lemma {:induction false} BlockIgnoresLog(b: Block, shadow: set<string>, o: Oracle, a: Core, log: seq<Event>)
    ensures Exec(b, shadow, o, With(a, log)) == After(log, Exec(b, shadow, o, With(a, [])))
    decreases o, 1
  {
    if b.Cons? && o.Fork? {
      StmtIgnoresLog(b.head, shadow, o.left, a, log);
      var r := Step(b.head, shadow, o.left, With(a, []));
      if r.out.Next? {
        BlockGoesOn(b.tail, shadow, o.right, r.st, log);
      }
    }
  }

  /** Going on from a state reached with the empty log, or with another. */
  lemma {:induction false} BlockGoesOn(b: Block, shadow: set<string>, o: Oracle, mid: State, log: seq<Event>)
    ensures Exec(b, shadow, o, With(CoreOf(mid), log + mid.log)) == After(log, Exec(b, shadow, o, mid))
    decreases o, 2
  {
    var a := CoreOf(mid);
    assert With(a, mid.log) == mid;
    BlockIgnoresLog(b, shadow, o, a, log + mid.log);
    BlockIgnoresLog(b, shadow, o, a, mid.log);
    AfterAfter(log, mid.log, Exec(b, shadow, o, With(a, [])));
  }

  lemma {:induction false} StmtIgnoresLog(s: Stmt, shadow: set<string>, o: Oracle, a: Core, log: seq<Event>)
    ensures Step(s, shadow, o, With(a, log)) == After(log, Step(s, shadow, o, With(a, [])))
    decreases o, 0
  {
    if o.Fork? {
      match s
      case If(_, t, body, orelse) =>
        BlockIgnoresLog(body, shadow, o.right, a, log);
        BlockIgnoresLog(orelse, shadow, o.right, a, log);
      case Loop(body) =>
        if o.bit {
          BlockIgnoresLog(body, shadow, o.left, a, log);
          var mid := Exec(body, shadow, o.left, With(a, [])).st;
          assert With(CoreOf(mid), mid.log) == mid;
          StmtIgnoresLog(s, shadow, o.right, CoreOf(mid), log + mid.log);
          StmtIgnoresLog(s, shadow, o.right, CoreOf(mid), mid.log);
          AfterAfter(log, mid.log, Step(s, shadow, o.right, With(CoreOf(mid), [])));
        }
      case Try(body, handler) =>
        BlockIgnoresLog(body, shadow, o.left, a, log);
        BlockGoesOn(handler, shadow, o.right, Exec(body, shadow, o.left, With(a, [])).st, log);
      case Invoke(f) =>
        if f in a.defs {
          BlockIgnoresLog(a.defs[f].body, a.defs[f].shadow, o.left, a, log);
        }
      case _ => SimpleIgnoresLog(s, shadow, o.bit, Answer(o), a, log);
    }
  }

  // ----- every run stays inside ------------------------------------------------------

  ghost predicate Saturated(w: World, table: Table) {
    Sane(w, table) && Round(w, table) <= table
  }

  lemma {:induction false} SaturateIsSaturated(w: World, table: Table)
    requires Sane(w, table)
    ensures Saturated(w, Saturate(w, table))
    decreases |AllFacts(w) - table|
  {
    var more := table + Round(w, table);
    if more != table {
      RoundListed(w, table);
      RoundShrinks(w, table);
      SaturateIsSaturated(w, more);
    }
  }

  /** The log only grew, and everything observed is among the signs. */
  ghost predicate Inside(r: Result, st: State, signs: set<Sign>) {
    && st.log <= r.st.log
    && (r.out != Cut ==> Ends(r.out, CoreOf(r.st)) in signs)
    && forall i :: |st.log| <= i < |r.st.log| ==> Shows(r.st.log[i]) in signs
  }

  /** First one thing, then another. */
  lemma InsideThen(st: State, mid: State, r: Result, signs: set<Sign>)
    requires st.log <= mid.log && forall i :: |st.log| <= i < |mid.log| ==> Shows(mid.log[i]) in signs
    requires Inside(r, mid, signs)
    ensures Inside(r, st, signs)
  {
    forall i | |st.log| <= i < |r.st.log| ensures Shows(r.st.log[i]) in signs {
      if i < |mid.log| { assert r.st.log[i] == mid.log[i]; }
    }
  }

  lemma SimpleInside(s: Stmt, shadow: set<string>, ok: bool, bit: bool, st: State)
    requires !Compound(s)
    ensures Inside(Simple(s, shadow, ok, bit, st), st, SimpleSigns(s, shadow, CoreOf(st)))
  {
    var a := CoreOf(st);
    var r, q := Simple(s, shadow, ok, bit, st), Simple(s, shadow, ok, bit, With(a, []));
    SimpleIgnoresLog(s, shadow, ok, bit, a, st.log);
    assert With(a, st.log) == st;
    hide Simple;
    assert ok in BITS && bit in BITS;
    assert forall g :: g in SignsOf(q) ==> g in SimpleSigns(s, shadow, a);
    forall i | |st.log| <= i < |r.st.log| ensures Shows(r.st.log[i]) in SignsOf(q) {
      assert r.st.log[i] == q.st.log[i - |st.log|];
    }
  }

  lemma {:induction false} BlockInside(w: World, table: Table, b: Block, shadow: set<string>, o: Oracle, st: State)
    requires Saturated(w, table) && Places(b, shadow) <= w.places && Fits(w, CoreOf(st))
    ensures Inside(Exec(b, shadow, o, st), st, Signs(b, shadow, CoreOf(st), table))
    decreases o, 2
  {
    if b.Cons? && o.Fork? {
      var first, signs := SignsIn(b.head, shadow, CoreOf(st), table), Signs(b, shadow, CoreOf(st), table);
      StmtInside(w, table, b.head, shadow, o.left, st);
      var r := Step(b.head, shadow, o.left, st);
      if r.out.Next? {
        var g := Ends(Next, CoreOf(r.st));
        SignsInListed(w, b.head, shadow, CoreOf(st), table);
        ListedEnd(w, g);
        BlockInside(w, table, b.tail, shadow, o.right, r.st);
        assert g in first && EndsBy(g, Next);
        assert forall h :: h in Signs(b.tail, shadow, g.core, table) ==> h in signs;
        InsideThen(st, r.st, Exec(b.tail, shadow, o.right, r.st), signs);
      }
    }
  }

  lemma {:induction false} StmtInside(w: World, table: Table, s: Stmt, shadow: set<string>, o: Oracle, st: State)
    requires Saturated(w, table) && PlacesIn(s, shadow) <= w.places && Fits(w, CoreOf(st))
    ensures Inside(Step(s, shadow, o, st), st, SignsIn(s, shadow, CoreOf(st), table))
    decreases o, 1
  {
    hide Simple, Unfold, Round, Cores, AllFacts;
    if o.Fork? {
      match s
      case If(_, t, body, orelse) =>
        IfInside(w, table, s, shadow, o, st);
      case Try(body, handler) =>
        TryInside(w, table, s, shadow, o, st);
      case Loop(body) =>
        LoopInside(w, table, s, shadow, o, st);
      case Invoke(f) =>
        InvokeInside(w, table, s, shadow, o, st);
      case _ => SimpleInside(s, shadow, o.bit, Answer(o), st);
    }
  }

  lemma {:induction false} IfInside(w: World, table: Table, s: Stmt, shadow: set<string>, o: Oracle, st: State)
    requires Saturated(w, table) && s.If? && PlacesIn(s, shadow) <= w.places && Fits(w, CoreOf(st)) && o.Fork?
    ensures Inside(Step(s, shadow, o, st), st, SignsIn(s, shadow, CoreOf(st), table))
    decreases o, 0
  {
    EvalInside(s.test, shadow, o.left, st.env);
    hide Eval, MayEval;
    BlockInside(w, table, s.body, shadow, o.right, st);
    BlockInside(w, table, s.orelse, shadow, o.right, st);
  }

  lemma {:induction false} TryInside(w: World, table: Table, s: Stmt, shadow: set<string>, o: Oracle, st: State)
    requires Saturated(w, table) && s.Try? && PlacesIn(s, shadow) <= w.places && Fits(w, CoreOf(st)) && o.Fork?
    ensures Inside(Step(s, shadow, o, st), st, SignsIn(s, shadow, CoreOf(st), table))
    decreases o, 0
  {
    BlockInside(w, table, s.body, shadow, o.left, st);
    var first, signs := Signs(s.body, shadow, CoreOf(st), table), SignsIn(s, shadow, CoreOf(st), table);
    var r := Exec(s.body, shadow, o.left, st);
    if r.out == Jumps(Raise) && o.bit {
      var g := Ends(Jumps(Raise), CoreOf(r.st));
      SignsListed(w, s.body, shadow, CoreOf(st), table);
      ListedEnd(w, g);
      BlockInside(w, table, s.handler, shadow, o.right, r.st);
      assert g in first && EndsBy(g, Jumps(Raise));
      assert forall h :: h in Signs(s.handler, shadow, g.core, table) ==> h in signs;
      InsideThen(st, r.st, Exec(s.handler, shadow, o.right, r.st), signs);
    }
  }

  /** A saturated table knows what one more look would find. */
  lemma KnowsUnfolded(w: World, table: Table, s: Stmt, shadow: set<string>, a: Core)
    requires Saturated(w, table) && Place(s, shadow) in w.places && (s.Loop? || s.Invoke?) && Fits(w, a)
    ensures Unfold(Key(s, shadow, a), table) <= Known(table, Key(s, shadow, a))
  {
    FitsIff(w, a);
    var k, p := Key(s, shadow, a), Place(s, shadow);
    assert p in w.places && Key(p.stmt, p.shadow, a) in Keys(w);
    forall g | g in Unfold(k, table) ensures g in Known(table, k) {
      assert Fact(k, g) in Round(w, table);
    }
  }

  lemma {:induction false} LoopInside(w: World, table: Table, s: Stmt, shadow: set<string>, o: Oracle, st: State)
    requires Saturated(w, table) && s.Loop? && PlacesIn(s, shadow) <= w.places && Fits(w, CoreOf(st)) && o.Fork?
    ensures Inside(Step(s, shadow, o, st), st, SignsIn(s, shadow, CoreOf(st), table))
    decreases o, 0
  {
    var a := CoreOf(st);
    var k := Key(s, shadow, a);
    var turn := Signs(s.body, shadow, a, table);
    KnowsUnfolded(w, table, s, shadow, a);
    if o.bit {
      BlockInside(w, table, s.body, shadow, o.left, st);
      var r := Exec(s.body, shadow, o.left, st);
      if r.out == Next || r.out == Jumps(Continue) {
        SignsListed(w, s.body, shadow, a, table);
        ListedEnd(w, Ends(r.out, CoreOf(r.st)));
        StmtInside(w, table, s, shadow, o.right, r.st);
        var t := Step(s, shadow, o.right, r.st);
        assert Step(s, shadow, o, st) == t;
        TurnInside(k, turn, table, st, r, t);
      } else {
        ExitInside(k, turn, table, st, r);
      }
    }
  }

  /** A turn, and then the rest of the loop. */
  lemma TurnInside(k: Key, turn: set<Sign>, table: Table, st: State, r: Result, t: Result)
    requires Inside(r, st, turn) && (r.out == Next || r.out == Jumps(Continue))
    requires Inside(t, r.st, Known(table, Key(k.stmt, k.shadow, CoreOf(r.st))))
    ensures Inside(t, st, LoopSigns(k, turn, table))
  {
    var signs, g := LoopSigns(k, turn, table), Ends(r.out, CoreOf(r.st));
    assert g in turn && TurnsAgain(g);
    assert forall h :: h in Known(table, Key(k.stmt, k.shadow, g.core)) ==> h in signs;
    forall i | |st.log| <= i < |r.st.log| ensures Shows(r.st.log[i]) in signs {
      assert LeavesLoop(Shows(r.st.log[i]));
    }
    InsideThen(st, r.st, t, signs);
  }

  /** A turn that leaves the loop. */
  lemma ExitInside(k: Key, turn: set<Sign>, table: Table, st: State, r: Result)
    requires Inside(r, st, turn) && r.out != Next && r.out != Jumps(Continue)
    ensures Inside(if r.out == Jumps(Break) then Result(Next, r.st) else r, st, LoopSigns(k, turn, table))
  {
    var signs := LoopSigns(k, turn, table);
    forall i | |st.log| <= i < |r.st.log| ensures Shows(r.st.log[i]) in signs {
      assert LeavesLoop(Shows(r.st.log[i]));
    }
    if r.out != Cut {
      var g := Ends(r.out, CoreOf(r.st));
      assert g in turn;
      match r.out.jump
      case Break => assert Ends(Next, g.core) in signs;
      case Return => assert LeavesLoop(g);
      case Raise => assert LeavesLoop(g);
      case Continue =>
    }
  }

  lemma {:induction false} InvokeInside(w: World, table: Table, s: Stmt, shadow: set<string>, o: Oracle, st: State)
    requires Saturated(w, table) && s.Invoke? && Place(s, shadow) in w.places && Fits(w, CoreOf(st)) && o.Fork?
    ensures Inside(Step(s, shadow, o, st), st, SignsIn(s, shadow, CoreOf(st), table))
    decreases o, 0
  {
    var a := CoreOf(st);
    KnowsUnfolded(w, table, s, shadow, a);
    if o.bit && s.name in st.defs {
      var c := st.defs[s.name];
      CalledIsText(w, a, s.name);
      BlockInside(w, table, c.body, c.shadow, o.left, st);
      var r := Exec(c.body, c.shadow, o.left, st);
      var called := Signs(c.body, c.shadow, a, table);
      var signs := Known(table, Key(s, shadow, a));
      assert forall g :: g in called ==> Returned(g, a) in Unfold(Key(s, shadow, a), table);
      ReturnInside(a, st, r, called, signs);
    }
  }

  lemma ReturnInside(a: Core, st: State, r: Result, called: set<Sign>, signs: set<Sign>)
    requires Inside(r, st, called) && forall g :: g in called ==> Returned(g, a) in signs
    ensures Inside(Result(if r.out == Cut || r.out == Jumps(Raise) then r.out else Next, r.st.(defs := a.defs)), st, signs)
  {
    if r.out != Cut {
      assert Returned(Ends(r.out, CoreOf(r.st)), a) in signs;
    }
    forall i | |st.log| <= i < |r.st.log| ensures Shows(r.st.log[i]) in signs {
      assert Returned(Shows(r.st.log[i]), a) == Shows(r.st.log[i]);
    }
  }

  // ----- and everything inside has a run -------------------------------------------------

  ghost predicate Realises(r: Result, g: Sign) {
    match g
    case Ends(out, a) => r.out == out && CoreOf(r.st) == a
    case Shows(e) => e in r.st.log
  }

  /** Every fact of the table has a run. */
  ghost predicate Witnessed(table: Table) {
    forall x :: x in table ==> exists o :: Realises(Step(x.key.stmt, x.key.shadow, o, With(x.key.core, [])), x.sign)
  }

  /** A run to `mid`, continued: what the rest realises, the whole does. */
  lemma RealisesAfter(r: Result, log: seq<Event>, g: Sign)
    requires Realises(r, g)
    ensures Realises(After(log, r), g)
  {
  }

  lemma KnownReaches(s: Stmt, shadow: set<string>, a: Core, table: Table, g: Sign) returns (o: Oracle)
    requires Witnessed(table) && g in Known(table, Key(s, shadow, a))
    ensures Realises(Step(s, shadow, o, With(a, [])), g)
  {
    var x :| x in table && x.key == Key(s, shadow, a) && x.sign == g;
    o :| Realises(Step(x.key.stmt, x.key.shadow, o, With(x.key.core, [])), x.sign);
  }

  lemma {:induction false} BlockReaches(b: Block, shadow: set<string>, a: Core, table: Table, g: Sign) returns (o: Oracle)
    requires Witnessed(table) && g in Signs(b, shadow, a, table)
    ensures Realises(Exec(b, shadow, o, With(a, [])), g)
    decreases b
  {
    match b
    case Nil => o := Leaf;
    case Cons(s, tail) =>
      var first := SignsIn(s, shadow, a, table);
      if g in first && !EndsBy(g, Next) {
        var l := StmtReaches(s, shadow, a, table, g);
        o := Fork(true, l, Leaf);
        assert Exec(tail, shadow, Leaf, Step(s, shadow, l, With(a, [])).st).st == Step(s, shadow, l, With(a, [])).st;
      } else {
        var m :| m in first && EndsBy(m, Next) && g in Signs(tail, shadow, m.core, table);
        var l := StmtReaches(s, shadow, a, table, m);
        var r := BlockReaches(tail, shadow, m.core, table, g);
        o := Fork(true, l, r);
        var log := Step(s, shadow, l, With(a, [])).st.log;
        BlockIgnoresLog(tail, shadow, r, m.core, log);
        RealisesAfter(Exec(tail, shadow, r, With(m.core, [])), log, g);
      }
  }

  lemma {:induction false} StmtReaches(s: Stmt, shadow: set<string>, a: Core, table: Table, g: Sign) returns (o: Oracle)
    requires Witnessed(table) && g in SignsIn(s, shadow, a, table)
    ensures Realises(Step(s, shadow, o, With(a, [])), g)
    decreases s, 1
  {
    match s
    case If(_, t, body, orelse) => o := IfReaches(s, shadow, a, table, g);
    case Try(body, handler) => o := TryReaches(s, shadow, a, table, g);
    case Loop(_) => o := KnownReaches(s, shadow, a, table, g);
    case Invoke(_) => o := KnownReaches(s, shadow, a, table, g);
    case _ => o := SimpleReaches(s, shadow, a, g);
  }

  lemma {:induction false} IfReaches(s: Stmt, shadow: set<string>, a: Core, table: Table, g: Sign) returns (o: Oracle)
    requires Witnessed(table) && s.If? && g in SignsIn(s, shadow, a, table)
    ensures Realises(Step(s, shadow, o, With(a, [])), g)
    decreases s, 0
  {
    var may := MayEval(s.test, shadow, a.env);
    if Yes in may && g in Signs(s.body, shadow, a, table) {
      var l := EvalReaches(s.test, shadow, a.env, Yes);
      var r := BlockReaches(s.body, shadow, a, table, g);
      o := Fork(true, l, r);
    } else if No in may && g in Signs(s.orelse, shadow, a, table) {
      var l := EvalReaches(s.test, shadow, a.env, No);
      var r := BlockReaches(s.orelse, shadow, a, table, g);
      o := Fork(true, l, r);
    } else {
      var l := EvalReaches(s.test, shadow, a.env, Fails);
      o := Fork(true, l, Leaf);
    }
  }

  lemma {:induction false} TryReaches(s: Stmt, shadow: set<string>, a: Core, table: Table, g: Sign) returns (o: Oracle)
    requires Witnessed(table) && s.Try? && g in SignsIn(s, shadow, a, table)
    ensures Realises(Step(s, shadow, o, With(a, [])), g)
    decreases s, 0
  {
    var first := Signs(s.body, shadow, a, table);
    if g in first {
      var l := BlockReaches(s.body, shadow, a, table, g);
      o := Fork(false, l, Leaf);
    } else {
      var m :| m in first && EndsBy(m, Jumps(Raise)) && g in Signs(s.handler, shadow, m.core, table);
      var l := BlockReaches(s.body, shadow, a, table, m);
      var r := BlockReaches(s.handler, shadow, m.core, table, g);
      o := Fork(true, l, r);
      var log := Exec(s.body, shadow, l, With(a, [])).st.log;
      BlockIgnoresLog(s.handler, shadow, r, m.core, log);
      RealisesAfter(Exec(s.handler, shadow, r, With(m.core, [])), log, g);
    }
  }

  lemma SimpleReaches(s: Stmt, shadow: set<string>, a: Core, g: Sign) returns (o: Oracle)
    requires !Compound(s) && g in SimpleSigns(s, shadow, a)
    ensures Realises(Step(s, shadow, o, With(a, [])), g)
  {
    var ok, bit :| ok in BITS && bit in BITS && g in SignsOf(Simple(s, shadow, ok, bit, With(a, [])));
    o := Fork(ok, Fork(bit, Leaf, Leaf), Leaf);
    assert Answer(o) == bit;
    assert Step(s, shadow, o, With(a, [])) == Simple(s, shadow, ok, bit, With(a, []));
    hide Simple, Step;
  }

  lemma UnfoldReaches(k: Key, table: Table, g: Sign) returns (o: Oracle)
    requires Witnessed(table) && g in Unfold(k, table)
    ensures Realises(Step(k.stmt, k.shadow, o, With(k.core, [])), g)
  {
    match k.stmt
    case Loop(body) => o := LoopReaches(k, table, g);
    case Invoke(f) =>
      if g == Ends(Jumps(Raise), k.core) {
        o := Fork(false, Leaf, Leaf);
      } else if f !in k.core.defs {
        o := Fork(true, Leaf, Leaf);
      } else {
        var c := k.core.defs[f];
        var m :| m in Signs(c.body, c.shadow, k.core, table) && g == Returned(m, k.core);
        var l := BlockReaches(c.body, c.shadow, k.core, table, m);
        o := Fork(true, l, Leaf);
      }
  }

  lemma LoopReaches(k: Key, table: Table, g: Sign) returns (o: Oracle)
    requires Witnessed(table) && k.stmt.Loop? && g in Unfold(k, table)
    ensures Realises(Step(k.stmt, k.shadow, o, With(k.core, [])), g)
  {
    hide Signs, Known, Witnessed;
    var body := k.stmt.body;
    var turn := Signs(body, k.shadow, k.core, table);
    if g == Ends(Next, k.core) {
      o := Fork(false, Leaf, Leaf);
    } else if g == Ends(Jumps(Raise), k.core) {
      o := Fork(false, Fork(true, Leaf, Leaf), Leaf);
    } else if g in turn && LeavesLoop(g) {
      var l := BlockReaches(body, k.shadow, k.core, table, g);
      o := Fork(true, l, Leaf);
    } else if g.Ends? && Ends(Jumps(Break), g.core) in turn && g.out == Next {
      var l := BlockReaches(body, k.shadow, k.core, table, Ends(Jumps(Break), g.core));
      o := Fork(true, l, Leaf);
    } else {
      var m :| m in turn && TurnsAgain(m) && g in Known(table, Key(k.stmt, k.shadow, m.core));
      o := TurnReaches(k, table, m, g);
    }
  }

  lemma TurnReaches(k: Key, table: Table, m: Sign, g: Sign) returns (o: Oracle)
    requires Witnessed(table) && k.stmt.Loop? && m in Signs(k.stmt.body, k.shadow, k.core, table)
    requires TurnsAgain(m) && g in Known(table, Key(k.stmt, k.shadow, m.core))
    ensures Realises(Step(k.stmt, k.shadow, o, With(k.core, [])), g)
  {
    hide Signs, Known, Witnessed;
    var l := BlockReaches(k.stmt.body, k.shadow, k.core, table, m);
    var r := KnownReaches(k.stmt, k.shadow, m.core, table, g);
    o := Fork(true, l, r);
    var log := Exec(k.stmt.body, k.shadow, l, With(k.core, [])).st.log;
    StmtIgnoresLog(k.stmt, k.shadow, r, m.core, log);
    RealisesAfter(Step(k.stmt, k.shadow, r, With(m.core, [])), log, g);
  }

  lemma RoundWitnessed(w: World, table: Table)
    requires Witnessed(table)
    ensures Witnessed(table + Round(w, table))
  {
    forall x | x in Round(w, table)
      ensures exists o :: Realises(Step(x.key.stmt, x.key.shadow, o, With(x.key.core, [])), x.sign)
    {
      var o := UnfoldReaches(x.key, table, x.sign);
    }
  }

  lemma {:induction false} SaturateWitnessed(w: World, table: Table)
    requires Sane(w, table) && Witnessed(table)
    ensures Witnessed(Saturate(w, table))
    decreases |AllFacts(w) - table|
  {
    var more := table + Round(w, table);
    if more != table {
      RoundListed(w, table);
      RoundShrinks(w, table);
      RoundWitnessed(w, table);
      SaturateWitnessed(w, more);
    }
  }

  // ----- the theorem ---------------------------------------------------------------------

  /** `Possible` is exact: an event can be logged by some run of the function if and
      only if it is computed from the text. */
  lemma PossibleExact(f: Block, params: Env, e: Event)
    ensures e in Possible(f, params) <==> exists o :: e in Run(f, o, params).st.log
  {
    var w, a := WorldOf(f, params), Core(params, map[], false);
    WorldNests(f, params);
    var table := Saturate(w, {});
    SaturateIsSaturated(w, {});
    SaturateWitnessed(w, {});
    assert With(a, []) == Entry(params);
    if e in Possible(f, params) {
      var o := BlockReaches(f, {}, a, table, Shows(e));
      assert e in Run(f, o, params).st.log;
    }
    forall o | e in Run(f, o, params).st.log
      ensures e in Possible(f, params)
    {
      BlockInside(w, table, f, {}, o, Entry(params));
      var log := Run(f, o, params).st.log;
      var i :| 0 <= i < |log| && log[i] == e;
      assert Shows(e) in Signs(f, {}, a, table);
    }
  }
}

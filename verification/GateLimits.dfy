/**
 Where the gate guard's approval is exact, and accepted programs that dial
 against the gate: one for each thing the side conditions of the soundness
 theorem ask for -- the form of the test, a branch that always leaves, the place
 of the guard, no second question in between, nothing but the gate writing the
 decision, a name that is not a parameter, and a guard inside the function that
 dials.
 */
module GateLimits {
  import opened Program
  import opened GateCheck
  import opened GateSound
  import opened GateExact

  /** Every run dials under an allowing decision if and only if the program
      text says so. */
  lemma ObeysIff(f: Block, x: string, id: nat, params: Env)
    ensures (forall o :: Obeys(Run(f, o, params).st.log, x, id)) <==>
            (forall e :: e in Possible(f, params) && e.Dialled? && e.id == id ==> x in e.env && e.env[x] == Decision(true))
  {
    hide Possible, Run;
    if forall o :: Obeys(Run(f, o, params).st.log, x, id) {
      forall e | e in Possible(f, params) && e.Dialled? && e.id == id
        ensures x in e.env && e.env[x] == Decision(true)
      {
        PossibleExact(f, params, e);
        var o :| e in Run(f, o, params).st.log;
        assert Obeys(Run(f, o, params).st.log, x, id);
      }
    } else {
      var o :| !Obeys(Run(f, o, params).st.log, x, id);
      var e :| e in Run(f, o, params).st.log && e.Dialled? && e.id == id && !(x in e.env && e.env[x] == Decision(true));
      PossibleExact(f, params, e);
    }
  }

  /** Every run dials after an assertion that returned if and only if the
      program text says so. */
  lemma VouchedIff(f: Block, id: nat, params: Env)
    ensures (forall o :: Vouched(Run(f, o, params).st.log, id)) <==>
            (forall e :: e in Possible(f, params) && e.Dialled? && e.id == id ==> e.vouched)
  {
    hide Possible, Run;
    if forall o :: Vouched(Run(f, o, params).st.log, id) {
      forall e | e in Possible(f, params) && e.Dialled? && e.id == id
        ensures e.vouched
      {
        PossibleExact(f, params, e);
        var o :| e in Run(f, o, params).st.log;
        assert Vouched(Run(f, o, params).st.log, id);
      }
    } else {
      var o :| !Vouched(Run(f, o, params).st.log, id);
      var e :| e in Run(f, o, params).st.log && e.Dialled? && e.id == id && !e.vouched;
      PossibleExact(f, params, e);
    }
  }

  // ----- accepted, and yet a run dials against the gate -----------------------------------

  const D := "decision"
  const Y: Oracle := Fork(true, Leaf, Leaf)
  const N: Oracle := Fork(false, Leaf, Leaf)
  const ALLOWS: Oracle := Fork(true, Y, Leaf)      // a gate call that returns, and its answer
  const REFUSES: Oracle := Fork(true, N, Leaf)

  ghost predicate DialsRefused(f: Block, o: Oracle) {
    Dialled(0, map[D := Decision(false)], false) in Run(f, o, map[]).st.log
  }

  lemma WalkStep(queue: seq<Node>, rest: seq<Node>)
    requires queue != [] && rest == queue[1..] + Children(queue[0])
    ensures Walk(queue) == [queue[0]] + Walk(rest)
  {
  }

  /** The walk's first node decides, and approves. */
  lemma ApprovedHere(queue: seq<Node>, id: nat, line: nat)
    requires queue != [] && queue[0].S? && Approves(queue[0].stmt, D, id, line)
    ensures Obeyed(Walk(queue), D, id, line)
  {
    assert Walk(queue)[0] == queue[0];
  }

  /** It does not decide: the rest of the walk does. */
  lemma ApprovedLater(queue: seq<Node>, rest: seq<Node>, id: nat, line: nat)
    requires queue != [] && rest == queue[1..] + Children(queue[0]) && Obeyed(Walk(rest), D, id, line)
    requires !(queue[0].S? && Decides(queue[0].stmt, D, id, line))
    ensures Obeyed(Walk(queue), D, id, line)
  {
    WalkStep(queue, rest);
    assert Walk(queue)[1..] == Walk(rest);
  }

  /** The test is more than the decision:
      `if decision.allowed or <other>: dial`. */
  const COMPOUND_TEST: Block :=
    Cons(Bind(1, D, GateCall, false),
    Cons(If(2, Or(Allowed(D), Opaque), Cons(Dial(3, 0), Nil), Nil), Nil))

  lemma CompoundTestIsAccepted()
    ensures Obeyed(WalkOf(COMPOUND_TEST), D, 0, 3)
    ensures exists o :: DialsRefused(COMPOUND_TEST, o)
  {
    var test: Oracle := Fork(true, Leaf, Y);
    var o: Oracle := Fork(true, REFUSES, Fork(true, Fork(true, test, Fork(true, Y, Leaf)), Leaf));
    var log := Run(COMPOUND_TEST, o, map[]).st.log;
    assert log == [Dialled(0, map[D := Decision(false)], false)];
    assert DialsRefused(COMPOUND_TEST, o);
  }

  /** The refusing branch only sometimes leaves:
      `if not decision.allowed: (if <other>: return)`, then the dial. */
  const CONDITIONAL_STOP: Block :=
    Cons(Bind(1, D, GateCall, false),
    Cons(If(2, Not(Allowed(D)), Cons(If(3, Opaque, Cons(Leave(Return), Nil), Nil), Nil), Nil),
    Cons(Dial(4, 0), Nil)))

  lemma ConditionalStopIsAccepted()
    ensures Obeyed(WalkOf(CONDITIONAL_STOP), D, 0, 4)
    ensures exists o :: DialsRefused(CONDITIONAL_STOP, o)
  {
    var inner: Oracle := Fork(true, Fork(true, N, Leaf), Leaf);
    var o: Oracle := Fork(true, REFUSES, Fork(true, Fork(true, Leaf, inner), Fork(true, Y, Leaf)));
    var log := Run(CONDITIONAL_STOP, o, map[]).st.log;
    assert log == [Dialled(0, map[D := Decision(false)], false)];
    assert DialsRefused(CONDITIONAL_STOP, o);
  }

  /** The guard stands before the dial, but in a branch of its own. */
  const SIBLING_GUARD: Block :=
    Cons(Bind(1, D, GateCall, false),
    Cons(If(2, Opaque, Cons(If(3, Not(Allowed(D)), Cons(Leave(Return), Nil), Nil), Nil), Nil),
    Cons(Dial(4, 0), Nil)))

  lemma SiblingGuardIsAccepted()
    ensures Obeyed(WalkOf(SIBLING_GUARD), D, 0, 4)
    ensures exists o :: DialsRefused(SIBLING_GUARD, o)
  {
    SiblingGuardWalk(SIBLING_GUARD);
    var o: Oracle := Fork(true, REFUSES, Fork(true, Fork(true, N, Leaf), Fork(true, Y, Leaf)));
    var log := Run(SIBLING_GUARD, o, map[]).st.log;
    assert log == [Dialled(0, map[D := Decision(false)], false)];
    assert DialsRefused(SIBLING_GUARD, o);
  }

  lemma SiblingGuardWalk(f: Block)
    requires f == SIBLING_GUARD
    ensures Obeyed(WalkOf(f), D, 0, 4)
  {
    hide Walk, Obeyed;
    var ask, outer, dial := f.head, f.tail.head, f.tail.tail.head;
    var guard := outer.body.head;
    assert Nodes(f.tail.tail) == [S(dial)] + Nodes(Nil);
    assert Nodes(f.tail) == [S(outer), S(dial)];
    assert Nodes(f) == [S(ask), S(outer), S(dial)];
    assert Children(S(outer)) == [S(guard)];
    ApprovedHere([S(guard)], 0, 4);
    ApprovedLater([S(dial), S(guard)], [S(guard)], 0, 4);
    ApprovedLater([S(outer), S(dial)], [S(dial), S(guard)], 0, 4);
    ApprovedLater([S(ask), S(outer), S(dial)], [S(outer), S(dial)], 0, 4);
  }

  /** The gate is asked again between the guard and the dial. */
  const ASKED_AGAIN: Block :=
    Cons(Bind(1, D, GateCall, false),
    Cons(If(2, Allowed(D), Cons(Bind(3, D, GateCall, false), Cons(Dial(4, 0), Nil)), Nil), Nil))

  lemma AskedAgainIsAccepted()
    ensures Obeyed(WalkOf(ASKED_AGAIN), D, 0, 4)
    ensures exists o :: DialsRefused(ASKED_AGAIN, o)
  {
    var body: Oracle := Fork(true, REFUSES, Fork(true, Y, Leaf));
    var o: Oracle := Fork(true, ALLOWS, Fork(true, Fork(true, Leaf, body), Leaf));
    assert map[D := Decision(true)][D := Decision(false)] == map[D := Decision(false)];
    var log := Run(ASKED_AGAIN, o, map[]).st.log;
    assert log == [Dialled(0, map[D := Decision(false)], false)];
    assert DialsRefused(ASKED_AGAIN, o);
  }

  /** The name has a value that is not the gate's, and the gate call raises:
      `decision = DEFAULT; try: decision = check_dispatch(...) except: pass`,
      then a guard that always leaves, then the dial. */
  const FAIL_OPEN: Block :=
    Cons(Bind(1, D, OtherValue, false),
    Cons(Try(Cons(Bind(2, D, GateCall, false), Nil), Cons(Other, Nil)),
    Cons(If(3, Not(Allowed(D)), Cons(Leave(Return), Nil), Nil),
    Cons(Dial(4, 0), Nil))))

  lemma FailOpenIsAccepted(f: Block)
    requires f == FAIL_OPEN
    ensures Obeyed(WalkOf(f), D, 0, 4)
    ensures exists o :: Dialled(0, map[D := Raw], false) in Run(f, o, map[]).st.log
  {
    FailOpenWalk(f, f.head, f.tail.head, f.tail.tail.head, f.tail.tail.tail.head);
    var o := FailOpenRuns(f, f.head, f.tail.head, f.tail.tail.head, f.tail.tail.tail.head);
  }

  lemma FailOpenRuns(f: Block, first: Stmt, ask: Stmt, guard: Stmt, dial: Stmt) returns (o: Oracle)
    requires f == Cons(first, Cons(ask, Cons(guard, Cons(dial, Nil)))) && first == Bind(1, D, OtherValue, false) && dial == Dial(4, 0)
    requires ask == Try(Cons(Bind(2, D, GateCall, false), Nil), Cons(Other, Nil))
    requires guard == If(3, Not(Allowed(D)), Cons(Leave(Return), Nil), Nil)
    ensures Dialled(0, map[D := Raw], false) in Run(f, o, map[]).st.log
  {
    var st := State(map[D := Raw], map[], false, []);
    var raises: Oracle := Fork(true, Fork(true, N, Leaf), Fork(true, Y, Leaf));
    assert Step(first, {}, Y, Entry(map[])) == Result(Next, st);
    assert Exec(ask.body, {}, raises.left, st) == Result(Jumps(Raise), st);
    assert Step(ask, {}, raises, st) == Result(Next, st);
    var passes: Oracle := Fork(true, Y, Leaf);
    assert Eval(Not(Allowed(D)), {}, Y, st.env) == No;
    assert Step(guard, {}, passes, st) == Result(Next, st);
    var rest: Oracle := Fork(true, Y, Leaf);
    var log := Exec(Cons(dial, Nil), {}, rest, st).st.log;
    assert log == [Dialled(0, map[D := Raw], false)];
    assert log[0] in log;
    o := Fork(true, Y, Fork(true, raises, Fork(true, passes, rest)));
    assert Exec(Cons(guard, Cons(dial, Nil)), {}, Fork(true, passes, rest), st).st.log == log;
    assert Exec(f.tail, {}, o.right, st).st.log == log;
  }

  lemma FailOpenWalk(f: Block, first: Stmt, ask: Stmt, guard: Stmt, dial: Stmt)
    requires f == Cons(first, Cons(ask, Cons(guard, Cons(dial, Nil)))) && first.Bind? && ask.Try? && dial == Dial(4, 0)
    requires guard == If(3, Not(Allowed(D)), Cons(Leave(Return), Nil), Nil)
    ensures Obeyed(WalkOf(f), D, 0, 4)
  {
    hide Walk, Obeyed;
    var kids := Children(S(ask));
    assert Nodes(Cons(dial, Nil)) == [S(dial)] + Nodes(Nil);
    assert Nodes(f.tail.tail) == [S(guard), S(dial)];
    assert Nodes(f) == [S(first), S(ask), S(guard), S(dial)];
    ApprovedHere([S(guard), S(dial)] + kids, 0, 4);
    ApprovedLater([S(ask), S(guard), S(dial)], [S(guard), S(dial)] + kids, 0, 4);
    ApprovedLater([S(first), S(ask), S(guard), S(dial)], [S(ask), S(guard), S(dial)], 0, 4);
  }

  /** The refusing branch raises, an inner handler that would have returned does
      not match, and an outer one swallows the exception. */
  const SWALLOWED: Block :=
    Cons(Bind(1, D, GateCall, false),
    Cons(Try(Cons(Try(Cons(If(2, Not(Allowed(D)), Cons(Leave(Raise), Nil), Nil), Nil), Cons(Leave(Return), Nil)), Nil),
             Cons(Other, Nil)),
    Cons(Dial(5, 0), Nil)))

  lemma SwallowedRefusalIsAccepted(f: Block)
    requires f == SWALLOWED
    ensures Obeyed(WalkOf(f), D, 0, 5)
    ensures exists o :: DialsRefused(f, o)
  {
    var outer := f.tail.head;
    var inner := outer.body.head;
    SwallowedWalk(f, f.head, outer, inner, inner.body.head, f.tail.tail.head);
    var o := SwallowedRuns(f, f.head, outer, f.tail.tail.head);
    assert DialsRefused(f, o);
  }

  lemma SwallowedRuns(f: Block, ask: Stmt, outer: Stmt, dial: Stmt) returns (o: Oracle)
    requires f == Cons(ask, Cons(outer, Cons(dial, Nil))) && ask == Bind(1, D, GateCall, false) && dial == Dial(5, 0)
    requires f == SWALLOWED
    ensures DialsRefused(f, o)
  {
    var st := State(map[D := Decision(false)], map[], false, []);
    assert Step(ask, {}, REFUSES, Entry(map[])) == Result(Next, st);
    var swallowed := OuterSwallows(outer, outer.body.head, outer.body.head.body.head, st);
    var rest: Oracle := Fork(true, Y, Leaf);
    var log := Exec(Cons(dial, Nil), {}, rest, st).st.log;
    assert log == [Dialled(0, map[D := Decision(false)], false)];
    assert log[0] in log;
    o := Fork(true, REFUSES, Fork(true, swallowed, rest));
    assert Exec(f.tail, {}, o.right, st).st.log == log;
  }

  lemma OuterSwallows(outer: Stmt, inner: Stmt, guard: Stmt, st: State) returns (o: Oracle)
    requires outer == Try(Cons(inner, Nil), Cons(Other, Nil)) && inner == Try(Cons(guard, Nil), Cons(Leave(Return), Nil))
    requires guard == If(2, Not(Allowed(D)), Cons(Leave(Raise), Nil), Nil) && st.env == map[D := Decision(false)]
    ensures Step(outer, {}, o, st) == Result(Next, st)
  {
    var raises: Oracle := Fork(true, Leaf, Fork(true, Y, Leaf));
    assert Eval(Not(Allowed(D)), {}, Leaf, st.env) == Yes;
    assert Step(guard, {}, raises, st) == Result(Jumps(Raise), st);
    assert Exec(inner.body, {}, Fork(true, raises, Leaf), st) == Result(Jumps(Raise), st);
    var unmatched: Oracle := Fork(false, Fork(true, raises, Leaf), Leaf);
    assert Step(inner, {}, unmatched, st) == Result(Jumps(Raise), st);
    assert Exec(outer.body, {}, Fork(true, unmatched, Leaf), st) == Result(Jumps(Raise), st);
    o := Fork(true, Fork(true, unmatched, Leaf), Fork(true, Y, Leaf));
  }

  lemma SwallowedWalk(f: Block, ask: Stmt, outer: Stmt, inner: Stmt, guard: Stmt, dial: Stmt)
    requires f == Cons(ask, Cons(outer, Cons(dial, Nil))) && ask.Bind? && dial == Dial(5, 0)
    requires outer == Try(Cons(inner, Nil), Cons(Other, Nil)) && inner == Try(Cons(guard, Nil), Cons(Leave(Return), Nil))
    requires guard == If(2, Not(Allowed(D)), Cons(Leave(Raise), Nil), Nil)
    ensures Obeyed(WalkOf(f), D, 0, 5)
  {
    hide Walk, Obeyed;
    var h, i := H(outer.handler), H(inner.handler);
    assert Nodes(f.tail.tail) == [S(dial)] + Nodes(Nil);
    assert Nodes(f.tail) == [S(outer), S(dial)];
    assert Nodes(f) == [S(ask), S(outer), S(dial)];
    assert Nodes(outer.body) == [S(inner)] + Nodes(Nil) && Children(S(outer)) == [S(inner), h];
    assert Nodes(inner.body) == [S(guard)] + Nodes(Nil) && Children(S(inner)) == [S(guard), i];
    assert Children(h) == [S(Other)] + Nodes(Nil);
    ApprovedHere([S(guard), i, S(Other)], 0, 5);
    ApprovedLater([h, S(guard), i], [S(guard), i, S(Other)], 0, 5);
    ApprovedLater([S(inner), h], [h, S(guard), i], 0, 5);
    ApprovedLater([S(dial), S(inner), h], [S(inner), h], 0, 5);
    ApprovedLater([S(outer), S(dial)], [S(dial), S(inner), h], 0, 5);
    ApprovedLater([S(ask), S(outer), S(dial)], [S(outer), S(dial)], 0, 5);
  }

  /** The decision is a parameter that the gate replaces on one branch only. */
  const PARAMETER: Block :=
    Cons(If(1, Opaque, Cons(Bind(2, D, GateCall, false), Nil), Nil),
    Cons(If(3, Allowed(D), Cons(Dial(4, 0), Nil), Nil), Nil))

  lemma ParameterIsAccepted()
    ensures Obeyed(WalkOf(PARAMETER), D, 0, 4)
    ensures exists o :: Dialled(0, map[D := Raw], false) in Run(PARAMETER, o, map[D := Raw]).st.log
  {
    var o: Oracle := Fork(true, Fork(true, N, Leaf), Fork(true, Fork(true, Y, Fork(true, Y, Leaf)), Leaf));
    var log := Run(PARAMETER, o, map[D := Raw]).st.log;
    assert log == [Dialled(0, map[D := Raw], false)];
    assert log[0] in log;
  }

  /** A loop defines a dialling closure for an allowed contact and calls it
      after a later contact was refused. */
  const STALE_CLOSURE: Block :=
    Cons(Loop(Cons(Bind(1, D, GateCall, false),
              Cons(If(2, Not(Allowed(D)), Cons(Leave(Continue), Nil), Nil),
              Cons(Def("ring", Cons(Dial(3, 0), Nil)), Nil)))),
    Cons(Invoke("ring"), Nil))

  lemma StaleClosureIsAccepted(f: Block)
    requires f == STALE_CLOSURE
    ensures Obeyed(WalkOf(f), D, 0, 3)
    ensures exists o :: DialsRefused(f, o)
  {
    var loop, call := f.head, f.tail.head;
    StaleClosureWalk(f, loop, call, loop.body.head, loop.body.tail.head, loop.body.tail.tail.head);

    var allowed: Oracle := Fork(true, ALLOWS, Fork(true, Fork(true, Leaf, Leaf), Fork(true, Y, Leaf)));
    var refused: Oracle := Fork(true, REFUSES, Fork(true, Fork(true, Leaf, Fork(true, Y, Leaf)), Leaf));
    var once := TurnAllowed(loop.body, allowed);
    var twice := TurnRefused(loop.body, refused, once);
    var o := TwoTurnsThenCall(loop, allowed, refused, Entry(map[]), once, twice);
    var log := Run(f, o, map[]).st.log;
    assert log[0] == Dialled(0, map[D := Decision(false)], false);
    assert DialsRefused(f, o);
  }

  lemma StaleClosureWalk(f: Block, loop: Stmt, call: Stmt, ask: Stmt, guard: Stmt, ring: Stmt)
    requires f == Cons(loop, Cons(call, Nil)) && call.Invoke?
    requires loop == Loop(Cons(ask, Cons(guard, Cons(ring, Nil))))
    requires ask.Bind? && ring == Def("ring", Cons(Dial(3, 0), Nil))
    requires guard == If(2, Not(Allowed(D)), Cons(Leave(Continue), Nil), Nil)
    ensures Obeyed(WalkOf(f), D, 0, 3)
  {
    hide Walk, Obeyed;
    assert Nodes(Cons(call, Nil)) == [S(call)] + Nodes(Nil);
    assert Nodes(f) == [S(loop), S(call)];
    assert Nodes(Cons(ring, Nil)) == [S(ring)] + Nodes(Nil);
    assert Nodes(Cons(guard, Cons(ring, Nil))) == [S(guard), S(ring)];
    assert Nodes(loop.body) == [S(ask), S(guard), S(ring)];
    ApprovedHere([S(guard), S(ring)], 0, 3);
    ApprovedLater([S(ask), S(guard), S(ring)], [S(guard), S(ring)], 0, 3);
    ApprovedLater([S(call), S(ask), S(guard), S(ring)], [S(ask), S(guard), S(ring)], 0, 3);
    ApprovedLater([S(loop), S(call)], [S(call), S(ask), S(guard), S(ring)], 0, 3);
  }

  lemma TurnAllowed(body: Block, o: Oracle) returns (once: State)
    requires STALE_CLOSURE.head.Loop? && body == STALE_CLOSURE.head.body
    requires o == Fork(true, ALLOWS, Fork(true, Fork(true, Leaf, Leaf), Fork(true, Y, Leaf)))
    ensures Exec(body, {}, o, Entry(map[])) == Result(Next, once)
    ensures once == State(map[D := Decision(true)], map["ring" := Closure(Cons(Dial(3, 0), Nil), {})], false, [])
  {
    once := Exec(body, {}, o, Entry(map[])).st;
  }

  lemma TurnRefused(body: Block, o: Oracle, once: State) returns (twice: State)
    requires STALE_CLOSURE.head.Loop? && body == STALE_CLOSURE.head.body
    requires o == Fork(true, REFUSES, Fork(true, Fork(true, Leaf, Fork(true, Y, Leaf)), Leaf))
    requires once.env == map[D := Decision(true)]
    ensures Exec(body, {}, o, once) == Result(Jumps(Continue), twice)
    ensures twice == once.(env := map[D := Decision(false)])
  {
    twice := once.(env := map[D := Decision(false)]);
    assert once.env[D := Decision(false)] == map[D := Decision(false)];
    assert Step(body.head, {}, REFUSES, once) == Result(Next, twice);
    assert Eval(Not(Allowed(D)), {}, Leaf, twice.env) == Yes;
    assert Step(body.tail.head, {}, Fork(true, Leaf, Fork(true, Y, Leaf)), twice) == Result(Jumps(Continue), twice);
    twice := Exec(body, {}, o, once).st;
  }

  lemma TwoTurnsThenCall(loop: Stmt, first: Oracle, second: Oracle, s0: State, s1: State, s2: State) returns (o: Oracle)
    requires loop.Loop?
    requires Exec(loop.body, {}, first, s0) == Result(Next, s1)
    requires Exec(loop.body, {}, second, s1) == Result(Jumps(Continue), s2)
    requires "ring" in s2.defs && s2.defs["ring"] == Closure(Cons(Dial(3, 0), Nil), {})
    ensures Exec(Cons(loop, Cons(Invoke("ring"), Nil)), {}, o, s0).st.log == s2.log + [Dialled(0, s2.env, s2.vouched)]
  {
    var turns: Oracle := Fork(true, first, Fork(true, second, N));
    assert Step(loop, {}, Fork(true, second, N), s1) == Step(loop, {}, N, s2) == Result(Next, s2);
    assert Step(loop, {}, turns, s0) == Result(Next, s2);
    var call: Oracle := Fork(true, Fork(true, Y, Leaf), Leaf);
    assert Exec(Cons(Dial(3, 0), Nil), {}, call.left, s2).st.log == s2.log + [Dialled(0, s2.env, s2.vouched)];
    o := Fork(true, turns, Fork(true, call, Leaf));
  }

  /** The raising form counts wherever it stands earlier in the file, even under
      a condition. */
  const CONDITIONAL_ASSERT: Block :=
    Cons(If(1, Opaque, Cons(AssertGate(2), Nil), Nil), Cons(Dial(3, 0), Nil))

  lemma ConditionalAssertIsAccepted(f: Block)
    requires f == CONDITIONAL_ASSERT
    ensures GatedBy(f, 0, 3)
    ensures exists o :: !Vouched(Run(f, o, map[]).st.log, 0)
  {
    ConditionalAssertWalk(f, f.head, f.tail.head, AssertGate(2));
    var o: Oracle := Fork(true, Fork(true, N, Leaf), Fork(true, Y, Leaf));
    assert Step(f.head, {}, o.left, Entry(map[])) == Result(Next, Entry(map[]));
    var log := Run(f, o, map[]).st.log;
    hide Step, Walk, GatedBy;
    assert log == [Dialled(0, map[], false)];
    assert log[0] in log;
  }

  lemma ConditionalAssertWalk(f: Block, branch: Stmt, dial: Stmt, ask: Stmt)
    requires f == Cons(branch, Cons(dial, Nil)) && branch == If(1, Opaque, Cons(ask, Nil), Nil)
    requires dial == Dial(3, 0) && ask == AssertGate(2)
    ensures GatedBy(f, 0, 3)
  {
    assert Nodes(Cons(dial, Nil)) == [S(dial)] + Nodes(Nil);
    assert Nodes(f) == [S(branch), S(dial)];
    assert Nodes(branch.body) == [S(ask)] + Nodes(Nil);
    WalkStep([S(branch), S(dial)], [S(dial), S(ask)]);
    WalkStep([S(dial), S(ask)], [S(ask)]);
    WalkStep([S(ask)], []);
    assert WalkOf(f) == [S(branch), S(dial), S(ask)];
    assert WalkOf(f)[2] in WalkOf(f) && IsGateCall(S(ask), 3);
  }
}

/**
 The report on a module's dials (scripts/check_compliance_invariants.py,
 `ungated_dials`), told from the text.

 The guard's helpers are small tests on nodes.  Here each is proved to find what it
 is meant to find, in terms of what occurs in the text and of line numbers, and the
 report is stated in those terms.
 */
module DialReport {
  import opened Program
  import opened GateCheck

  // ----- what the helpers find -----------------------------------------------------------

  /** `u` occurs in the test. */
  predicate Mentions(t: Test, u: Test) {
    t == u ||
    match t
    case Not(a) => Mentions(a, u)
    case And(a, b) => Mentions(a, u) || Mentions(b, u)
    case Or(a, b) => Mentions(a, u) || Mentions(b, u)
    case _ => false
  }

  /** There is a `not` in the test. */
  ghost predicate SaysNot(t: Test) {
    exists a :: Mentions(t, Not(a))
  }

  ghost predicate DialIn(b: Block, id: nat) {
    exists l :: Occurs(b, Dial(l, id))
  }

  /** There is a jump in the branch, however conditional. */
  ghost predicate JumpIn(b: Block) {
    exists j :: Occurs(b, Leave(j))
  }

  lemma {:induction false} TestsIff(t: Test, x: string)
    ensures TestsTheDecision(t, x) <==> Mentions(t, Allowed(x))
  {
    match t
    case Not(a) => TestsIff(a, x);
    case And(a, b) => TestsIff(a, x); TestsIff(b, x);
    case Or(a, b) => TestsIff(a, x); TestsIff(b, x);
    case _ =>
  }

  lemma {:induction false} NegatedIff(t: Test)
    ensures Negated(t) <==> SaysNot(t)
  {
    match t
    case Not(a) => assert Mentions(t, Not(a));
    case And(a, b) => TwoSayNot(t, a, b);
    case Or(a, b) => TwoSayNot(t, a, b);
    case _ =>
  }

  lemma {:induction false} TwoSayNot(t: Test, a: Test, b: Test)
    requires t == And(a, b) || t == Or(a, b)
    ensures Negated(t) <==> SaysNot(t)
    decreases t, 0
  {
    NegatedIff(a);
    NegatedIff(b);
    assert forall u :: Mentions(t, Not(u)) <==> Mentions(a, Not(u)) || Mentions(b, Not(u));
  }

  lemma {:induction false} HasIff(b: Block, id: nat)
    ensures Has(b, id) <==> DialIn(b, id)
  {
    if b.Cons? {
      HasIff(b.tail, id);
      HasInIff(b.head, id);
      assert forall l :: Occurs(b, Dial(l, id)) <==> OccursIn(b.head, Dial(l, id)) || Occurs(b.tail, Dial(l, id));
    }
  }

  lemma {:induction false} HasInIff(s: Stmt, id: nat)
    ensures HasIn(s, id) <==> exists l :: OccursIn(s, Dial(l, id))
  {
    match s
    case Dial(l, i) => assert OccursIn(s, Dial(l, i));
    case If(_, _, body, orelse) =>
      HasIff(body, id);
      HasIff(orelse, id);
      assert forall l :: OccursIn(s, Dial(l, id)) <==> Occurs(body, Dial(l, id)) || Occurs(orelse, Dial(l, id));
    case Loop(body) =>
      HasIff(body, id);
      assert forall l :: OccursIn(s, Dial(l, id)) <==> Occurs(body, Dial(l, id));
    case Try(body, handler) =>
      HasIff(body, id);
      HasIff(handler, id);
      assert forall l :: OccursIn(s, Dial(l, id)) <==> Occurs(body, Dial(l, id)) || Occurs(handler, Dial(l, id));
    case Def(_, body) =>
      HasIff(body, id);
      assert forall l :: OccursIn(s, Dial(l, id)) <==> Occurs(body, Dial(l, id));
    case _ =>
  }

  lemma {:induction false} TerminatesIff(b: Block)
    ensures Terminates(b) <==> JumpIn(b)
  {
    if b.Cons? {
      var s := b.head;
      TerminatesIff(b.tail);
      match s {
        case Leave(j) => assert Occurs(b, Leave(j));
        case If(_, _, body, orelse) => TerminatesIff(body); TerminatesIff(orelse);
        case Loop(body) => TerminatesIff(body);
        case Try(body, handler) => TerminatesIff(body); TerminatesIff(handler);
        case Def(_, body) => TerminatesIff(body);
        case _ =>
      }
      JumpsBelow(b);
    }
  }

  lemma JumpsBelow(b: Block)
    requires b.Cons?
    ensures JumpIn(b) <==>
            JumpIn(b.tail) ||
            match b.head
            case Leave(_) => true
            case If(_, _, body, orelse) => JumpIn(body) || JumpIn(orelse)
            case Loop(body) => JumpIn(body)
            case Try(body, handler) => JumpIn(body) || JumpIn(handler)
            case Def(_, body) => JumpIn(body)
            case _ => false
  {
    if j :| Occurs(b.tail, Leave(j)) { assert Occurs(b, Leave(j)); }
    assert forall j :: Occurs(b, Leave(j)) <==> OccursIn(b.head, Leave(j)) || Occurs(b.tail, Leave(j));
    match b.head
    case Leave(j) => assert Occurs(b, Leave(j));
    case If(_, _, body, orelse) =>
      if j :| Occurs(body, Leave(j)) { assert Occurs(b, Leave(j)); }
      if j :| Occurs(orelse, Leave(j)) { assert Occurs(b, Leave(j)); }
    case Loop(body) => if j :| Occurs(body, Leave(j)) { assert Occurs(b, Leave(j)); }
    case Try(body, handler) =>
      if j :| Occurs(body, Leave(j)) { assert Occurs(b, Leave(j)); }
      if j :| Occurs(handler, Leave(j)) { assert Occurs(b, Leave(j)); }
    case Def(_, body) => if j :| Occurs(body, Leave(j)) { assert Occurs(b, Leave(j)); }
    case _ =>
  }

  // ----- when the decision is found obeyed ----------------------------------------------------

  /** An `if` that mentions `x.allowed` and either holds the dial, or stands on an earlier
      line, says `not` and has a jump in its body. */
  ghost predicate Guards(n: Node, x: string, id: nat, line: nat) {
    n.S? && n.stmt.If? && Mentions(n.stmt.test, Allowed(x)) &&
    (DialIn(n.stmt.body, id) || DialIn(n.stmt.orelse, id) || (n.stmt.line < line && SaysNot(n.stmt.test) && JumpIn(n.stmt.body)))
  }

  /** A dial in the body wants a test without `not`, any other a test with one. */
  ghost predicate RightWayRound(n: Node, id: nat) {
    n.S? && n.stmt.If? && (DialIn(n.stmt.body, id) <==> !SaysNot(n.stmt.test))
  }

  /** The first guard of the walk is the right way round. */
  ghost predicate FirstGuardIsRight(walk: seq<Node>, x: string, id: nat, line: nat) {
    exists i :: 0 <= i < |walk| && Guards(walk[i], x, id, line) && RightWayRound(walk[i], id) &&
                forall j :: 0 <= j < i ==> !Guards(walk[j], x, id, line)
  }

  lemma GuardsIff(n: Node, x: string, id: nat, line: nat)
    ensures Guards(n, x, id, line) <==> n.S? && Decides(n.stmt, x, id, line)
    ensures Guards(n, x, id, line) ==> (RightWayRound(n, id) <==> Approves(n.stmt, x, id, line))
  {
    if n.S? && n.stmt.If? {
      TestsIff(n.stmt.test, x);
      NegatedIff(n.stmt.test);
      HasIff(n.stmt.body, id);
      HasIff(n.stmt.orelse, id);
      TerminatesIff(n.stmt.body);
    }
  }

  lemma {:induction false} ObeyedIff(walk: seq<Node>, x: string, id: nat, line: nat)
    ensures Obeyed(walk, x, id, line) <==> FirstGuardIsRight(walk, x, id, line)
    decreases |walk|
  {
    hide Guards, RightWayRound, Decides, Approves;
    if walk != [] {
      var rest := walk[1..];
      GuardsIff(walk[0], x, id, line);
      ObeyedIff(rest, x, id, line);
      if Guards(walk[0], x, id, line) {
        assert FirstGuardIsRight(walk, x, id, line) ==> RightWayRound(walk[0], id);
      } else {
        if i :| 0 <= i < |rest| && Guards(rest[i], x, id, line) && RightWayRound(rest[i], id) && forall j :: 0 <= j < i ==> !Guards(rest[j], x, id, line) {
          assert walk[i + 1] == rest[i] && forall j :: 0 < j < i + 1 ==> walk[j] == rest[j - 1];
        }
        if i :| 0 <= i < |walk| && Guards(walk[i], x, id, line) && RightWayRound(walk[i], id) && forall j :: 0 <= j < i ==> !Guards(walk[j], x, id, line) {
          assert rest[i - 1] == walk[i] && forall j :: 0 <= j < i - 1 ==> rest[j] == walk[j + 1];
        }
      }
    }
  }

  /** The accepted shapes of a function with one `if` on the decision.  With the plain
      test: the dial in the body.  With its negation: the dial in the `else`, or on a later
      line below a body with a jump.  A positive test that says `not` of anything else is
      refused. */
  lemma OneGuardIff(f: Block, g: Stmt, x: string, id: nat, line: nat)
    requires Occurs(f, g) && g.If?
    requires forall s :: Occurs(f, s) && s.If? && Mentions(s.test, Allowed(x)) ==> s == g
    ensures g.test == Allowed(x) ==> (Obeyed(WalkOf(f), x, id, line) <==> DialIn(g.body, id))
    ensures g.test == Not(Allowed(x)) ==>
              (Obeyed(WalkOf(f), x, id, line) <==>
               !DialIn(g.body, id) && (DialIn(g.orelse, id) || (g.line < line && JumpIn(g.body))))
    ensures g.test == And(Allowed(x), Not(Opaque)) && DialIn(g.body, id) ==> !Obeyed(WalkOf(f), x, id, line)
  {
    var walk, n := WalkOf(f), S(g);
    ObeyedIff(walk, x, id, line);
    WalkIs(f, g);
    OnlyGuard(f, g, x, id, line);
    if g.test == Not(Allowed(x)) { assert Mentions(g.test, Not(Allowed(x))) && Mentions(g.test, Allowed(x)); }
    if g.test == And(Allowed(x), Not(Opaque)) { assert Mentions(g.test, Not(Opaque)); }
    NegatedIff(g.test);
  }

  lemma OnlyGuard(f: Block, g: Stmt, x: string, id: nat, line: nat)
    requires Occurs(f, g) && g.If?
    requires forall s :: Occurs(f, s) && s.If? && Mentions(s.test, Allowed(x)) ==> s == g
    ensures FirstGuardIsRight(WalkOf(f), x, id, line) <==> Guards(S(g), x, id, line) && RightWayRound(S(g), id)
  {
    hide Walk, RightWayRound;
    var walk := WalkOf(f);
    WalkIs(f, g);
    forall m | m in walk && Guards(m, x, id, line) ensures m == S(g) { WalkIs(f, m.stmt); }
    hide Guards;
    if Guards(S(g), x, id, line) && RightWayRound(S(g), id) {
      var i := FirstAt(walk, S(g));
    }
  }

  lemma {:induction false} FirstAt(walk: seq<Node>, n: Node) returns (i: nat)
    requires n in walk
    ensures i < |walk| && walk[i] == n && forall j :: 0 <= j < i ==> walk[j] != n
  {
    if walk[0] == n {
      i := 0;
    } else {
      var k := FirstAt(walk[1..], n);
      i := k + 1;
      forall j | 0 <= j < i ensures walk[j] != n { if j > 0 { assert walk[1..][j - 1] != n; } }
    }
  }

  // ----- all dials of a module --------------------------------------------------------------

  /** A dial and the bodies of the functions around it, outermost first. */
  datatype DialSite = DialSite(id: nat, line: nat, stack: seq<Block>)

  /** `_call_sites` for the dial: depth first, with the stack of enclosing functions. */
  function DialSites(b: Block, stack: seq<Block>): seq<DialSite> {
    match b case Nil => [] case Cons(s, tail) => DialSitesIn(s, stack) + DialSites(tail, stack)
  }

  function DialSitesIn(s: Stmt, stack: seq<Block>): seq<DialSite> {
    match s
    case Dial(line, id) => [DialSite(id, line, stack)]
    case If(_, _, body, orelse) => DialSites(body, stack) + DialSites(orelse, stack)
    case Loop(body) => DialSites(body, stack)
    case Try(body, handler) => DialSites(body, stack) + DialSites(handler, stack)
    case Def(_, body) => DialSites(body, stack + [body])
    case _ => []
  }

  /** The statement occurs in the body itself, in no function nested in it. */
  predicate OccursHere(b: Block, s: Stmt) {
    match b case Nil => false case Cons(t, tail) => OccursHereIn(t, s) || OccursHere(tail, s)
  }

  predicate OccursHereIn(t: Stmt, s: Stmt) {
    t == s ||
    match t
    case If(_, _, body, orelse) => OccursHere(body, s) || OccursHere(orelse, s)
    case Loop(body) => OccursHere(body, s)
    case Try(body, handler) => OccursHere(body, s) || OccursHere(handler, s)
    case _ => false
  }

  /** The dial stands in the innermost of the functions `chain`, each of which is defined
      directly in the one before it, the first directly in `b`. */
  ghost predicate SiteAt(b: Block, chain: seq<Block>, line: nat, id: nat)
    decreases |chain|
  {
    if chain == [] then OccursHere(b, Dial(line, id))
    else (exists name :: OccursHere(b, Def(name, chain[0]))) && SiteAt(chain[0], chain[1..], line, id)
  }

  ghost predicate SiteAtIn(t: Stmt, chain: seq<Block>, line: nat, id: nat) {
    if chain == [] then OccursHereIn(t, Dial(line, id))
    else (exists name :: OccursHereIn(t, Def(name, chain[0]))) && SiteAt(chain[0], chain[1..], line, id)
  }

  /** The walk finds every dial, with its line and exactly the functions around it. */
  lemma {:induction false} SitesExact(b: Block, stack: seq<Block>, s: DialSite)
    ensures s in DialSites(b, stack) <==> stack <= s.stack && SiteAt(b, s.stack[|stack|..], s.line, s.id)
    decreases b
  {
    if b.Cons? {
      SitesInExact(b.head, stack, s);
      SitesExact(b.tail, stack, s);
      if stack <= s.stack {
        SiteSplits(b, s.stack[|stack|..], s.line, s.id);
      }
    }
  }

  lemma SiteSplits(b: Block, chain: seq<Block>, line: nat, id: nat)
    requires b.Cons?
    ensures SiteAt(b, chain, line, id) <==> SiteAtIn(b.head, chain, line, id) || SiteAt(b.tail, chain, line, id)
  {
    if chain != [] {
      assert forall name :: OccursHere(b, Def(name, chain[0])) <==>
                            OccursHereIn(b.head, Def(name, chain[0])) || OccursHere(b.tail, Def(name, chain[0]));
    }
  }

  lemma {:induction false} SitesInExact(t: Stmt, stack: seq<Block>, s: DialSite)
    ensures s in DialSitesIn(t, stack) <==> stack <= s.stack && SiteAtIn(t, s.stack[|stack|..], s.line, s.id)
    decreases t
  {
    match t
    case If(_, _, body, orelse) =>
      SitesExact(body, stack, s);
      SitesExact(orelse, stack, s);
      if stack <= s.stack { SiteSplitsIn(t, body, orelse, s.stack[|stack|..], s.line, s.id); }
    case Loop(body) =>
      SitesExact(body, stack, s);
      if stack <= s.stack { SiteSplitsIn(t, body, Nil, s.stack[|stack|..], s.line, s.id); }
    case Try(body, handler) =>
      SitesExact(body, stack, s);
      SitesExact(handler, stack, s);
      if stack <= s.stack { SiteSplitsIn(t, body, handler, s.stack[|stack|..], s.line, s.id); }
    case Def(_, body) =>
      SitesExact(body, stack + [body], s);
      SiteUnderDef(t, stack, s);
    case _ => SiteHere(t, stack, s);
  }

  lemma SiteUnderDef(t: Stmt, stack: seq<Block>, s: DialSite)
    requires t.Def?
    ensures stack <= s.stack && SiteAtIn(t, s.stack[|stack|..], s.line, s.id) <==>
            stack + [t.body] <= s.stack && SiteAt(t.body, s.stack[|stack + [t.body]|..], s.line, s.id)
  {
    hide SiteAt;
    if stack <= s.stack && s.stack != stack {
      var chain := s.stack[|stack|..];
      assert OccursHereIn(t, Def(t.name, t.body));
      assert (exists n :: OccursHereIn(t, Def(n, chain[0]))) <==> chain[0] == t.body;
      assert stack + [t.body] <= s.stack <==> chain[0] == t.body;
      assert chain[1..] == s.stack[|stack| + 1..];
    }
  }

  lemma SiteHere(t: Stmt, stack: seq<Block>, s: DialSite)
    requires !t.If? && !t.Loop? && !t.Try? && !t.Def?
    ensures s in DialSitesIn(t, stack) <==> stack <= s.stack && SiteAtIn(t, s.stack[|stack|..], s.line, s.id)
  {
    hide SiteAt;
    if s.stack == stack { assert s.stack[|stack|..] == []; }
    if stack <= s.stack && s.stack[|stack|..] == [] { assert s.stack == stack; }
  }

  lemma SiteSplitsIn(t: Stmt, one: Block, two: Block, chain: seq<Block>, line: nat, id: nat)
    requires match t
             case If(_, _, body, orelse) => one == body && two == orelse
             case Loop(body) => one == body && two == Nil
             case Try(body, handler) => one == body && two == handler
             case _ => false
    ensures SiteAtIn(t, chain, line, id) <==> SiteAt(one, chain, line, id) || SiteAt(two, chain, line, id)
  {
    if chain != [] {
      assert forall name :: OccursHereIn(t, Def(name, chain[0])) <==>
                            OccursHere(one, Def(name, chain[0])) || OccursHere(two, Def(name, chain[0]));
    }
  }

  // ----- the report ---------------------------------------------------------------------------

  /** A raising gate call stands on an earlier line in a function around the dial. */
  ghost predicate Asserted(s: DialSite) {
    exists f, l: nat :: f in s.stack && Occurs(f, AssertGate(l)) && l < s.line
  }

  /** A gate call assigned plainly to a name stands on an earlier line in a function around
      the dial, and that function's first guard on the name is the right way round. */
  ghost predicate Decided(s: DialSite) {
    exists f, l: nat, x :: f in s.stack && Occurs(f, Bind(l, x, GateCall, false)) && l < s.line &&
                      FirstGuardIsRight(WalkOf(f), x, s.id, s.line)
  }

  /** The statement calls the gate, in whatever form. */
  ghost predicate CallsGate(c: Stmt, l: nat) {
    c == AssertGate(l) || c == Ask(l) || exists x, a :: c == Bind(l, x, GateCall, a)
  }

  /** The gate is called on an earlier line in a function around the dial. */
  ghost predicate Called(s: DialSite) {
    exists f, c, l: nat :: f in s.stack && Occurs(f, c) && CallsGate(c, l) && l < s.line
  }

  lemma SiteGatedIff(s: DialSite)
    ensures SiteGated(s) <==> Asserted(s) || Decided(s)
    ensures SiteAsks(s) <==> Called(s)
  {
    hide Walk, Obeyed, FirstGuardIsRight;
    forall f | f in s.stack
      ensures GatedBy(f, s.id, s.line) <==>
              (exists l: nat :: Occurs(f, AssertGate(l)) && l < s.line) ||
              (exists l: nat, x :: Occurs(f, Bind(l, x, GateCall, false)) && l < s.line && FirstGuardIsRight(WalkOf(f), x, s.id, s.line))
      ensures AsksIn(f, s.line) <==> exists c, l: nat :: Occurs(f, c) && CallsGate(c, l) && l < s.line
    {
      GatedByIff(f, s.id, s.line);
      AsksInIff(f, s.line);
    }
    hide GatedBy, AsksIn, Occurs, CallsGate;
  }

  lemma GatedByIff(f: Block, id: nat, line: nat)
    ensures GatedBy(f, id, line) <==>
            (exists l: nat :: Occurs(f, AssertGate(l)) && l < line) ||
            (exists l: nat, x :: Occurs(f, Bind(l, x, GateCall, false)) && l < line && FirstGuardIsRight(WalkOf(f), x, id, line))
  {
    hide Walk, Obeyed, FirstGuardIsRight, Occurs;
    forall n | n in WalkOf(f) && n.S? ensures Occurs(f, n.stmt) { WalkIs(f, n.stmt); }
    forall x ensures Obeyed(WalkOf(f), x, id, line) <==> FirstGuardIsRight(WalkOf(f), x, id, line) { ObeyedIff(WalkOf(f), x, id, line); }
    if n :| n in WalkOf(f) && IsGateCall(n, line) && n.stmt.AssertGate? {
      assert n.stmt == AssertGate(n.stmt.line) && n.stmt.line < line;
    }
    if n :| n in WalkOf(f) && IsGateCall(n, line) && Binds(n) && Obeyed(WalkOf(f), n.stmt.name, id, line) {
      assert n.stmt == Bind(n.stmt.line, n.stmt.name, GateCall, false) && n.stmt.line < line;
    }
    if l: nat :| Occurs(f, AssertGate(l)) && l < line {
      WalkIs(f, AssertGate(l));
      assert IsGateCall(S(AssertGate(l)), line);
    }
    if l: nat, x :| Occurs(f, Bind(l, x, GateCall, false)) && l < line && FirstGuardIsRight(WalkOf(f), x, id, line) {
      var n := S(Bind(l, x, GateCall, false));
      WalkIs(f, n.stmt);
      assert IsGateCall(n, line) && Binds(n) && n.stmt.name == x;
    }
  }

  lemma AsksInIff(f: Block, line: nat)
    ensures AsksIn(f, line) <==> exists c, l: nat :: Occurs(f, c) && CallsGate(c, l) && l < line
  {
    hide Walk, Occurs;
    if n :| n in WalkOf(f) && IsGateCall(n, line) {
      WalkIs(f, n.stmt);
      var l := n.stmt.line;
      match n.stmt {
        case Bind(_, x, _, a) => assert n.stmt == Bind(l, x, GateCall, a) && CallsGate(n.stmt, l) && l < line;
        case AssertGate(_) => assert CallsGate(n.stmt, l) && l < line;
        case Ask(_) => assert CallsGate(n.stmt, l) && l < line;
      }
    }
    if c, l: nat :| Occurs(f, c) && CallsGate(c, l) && l < line {
      WalkIs(f, c);
      assert IsGateCall(S(c), line);
    }
  }

  ghost predicate SiteGated(s: DialSite) {
    exists f :: f in s.stack && GatedBy(f, s.id, s.line)
  }

  ghost predicate SiteAsks(s: DialSite) {
    exists f :: f in s.stack && AsksIn(f, s.line)
  }

  /** A dial that is reported; `ignored` when the gate is called and not obeyed. */
  datatype Offence = Offence(site: DialSite, ignored: bool)

  ghost function Offences(sites: seq<DialSite>): seq<Offence> {
    if sites == [] then []
    else
      var last := sites[|sites| - 1];
      Offences(sites[..|sites| - 1]) + (if SiteGated(last) then [] else [Offence(last, SiteAsks(last))])
  }

  /** `ungated_dials` over a module, in the order of the walk: exactly the dials before which
      no function around them asserts, or asks and obeys; each with whether one asks. */
  method UngatedDials(m: Block) returns (offenders: seq<Offence>)
    ensures offenders == Offences(DialSites(m, []))
    ensures forall o :: o in offenders <==>
                          && SiteAt(m, o.site.stack, o.site.line, o.site.id)
                          && !Asserted(o.site) && !Decided(o.site) && (o.ignored <==> Called(o.site))
    ensures offenders == [] <==> forall s :: s in DialSites(m, []) ==> Asserted(s) || Decided(s)
  {
    hide GatedBy, AsksIn;
    var sites := DialSites(m, []);
    offenders := [];
    var i := 0;
    while i < |sites|
      invariant 0 <= i <= |sites|
      invariant offenders == Offences(sites[..i])
    {
      assert sites[..i + 1][..i] == sites[..i];
      var v := JudgeDial(sites[i].stack, sites[i].id, sites[i].line);
      if v != Gated {
        offenders := offenders + [Offence(sites[i], v == Ignored)];
      }
      i := i + 1;
    }
    assert sites[..|sites|] == sites;
    NoOffence(sites);
    hide SiteGated, SiteAsks, Asserted, Decided, Called, SiteAt;
    OffencesAre(sites);
    forall s ensures (SiteGated(s) <==> Asserted(s) || Decided(s)) && (SiteAsks(s) <==> Called(s)) { SiteGatedIff(s); }
    forall s ensures s in sites <==> SiteAt(m, s.stack, s.line, s.id) {
      SitesExact(m, [], s);
      assert s.stack[0..] == s.stack;
    }
  }

  lemma {:induction false} OffencesAre(sites: seq<DialSite>)
    ensures forall o :: o in Offences(sites) <==> o.site in sites && !SiteGated(o.site) && (o.ignored <==> SiteAsks(o.site))
  {
    hide SiteGated, SiteAsks;
    if sites != [] {
      var last := |sites| - 1;
      OffencesAre(sites[..last]);
      assert forall s :: s in sites <==> s in sites[..last] || s == sites[last];
    }
  }

  lemma {:induction false} NoOffence(sites: seq<DialSite>)
    ensures Offences(sites) == [] <==> forall s :: s in sites ==> SiteGated(s)
  {
    hide SiteGated, SiteAsks;
    if sites != [] {
      var last := |sites| - 1;
      NoOffence(sites[..last]);
      assert forall s :: s in sites <==> s in sites[..last] || s == sites[last];
    }
  }

  /** Every function on a site's stack contains the dial. */
  lemma {:induction false} SiteIsInside(b: Block, stack: seq<Block>, s: DialSite, f: Block)
    requires s in DialSites(b, stack)
    ensures Has(b, s.id) && (f in s.stack ==> f in stack || Has(f, s.id))
  {
    if s in DialSitesIn(b.head, stack) {
      SiteIsInsideIn(b.head, stack, s, f);
    } else {
      SiteIsInside(b.tail, stack, s, f);
    }
  }

  lemma {:induction false} SiteIsInsideIn(t: Stmt, stack: seq<Block>, s: DialSite, f: Block)
    requires s in DialSitesIn(t, stack)
    ensures HasIn(t, s.id) && (f in s.stack ==> f in stack || Has(f, s.id))
  {
    match t
    case Dial(_, _) =>
    case If(_, _, body, orelse) =>
      if s in DialSites(body, stack) { SiteIsInside(body, stack, s, f); } else { SiteIsInside(orelse, stack, s, f); }
    case Loop(body) => SiteIsInside(body, stack, s, f);
    case Try(body, handler) =>
      if s in DialSites(body, stack) { SiteIsInside(body, stack, s, f); } else { SiteIsInside(handler, stack, s, f); }
    case Def(_, body) => SiteIsInside(body, stack + [body], s, f);
  }

  /** No dial is missed. */
  lemma {:induction false} DialHasSite(b: Block, stack: seq<Block>, id: nat) returns (s: DialSite)
    requires Has(b, id)
    ensures s in DialSites(b, stack) && s.id == id
  {
    if HasIn(b.head, id) {
      s := DialHasSiteIn(b.head, stack, id);
    } else {
      s := DialHasSite(b.tail, stack, id);
    }
  }

  lemma {:induction false} DialHasSiteIn(t: Stmt, stack: seq<Block>, id: nat) returns (s: DialSite)
    requires HasIn(t, id)
    ensures s in DialSitesIn(t, stack) && s.id == id
  {
    match t
    case Dial(line, _) => s := DialSite(id, line, stack);
    case If(_, _, body, orelse) =>
      if Has(body, id) { s := DialHasSite(body, stack, id); } else { s := DialHasSite(orelse, stack, id); }
    case Loop(body) => s := DialHasSite(body, stack, id);
    case Try(body, handler) =>
      if Has(body, id) { s := DialHasSite(body, stack, id); } else { s := DialHasSite(handler, stack, id); }
    case Def(_, body) => s := DialHasSite(body, stack + [body], id);
  }
}

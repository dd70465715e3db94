/**
 Every dial passes the compliance gate and obeys it
 (scripts/check_compliance_invariants.py, section 2).

 The guard as written: a breadth-first walk over a function's nodes that looks
 for an `if` reading the gate's decision.  GateSound proves what its approval
 means for the runs of the function.
 */
module GateCheck {
  import opened Program

  // ----- the guard -------------------------------------------------------------

  /** The nodes `ast.walk` yields that the guard can tell apart; an exception
      handler is a node of its own, one level above its statements. */
  datatype Node = S(stmt: Stmt) | H(body: Block)

  function Nodes(b: Block): seq<Node> {
    match b case Nil => [] case Cons(s, tail) => [S(s)] + Nodes(tail)
  }

  function Children(n: Node): seq<Node> {
    match n
    case H(body) => Nodes(body)
    case S(If(_, _, body, orelse)) => Nodes(body) + Nodes(orelse)
    case S(Loop(body)) => Nodes(body)
    case S(Try(body, handler)) => Nodes(body) + [H(handler)]
    case S(Def(_, body)) => Nodes(body)
    case S(_) => []
  }

  function Weight(n: Node): nat {
    match n case S(s) => StmtWeight(s) case H(body) => 1 + BlockWeight(body)
  }

  function BlockWeight(b: Block): nat {
    match b case Nil => 0 case Cons(s, tail) => StmtWeight(s) + BlockWeight(tail)
  }

  function StmtWeight(s: Stmt): nat {
    match s
    case If(_, _, body, orelse) => 1 + BlockWeight(body) + BlockWeight(orelse)
    case Loop(body) => 1 + BlockWeight(body)
    case Try(body, handler) => 2 + BlockWeight(body) + BlockWeight(handler)
    case Def(_, body) => 1 + BlockWeight(body)
    case _ => 1
  }

  function QueueWeight(queue: seq<Node>): nat {
    if queue == [] then 0 else Weight(queue[0]) + QueueWeight(queue[1..])
  }

  lemma {:induction false} QueueWeightAppend(a: seq<Node>, b: seq<Node>)
    ensures QueueWeight(a + b) == QueueWeight(a) + QueueWeight(b)
  {
    if a == [] {
      assert a + b == b;
    } else {
      assert (a + b)[1..] == a[1..] + b;
      QueueWeightAppend(a[1..], b);
    }
  }

  lemma {:induction false} NodesWeight(b: Block)
    ensures QueueWeight(Nodes(b)) == BlockWeight(b)
  {
    match b
    case Nil =>
    case Cons(s, tail) =>
      NodesWeight(tail);
      assert Nodes(b)[1..] == Nodes(tail);
  }

  lemma ChildrenWeighLess(n: Node)
    ensures QueueWeight(Children(n)) < Weight(n)
  {
    match n
    case H(body) => NodesWeight(body);
    case S(If(_, _, body, orelse)) =>
      NodesWeight(body);
      NodesWeight(orelse);
      QueueWeightAppend(Nodes(body), Nodes(orelse));
    case S(Loop(body)) => NodesWeight(body);
    case S(Try(body, handler)) =>
      NodesWeight(body);
      QueueWeightAppend(Nodes(body), [H(handler)]);
      assert [H(handler)][1..] == [];
    case S(Def(_, body)) => NodesWeight(body);
    case S(_) =>
  }

  /** `ast.walk`: breadth first, from a queue. */
  function Walk(queue: seq<Node>): seq<Node>
    decreases QueueWeight(queue)
  {
    if queue == [] then []
    else
      assert QueueWeight(queue[1..] + Children(queue[0])) < QueueWeight(queue) by {
        QueueWeightAppend(queue[1..], Children(queue[0]));
        ChildrenWeighLess(queue[0]);
      }
      [queue[0]] + Walk(queue[1..] + Children(queue[0]))
  }

  function WalkOf(f: Block): seq<Node> {
    Walk(Nodes(f))
  }

  // ----- the walk yields exactly what occurs ------------------------------------------------

  /** The statement occurs in the body, at whatever depth, nested functions included. */
  predicate Occurs(b: Block, s: Stmt) {
    match b case Nil => false case Cons(t, tail) => OccursIn(t, s) || Occurs(tail, s)
  }

  predicate OccursIn(t: Stmt, s: Stmt) {
    t == s ||
    match t
    case If(_, _, body, orelse) => Occurs(body, s) || Occurs(orelse, s)
    case Loop(body) => Occurs(body, s)
    case Try(body, handler) => Occurs(body, s) || Occurs(handler, s)
    case Def(_, body) => Occurs(body, s)
    case _ => false
  }

  ghost predicate NodeHas(n: Node, s: Stmt) {
    match n case S(t) => OccursIn(t, s) case H(body) => Occurs(body, s)
  }

  lemma {:induction false} NodesHave(b: Block, s: Stmt)
    ensures Occurs(b, s) <==> exists n :: n in Nodes(b) && NodeHas(n, s)
  {
    if b.Cons? {
      NodesHave(b.tail, s);
      assert forall n :: n in Nodes(b) <==> n == S(b.head) || n in Nodes(b.tail);
      assert NodeHas(S(b.head), s) <==> OccursIn(b.head, s);
    }
  }

  lemma ChildrenHave(n: Node, s: Stmt)
    ensures NodeHas(n, s) <==> n == S(s) || exists c :: c in Children(n) && NodeHas(c, s)
  {
    match n
    case H(body) => NodesHave(body, s);
    case S(If(_, _, body, orelse)) =>
      NodesHave(body, s);
      NodesHave(orelse, s);
    case S(Loop(body)) => NodesHave(body, s);
    case S(Try(body, handler)) =>
      NodesHave(body, s);
      assert H(handler) in Children(n) && (NodeHas(H(handler), s) <==> Occurs(handler, s));
    case S(Def(_, body)) => NodesHave(body, s);
    case S(_) =>
  }

  lemma {:induction false} WalkHas(queue: seq<Node>, s: Stmt)
    ensures S(s) in Walk(queue) <==> exists n :: n in queue && NodeHas(n, s)
    decreases QueueWeight(queue)
  {
    if queue != [] {
      var n, rest := queue[0], queue[1..] + Children(queue[0]);
      QueueWeightAppend(queue[1..], Children(n));
      ChildrenWeighLess(n);
      WalkHas(rest, s);
      ChildrenHave(n, s);
      assert Walk(queue) == [n] + Walk(rest);
      hide Walk, Children, NodeHas;
      assert forall m :: m in queue <==> m == n || m in queue[1..];
      assert forall m :: m in rest <==> m in queue[1..] || m in Children(n);
    }
  }

  /** `ast.walk` of a function misses nothing and invents nothing. */
  lemma WalkIs(f: Block, s: Stmt)
    ensures S(s) in WalkOf(f) <==> Occurs(f, s)
  {
    WalkHas(Nodes(f), s);
    NodesHave(f, s);
  }

  // ----- does an `if` obey the decision? ------------------------------------------------------

  predicate TestsTheDecision(t: Test, x: string) {
    match t
    case Allowed(y) => x == y
    case Opaque => false
    case Not(a) => TestsTheDecision(a, x)
    case And(a, b) => TestsTheDecision(a, x) || TestsTheDecision(b, x)
    case Or(a, b) => TestsTheDecision(a, x) || TestsTheDecision(b, x)
  }

  predicate Negated(t: Test) {
    match t
    case Not(_) => true
    case And(a, b) => Negated(a) || Negated(b)
    case Or(a, b) => Negated(a) || Negated(b)
    case _ => false
  }

  /** `_contains`: the dial `id` is somewhere below, nested functions included. */
  predicate Has(b: Block, id: nat) {
    match b case Nil => false case Cons(s, tail) => HasIn(s, id) || Has(tail, id)
  }

  predicate HasIn(s: Stmt, id: nat) {
    match s
    case Dial(_, i) => i == id
    case If(_, _, body, orelse) => Has(body, id) || Has(orelse, id)
    case Loop(body) => Has(body, id)
    case Try(body, handler) => Has(body, id) || Has(handler, id)
    case Def(_, body) => Has(body, id)
    case _ => false
  }

  /** `_terminates`: a jump occurs ANYWHERE below, however conditionally. */
  predicate Terminates(b: Block) {
    match b
    case Nil => false
    case Cons(s, tail) =>
      Terminates(tail) ||
      match s
      case Leave(_) => true
      case If(_, _, body, orelse) => Terminates(body) || Terminates(orelse)
      case Loop(body) => Terminates(body)
      case Try(body, handler) => Terminates(body) || Terminates(handler)
      case Def(_, body) => Terminates(body)
      case _ => false
  }

  /** This `if` is one on which `_decision_is_obeyed` stops, and the answer. */
  predicate Decides(s: Stmt, x: string, id: nat, line: nat) {
    s.If? && TestsTheDecision(s.test, x) &&
    (Has(s.body, id) || Has(s.orelse, id) || (s.line < line && Negated(s.test) && Terminates(s.body)))
  }

  predicate Approves(s: Stmt, x: string, id: nat, line: nat) {
    Decides(s, x, id, line) &&
    if Has(s.body, id) then !Negated(s.test) else Negated(s.test)
  }

  /** The answer of `_decision_is_obeyed` on a walk: that of the first `if`
      that decides. */
  predicate Obeyed(walk: seq<Node>, x: string, id: nat, line: nat) {
    walk != [] &&
    if walk[0].S? && Decides(walk[0].stmt, x, id, line) then Approves(walk[0].stmt, x, id, line)
    else Obeyed(walk[1..], x, id, line)
  }

  method DecisionIsObeyed(f: Block, x: string, id: nat, line: nat) returns (r: bool)
    ensures r == Obeyed(WalkOf(f), x, id, line)
  {
    var walk := WalkOf(f);
    var i := 0;
    while i < |walk|
      invariant 0 <= i <= |walk|
      invariant Obeyed(walk, x, id, line) == Obeyed(walk[i..], x, id, line)
    {
      assert walk[i..][1..] == walk[i + 1..];
      var n := walk[i];
      i := i + 1;
      if !n.S? || !n.stmt.If? || !TestsTheDecision(n.stmt.test, x) {
        continue;
      }
      if Has(n.stmt.body, id) {
        return !Negated(n.stmt.test);
      }
      if Has(n.stmt.orelse, id) {
        return Negated(n.stmt.test);
      }
      if n.stmt.line < line && Negated(n.stmt.test) && Terminates(n.stmt.body) {
        return true;
      }
    }
    return false;
  }

  predicate IsGateCall(n: Node, line: nat) {
    n.S? && match n.stmt
            case Bind(l, _, GateCall, _) => l < line
            case AssertGate(l) => l < line
            case Ask(l) => l < line
            case _ => false
  }

  /** `_binding_of` finds a name: it looks at plain assignments only, so a gate call with
      an annotated target is asked and ignored. */
  predicate Binds(n: Node) {
    n.S? && n.stmt.Bind? && !n.stmt.annotated
  }

  datatype Verdict = Gated | Ignored | NeverAsked

  ghost predicate GatedBy(f: Block, id: nat, line: nat) {
    (exists n :: n in WalkOf(f) && IsGateCall(n, line) && n.stmt.AssertGate?) ||
    (exists n :: n in WalkOf(f) && IsGateCall(n, line) && Binds(n) && Obeyed(WalkOf(f), n.stmt.name, id, line))
  }

  ghost predicate AsksIn(f: Block, line: nat) {
    exists n :: n in WalkOf(f) && IsGateCall(n, line)
  }

  /** One enclosing function: is the dial gated here, and is the gate called at
      all? */
  method JudgeFunction(f: Block, id: nat, line: nat) returns (gated: bool, asked: bool)
    ensures gated <==> GatedBy(f, id, line)
    ensures asked <==> AsksIn(f, line)
  {
    hide Walk, Obeyed;
    gated, asked := false, false;
    var walk := WalkOf(f);
    var i := 0;
    while i < |walk|
      invariant 0 <= i <= |walk|
      invariant forall j :: 0 <= j < i ==> !(IsGateCall(walk[j], line) && walk[j].stmt.AssertGate?)
    {
      if IsGateCall(walk[i], line) && walk[i].stmt.AssertGate? {
        assert walk[i] in WalkOf(f);
        return true, true;
      }
      i := i + 1;
    }
    i := 0;
    while i < |walk|
      invariant 0 <= i <= |walk|
      invariant asked <==> exists j :: 0 <= j < i && IsGateCall(walk[j], line)
      invariant forall j :: 0 <= j < i && IsGateCall(walk[j], line) && Binds(walk[j]) ==>
                              !Obeyed(walk, walk[j].stmt.name, id, line)
    {
      if IsGateCall(walk[i], line) {
        if Binds(walk[i]) {
          var obeyed := DecisionIsObeyed(f, walk[i].stmt.name, id, line);
          if obeyed {
            assert walk[i] in WalkOf(f);
            return true, true;
          }
        }
        asked := true;
      }
      i := i + 1;
    }
    forall n | n in walk ensures exists j :: 0 <= j < |walk| && walk[j] == n {}
  }

  /** The body of `ungated_dials` for one dial: the enclosing functions from the
      innermost outwards. */
  method JudgeDial(stack: seq<Block>, id: nat, line: nat) returns (v: Verdict)
    ensures v == Gated <==> exists f :: f in stack && GatedBy(f, id, line)
    ensures v == NeverAsked ==> forall f :: f in stack ==> !AsksIn(f, line)
    ensures v == Ignored ==> exists f :: f in stack && AsksIn(f, line)
  {
    hide GatedBy, AsksIn;
    var ignored := false;
    var k := |stack|;
    while k > 0
      invariant 0 <= k <= |stack|
      invariant forall j :: k <= j < |stack| ==> !GatedBy(stack[j], id, line)
      invariant ignored <==> exists j :: k <= j < |stack| && AsksIn(stack[j], line)
    {
      k := k - 1;
      var gated, asked := JudgeFunction(stack[k], id, line);
      if gated {
        assert stack[k] in stack;
        return Gated;
      }
      if asked {
        ignored := true;
      }
    }
    return if ignored then Ignored else NeverAsked;
  }

  lemma {:induction false} ObeyedHasApproval(walk: seq<Node>, x: string, id: nat, line: nat) returns (s: Stmt)
    requires Obeyed(walk, x, id, line)
    ensures S(s) in walk && Approves(s, x, id, line)
  {
    if walk[0].S? && Decides(walk[0].stmt, x, id, line) {
      s := walk[0].stmt;
    } else {
      s := ObeyedHasApproval(walk[1..], x, id, line);
    }
  }

}

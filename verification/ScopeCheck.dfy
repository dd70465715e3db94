/**
 Every idempotency claim is scoped by `scope_key`
 (scripts/check_idempotency_scope.py).

 The guard ignores control flow: it accepts a scope that is a `scope_key` call,
 or a name whose every assignment in the function is one.  The theorem says
 what that buys over all runs; `AcceptedClaimIff` and the two accepted programs
 at the end say where it stops.
 */
module ScopeCheck {
  import opened Program
  import opened GateCheck
  import opened GateExact

  // ----- the guard -----------------------------------------------------------------

  /** The values bound to `x` by plain or annotated assignments among the nodes,
      in walk order. */
  function ValuesOf(walk: seq<Node>, x: string): seq<Rhs> {
    if walk == [] then []
    else
      (match walk[0] case S(Bind(_, y, rhs, _)) => if x == y then [rhs] else [] case _ => []) + ValuesOf(walk[1..], x)
  }

  lemma {:induction false} ValuesOfAppend(a: seq<Node>, n: Node, x: string)
    ensures ValuesOf(a + [n], x) == ValuesOf(a, x) + (match n case S(Bind(_, y, rhs, _)) => if x == y then [rhs] else [] case _ => [])
  {
    if a == [] {
      assert a + [n] == [n];
      assert [n][1..] == [];
    } else {
      assert (a + [n])[1..] == a[1..] + [n];
      ValuesOfAppend(a[1..], n, x);
    }
  }

  /** `_local_bindings`: a dictionary from names to the values they are assigned. */
  method LocalBindings(f: Block) returns (bindings: map<string, seq<Rhs>>)
    ensures IsBindings(bindings, WalkOf(f))
  {
    var walk := WalkOf(f);
    bindings := map[];
    var i := 0;
    while i < |walk|
      invariant 0 <= i <= |walk|
      invariant IsBindings(bindings, walk[..i])
    {
      assert walk[..i + 1] == walk[..i] + [walk[i]];
      bindings := AddBinding(bindings, walk[..i], walk[i]);
      i := i + 1;
    }
    assert walk[..|walk|] == walk;
  }

  ghost predicate IsBindings(bindings: map<string, seq<Rhs>>, walk: seq<Node>) {
    forall x :: (x in bindings <==> ValuesOf(walk, x) != []) && (x in bindings ==> bindings[x] == ValuesOf(walk, x))
  }

  /** `bindings.setdefault(target.id, []).append(value)`, when the node is an
      assignment to a bare name. */
  method AddBinding(before: map<string, seq<Rhs>>, ghost walk: seq<Node>, n: Node) returns (after: map<string, seq<Rhs>>)
    requires IsBindings(before, walk)
    ensures IsBindings(after, walk + [n])
  {
    after := before;
    if n.S? && n.stmt.Bind? {
      var x := n.stmt.name;
      after := before[x := (if x in before then before[x] else []) + [n.stmt.rhs]];
    }
    forall x
      ensures (x in after <==> ValuesOf(walk + [n], x) != []) && (x in after ==> after[x] == ValuesOf(walk + [n], x))
    {
      ValuesOfAppend(walk, n, x);
    }
  }

  /** `_resolves_to_producer`: the call itself, or one hop through a name. */
  predicate ResolvesToProducer(arg: Arg, bound: seq<Rhs>) {
    match arg
    case ProducerArg => true
    case NameArg(_) => bound != [] && forall i :: 0 <= i < |bound| ==> bound[i] == ProducerCall
    case OtherArg => false
    case MissingArg => false
  }

  predicate ClaimAccepted(walk: seq<Node>, arg: Arg) {
    ResolvesToProducer(arg, if arg.NameArg? then ValuesOf(walk, arg.name) else [])
  }

  /** A claim the guard reports. */
  predicate Reported(walk: seq<Node>, n: Node) {
    n.S? && n.stmt.Claim? && !ClaimAccepted(walk, n.stmt.scope)
  }

  /** The scope is missing or another expression, or a name with no assignment in the
      function, or a name that some assignment in it gives anything but a `scope_key`. */
  ghost predicate BadScope(f: Block, arg: Arg) {
    match arg
    case ProducerArg => false
    case MissingArg => true
    case OtherArg => true
    case NameArg(x) =>
      || (forall l: nat, rhs, a :: !Occurs(f, Bind(l, x, rhs, a)))
      || (exists l: nat, rhs, a :: Occurs(f, Bind(l, x, rhs, a)) && rhs != ProducerCall)
  }

  lemma {:induction false} ValuesAre(walk: seq<Node>, x: string, rhs: Rhs)
    ensures rhs in ValuesOf(walk, x) <==> exists n :: n in walk && n.S? && n.stmt.Bind? && n.stmt.name == x && n.stmt.rhs == rhs
  {
    if walk != [] {
      ValuesAre(walk[1..], x, rhs);
      assert forall n :: n in walk <==> n == walk[0] || n in walk[1..];
    }
  }

  /** What the guard reads as the values of a name: exactly what is assigned to it
      somewhere in the function. */
  lemma ValueOccurs(f: Block, x: string, rhs: Rhs)
    ensures rhs in ValuesOf(WalkOf(f), x) <==> exists l: nat, a :: Occurs(f, Bind(l, x, rhs, a))
  {
    hide Walk, ValuesOf, Occurs;
    ValuesAre(WalkOf(f), x, rhs);
    if n :| n in WalkOf(f) && n.S? && n.stmt.Bind? && n.stmt.name == x && n.stmt.rhs == rhs {
      WalkIs(f, n.stmt);
      assert n.stmt == Bind(n.stmt.line, x, rhs, n.stmt.annotated);
    }
    if l: nat, a :| Occurs(f, Bind(l, x, rhs, a)) {
      WalkIs(f, Bind(l, x, rhs, a));
      assert S(Bind(l, x, rhs, a)) in WalkOf(f);
    }
  }

  /** A claim is accepted if and only if its scope is not bad. */
  lemma AcceptedIff(f: Block, arg: Arg)
    ensures ClaimAccepted(WalkOf(f), arg) <==> !BadScope(f, arg)
  {
    hide Walk, ValuesOf, Occurs;
    if arg.NameArg? {
      var x := arg.name;
      var bound := ValuesOf(WalkOf(f), x);
      forall rhs ensures rhs in bound <==> exists l: nat, a :: Occurs(f, Bind(l, x, rhs, a)) { ValueOccurs(f, x, rhs); }
      NamesAccepted(f, x, bound);
    }
  }

  lemma NamesAccepted(f: Block, x: string, bound: seq<Rhs>)
    requires forall rhs :: rhs in bound <==> exists l: nat, a :: Occurs(f, Bind(l, x, rhs, a))
    ensures ResolvesToProducer(NameArg(x), bound) <==> !BadScope(f, NameArg(x))
  {
    hide Occurs;
    if bound != [] {
      assert bound[0] in bound;
      var l: nat, a :| Occurs(f, Bind(l, x, bound[0], a));
    }
    forall l: nat, rhs, a | Occurs(f, Bind(l, x, rhs, a)) ensures rhs in bound {}
    if forall rhs :: rhs in bound ==> rhs == ProducerCall {
      forall l: nat, rhs, a | Occurs(f, Bind(l, x, rhs, a)) ensures rhs == ProducerCall { assert rhs in bound; }
      forall i | 0 <= i < |bound| ensures bound[i] == ProducerCall { assert bound[i] in bound; }
    } else {
      var rhs :| rhs in bound && rhs != ProducerCall;
      var i :| 0 <= i < |bound| && bound[i] == rhs;
      var l: nat, a :| Occurs(f, Bind(l, x, rhs, a));
    }
  }

  /** The claim is in the function, and its scope is bad. */
  ghost predicate IsProblem(f: Block, n: Node) {
    n.S? && n.stmt.Claim? && Occurs(f, n.stmt) && BadScope(f, n.stmt.scope)
  }

  lemma ProblemIff(f: Block, n: Node)
    ensures n in WalkOf(f) && Reported(WalkOf(f), n) <==> IsProblem(f, n)
  {
    hide Walk, Occurs, ClaimAccepted, BadScope;
    if n.S? && n.stmt.Claim? {
      WalkIs(f, n.stmt);
      AcceptedIff(f, n.stmt.scope);
    }
  }

  /** The claim arm of `_call_problems` for one function: exactly its claims with a bad
      scope, and how many claims it saw. */
  method ClaimProblems(f: Block) returns (problems: seq<Node>, claims: nat)
    ensures forall n :: n in problems <==> IsProblem(f, n)
    ensures forall n :: n in problems <==> n in WalkOf(f) && Reported(WalkOf(f), n)
    ensures claims == |set i | 0 <= i < |WalkOf(f)| && WalkOf(f)[i].S? && WalkOf(f)[i].stmt.Claim?|
  {
    var walk := WalkOf(f);
    var bindings := LocalBindings(f);
    problems, claims := [], 0;
    var i := 0;
    while i < |walk|
      invariant 0 <= i <= |walk|
      invariant claims == |Claims(walk[..i])|
      invariant forall n :: n in problems <==> n in walk[..i] && Reported(walk, n)
    {
      var n := walk[i];
      assert walk[..i + 1] == walk[..i] + [n];
      ClaimsAppend(walk[..i], n);
      if n.S? && n.stmt.Claim? {
        claims := claims + 1;
        var accepted := JudgeClaim(walk, n.stmt.scope, bindings);
        if !accepted {
          problems := problems + [n];
        }
      }
      i := i + 1;
    }
    assert walk[..|walk|] == walk;
    ClaimsAre(walk);
    forall n ensures n in problems <==> IsProblem(f, n) { ProblemIff(f, n); }
  }

  method JudgeClaim(walk: seq<Node>, arg: Arg, bindings: map<string, seq<Rhs>>) returns (accepted: bool)
    requires IsBindings(bindings, walk)
    ensures accepted == ClaimAccepted(walk, arg)
  {
    var bound := if arg.NameArg? && arg.name in bindings then bindings[arg.name] else [];
    return ResolvesToProducer(arg, bound);
  }

  function Claims(walk: seq<Node>): seq<nat> {
    if walk == [] then []
    else (match walk[0] case S(Claim(id, _)) => [id] case _ => []) + Claims(walk[1..])
  }

  lemma {:induction false} ClaimsAre(walk: seq<Node>)
    ensures |Claims(walk)| == |set i | 0 <= i < |walk| && walk[i].S? && walk[i].stmt.Claim?|
  {
    if walk != [] {
      var last := |walk| - 1;
      var before := walk[..last];
      ClaimsAre(before);
      ClaimsAppend(before, walk[last]);
      assert walk == before + [walk[last]];
      var some, all := set i | 0 <= i < |before| && before[i].S? && before[i].stmt.Claim?,
                       set i | 0 <= i < |walk| && walk[i].S? && walk[i].stmt.Claim?;
      assert all == some + if walk[last].S? && walk[last].stmt.Claim? then {last} else {};
    }
  }

  lemma {:induction false} ClaimsAppend(a: seq<Node>, n: Node)
    ensures Claims(a + [n]) == Claims(a) + (match n case S(Claim(id, _)) => [id] case _ => [])
  {
    if a == [] {
      assert a + [n] == [n];
      assert [n][1..] == [];
    } else {
      assert (a + [n])[1..] == a[1..] + [n];
      ClaimsAppend(a[1..], n);
    }
  }

  // ----- the walk misses nothing -------------------------------------------------------

  lemma {:induction false} WalkKeepsQueue(queue: seq<Node>, n: Node)
    requires n in queue
    ensures n in Walk(queue)
    decreases QueueWeight(queue)
  {
    QueueWeightAppend(queue[1..], Children(queue[0]));
    ChildrenWeighLess(queue[0]);
    if n != queue[0] {
      assert n in queue[1..];
      WalkKeepsQueue(queue[1..] + Children(queue[0]), n);
    }
  }

  lemma {:induction false} WalkDescends(queue: seq<Node>, n: Node, c: Node)
    requires n in Walk(queue) && c in Children(n)
    ensures c in Walk(queue)
    decreases QueueWeight(queue)
  {
    QueueWeightAppend(queue[1..], Children(queue[0]));
    ChildrenWeighLess(queue[0]);
    var rest := queue[1..] + Children(queue[0]);
    if n == queue[0] {
      assert c in rest;
      WalkKeepsQueue(rest, c);
    } else {
      WalkDescends(rest, n, c);
    }
  }

  /** A property of all walked statements, read off the structure. */
  ghost predicate Everywhere(b: Block, names: set<string>, id: nat) {
    match b case Nil => true case Cons(s, tail) => EverywhereIn(s, names, id) && Everywhere(tail, names, id)
  }

  /** Names in `names` are assigned only from `scope_key`, and the claim `id` takes
      its scope from one of them or from the call itself; a nested function's
      own names are its own business. */
  ghost predicate EverywhereIn(s: Stmt, names: set<string>, id: nat) {
    match s
    case Bind(_, y, rhs, _) => y in names ==> rhs == ProducerCall
    case Claim(i, arg) => i == id ==> arg.ProducerArg? || (arg.NameArg? && arg.name in names)
    case If(_, _, body, orelse) => Everywhere(body, names, id) && Everywhere(orelse, names, id)
    case Loop(body) => Everywhere(body, names, id)
    case Try(body, handler) => Everywhere(body, names, id) && Everywhere(handler, names, id)
    case Def(_, body) => Everywhere(body, names, id)
    case _ => true
  }

  /** The name is bound in the function's own scope by nothing but plain or
      annotated assignments. */
  ghost predicate OnlyAssigned(b: Block, x: string) {
    match b case Nil => true case Cons(s, tail) => OnlyAssignedIn(s, x) && OnlyAssigned(tail, x)
  }

  ghost predicate OnlyAssignedIn(s: Stmt, x: string) {
    match s
    case Rebind(y) => y != x
    case If(_, _, body, orelse) => OnlyAssigned(body, x) && OnlyAssigned(orelse, x)
    case Loop(body) => OnlyAssigned(body, x)
    case Try(body, handler) => OnlyAssigned(body, x) && OnlyAssigned(handler, x)
    case _ => true
  }

  ghost predicate IsClaim(n: Node, id: nat) {
    n.S? && n.stmt.Claim? && n.stmt.id == id
  }

  /** The names the claim `id` takes its scope from. */
  ghost function ClaimedNames(walk: seq<Node>, id: nat): set<string> {
    set n | n in walk && IsClaim(n, id) && n.stmt.scope.NameArg? :: n.stmt.scope.name
  }

  /** The guard accepts the claim `id`. */
  ghost predicate AcceptsClaim(walk: seq<Node>, id: nat) {
    forall n :: n in walk && IsClaim(n, id) ==> ClaimAccepted(walk, n.stmt.scope)
  }

  ghost predicate AllClaimsAccepted(walk: seq<Node>) {
    forall n :: n in walk && n.S? && n.stmt.Claim? ==> ClaimAccepted(walk, n.stmt.scope)
  }

  lemma {:induction false} ValueInValues(walk: seq<Node>, n: Node)
    requires n in walk && n.S? && n.stmt.Bind?
    ensures n.stmt.rhs in ValuesOf(walk, n.stmt.name)
  {
    if walk[0] != n {
      ValueInValues(walk[1..], n);
    }
  }

  lemma {:induction false} AcceptedEverywhere(queue: seq<Node>, b: Block, id: nat)
    requires AcceptsClaim(Walk(queue), id)
    requires forall n :: n in Nodes(b) ==> n in Walk(queue)
    ensures Everywhere(b, ClaimedNames(Walk(queue), id), id)
    decreases b
  {
    if b.Cons? {
      var s := b.head;
      assert S(s) in Nodes(b);
      forall n | n in Nodes(b.tail) ensures n in Walk(queue) { assert n in Nodes(b); }
      AcceptedEverywhere(queue, b.tail, id);
      AcceptedEverywhereIn(queue, s, id);
    }
  }

  lemma {:induction false} AcceptedEverywhereIn(queue: seq<Node>, s: Stmt, id: nat)
    requires AcceptsClaim(Walk(queue), id) && S(s) in Walk(queue)
    ensures EverywhereIn(s, ClaimedNames(Walk(queue), id), id)
    decreases s
  {
    var walk := Walk(queue);
    forall c | c in Children(S(s)) ensures c in walk { WalkDescends(queue, S(s), c); }
    match s
    case Bind(_, y, rhs, _) =>
      ValueInValues(walk, S(s));
      if y in ClaimedNames(walk, id) {
        var n :| n in walk && IsClaim(n, id) && n.stmt.scope == NameArg(y);
        assert ClaimAccepted(walk, NameArg(y));
      }
    case Claim(i, arg) =>
      assert IsClaim(S(s), i);
    case If(_, _, body, orelse) =>
      assert Children(S(s)) == Nodes(body) + Nodes(orelse);
      AcceptedEverywhere(queue, body, id);
      AcceptedEverywhere(queue, orelse, id);
    case Loop(body) => AcceptedEverywhere(queue, body, id);
    case Try(body, handler) =>
      assert Children(S(s)) == Nodes(body) + [H(handler)];
      AcceptedEverywhere(queue, body, id);
      assert H(handler) in walk;
      forall c | c in Nodes(handler) ensures c in walk { WalkDescends(queue, H(handler), c); }
      AcceptedEverywhere(queue, handler, id);
    case Def(_, body) => AcceptedEverywhere(queue, body, id);
    case _ =>
  }

  // ----- what acceptance means for the runs ------------------------------------------------

  /** Every value the claim `id` was made with is one that `scope_key` produced. */
  ghost predicate Produced(log: seq<Event>, id: nat) {
    forall e :: e in log && e.Claimed? && e.id == id ==> e.value == ScopeKey
  }

  ghost predicate AllProduced(log: seq<Event>) {
    forall e :: e in log && e.Claimed? ==> e.value == ScopeKey
  }

  ghost predicate Scoped(st: State, names: set<string>, id: nat) {
    && WellScoped(st) && Produced(st.log, id)
    && (forall x :: x in names && x in st.env ==> st.env[x] == ScopeKey)
    && (forall f :: f in st.defs ==> Everywhere(st.defs[f].body, names, id))
  }

  /** The function's own code, or a nested function whose names are its own. */
  ghost predicate InScope(b: Block, shadow: set<string>, names: set<string>, id: nat) {
    Everywhere(b, names, id) && (Bound(b) <= shadow || forall x :: x in names ==> OnlyAssigned(b, x))
  }

  ghost predicate InScopeStmt(s: Stmt, shadow: set<string>, names: set<string>, id: nat) {
    EverywhereIn(s, names, id) && (BoundIn(s) <= shadow || forall x :: x in names ==> OnlyAssignedIn(s, x))
  }

  lemma {:induction false} BlockScoped(b: Block, shadow: set<string>, o: Oracle, st: State, names: set<string>, id: nat)
    requires Scoped(st, names, id) && InScope(b, shadow, names, id)
    ensures Scoped(Exec(b, shadow, o, st).st, names, id)
    decreases o
  {
    if b.Cons? && o.Fork? {
      StmtScoped(b.head, shadow, o.left, st, names, id);
      var r := Step(b.head, shadow, o.left, st);
      if r.out.Next? {
        BlockScoped(b.tail, shadow, o.right, r.st, names, id);
      }
    }
  }

  lemma SimpleScoped(s: Stmt, shadow: set<string>, ok: bool, bit: bool, st: State, names: set<string>, id: nat)
    requires !Compound(s) && Scoped(st, names, id) && InScopeStmt(s, shadow, names, id)
    ensures Scoped(Simple(s, shadow, ok, bit, st).st, names, id)
  {
  }

  lemma {:induction false} StmtScoped(s: Stmt, shadow: set<string>, o: Oracle, st: State, names: set<string>, id: nat)
    requires Scoped(st, names, id) && InScopeStmt(s, shadow, names, id)
    ensures Scoped(Step(s, shadow, o, st).st, names, id)
    decreases o
  {
    if o.Fork? {
      match s
      case If(_, t, body, orelse) =>
        BlockScoped(body, shadow, o.right, st, names, id);
        BlockScoped(orelse, shadow, o.right, st, names, id);
      case Loop(body) =>
        if o.bit {
          BlockScoped(body, shadow, o.left, st, names, id);
          StmtScoped(s, shadow, o.right, Exec(body, shadow, o.left, st).st, names, id);
        }
      case Try(body, handler) =>
        BlockScoped(body, shadow, o.left, st, names, id);
        BlockScoped(handler, shadow, o.right, Exec(body, shadow, o.left, st).st, names, id);
      case Invoke(f) =>
        if f in st.defs {
          BlockScoped(st.defs[f].body, st.defs[f].shadow, o.left, st, names, id);
        }
      case _ => SimpleScoped(s, shadow, o.bit, Answer(o), st, names, id);
    }
  }

  /** The name is the function's own and bound by nothing but assignments. */
  ghost predicate Local(f: Block, x: string, params: Env) {
    OnlyAssigned(f, x) && x !in params
  }

  /** If the guard accepts a claim, and the name it passes (if it passes one) is bound by
      nothing but assignments, then in every run that reaches the claim its scope is a
      value that `scope_key` produced -- whatever the function's other claims do. */
  lemma AcceptedClaimIsScoped(f: Block, id: nat, o: Oracle, params: Env)
    requires AcceptsClaim(WalkOf(f), id)
    requires forall x :: x in ClaimedNames(WalkOf(f), id) ==> Local(f, x, params)
    ensures Produced(Run(f, o, params).st.log, id)
  {
    forall n | n in Nodes(f) ensures n in WalkOf(f) { WalkKeepsQueue(Nodes(f), n); }
    AcceptedEverywhere(Nodes(f), f, id);
    BlockScoped(f, {}, o, Entry(params), ClaimedNames(WalkOf(f), id), id);
  }

  /** The same for all claims of a function at once. */
  lemma AcceptedClaimsAreScoped(f: Block, o: Oracle, params: Env)
    requires AllClaimsAccepted(WalkOf(f))
    requires forall id, x :: x in ClaimedNames(WalkOf(f), id) ==> Local(f, x, params)
    ensures AllProduced(Run(f, o, params).st.log)
  {
    forall e | e in Run(f, o, params).st.log && e.Claimed?
      ensures e.value == ScopeKey
    {
      AcceptedClaimIsScoped(f, e.id, o, params);
    }
  }

  // ----- a whole module --------------------------------------------------------------------

  /** The function `g` is defined in the module, at whatever depth. */
  ghost predicate FunctionOf(m: Block, g: Block) {
    exists name :: Occurs(m, Def(name, g))
  }

  lemma FunctionIsWalked(m: Block, g: Block)
    ensures FunctionOf(m, g) <==> exists n :: n in WalkOf(m) && n.S? && n.stmt.Def? && n.stmt.body == g
  {
    hide Walk, Occurs;
    if name :| Occurs(m, Def(name, g)) {
      WalkIs(m, Def(name, g));
      assert S(Def(name, g)) in WalkOf(m);
    }
    if n :| n in WalkOf(m) && n.S? && n.stmt.Def? && n.stmt.body == g {
      WalkIs(m, n.stmt);
      assert n.stmt == Def(n.stmt.name, g);
    }
  }

  /** The loop of `_call_problems` over the functions of a module, each judged by its
      own bindings. */
  method ModuleProblems(m: Block) returns (problems: seq<Node>)
    ensures forall n :: n in problems <==> exists g :: FunctionOf(m, g) && IsProblem(g, n)
    ensures problems == [] <==> forall g :: FunctionOf(m, g) ==> AllClaimsAccepted(WalkOf(g))
  {
    hide Walk, Reported, FunctionOf, IsProblem;
    var walk := WalkOf(m);
    problems := [];
    var i := 0;
    while i < |walk|
      invariant 0 <= i <= |walk|
      invariant forall n :: n in problems <==> exists j :: 0 <= j < i && ReportedFrom(walk[j], n)
    {
      if walk[i].S? && walk[i].stmt.Def? {
        var more, _ := ClaimProblems(walk[i].stmt.body);
        problems := problems + more;
      }
      i := i + 1;
    }
    forall n
      ensures n in problems <==> exists g :: FunctionOf(m, g) && n in WalkOf(g) && Reported(WalkOf(g), n)
    {
      if n in problems {
        var j :| 0 <= j < |walk| && ReportedFrom(walk[j], n);
        assert walk[j] in WalkOf(m);
        FunctionIsWalked(m, walk[j].stmt.body);
      }
      if g :| FunctionOf(m, g) && n in WalkOf(g) && Reported(WalkOf(g), n) {
        FunctionIsWalked(m, g);
        var d :| d in WalkOf(m) && d.S? && d.stmt.Def? && d.stmt.body == g;
        assert ReportedFrom(d, n);
      }
    }
    NoneReported(m, problems);
    forall g, n ensures n in WalkOf(g) && Reported(WalkOf(g), n) <==> IsProblem(g, n) { ProblemIff(g, n); }
  }

  ghost predicate ReportedFrom(d: Node, n: Node) {
    d.S? && d.stmt.Def? && n in WalkOf(d.stmt.body) && Reported(WalkOf(d.stmt.body), n)
  }

  lemma NoneReported(m: Block, problems: seq<Node>)
    requires forall n :: n in problems <==> exists g :: FunctionOf(m, g) && n in WalkOf(g) && Reported(WalkOf(g), n)
    ensures problems == [] <==> forall g :: FunctionOf(m, g) ==> AllClaimsAccepted(WalkOf(g))
  {
    hide Walk, ClaimAccepted, FunctionOf;
    if problems != [] {
      assert problems[0] in problems;
    } else {
      forall g, n | FunctionOf(m, g) && n in WalkOf(g) && n.S? && n.stmt.Claim?
        ensures ClaimAccepted(WalkOf(g), n.stmt.scope)
      {
        assert n !in problems;
      }
    }
  }

  lemma {:induction false} WalkIsClosed(queue: seq<Node>, below: seq<Node>, n: Node)
    requires (forall c :: c in below ==> c in Walk(queue)) && n in Walk(below)
    ensures n in Walk(queue)
    decreases QueueWeight(below)
  {
    if n != below[0] {
      QueueWeightAppend(below[1..], Children(below[0]));
      ChildrenWeighLess(below[0]);
      forall c | c in Children(below[0]) ensures c in Walk(queue) { WalkDescends(queue, below[0], c); }
      WalkIsClosed(queue, below[1..] + Children(below[0]), n);
    }
  }

  /** A function nested in a function of the module is one of the module's. */
  lemma NestedIsFunction(m: Block, g: Block, h: Block)
    requires FunctionOf(m, g) && FunctionOf(g, h)
    ensures FunctionOf(m, h)
  {
    hide Walk, Nodes;
    var name :| Occurs(m, Def(name, g));
    var inner :| Occurs(g, Def(inner, h));
    WalkIs(m, Def(name, g));
    WalkIs(g, Def(inner, h));
    var d := S(Def(name, g));
    assert Children(d) == Nodes(g);
    forall c | c in Nodes(g) ensures c in WalkOf(m) { WalkDescends(Nodes(m), d, c); }
    WalkIsClosed(Nodes(m), Nodes(g), S(Def(inner, h)));
    WalkIs(m, Def(inner, h));
  }

  /** A clean module, claim by claim: in every run of any of its functions, nested ones in
      their own right included, a claim whose names are the function's own and bound by
      nothing but assignments is scoped by a produced value; and whatever the names are,
      each is assigned in the very function that makes the claim or inside it. */
  lemma CleanModuleIsScoped(m: Block, g: Block, id: nat, o: Oracle, params: Env)
    requires forall h :: FunctionOf(m, h) ==> AllClaimsAccepted(WalkOf(h))
    requires FunctionOf(m, g)
    ensures (forall x :: x in ClaimedNames(WalkOf(g), id) ==> Local(g, x, params)) ==> Produced(Run(g, o, params).st.log, id)
    ensures forall x :: x in ClaimedNames(WalkOf(g), id) ==> ValuesOf(WalkOf(g), x) != []
  {
    assert AcceptsClaim(WalkOf(g), id);
    if forall x :: x in ClaimedNames(WalkOf(g), id) ==> Local(g, x, params) {
      AcceptedClaimIsScoped(g, id, o, params);
    }
  }

  // ----- where it stops ----------------------------------------------------------------------

  /** Whatever binds the claimed names, and wherever: all runs claim a produced
      key if and only if no other value reaches the claim on paper. */
  lemma AcceptedClaimIff(f: Block, id: nat, params: Env)
    ensures (forall o, v :: Claimed(id, v) in Run(f, o, params).st.log ==> v == ScopeKey) <==>
            (forall v :: Claimed(id, v) in Possible(f, params) ==> v == ScopeKey)
  {
    forall v
      ensures Claimed(id, v) in Possible(f, params) <==> exists o :: Claimed(id, v) in Run(f, o, params).st.log
    {
      PossibleExact(f, params, Claimed(id, v));
    }
  }

  const X := "scope"

  /** A parameter that is only sometimes replaced:
      `if <other>: scope = scope_key(...)`, then `claim_idempotency(scope=scope)`. */
  const SOMETIMES_BOUND: Block :=
    Cons(If(1, Opaque, Cons(Bind(2, X, ProducerCall, false), Nil), Nil), Cons(Claim(0, NameArg(X)), Nil))

  lemma SometimesBoundIsAccepted()
    ensures AllClaimsAccepted(WalkOf(SOMETIMES_BOUND))
    ensures exists o :: Claimed(0, Raw) in Run(SOMETIMES_BOUND, o, map[X := Raw]).st.log
  {
    var walk := WalkOf(SOMETIMES_BOUND);
    var branch, claim, bind := SOMETIMES_BOUND.head, Claim(0, NameArg(X)), Bind(2, X, ProducerCall, false);
    assert Walk([S(claim), S(bind)]) == [S(claim)] + Walk([S(bind)]);
    assert Walk([S(bind)]) == [S(bind)];
    assert walk == [S(branch), S(claim), S(bind)];
    assert ValuesOf([S(bind)], X) == [ProducerCall];
    assert ValuesOf(walk, X) == [ProducerCall];
    var o: Oracle := Fork(true, Fork(true, Fork(false, Leaf, Leaf), Leaf), Fork(true, Fork(true, Leaf, Leaf), Leaf));
    var log := Run(SOMETIMES_BOUND, o, map[X := Raw]).st.log;
    assert log == [Claimed(0, Raw)];
    assert log[0] in log;
  }

  /** The only assignment belongs to a nested function's own name; the claim
      reads a global. */
  const BOUND_ELSEWHERE: Block :=
    Cons(Def("helper", Cons(Bind(2, X, ProducerCall, false), Nil)), Cons(Claim(0, NameArg(X)), Nil))

  lemma BoundElsewhereIsAccepted()
    ensures AllClaimsAccepted(WalkOf(BOUND_ELSEWHERE))
    ensures exists o :: Claimed(0, Raw) in Run(BOUND_ELSEWHERE, o, map[X := Raw]).st.log
  {
    var walk := WalkOf(BOUND_ELSEWHERE);
    var def, claim, bind := BOUND_ELSEWHERE.head, Claim(0, NameArg(X)), Bind(2, X, ProducerCall, false);
    assert Walk([S(claim), S(bind)]) == [S(claim)] + Walk([S(bind)]);
    assert Walk([S(bind)]) == [S(bind)];
    assert walk == [S(def), S(claim), S(bind)];
    assert ValuesOf([S(bind)], X) == [ProducerCall];
    assert ValuesOf(walk, X) == [ProducerCall];
    var o: Oracle := Fork(true, Fork(true, Leaf, Leaf), Fork(true, Fork(true, Leaf, Leaf), Leaf));
    var log := Run(BOUND_ELSEWHERE, o, map[X := Raw]).st.log;
    assert log == [Claimed(0, Raw)];
    assert log[0] in log;
  }
}

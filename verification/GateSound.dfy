/**
 What the gate guard's approval means for the runs of a function.

 The approving `if` must satisfy the side conditions of `InFragment`.  GateExact
 gives the condition that is both needed and enough, and GateLimits accepted
 programs that break the promise where the side conditions do not hold.
 */
module GateSound {
  import opened Program
  import opened GateCheck
  import opened DialReport

  // ----- side conditions ---------------------------------------------------------

  /** The dial occurs in one place only (it is one call node). */
  ghost predicate Single(b: Block, id: nat) {
    match b
    case Nil => true
    case Cons(s, tail) => SingleIn(s, id) && Single(tail, id) && !(HasIn(s, id) && Has(tail, id))
  }

  ghost predicate SingleIn(s: Stmt, id: nat) {
    match s
    case If(_, _, body, orelse) => Single(body, id) && Single(orelse, id) && !(Has(body, id) && Has(orelse, id))
    case Loop(body) => Single(body, id)
    case Try(body, handler) => Single(body, id) && Single(handler, id) && !(Has(body, id) && Has(handler, id))
    case Def(_, body) => Single(body, id)
    case _ => true
  }

  /** In its own scope the function assigns `x` from the gate and from nothing else. */
  ghost predicate OnlyGate(b: Block, x: string) {
    match b case Nil => true case Cons(s, tail) => OnlyGateIn(s, x) && OnlyGate(tail, x)
  }

  ghost predicate OnlyGateIn(s: Stmt, x: string) {
    match s
    case Bind(_, y, rhs, _) => y == x ==> rhs == GateCall
    case Rebind(y) => y != x
    case If(_, _, body, orelse) => OnlyGate(body, x) && OnlyGate(orelse, x)
    case Loop(body) => OnlyGate(body, x)
    case Try(body, handler) => OnlyGate(body, x) && OnlyGate(handler, x)
    case _ => true
  }

  /** No run asks the gate into `x` twice: the call is in no loop, and no two
      calls lie on one path. */
  ghost predicate Once(b: Block, x: string) {
    match b
    case Nil => true
    case Cons(s, tail) => OnceIn(s, x) && Once(tail, x) && !(x in BoundIn(s) && x in Bound(tail))
  }

  ghost predicate OnceIn(s: Stmt, x: string) {
    match s
    case If(_, _, body, orelse) => Once(body, x) && Once(orelse, x)
    case Loop(body) => x !in Bound(body)
    case Try(body, handler) => Once(body, x) && Once(handler, x) && !(x in Bound(body) && x in Bound(handler))
    case _ => true
  }

  /** The dial sits inside a nested function of `b`. */
  ghost predicate UnderDef(b: Block, id: nat) {
    match b case Nil => false case Cons(s, tail) => UnderDefIn(s, id) || UnderDef(tail, id)
  }

  ghost predicate UnderDefIn(s: Stmt, id: nat) {
    match s
    case If(_, _, body, orelse) => UnderDef(body, id) || UnderDef(orelse, id)
    case Loop(body) => UnderDef(body, id)
    case Try(body, handler) => UnderDef(body, id) || UnderDef(handler, id)
    case Def(_, body) => Has(body, id)
    case _ => false
  }

  /** Control never falls out of the end of `b`. */
  ghost predicate AlwaysStops(b: Block) {
    b.Cons? && (AlwaysStops(b.tail) ||
                match b.head
                case Leave(_) => true
                case If(_, _, body, orelse) => AlwaysStops(body) && AlwaysStops(orelse)
                case Try(body, handler) => AlwaysStops(body) && AlwaysStops(handler)
                case _ => false)
  }

  /** `x` keeps its value throughout `b` up to a dial in `b`'s own function. */
  ghost predicate Settled(b: Block, x: string, id: nat) {
    x !in Bound(b) && !UnderDef(b, id)
  }

  /** The `if` statement `n` encloses the dial, or stands before it in the same
      or an enclosing block, in the function's own code; `strict` adds that
      nothing re-asks the gate in between, and allows `n` to sit inside a
      nested function together with the dial. */
  ghost predicate Shields(b: Block, n: Stmt, x: string, id: nat, strict: bool) {
    match b
    case Nil => false
    case Cons(s, tail) =>
      if HasIn(s, id) then ShieldsIn(s, n, x, id, strict)
      else (s == n && n.If? && Has(tail, id) && (strict ==> Settled(tail, x, id))) || Shields(tail, n, x, id, strict)
  }

  ghost predicate ShieldsIn(s: Stmt, n: Stmt, x: string, id: nat, strict: bool) {
    match s
    case If(_, _, body, orelse) =>
      var branch := if Has(body, id) then body else orelse;
      (s == n && (strict ==> Settled(branch, x, id))) || Shields(branch, n, x, id, strict)
    case Loop(body) => Shields(body, n, x, id, strict)
    case Try(body, handler) => Shields(if Has(body, id) then body else handler, n, x, id, strict)
    case Def(_, body) => strict && x !in Bound(body) && Shields(body, n, x, id, strict)
    case _ => false
  }

  /** The test is exactly the decision or exactly its negation; a guard that
      does not enclose the dial refuses by always leaving, and does not itself
      re-ask the gate. */
  ghost predicate PlainGuard(n: Stmt, x: string, id: nat) {
    n.If? && (n.test == Allowed(x) || n.test == Not(Allowed(x))) &&
    (!HasIn(n, id) ==> AlwaysStops(n.body) && x !in BoundIn(n))
  }

  ghost predicate InFragment(f: Block, n: Stmt, x: string, id: nat) {
    && Single(f, id) && OnlyGate(f, x) && PlainGuard(n, x, id)
    && (Shields(f, n, x, id, true) || (Once(f, x) && Shields(f, n, x, id, false)))
  }

  /** Every dial of `id` in the log happened under an allowing decision in `x`. */
  ghost predicate Obeys(log: seq<Event>, x: string, id: nat) {
    forall e :: e in log && e.Dialled? && e.id == id ==> x in e.env && e.env[x] == Decision(true)
  }

  // ----- small facts --------------------------------------------------------------

  lemma {:induction false} StopsMeansNoNext(b: Block, shadow: set<string>, o: Oracle, st: State)
    requires AlwaysStops(b)
    ensures Exec(b, shadow, o, st).out != Next
    decreases o
  {
    if o.Fork? {
      var s := b.head;
      var r := Step(s, shadow, o.left, st);
      if r.out.Next? {
        if s.If? && AlwaysStops(s.body) && AlwaysStops(s.orelse) {
          StopsMeansNoNext(s.body, shadow, o.left.right, st);
          StopsMeansNoNext(s.orelse, shadow, o.left.right, st);
        } else if s.Try? && AlwaysStops(s.body) && AlwaysStops(s.handler) {
          StopsMeansNoNext(s.body, shadow, o.left.left, st);
          StopsMeansNoNext(s.handler, shadow, o.left.right, Exec(s.body, shadow, o.left.left, st).st);
        } else {
          StopsMeansNoNext(b.tail, shadow, o.right, r.st);
        }
      }
    }
  }

  lemma {:induction false} UnboundIsOnlyGate(b: Block, x: string)
    requires x !in Bound(b)
    ensures OnlyGate(b, x)
  {
    if b.Cons? {
      UnboundIsOnlyGate(b.tail, x);
      match b.head
      case If(_, _, body, orelse) => UnboundIsOnlyGate(body, x); UnboundIsOnlyGate(orelse, x);
      case Loop(body) => UnboundIsOnlyGate(body, x);
      case Try(body, handler) => UnboundIsOnlyGate(body, x); UnboundIsOnlyGate(handler, x);
      case _ =>
    }
  }

  /** `x` holds a decision or nothing. */
  ghost predicate Typed(st: State, x: string) {
    WellScoped(st) && (x in st.env ==> st.env[x].Decision?)
  }

  ghost predicate IsAllowed(st: State, x: string) {
    x in st.env && st.env[x] == Decision(true)
  }

  lemma {:induction false} BlockKeepsTyped(b: Block, shadow: set<string>, o: Oracle, st: State, x: string)
    requires Typed(st, x) && (x in shadow || OnlyGate(b, x))
    ensures Typed(Exec(b, shadow, o, st).st, x)
    decreases o
  {
    if b.Cons? && o.Fork? {
      StmtKeepsTyped(b.head, shadow, o.left, st, x);
      var r := Step(b.head, shadow, o.left, st);
      if r.out.Next? {
        BlockKeepsTyped(b.tail, shadow, o.right, r.st, x);
      }
    }
  }

  lemma SimpleKeepsTyped(s: Stmt, shadow: set<string>, ok: bool, bit: bool, st: State, x: string)
    requires Typed(st, x) && !Compound(s) && (x in shadow || OnlyGateIn(s, x))
    ensures Typed(Simple(s, shadow, ok, bit, st).st, x)
  {
    SimpleKeepsName(s, shadow, ok, bit, st, x);
  }

  lemma {:induction false} StmtKeepsTyped(s: Stmt, shadow: set<string>, o: Oracle, st: State, x: string)
    requires Typed(st, x) && (x in shadow || OnlyGateIn(s, x))
    ensures Typed(Step(s, shadow, o, st).st, x)
    decreases o
  {
    StmtKeepsName(s, shadow, o, st, x);
    if o.Fork? {
      match s
      case If(_, t, body, orelse) =>
        BlockKeepsTyped(body, shadow, o.right, st, x);
        BlockKeepsTyped(orelse, shadow, o.right, st, x);
      case Loop(body) =>
        if o.bit {
          BlockKeepsTyped(body, shadow, o.left, st, x);
          StmtKeepsTyped(s, shadow, o.right, Exec(body, shadow, o.left, st).st, x);
        }
      case Try(body, handler) =>
        BlockKeepsTyped(body, shadow, o.left, st, x);
        BlockKeepsTyped(handler, shadow, o.right, Exec(body, shadow, o.left, st).st, x);
      case Invoke(_) =>
      case _ => SimpleKeepsTyped(s, shadow, o.bit, Answer(o), st, x);
    }
  }

  /** A plain test reads the decision and nothing else. */
  lemma PlainTest(t: Test, shadow: set<string>, o: Oracle, st: State, x: string)
    requires Typed(st, x) && x !in shadow && (t == Allowed(x) || t == Not(Allowed(x)))
    ensures Eval(t, shadow, o, st.env) == Yes ==> (IsAllowed(st, x) <==> t == Allowed(x))
    ensures Eval(t, shadow, o, st.env) == No ==> (IsAllowed(st, x) <==> t != Allowed(x))
  {
    assert t == Not(Allowed(x)) ==> Eval(t, shadow, o, st.env) == Negate(Eval(Allowed(x), shadow, o, st.env));
  }

  /** Control passes a plain refusing guard only under an allowing decision. */
  lemma GuardPasses(n: Stmt, shadow: set<string>, o: Oracle, st: State, x: string, id: nat)
    requires PlainGuard(n, x, id) && !HasIn(n, id) && n.test == Not(Allowed(x))
    requires Typed(st, x) && x !in shadow
    requires Step(n, shadow, o, st).out == Next
    ensures IsAllowed(Step(n, shadow, o, st).st, x)
  {
    StopsMeansNoNext(n.body, shadow, o.right, st);
    PlainTest(n.test, shadow, o.left, st, x);
    StmtKeepsName(n, shadow, o, st, x);
  }

  // ----- guard and dial in one function ----------------------------------------------

  /** Every closure that can place the dial has the guard inside it. */
  ghost predicate Guarded(st: State, n: Stmt, x: string, id: nat) {
    && Typed(st, x) && Obeys(st.log, x, id)
    && forall f :: f in st.defs && Has(st.defs[f].body, id) ==>
                     x !in st.defs[f].shadow && Shields(st.defs[f].body, n, x, id, true) && Single(st.defs[f].body, id)
  }

  /** `n` refuses by itself wherever it stands: as an approved enclosing `if`
      or as an approved guard. */
  ghost predicate Works(n: Stmt, x: string, id: nat) {
    PlainGuard(n, x, id) &&
    if Has(n.body, id) then n.test == Allowed(x) else n.test == Not(Allowed(x))
  }

  lemma {:induction false} BlockSafe(b: Block, shadow: set<string>, o: Oracle, st: State, n: Stmt, x: string, id: nat)
    requires Guarded(st, n, x, id) && Works(n, x, id) && Single(b, id)
    requires x in shadow || OnlyGate(b, x)
    requires Has(b, id) ==> x !in shadow && Shields(b, n, x, id, true)
    ensures Guarded(Exec(b, shadow, o, st).st, n, x, id)
    decreases o
  {
    if b.Cons? && o.Fork? {
      var s := b.head;
      StmtSafe(s, shadow, o.left, st, n, x, id);
      var r := Step(s, shadow, o.left, st);
      if r.out.Next? {
        if Has(b.tail, id) && s == n && n.If? && Settled(b.tail, x, id) {
          GuardPasses(n, shadow, o.left, st, x, id);
          BlockSafeKnown(b.tail, shadow, o.right, r.st, n, x, id);
        } else {
          BlockSafe(b.tail, shadow, o.right, r.st, n, x, id);
        }
      }
    }
  }

  lemma SimpleSafe(s: Stmt, shadow: set<string>, ok: bool, bit: bool, st: State, n: Stmt, x: string, id: nat)
    requires Guarded(st, n, x, id) && !Compound(s) && SingleIn(s, id)
    requires x in shadow || OnlyGateIn(s, x)
    requires HasIn(s, id) ==> x !in shadow && ShieldsIn(s, n, x, id, true)
    ensures Guarded(Simple(s, shadow, ok, bit, st).st, n, x, id)
  {
    hide Shields, Single, Has, OnlyGate;
    SimpleKeepsTyped(s, shadow, ok, bit, st, x);
  }

  lemma {:induction false} StmtSafe(s: Stmt, shadow: set<string>, o: Oracle, st: State, n: Stmt, x: string, id: nat)
    requires Guarded(st, n, x, id) && Works(n, x, id) && SingleIn(s, id)
    requires x in shadow || OnlyGateIn(s, x)
    requires HasIn(s, id) ==> x !in shadow && ShieldsIn(s, n, x, id, true)
    ensures Guarded(Step(s, shadow, o, st).st, n, x, id)
    decreases o
  {
    StmtKeepsTyped(s, shadow, o, st, x);
    if o.Fork? {
      match s
      case If(_, t, body, orelse) =>
        var v := Eval(t, shadow, o.left, st.env);
        if s == n && x !in shadow { PlainTest(t, shadow, o.left, st, x); }
        if v == Yes {
          if s == n && Has(body, id) && Settled(body, x, id) {
            BlockSafeKnown(body, shadow, o.right, st, n, x, id);
          } else {
            BlockSafe(body, shadow, o.right, st, n, x, id);
          }
        } else if v == No {
          if s == n && Has(orelse, id) && Settled(orelse, x, id) {
            BlockSafeKnown(orelse, shadow, o.right, st, n, x, id);
          } else {
            BlockSafe(orelse, shadow, o.right, st, n, x, id);
          }
        }
      case Loop(body) =>
        if o.bit {
          BlockSafe(body, shadow, o.left, st, n, x, id);
          StmtSafe(s, shadow, o.right, Exec(body, shadow, o.left, st).st, n, x, id);
        }
      case Try(body, handler) =>
        BlockSafe(body, shadow, o.left, st, n, x, id);
        BlockSafe(handler, shadow, o.right, Exec(body, shadow, o.left, st).st, n, x, id);
      case Invoke(f) =>
        InvokeSafe(f, o, st, n, x, id);
      case _ => SimpleSafe(s, shadow, o.bit, Answer(o), st, n, x, id);
    }
  }

  lemma {:induction false} InvokeSafe(f: string, o: Oracle, st: State, n: Stmt, x: string, id: nat)
    requires Guarded(st, n, x, id) && Works(n, x, id) && o.Fork?
    ensures f in st.defs ==> Guarded(Exec(st.defs[f].body, st.defs[f].shadow, o.left, st).st, n, x, id)
    decreases o, 0
  {
    if f in st.defs {
      var c := st.defs[f];
      if x !in c.shadow {
        UnboundIsOnlyGate(c.body, x);
      }
      if !Has(c.body, id) {
        AbsentIsSingle(c.body, id);
      }
      BlockSafe(c.body, c.shadow, o.left, st, n, x, id);
    }
  }

  /** Under an allowing decision that nothing rewrites, dialling is fine. */
  lemma {:induction false} BlockSafeKnown(b: Block, shadow: set<string>, o: Oracle, st: State, n: Stmt, x: string, id: nat)
    requires Guarded(st, n, x, id) && Works(n, x, id)
    requires IsAllowed(st, x) && x !in shadow && Settled(b, x, id)
    ensures Guarded(Exec(b, shadow, o, st).st, n, x, id)
    decreases o
  {
    if b.Cons? && o.Fork? {
      StmtSafeKnown(b.head, shadow, o.left, st, n, x, id);
      StmtKeepsName(b.head, shadow, o.left, st, x);
      var r := Step(b.head, shadow, o.left, st);
      if r.out.Next? {
        BlockSafeKnown(b.tail, shadow, o.right, r.st, n, x, id);
      }
    }
  }

  lemma SimpleSafeKnown(s: Stmt, shadow: set<string>, ok: bool, bit: bool, st: State, n: Stmt, x: string, id: nat)
    requires Guarded(st, n, x, id) && !Compound(s)
    requires IsAllowed(st, x) && x !in shadow && x !in BoundIn(s) && !UnderDefIn(s, id)
    ensures Guarded(Simple(s, shadow, ok, bit, st).st, n, x, id)
  {
    hide Shields, Single, Has;
    SimpleKeepsName(s, shadow, ok, bit, st, x);
  }

  lemma {:induction false} StmtSafeKnown(s: Stmt, shadow: set<string>, o: Oracle, st: State, n: Stmt, x: string, id: nat)
    requires Guarded(st, n, x, id) && Works(n, x, id)
    requires IsAllowed(st, x) && x !in shadow && x !in BoundIn(s) && !UnderDefIn(s, id)
    ensures Guarded(Step(s, shadow, o, st).st, n, x, id)
    decreases o
  {
    StmtKeepsName(s, shadow, o, st, x);
    if o.Fork? {
      match s
      case If(_, t, body, orelse) =>
        BlockSafeKnown(body, shadow, o.right, st, n, x, id);
        BlockSafeKnown(orelse, shadow, o.right, st, n, x, id);
      case Loop(body) =>
        if o.bit {
          BlockSafeKnown(body, shadow, o.left, st, n, x, id);
          BlockKeepsName(body, shadow, o.left, st, x);
          StmtSafeKnown(s, shadow, o.right, Exec(body, shadow, o.left, st).st, n, x, id);
        }
      case Try(body, handler) =>
        BlockSafeKnown(body, shadow, o.left, st, n, x, id);
        BlockKeepsName(body, shadow, o.left, st, x);
        BlockSafeKnown(handler, shadow, o.right, Exec(body, shadow, o.left, st).st, n, x, id);
      case Invoke(f) =>
        InvokeSafe(f, o, st, n, x, id);
      case _ => SimpleSafeKnown(s, shadow, o.bit, Answer(o), st, n, x, id);
    }
  }

  lemma {:induction false} AbsentIsSingle(b: Block, id: nat)
    requires !Has(b, id)
    ensures Single(b, id)
  {
    if b.Cons? {
      AbsentIsSingle(b.tail, id);
      match b.head
      case If(_, _, body, orelse) => AbsentIsSingle(body, id); AbsentIsSingle(orelse, id);
      case Loop(body) => AbsentIsSingle(body, id);
      case Try(body, handler) => AbsentIsSingle(body, id); AbsentIsSingle(handler, id);
      case Def(_, body) => AbsentIsSingle(body, id);
      case _ =>
    }
  }

  // ----- the dial in a nested function, the guard outside it -------------------------

  ghost predicate NoneCanDial(st: State, id: nat) {
    forall f :: f in st.defs ==> !Has(st.defs[f].body, id)
  }

  /** Code without the dial neither places it nor makes it callable. */
  lemma {:induction false} BlockWithoutDial(b: Block, shadow: set<string>, o: Oracle, st: State, x: string, id: nat)
    requires !Has(b, id) && NoneCanDial(st, id) && Obeys(st.log, x, id)
    ensures var r := Exec(b, shadow, o, st); NoneCanDial(r.st, id) && Obeys(r.st.log, x, id)
    decreases o
  {
    if b.Cons? && o.Fork? {
      StmtWithoutDial(b.head, shadow, o.left, st, x, id);
      var r := Step(b.head, shadow, o.left, st);
      if r.out.Next? {
        BlockWithoutDial(b.tail, shadow, o.right, r.st, x, id);
      }
    }
  }

  lemma SimpleWithoutDial(s: Stmt, shadow: set<string>, ok: bool, bit: bool, st: State, x: string, id: nat)
    requires !Compound(s) && !HasIn(s, id) && NoneCanDial(st, id) && Obeys(st.log, x, id)
    ensures var r := Simple(s, shadow, ok, bit, st); NoneCanDial(r.st, id) && Obeys(r.st.log, x, id)
  {
  }

  lemma {:induction false} StmtWithoutDial(s: Stmt, shadow: set<string>, o: Oracle, st: State, x: string, id: nat)
    requires !HasIn(s, id) && NoneCanDial(st, id) && Obeys(st.log, x, id)
    ensures var r := Step(s, shadow, o, st); NoneCanDial(r.st, id) && Obeys(r.st.log, x, id)
    decreases o
  {
    if o.Fork? {
      match s
      case If(_, t, body, orelse) =>
        BlockWithoutDial(body, shadow, o.right, st, x, id);
        BlockWithoutDial(orelse, shadow, o.right, st, x, id);
      case Loop(body) =>
        if o.bit {
          BlockWithoutDial(body, shadow, o.left, st, x, id);
          StmtWithoutDial(s, shadow, o.right, Exec(body, shadow, o.left, st).st, x, id);
        }
      case Try(body, handler) =>
        BlockWithoutDial(body, shadow, o.left, st, x, id);
        BlockWithoutDial(handler, shadow, o.right, Exec(body, shadow, o.left, st).st, x, id);
      case Invoke(f) =>
        if f in st.defs {
          BlockWithoutDial(st.defs[f].body, st.defs[f].shadow, o.left, st, x, id);
        }
      case _ => SimpleWithoutDial(s, shadow, o.bit, Answer(o), st, x, id);
    }
  }

  /** Once the decision allows and nothing rewrites it, every dial obeys it,
      whichever function places it. */
  lemma {:induction false} BlockOnceAllowed(b: Block, shadow: set<string>, o: Oracle, st: State, x: string, id: nat)
    requires WellScoped(st) && IsAllowed(st, x) && Obeys(st.log, x, id)
    requires x in Bound(b) ==> x in shadow
    ensures Obeys(Exec(b, shadow, o, st).st.log, x, id)
    decreases o
  {
    if b.Cons? && o.Fork? {
      StmtOnceAllowed(b.head, shadow, o.left, st, x, id);
      StmtKeepsName(b.head, shadow, o.left, st, x);
      var r := Step(b.head, shadow, o.left, st);
      if r.out.Next? {
        BlockOnceAllowed(b.tail, shadow, o.right, r.st, x, id);
      }
    }
  }

  lemma SimpleOnceAllowed(s: Stmt, shadow: set<string>, ok: bool, bit: bool, st: State, x: string, id: nat)
    requires !Compound(s) && IsAllowed(st, x) && Obeys(st.log, x, id)
    ensures Obeys(Simple(s, shadow, ok, bit, st).st.log, x, id)
  {
  }

  lemma {:induction false} StmtOnceAllowed(s: Stmt, shadow: set<string>, o: Oracle, st: State, x: string, id: nat)
    requires WellScoped(st) && IsAllowed(st, x) && Obeys(st.log, x, id)
    requires x in BoundIn(s) ==> x in shadow
    ensures Obeys(Step(s, shadow, o, st).st.log, x, id)
    decreases o
  {
    if o.Fork? {
      match s
      case If(_, t, body, orelse) =>
        BlockOnceAllowed(body, shadow, o.right, st, x, id);
        BlockOnceAllowed(orelse, shadow, o.right, st, x, id);
      case Loop(body) =>
        if o.bit {
          BlockOnceAllowed(body, shadow, o.left, st, x, id);
          BlockKeepsName(body, shadow, o.left, st, x);
          StmtOnceAllowed(s, shadow, o.right, Exec(body, shadow, o.left, st).st, x, id);
        }
      case Try(body, handler) =>
        BlockOnceAllowed(body, shadow, o.left, st, x, id);
        BlockKeepsName(body, shadow, o.left, st, x);
        BlockOnceAllowed(handler, shadow, o.right, Exec(body, shadow, o.left, st).st, x, id);
      case Invoke(f) =>
        if f in st.defs {
          BlockOnceAllowed(st.defs[f].body, st.defs[f].shadow, o.left, st, x, id);
        }
      case _ => SimpleOnceAllowed(s, shadow, o.bit, Answer(o), st, x, id);
    }
  }

  /** While the decision does not allow, nothing that can dial exists. */
  ghost predicate Blocked(st: State, x: string, id: nat) {
    Typed(st, x) && Obeys(st.log, x, id) && (IsAllowed(st, x) || NoneCanDial(st, id))
  }

  lemma {:induction false} BlockBlocks(b: Block, o: Oracle, st: State, n: Stmt, x: string, id: nat)
    requires Blocked(st, x, id) && Works(n, x, id) && Single(b, id) && OnlyGate(b, x) && Once(b, x)
    requires x in st.env ==> x !in Bound(b)
    requires Has(b, id) ==> Shields(b, n, x, id, false)
    ensures Blocked(Exec(b, {}, o, st).st, x, id)
    decreases o
  {
    BlockKeepsTyped(b, {}, o, st, x);
    BlockKeepsName(b, {}, o, st, x);
    if IsAllowed(st, x) {
      BlockOnceAllowed(b, {}, o, st, x, id);
    } else if b.Cons? && o.Fork? {
      var s := b.head;
      StmtBlocks(s, o.left, st, n, x, id);
      StmtKeepsName(s, {}, o.left, st, x);
      var r := Step(s, {}, o.left, st);
      if r.out.Next? {
        if !HasIn(s, id) && s == n && n.If? && Has(b.tail, id) {
          GuardPasses(n, {}, o.left, st, x, id);
          assert false;
        } else {
          BlockBlocks(b.tail, o.right, r.st, n, x, id);
        }
      }
    }
  }

  lemma {:induction false} StmtBlocks(s: Stmt, o: Oracle, st: State, n: Stmt, x: string, id: nat)
    requires Blocked(st, x, id) && Works(n, x, id) && SingleIn(s, id) && OnlyGateIn(s, x) && OnceIn(s, x)
    requires x in st.env ==> x !in BoundIn(s)
    requires HasIn(s, id) ==> ShieldsIn(s, n, x, id, false)
    ensures Blocked(Step(s, {}, o, st).st, x, id)
    decreases o
  {
    StmtKeepsTyped(s, {}, o, st, x);
    StmtKeepsName(s, {}, o, st, x);
    if IsAllowed(st, x) {
      StmtOnceAllowed(s, {}, o, st, x, id);
    } else if !HasIn(s, id) {
      StmtWithoutDial(s, {}, o, st, x, id);
    } else if o.Fork? {
      match s
      case If(_, t, body, orelse) =>
        var v := Eval(t, {}, o.left, st.env);
        if s == n { PlainTest(t, {}, o.left, st, x); }
        if v == Yes {
          if Has(body, id) {
            BlockBlocks(body, o.right, st, n, x, id);
          } else {
            BlockWithoutDial(body, {}, o.right, st, x, id);
          }
        } else if v == No {
          if Has(orelse, id) {
            BlockBlocks(orelse, o.right, st, n, x, id);
          } else {
            BlockWithoutDial(orelse, {}, o.right, st, x, id);
          }
        }
      case Loop(body) =>
        if o.bit {
          UnboundIsOnlyGate(body, x);
          UnboundIsOnce(body, x);
          BlockBlocks(body, o.left, st, n, x, id);
          BlockKeepsName(body, {}, o.left, st, x);
          StmtBlocks(s, o.right, Exec(body, {}, o.left, st).st, n, x, id);
        }
      case Try(body, handler) =>
        BlockKeepsName(body, {}, o.left, st, x);
        BlockBlocks(body, o.left, st, n, x, id);
        BlockBlocks(handler, o.right, Exec(body, {}, o.left, st).st, n, x, id);
      case _ =>
    }
  }

  lemma {:induction false} UnboundIsOnce(b: Block, x: string)
    requires x !in Bound(b)
    ensures Once(b, x)
  {
    if b.Cons? {
      UnboundIsOnce(b.tail, x);
      match b.head
      case If(_, _, body, orelse) => UnboundIsOnce(body, x); UnboundIsOnce(orelse, x);
      case Try(body, handler) => UnboundIsOnce(body, x); UnboundIsOnce(handler, x);
      case _ =>
    }
  }

  // ----- the raising form -----------------------------------------------------------------

  /** Before every occurrence of the dial an `assert_dispatch_allowed` stands
      in the same or an enclosing block. */
  ghost predicate Asserts(b: Block, id: nat) {
    match b
    case Nil => true
    case Cons(s, tail) => AssertsIn(s, id) && (Has(tail, id) ==> s.AssertGate? || Asserts(tail, id))
  }

  ghost predicate AssertsIn(s: Stmt, id: nat) {
    match s
    case Dial(_, i) => i != id
    case If(_, _, body, orelse) => Asserts(body, id) && Asserts(orelse, id)
    case Loop(body) => Asserts(body, id)
    case Try(body, handler) => Asserts(body, id) && Asserts(handler, id)
    case Def(_, body) => Asserts(body, id)
    case _ => true
  }

  ghost predicate Vouched(log: seq<Event>, id: nat) {
    forall e :: e in log && e.Dialled? && e.id == id ==> e.vouched
  }

  /** Until the assertion has returned, whatever can dial asserts first. */
  ghost predicate Asserting(st: State, id: nat) {
    && Vouched(st.log, id)
    && (st.vouched || forall f :: f in st.defs ==> Asserts(st.defs[f].body, id))
  }

  lemma {:induction false} AbsentAsserts(b: Block, id: nat)
    requires !Has(b, id)
    ensures Asserts(b, id)
  {
    if b.Cons? {
      AbsentAsserts(b.tail, id);
      match b.head
      case If(_, _, body, orelse) => AbsentAsserts(body, id); AbsentAsserts(orelse, id);
      case Loop(body) => AbsentAsserts(body, id);
      case Try(body, handler) => AbsentAsserts(body, id); AbsentAsserts(handler, id);
      case Def(_, body) => AbsentAsserts(body, id);
      case _ =>
    }
  }

  lemma {:induction false} BlockAsserting(b: Block, shadow: set<string>, o: Oracle, st: State, id: nat)
    requires Asserting(st, id) && (st.vouched || Asserts(b, id))
    ensures var r := Exec(b, shadow, o, st); Asserting(r.st, id) && (st.vouched ==> r.st.vouched)
    decreases o
  {
    if b.Cons? && o.Fork? {
      StmtAsserting(b.head, shadow, o.left, st, id);
      var r := Step(b.head, shadow, o.left, st);
      if r.out.Next? {
        if !Has(b.tail, id) {
          AbsentAsserts(b.tail, id);
        }
        BlockAsserting(b.tail, shadow, o.right, r.st, id);
      }
    }
  }

  lemma SimpleAsserting(s: Stmt, shadow: set<string>, ok: bool, bit: bool, st: State, id: nat)
    requires !Compound(s) && Asserting(st, id) && (st.vouched || AssertsIn(s, id))
    ensures var r := Simple(s, shadow, ok, bit, st); Asserting(r.st, id) && (st.vouched ==> r.st.vouched)
  {
  }

  lemma {:induction false} StmtAsserting(s: Stmt, shadow: set<string>, o: Oracle, st: State, id: nat)
    requires Asserting(st, id) && (st.vouched || AssertsIn(s, id))
    ensures var r := Step(s, shadow, o, st); Asserting(r.st, id) && (st.vouched ==> r.st.vouched)
    decreases o
  {
    if o.Fork? {
      match s
      case If(_, t, body, orelse) =>
        BlockAsserting(body, shadow, o.right, st, id);
        BlockAsserting(orelse, shadow, o.right, st, id);
      case Loop(body) =>
        if o.bit {
          BlockAsserting(body, shadow, o.left, st, id);
          StmtAsserting(s, shadow, o.right, Exec(body, shadow, o.left, st).st, id);
        }
      case Try(body, handler) =>
        BlockAsserting(body, shadow, o.left, st, id);
        BlockAsserting(handler, shadow, o.right, Exec(body, shadow, o.left, st).st, id);
      case Invoke(f) =>
        if f in st.defs {
          BlockAsserting(st.defs[f].body, st.defs[f].shadow, o.left, st, id);
        }
      case _ => SimpleAsserting(s, shadow, o.bit, Answer(o), st, id);
    }
  }

  /** The raising form: a dial behind `assert_dispatch_allowed` is placed only
      after the assertion has returned, also from nested functions. */
  lemma AssertedIsSafe(f: Block, id: nat, o: Oracle, params: Env)
    requires Asserts(f, id)
    ensures Vouched(Run(f, o, params).st.log, id)
  {
    BlockAsserting(f, {}, o, Entry(params), id);
  }

  // ----- the shapes the fragment is for --------------------------------------------------

  /** `x = check_dispatch(...)`, a refusing guard that always leaves, and the dial anywhere
      below in the function's own code. */
  lemma GuardAndDial(f: Block, stop: Block, rest: Block, x: string, id: nat, l: nat, m: nat)
    requires f == Cons(Bind(l, x, GateCall, false), Cons(If(m, Not(Allowed(x)), stop, Nil), rest))
    requires AlwaysStops(stop) && x !in Bound(stop) && !Has(stop, id)
    requires Has(rest, id) && Single(rest, id) && x !in Bound(rest) && !UnderDef(rest, id)
    ensures InFragment(f, f.tail.head, x, id)
  {
    var guard, below := f.tail.head, f.tail;
    AbsentIsSingle(stop, id);
    UnboundIsOnlyGate(stop, x);
    UnboundIsOnlyGate(rest, x);
    assert SingleIn(guard, id) && OnlyGateIn(guard, x) && !HasIn(guard, id);
    assert Single(below, id) && OnlyGate(below, x) && Shields(below, guard, x, id, true);
  }

  /** The dial anywhere in the allowing branch: the body of a positive test, or the `else`
      of a negated one. */
  lemma BranchAndDial(f: Block, test: Test, branch: Block, other: Block, rest: Block, x: string, id: nat, l: nat, m: nat)
    requires test == Allowed(x) || test == Not(Allowed(x))
    requires f == Cons(Bind(l, x, GateCall, false),
                  Cons(if test == Allowed(x) then If(m, test, branch, other) else If(m, test, other, branch), rest))
    requires Has(branch, id) && Single(branch, id) && x !in Bound(branch) && !UnderDef(branch, id)
    requires !Has(other, id) && !Has(rest, id) && OnlyGate(other, x) && OnlyGate(rest, x)
    ensures InFragment(f, f.tail.head, x, id)
  {
    var choice, below := f.tail.head, f.tail;
    AbsentIsSingle(other, id);
    AbsentIsSingle(rest, id);
    UnboundIsOnlyGate(branch, x);
    hide Single, OnlyGate, Has, Bound, UnderDef, Shields;
    assert SingleIn(choice, id) && OnlyGateIn(choice, x) && HasIn(choice, id) && ShieldsIn(choice, choice, x, id, true);
    BelowAsk(f, below, choice, rest, x, id, l);
  }

  lemma BelowAsk(f: Block, below: Block, choice: Stmt, rest: Block, x: string, id: nat, l: nat)
    requires f == Cons(Bind(l, x, GateCall, false), below) && below == Cons(choice, rest)
    requires SingleIn(choice, id) && OnlyGateIn(choice, x) && HasIn(choice, id) && ShieldsIn(choice, choice, x, id, true)
    requires Single(rest, id) && OnlyGate(rest, x) && !Has(rest, id)
    ensures Single(f, id) && OnlyGate(f, x) && Shields(f, choice, x, id, true)
  {
    assert Single(below, id) && OnlyGate(below, x) && Shields(below, choice, x, id, true);
  }

  /** Either of these once per turn of a loop, or inside a `try`. */
  lemma WrappedIsInFragment(f: Block, n: Stmt, x: string, id: nat, handler: Block)
    requires InFragment(f, n, x, id) && Has(f, id) && Shields(f, n, x, id, true) && !Has(handler, id) && OnlyGate(handler, x)
    ensures InFragment(Cons(Loop(f), Nil), n, x, id) && InFragment(Cons(Try(f, handler), Nil), n, x, id)
  {
    AbsentIsSingle(handler, id);
  }

  // ----- the theorem -------------------------------------------------------------------

  /** One `if` that the guard would approve of and that is in the fragment is enough:
      whatever other approvals the function holds, no run of it places the dial unless
      the decision then in `x` allows it. */
  lemma ObeyedIsSafe(f: Block, s: Stmt, x: string, id: nat, line: nat, o: Oracle, params: Env)
    requires Approves(s, x, id, line) && InFragment(f, s, x, id)
    requires x !in params
    ensures Obeys(Run(f, o, params).st.log, x, id)
  {
    assert Works(s, x, id);
    if Shields(f, s, x, id, true) {
      BlockSafe(f, {}, o, Entry(params), s, x, id);
    } else {
      BlockBlocks(f, o, Entry(params), s, x, id);
    }
  }

  /** A gate call before the dial whose decision one approved `if` of the fragment obeys. */
  ghost predicate ObeyedBy(f: Block, n: Node, s: Stmt, id: nat, line: nat, params: Env) {
    && n in WalkOf(f) && IsGateCall(n, line) && Binds(n) && n.stmt.name !in params
    && S(s) in WalkOf(f) && Approves(s, n.stmt.name, id, line) && InFragment(f, s, n.stmt.name, id)
  }

  /** The dial stands behind an assertion, or behind one good decision. */
  ghost predicate GatedWell(f: Block, id: nat, line: nat, params: Env) {
    Asserts(f, id) || exists n, s :: ObeyedBy(f, n, s, id, line, params)
  }

  /** No dial of the run but after an assertion that returned, or none but under an allowing
      decision of one of the gate calls. */
  ghost predicate DialsGated(log: seq<Event>, f: Block, id: nat, line: nat) {
    Vouched(log, id) ||
    exists n :: n in WalkOf(f) && IsGateCall(n, line) && Binds(n) && Obeys(log, n.stmt.name, id)
  }

  /** One good assertion or one good decision is enough, whatever else in the function
      looks like a gate. */
  lemma GatedIsSafe(f: Block, id: nat, line: nat, o: Oracle, params: Env)
    requires GatedWell(f, id, line, params)
    ensures DialsGated(Run(f, o, params).st.log, f, id, line)
  {
    hide Walk, InFragment, Approves, Asserts, Run;
    if Asserts(f, id) {
      AssertedIsSafe(f, id, o, params);
    } else {
      var n, s :| ObeyedBy(f, n, s, id, line, params);
      ObeyedIsSafe(f, s, n.stmt.name, id, line, o, params);
    }
  }

  /** What the guard's yes rests on: a raising gate call before the dial, or a gate call
      before it with an `if` on its decision that approves. */
  ghost predicate HasReason(f: Block, id: nat, line: nat) {
    || (exists n :: n in WalkOf(f) && IsGateCall(n, line) && n.stmt.AssertGate?)
    || (exists n, s :: n in WalkOf(f) && IsGateCall(n, line) && Binds(n) && S(s) in WalkOf(f) && Approves(s, n.stmt.name, id, line))
  }

  lemma GatedHasReason(f: Block, id: nat, line: nat)
    requires GatedBy(f, id, line)
    ensures HasReason(f, id, line)
  {
    hide Walk, Approves, Obeyed;
    if !exists n :: n in WalkOf(f) && IsGateCall(n, line) && n.stmt.AssertGate? {
      var n :| n in WalkOf(f) && IsGateCall(n, line) && Binds(n) && Obeyed(WalkOf(f), n.stmt.name, id, line);
      var s := ObeyedHasApproval(WalkOf(f), n.stmt.name, id, line);
    }
  }

  /** A module without offenders: around each of its dials there is a function that contains
      the dial and that the guard finds gating, for a reason it has; and in every run of that
      function the gate is obeyed if one such reason is in the fragment. */
  lemma CleanDialIsSafe(m: Block, site: DialSite) returns (f: Block)
    requires Offences(DialSites(m, [])) == [] && site in DialSites(m, [])
    ensures f in site.stack && Has(f, site.id) && GatedBy(f, site.id, site.line) && HasReason(f, site.id, site.line)
    ensures forall o, params :: GatedWell(f, site.id, site.line, params) ==> DialsGated(Run(f, o, params).st.log, f, site.id, site.line)
  {
    NoOffence(DialSites(m, []));
    assert SiteGated(site);
    f :| f in site.stack && GatedBy(f, site.id, site.line);
    SiteIsInside(m, [], site, f);
    GatedHasReason(f, site.id, site.line);
    hide GatedWell, DialsGated, Run;
    forall o, params | GatedWell(f, site.id, site.line, params)
      ensures DialsGated(Run(f, o, params).st.log, f, site.id, site.line)
    {
      GatedIsSafe(f, site.id, site.line, o, params);
    }
  }
}

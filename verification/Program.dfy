/**
 A small statement language for the Python functions the guards read, with a
 run semantics.

 What a guard cannot see is decided by an oracle, a finite binary tree of bits
 that the execution consumes: the answer of the compliance gate, an opaque
 condition, how often a loop turns, whether a handler matches, and whether a
 statement raises -- the gate call, the producer call, the dial and the claim
 included.  Quantifying over all oracles quantifies over all runs.  An exhausted
 oracle cuts the observation short (`Cut`), so every finite prefix of a diverging
 run is a run here as well, and no fuel or loop bound is needed.
 */
module Program {

  /** Conditions, reduced to what a guard can tell apart: `x.allowed`, the
      boolean connectives, and everything else. */
  datatype Test =
    | Allowed(name: string)
    | Opaque
    | Not(arg: Test)
    | And(left: Test, right: Test)
    | Or(left: Test, right: Test)

  /** Right-hand sides of an assignment. */
  datatype Rhs = GateCall | ProducerCall | Copy(from: string) | OtherValue

  /** The `scope=` argument of an idempotency claim. */
  datatype Arg = ProducerArg | NameArg(name: string) | OtherArg | MissingArg

  datatype Jump = Return | Raise | Continue | Break

  datatype Stmt =
    | Bind(line: nat, name: string, rhs: Rhs, annotated: bool)   // x = e, or x: T = e
    | Rebind(name: string)                      // any other binder: for-target, with-as, x += e, import
    | AssertGate(line: nat)                     // assert_dispatch_allowed(...): returns or raises
    | Ask(line: nat)                            // check_dispatch(...) whose answer is thrown away
    | Dial(line: nat, id: nat)
    | Claim(id: nat, scope: Arg)
    | Leave(jump: Jump)
    | If(line: nat, test: Test, body: Block, orelse: Block)
    | Loop(body: Block)
    | Try(body: Block, handler: Block)
    | Def(name: string, body: Block)
    | Invoke(name: string)
    | Other                                     // anything else; it may raise

  datatype Block = Nil | Cons(head: Stmt, tail: Block)

  /** What a name can hold, as far as the two guards care. */
  datatype Value = Decision(allowed: bool) | ScopeKey | Raw

  type Env = map<string, Value>

  datatype Event =
    | Dialled(id: nat, env: Env, vouched: bool)
    | Claimed(id: nat, value: Value)

  /** A nested function, and the names that are its own (or an intermediate
      function's) locals rather than the observed function's. */
  datatype Closure = Closure(body: Block, shadow: set<string>)

  /** `env` holds the observed function's own names; `vouched` says that an
      `assert_dispatch_allowed` has returned normally. */
  datatype State = State(env: Env, defs: map<string, Closure>, vouched: bool, log: seq<Event>)

  datatype Outcome = Next | Jumps(jump: Jump) | Cut

  datatype Oracle = Leaf | Fork(bit: bool, left: Oracle, right: Oracle)

  datatype Truth = Yes | No | Fails

  datatype Result = Result(out: Outcome, st: State)

  /** The names a function body binds in its own scope (nested functions have
      their own). */
  function Bound(b: Block): set<string> {
    match b
    case Nil => {}
    case Cons(s, tail) => BoundIn(s) + Bound(tail)
  }

  function BoundIn(s: Stmt): set<string> {
    match s
    case Bind(_, x, _, _) => {x}
    case Rebind(x) => {x}
    case If(_, _, body, orelse) => Bound(body) + Bound(orelse)
    case Loop(body) => Bound(body)
    case Try(body, handler) => Bound(body) + Bound(handler)
    case _ => {}
  }

  function Negate(v: Truth): Truth {
    match v case Yes => No case No => Yes case Fails => Fails
  }

  /** The oracle's word on a condition nothing is known about. */
  function Guess(o: Oracle): Truth {
    match o
    case Leaf => No
    case Fork(bit, left, _) => if bit then Yes else if left.Fork? then Fails else No
  }

  /** Reading `.allowed` of an unbound name raises, and so does reading it of a
      scope key, which is a string. */
  function Eval(t: Test, shadow: set<string>, o: Oracle, env: Env): Truth {
    match t
    case Opaque => Guess(o)
    case Allowed(x) =>
      if x in shadow then Guess(o)
      else if x !in env then Fails
      else (match env[x]
            case Decision(allowed) => if allowed then Yes else No
            case ScopeKey => Fails
            case Raw => Guess(o))
    case Not(a) => Negate(Eval(a, shadow, o, env))
    case And(a, b) =>
      var v := Eval(a, shadow, if o.Fork? then o.left else Leaf, env);
      if v == Yes then Eval(b, shadow, if o.Fork? then o.right else Leaf, env) else v
    case Or(a, b) =>
      var v := Eval(a, shadow, if o.Fork? then o.left else Leaf, env);
      if v == No then Eval(b, shadow, if o.Fork? then o.right else Leaf, env) else v
  }

  function Exec(b: Block, shadow: set<string>, o: Oracle, st: State): (r: Result)
    decreases o
  {
    match b
    case Nil => Result(Next, st)
    case Cons(s, tail) =>
      if o.Leaf? then Result(Cut, st)
      else
        var r := Step(s, shadow, o.left, st);
        if r.out.Next? then Exec(tail, shadow, o.right, r.st) else r
  }

  /** Statements that run other statements. */
  predicate Compound(s: Stmt) {
    s.If? || s.Loop? || s.Try? || s.Invoke?
  }

  /** One statement.  The functions a called function defines are its own, so
      the caller's are back when it returns or raises. */
  function Step(s: Stmt, shadow: set<string>, o: Oracle, st: State): (r: Result)
    decreases o
  {
    if o.Leaf? then Result(Cut, st)
    else
      match s
      case If(_, t, body, orelse) =>
        (match Eval(t, shadow, o.left, st.env)
         case Yes => Exec(body, shadow, o.right, st)
         case No => Exec(orelse, shadow, o.right, st)
         case Fails => Result(Jumps(Raise), st))
      case Loop(body) =>
        if !o.bit then Result(if o.left.Fork? then Jumps(Raise) else Next, st)
        else
          var r := Exec(body, shadow, o.left, st);
          if r.out == Next || r.out == Jumps(Continue) then Step(s, shadow, o.right, r.st)
          else if r.out == Jumps(Break) then Result(Next, r.st)
          else r
      case Try(body, handler) =>
        var r := Exec(body, shadow, o.left, st);
        if r.out == Jumps(Raise) && o.bit then Exec(handler, shadow, o.right, r.st) else r
      case Invoke(f) =>
        if !o.bit then Result(Jumps(Raise), st)
        else if f !in st.defs then Result(Next, st)
        else
          var r := Exec(st.defs[f].body, st.defs[f].shadow, o.left, st);
          Result(if r.out == Cut || r.out == Jumps(Raise) then r.out else Next, r.st.(defs := st.defs))
      case _ => Simple(s, shadow, o.bit, Answer(o), st)
  }

  /** The second bit a simple statement may use. */
  function Answer(o: Oracle): bool
    requires o.Fork?
  {
    o.left.Fork? && o.left.bit
  }

  /** One simple statement: `ok` says whether it completes, `bit` what else the
      oracle decides about it.  An assignment that raises leaves the name as it
      was; a dial or claim that raises may have been placed or not. */
  function Simple(s: Stmt, shadow: set<string>, ok: bool, bit: bool, st: State): (r: Result)
    requires !Compound(s)
  {
    var done := if ok then Next else Jumps(Raise);
    match s
    case Bind(_, x, Copy(y), _) =>
      if x in shadow then Result(done, st)
      else if y in st.env then Result(Next, st.(env := st.env[x := st.env[y]]))
      else Result(Jumps(Raise), st)
    case Bind(_, x, rhs, _) =>
      if x in shadow || !ok then Result(done, st)
      else
        var value := match rhs case GateCall => Decision(bit) case ProducerCall => ScopeKey case _ => Raw;
        Result(Next, st.(env := st.env[x := value]))
    case Rebind(x) =>
      if x in shadow || !ok then Result(done, st) else Result(Next, st.(env := st.env[x := Raw]))
    case AssertGate(_) => Result(done, if ok then st.(vouched := true) else st)
    case Ask(_) => Result(done, st)
    case Dial(_, id) => Result(done, if ok || bit then Logged(st, Dialled(id, st.env, st.vouched)) else st)
    case Claim(id, arg) =>
      (match arg
       case ProducerArg => Result(done, if ok || bit then Logged(st, Claimed(id, ScopeKey)) else st)
       case OtherArg => Result(done, if ok || bit then Logged(st, Claimed(id, Raw)) else st)
       case MissingArg => Result(Jumps(Raise), st)
       case NameArg(x) =>
         if x in shadow then Result(done, st)
         else if x !in st.env then Result(Jumps(Raise), st)
         else Result(done, if ok || bit then Logged(st, Claimed(id, st.env[x])) else st))
    case Leave(jump) => Result(Jumps(if jump == Return && !ok then Raise else jump), st)
    case Def(f, body) =>
      Result(Next, st.(defs := st.defs[f := Closure(body, shadow + Bound(body))]))
    case Other => Result(done, st)
  }

  function Logged(st: State, e: Event): State {
    st.(log := st.log + [e])
  }

  /** The event a dial or claim logs when it is placed; a claim on a name that is not the
      observed function's, or that holds nothing, logs none. */
  function Placed(s: Stmt, shadow: set<string>, st: State): seq<Event> {
    match s
    case Dial(_, id) => [Dialled(id, st.env, st.vouched)]
    case Claim(id, ProducerArg) => [Claimed(id, ScopeKey)]
    case Claim(id, OtherArg) => [Claimed(id, Raw)]
    case Claim(id, NameArg(x)) => if x !in shadow && x in st.env then [Claimed(id, st.env[x])] else []
    case _ => []
  }

  /** Simple statements, told apart by how they end.  One that raises changes no name and
      asserts nothing, and may have placed its call or not, as the oracle says; one that
      goes on has placed it; and control leaves by the jump that is written, or, from the
      expression of a `return`, by raising. */
  lemma SimpleEnds(s: Stmt, shadow: set<string>, ok: bool, bit: bool, st: State)
    requires !Compound(s)
    ensures var r := Simple(s, shadow, ok, bit, st);
            && (r.out == Next ==> r.st.log == st.log + Placed(s, shadow, st))
            && (r.out == Jumps(Raise) ==>
                  r.st == st.(log := st.log + if bit && !s.Leave? && !MustRaise(s, shadow, st) then Placed(s, shadow, st) else []))
            && (s.Leave? ==> r.st == st && (r.out == Jumps(s.jump) || (s.jump == Return && r.out == Jumps(Raise))))
            && (ok && !MustRaise(s, shadow, st) ==> r.out == if s.Leave? then Jumps(s.jump) else Next)
            && (!ok && !s.Def? && !(s.Bind? && s.rhs.Copy? && s.name !in shadow) ==> r.out == Jumps(if s.Leave? && s.jump != Return then s.jump else Raise))
  {
  }

  /** The statement cannot complete: a claim without a scope, or one that reads a name that
      holds nothing. */
  predicate MustRaise(s: Stmt, shadow: set<string>, st: State) {
    match s
    case Bind(_, x, Copy(y), _) => x !in shadow && y !in st.env
    case Claim(_, MissingArg) => true
    case Claim(_, NameArg(x)) => x !in shadow && x !in st.env
    case _ => false
  }

  /** What a statement that goes on leaves in the names it binds. */
  lemma SimpleBinds(s: Stmt, shadow: set<string>, ok: bool, bit: bool, st: State)
    requires !Compound(s) && Simple(s, shadow, ok, bit, st).out == Next
    ensures var env := Simple(s, shadow, ok, bit, st).st.env;
            match s
            case Rebind(x) => env == if x in shadow then st.env else st.env[x := Raw]
            case Bind(_, x, rhs, _) =>
              if x in shadow then env == st.env
              else (match rhs
                    case GateCall => env == st.env[x := Decision(bit)]
                    case ProducerCall => env == st.env[x := ScopeKey]
                    case OtherValue => env == st.env[x := Raw]
                    case Copy(y) => y in st.env && env == st.env[x := st.env[y]])
            case _ => env == st.env
  {
  }

  /** A fresh activation of a function whose parameters (and visible globals)
      are `params`. */
  function Entry(params: Env): State {
    State(params, map[], false, [])
  }

  /** The whole run of a function body under one oracle. */
  function Run(f: Block, o: Oracle, params: Env): Result {
    Exec(f, {}, o, Entry(params))
  }

  // ----- what every statement keeps ------------------------------------------

  ghost predicate WellScoped(st: State) {
    forall f :: f in st.defs ==> Bound(st.defs[f].body) <= st.defs[f].shadow
  }

  ghost predicate SameName(x: string, before: Env, after: Env) {
    (x in after <==> x in before) && (x in before ==> after[x] == before[x])
  }

  /** A nested function never writes a name of the observed one: only a
      statement of the function's own body that binds `x` can change `x`. */
  lemma {:induction false} BlockKeepsName(b: Block, shadow: set<string>, o: Oracle, st: State, x: string)
    requires WellScoped(st)
    ensures WellScoped(Exec(b, shadow, o, st).st)
    ensures (x in Bound(b) ==> x in shadow) ==> SameName(x, st.env, Exec(b, shadow, o, st).st.env)
    decreases o
  {
    if b.Cons? && o.Fork? {
      StmtKeepsName(b.head, shadow, o.left, st, x);
      var r := Step(b.head, shadow, o.left, st);
      if r.out.Next? {
        BlockKeepsName(b.tail, shadow, o.right, r.st, x);
      }
    }
  }

  lemma SimpleKeepsName(s: Stmt, shadow: set<string>, ok: bool, bit: bool, st: State, x: string)
    requires WellScoped(st) && !Compound(s)
    ensures WellScoped(Simple(s, shadow, ok, bit, st).st)
    ensures (x in BoundIn(s) ==> x in shadow) ==> SameName(x, st.env, Simple(s, shadow, ok, bit, st).st.env)
  {
  }

  lemma {:induction false} StmtKeepsName(s: Stmt, shadow: set<string>, o: Oracle, st: State, x: string)
    requires WellScoped(st)
    ensures WellScoped(Step(s, shadow, o, st).st)
    ensures (x in BoundIn(s) ==> x in shadow) ==> SameName(x, st.env, Step(s, shadow, o, st).st.env)
    decreases o
  {
    if o.Fork? {
      match s
      case If(_, t, body, orelse) =>
        BlockKeepsName(body, shadow, o.right, st, x);
        BlockKeepsName(orelse, shadow, o.right, st, x);
      case Loop(body) =>
        if o.bit {
          BlockKeepsName(body, shadow, o.left, st, x);
          StmtKeepsName(s, shadow, o.right, Exec(body, shadow, o.left, st).st, x);
        }
      case Try(body, handler) =>
        BlockKeepsName(body, shadow, o.left, st, x);
        BlockKeepsName(handler, shadow, o.right, Exec(body, shadow, o.left, st).st, x);
      case Invoke(f) =>
        if f in st.defs {
          BlockKeepsName(st.defs[f].body, st.defs[f].shadow, o.left, st, x);
        }
      case _ => SimpleKeepsName(s, shadow, o.bit, Answer(o), st, x);
    }
  }
}

/**
 Which tables an erasure can reach (scripts/check_erasure_coverage.py,
 `_walk_from` and `erasure_reach`).

 A worklist walks the call graph from one entrypoint.  Its answer is proved to
 be exactly the graph closure, for every call graph and whatever the order in
 which the worklist is emptied.
 */
module ErasureWalk {

  /** The nodes of a function body the walk distinguishes; `Sql` carries the
      tables found in a string literal. */
  datatype Node = Sql(tables: set<string>) | NameRef(name: string) | Call(callee: string) | Other

  type Functions = map<string, seq<Node>>
  type Constants = map<string, set<string>>

  // ----- what one function contributes ------------------------------------------------

  function NodeTables(n: Node, constants: Constants): set<string> {
    match n
    case Sql(tables) => tables
    case NameRef(x) => if x in constants then constants[x] else {}
    case _ => {}
  }

  function ScanTables(nodes: seq<Node>, constants: Constants): set<string> {
    if nodes == [] then {}
    else ScanTables(nodes[..|nodes| - 1], constants) + NodeTables(nodes[|nodes| - 1], constants)
  }

  /** The statements that name a table. */
  function ScanCount(nodes: seq<Node>, constants: Constants): nat {
    if nodes == [] then 0
    else ScanCount(nodes[..|nodes| - 1], constants) + (if NodeTables(nodes[|nodes| - 1], constants) != {} then 1 else 0)
  }

  function ScanCallees(nodes: seq<Node>, fs: Functions): seq<string> {
    if nodes == [] then []
    else
      var n := nodes[|nodes| - 1];
      ScanCallees(nodes[..|nodes| - 1], fs) + (if n.Call? && n.callee in fs then [n.callee] else [])
  }

  lemma {:induction false} CalleesExact(nodes: seq<Node>, fs: Functions, c: string)
    ensures c in ScanCallees(nodes, fs) <==> Call(c) in nodes && c in fs
  {
    if nodes != [] {
      var last := |nodes| - 1;
      CalleesExact(nodes[..last], fs, c);
      assert Call(c) in nodes <==> Call(c) in nodes[..last] || nodes[last] == Call(c);
    }
  }

  // ----- the closure --------------------------------------------------------------------

  ghost predicate Edge(fs: Functions, a: string, b: string) {
    a in fs && b in fs && Call(b) in fs[a]
  }

  ghost predicate IsPath(fs: Functions, path: seq<string>) {
    path != [] && path[0] in fs && forall i :: 0 <= i < |path| - 1 ==> Edge(fs, path[i], path[i + 1])
  }

  ghost predicate Reaches(fs: Functions, a: string, b: string) {
    exists path :: IsPath(fs, path) && path[0] == a && path[|path| - 1] == b
  }

  /** The functions reachable from `e` in the call graph. */
  ghost function Reach(fs: Functions, e: string): set<string> {
    set f | f in fs.Keys && Reaches(fs, e, f)
  }

  lemma ReachRoot(fs: Functions, e: string)
    requires e in fs
    ensures e in Reach(fs, e)
  {
    assert IsPath(fs, [e]);
  }

  lemma ReachStep(fs: Functions, e: string, a: string, b: string)
    requires a in Reach(fs, e) && Edge(fs, a, b)
    ensures b in Reach(fs, e)
  {
    var path :| IsPath(fs, path) && path[0] == e && path[|path| - 1] == a;
    var longer := path + [b];
    forall i | 0 <= i < |longer| - 1
      ensures Edge(fs, longer[i], longer[i + 1])
    {
      if i < |path| - 1 { assert Edge(fs, path[i], path[i + 1]); }
    }
    assert IsPath(fs, longer) && longer[|longer| - 1] == b;
  }

  /** A set that holds the start and is closed under calls holds the closure. */
  lemma {:induction false} ClosedHoldsReach(fs: Functions, e: string, s: set<string>)
    requires e in fs ==> e in s
    requires forall a, b :: a in s && Edge(fs, a, b) ==> b in s
    ensures Reach(fs, e) <= s
  {
    forall f | f in Reach(fs, e)
      ensures f in s
    {
      var path :| IsPath(fs, path) && path[0] == e && path[|path| - 1] == f;
      PathStays(fs, path, s);
    }
  }

  lemma {:induction false} PathStays(fs: Functions, path: seq<string>, s: set<string>)
    requires IsPath(fs, path) && path[0] in s
    requires forall a, b :: a in s && Edge(fs, a, b) ==> b in s
    ensures path[|path| - 1] in s
    decreases |path|
  {
    if |path| > 1 {
      var shorter := path[..|path| - 1];
      forall i | 0 <= i < |shorter| - 1
        ensures Edge(fs, shorter[i], shorter[i + 1])
      {
        assert Edge(fs, path[i], path[i + 1]);
      }
      PathStays(fs, shorter, s);
      var i := |path| - 2;
      assert Edge(fs, path[i], path[i + 1]);
    }
  }

  // ----- sums and unions over a set of functions -----------------------------------------

  ghost function TablesOver(fs: Functions, constants: Constants, s: set<string>): set<string>
    requires s <= fs.Keys
  {
    set f, t | f in s && t in ScanTables(fs[f], constants) :: t
  }

  ghost function CountOver(fs: Functions, constants: Constants, s: set<string>): nat
    requires s <= fs.Keys
    decreases |s|
  {
    if s == {} then 0
    else
      var f :| f in s;
      ScanCount(fs[f], constants) + CountOver(fs, constants, s - {f})
  }

  /** The sum does not depend on the order in which functions are visited. */
  lemma {:induction false} CountInsert(fs: Functions, constants: Constants, s: set<string>, x: string)
    requires s <= fs.Keys && x in fs && x !in s
    ensures CountOver(fs, constants, s + {x}) == CountOver(fs, constants, s) + ScanCount(fs[x], constants)
    decreases |s|
  {
    var all := s + {x};
    var f :| f in all && CountOver(fs, constants, all) == ScanCount(fs[f], constants) + CountOver(fs, constants, all - {f});
    if f == x {
      assert all - {x} == s;
    } else {
      assert all - {f} == (s - {f}) + {x};
      CountInsert(fs, constants, s - {f}, x);
      assert s == (s - {f}) + {f};
      CountInsert(fs, constants, s - {f}, f);
    }
  }

  // ----- the sums, read off the nodes -------------------------------------------------------

  /** The node names the table: in its own literal, or through a module constant. */
  ghost predicate Names(n: Node, constants: Constants, t: string) {
    match n
    case Sql(tables) => t in tables
    case NameRef(x) => x in constants && t in constants[x]
    case Call(_) => false
    case Other => false
  }

  /** Some function of the set holds a node that names the table. */
  ghost predicate NamedIn(fs: Functions, constants: Constants, s: set<string>, t: string) {
    exists f, n :: f in s && f in fs && n in fs[f] && Names(n, constants, t)
  }

  ghost predicate NamesSome(n: Node, constants: Constants) {
    exists t :: Names(n, constants, t)
  }

  /** The positions, in one function, of the nodes that name some table. */
  ghost function StatementsIn(f: string, nodes: seq<Node>, constants: Constants): set<(string, nat)> {
    set i: nat | i < |nodes| && NamesSome(nodes[i], constants) :: (f, i)
  }

  /** The same over the functions of a set. */
  ghost function Statements(fs: Functions, constants: Constants, s: set<string>): set<(string, nat)>
    requires s <= fs.Keys
  {
    set f, p | f in s && p in StatementsIn(f, fs[f], constants) :: p
  }

  lemma NodeNames(n: Node, constants: Constants)
    ensures forall t :: t in NodeTables(n, constants) <==> Names(n, constants, t)
    ensures NodeTables(n, constants) != {} <==> NamesSome(n, constants)
  {
    if NodeTables(n, constants) != {} {
      var t :| t in NodeTables(n, constants);
      assert Names(n, constants, t);
    }
  }

  lemma {:induction false} ScanNames(nodes: seq<Node>, constants: Constants, t: string)
    ensures t in ScanTables(nodes, constants) <==> exists n :: n in nodes && Names(n, constants, t)
  {
    if nodes != [] {
      var last := |nodes| - 1;
      ScanNames(nodes[..last], constants, t);
      NodeNames(nodes[last], constants);
      assert forall n :: n in nodes <==> n in nodes[..last] || n == nodes[last];
    }
  }

  /** A table is found exactly when some node names it. */
  lemma TablesAre(fs: Functions, constants: Constants, s: set<string>, t: string)
    requires s <= fs.Keys
    ensures t in TablesOver(fs, constants, s) <==> NamedIn(fs, constants, s, t)
  {
    forall f | f in s ensures t in ScanTables(fs[f], constants) <==> exists n :: n in fs[f] && Names(n, constants, t) {
      ScanNames(fs[f], constants, t);
    }
  }

  lemma {:induction false} ScanCounts(f: string, nodes: seq<Node>, constants: Constants)
    ensures ScanCount(nodes, constants) == |StatementsIn(f, nodes, constants)|
  {
    if nodes != [] {
      var last := |nodes| - 1;
      var before := nodes[..last];
      ScanCounts(f, before, constants);
      NodeNames(nodes[last], constants);
      var some, all := StatementsIn(f, before, constants), StatementsIn(f, nodes, constants);
      hide NamesSome;
      assert forall i: nat :: i < |before| ==> before[i] == nodes[i];
      if NamesSome(nodes[last], constants) {
        assert all == some + {(f, last)};
      } else {
        assert all == some;
      }
    }
  }

  /** The statement count is the number of those positions. */
  lemma {:induction false} CountIs(fs: Functions, constants: Constants, s: set<string>)
    requires s <= fs.Keys
    ensures CountOver(fs, constants, s) == |Statements(fs, constants, s)|
    decreases |s|
  {
    if s == {} {
      assert Statements(fs, constants, s) == {};
    } else {
      var f :| f in s && CountOver(fs, constants, s) == ScanCount(fs[f], constants) + CountOver(fs, constants, s - {f});
      CountIs(fs, constants, s - {f});
      ScanCounts(f, fs[f], constants);
      StatementsSplit(fs, constants, s, f);
    }
  }

  lemma StatementsSplit(fs: Functions, constants: Constants, s: set<string>, f: string)
    requires s <= fs.Keys && f in s
    ensures Statements(fs, constants, s) == StatementsIn(f, fs[f], constants) + Statements(fs, constants, s - {f})
    ensures StatementsIn(f, fs[f], constants) !! Statements(fs, constants, s - {f})
  {
    hide NamesSome;
    assert forall g :: g in s <==> g == f || g in s - {f};
    forall g, p | g in s && p in StatementsIn(g, fs[g], constants) ensures p.0 == g {}
  }

  // ----- the worklist as a state machine ----------------------------------------------------

  datatype Work = Work(queue: seq<string>, visited: set<string>, tables: set<string>, statements: nat)

  function Start(e: string): Work {
    Work([e], {}, {}, 0)
  }

  /** Take the `i`-th queue entry; `seen` is what the walk treats as visited
      before it starts (nothing, in the source). */
  function Take(fs: Functions, constants: Constants, seen: set<string>, w: Work, i: nat): Work
    requires i < |w.queue|
  {
    var name := w.queue[i];
    var rest := w.queue[..i] + w.queue[i + 1..];
    if name in seen || name in w.visited || name !in fs then w.(queue := rest)
    else Work(rest + ScanCallees(fs[name], fs),
              w.visited + {name},
              w.tables + ScanTables(fs[name], constants),
              w.statements + ScanCount(fs[name], constants))
  }

  ghost predicate Inv(fs: Functions, constants: Constants, seen: set<string>, e: string, w: Work) {
    var g := fs - seen;
    && w.visited <= Reach(g, e)
    && (forall q :: q in w.queue && q in g ==> q in Reach(g, e))
    && (e in g ==> e in w.visited || e in w.queue)
    && (forall a, b :: a in w.visited && Edge(g, a, b) ==> b in w.visited || b in w.queue)
    && w.tables == TablesOver(fs, constants, w.visited)
    && w.statements == CountOver(fs, constants, w.visited)
  }

  lemma StartInv(fs: Functions, constants: Constants, seen: set<string>, e: string)
    ensures Inv(fs, constants, seen, e, Start(e))
  {
    if e in fs - seen {
      ReachRoot(fs - seen, e);
    }
  }

  lemma InQueueAfter(queue: seq<string>, i: nat, q: string)
    requires i < |queue| && q in queue && q != queue[i]
    ensures q in queue[..i] + queue[i + 1..]
  {
    var j :| 0 <= j < |queue| && queue[j] == q;
    if j < i { assert queue[..i][j] == q; } else { assert queue[i + 1..][j - i - 1] == q; }
  }

  /** Every step keeps the invariant, whichever entry it takes. */
  lemma TakeKeepsInv(fs: Functions, constants: Constants, seen: set<string>, e: string, w: Work, i: nat)
    requires Inv(fs, constants, seen, e, w) && i < |w.queue|
    ensures Inv(fs, constants, seen, e, Take(fs, constants, seen, w, i))
  {
    var g := fs - seen;
    var name := w.queue[i];
    var w' := Take(fs, constants, seen, w, i);
    forall q | q in w.queue && q != name ensures q in w'.queue { InQueueAfter(w.queue, i, q); }
    if name in g && name !in w.visited {
      CountInsert(fs, constants, w.visited, name);
      forall q | q in w'.queue && q in g
        ensures q in Reach(g, e)
      {
        CalleesExact(fs[name], fs, q);
        if q !in w.queue {
          assert Edge(g, name, q);
          ReachStep(g, e, name, q);
        }
      }
      forall a, b | a in w'.visited && Edge(g, a, b)
        ensures b in w'.visited || b in w'.queue
      {
        if a == name { CalleesExact(fs[name], fs, b); }
      }
    }
  }

  /** Every step makes progress: a function is visited, or the queue shrinks. */
  lemma TakeProgresses(fs: Functions, constants: Constants, seen: set<string>, w: Work, i: nat)
    requires i < |w.queue|
    ensures var w' := Take(fs, constants, seen, w, i);
            || |fs.Keys - w'.visited| < |fs.Keys - w.visited|
            || (w'.visited == w.visited && |w'.queue| < |w.queue|)
  {
    var w' := Take(fs, constants, seen, w, i);
    if w'.visited != w.visited {
      var name := w.queue[i];
      assert fs.Keys - w.visited == (fs.Keys - w'.visited) + {name};
    }
  }

  lemma DoneIsExact(fs: Functions, constants: Constants, seen: set<string>, e: string, w: Work)
    requires Inv(fs, constants, seen, e, w) && w.queue == []
    ensures w.visited == Reach(fs - seen, e)
  {
    ClosedHoldsReach(fs - seen, e, w.visited);
  }

  /** `run` lists the states of a walk: each takes some entry of the one before. */
  ghost predicate IsRun(fs: Functions, constants: Constants, seen: set<string>, e: string, run: seq<Work>) {
    && run != []
    && if |run| == 1 then run[0] == Start(e)
       else
         var before := run[..|run| - 1];
         IsRun(fs, constants, seen, e, before) && Steps(fs, constants, seen, before[|before| - 1], run[|run| - 1])
  }

  ghost predicate Steps(fs: Functions, constants: Constants, seen: set<string>, w: Work, w': Work) {
    exists i :: 0 <= i < |w.queue| && w' == Take(fs, constants, seen, w, i)
  }

  lemma {:induction false} RunInv(fs: Functions, constants: Constants, seen: set<string>, e: string, run: seq<Work>)
    requires IsRun(fs, constants, seen, e, run)
    ensures Inv(fs, constants, seen, e, run[|run| - 1])
    decreases |run|
  {
    if |run| == 1 {
      StartInv(fs, constants, seen, e);
    } else {
      var before := run[..|run| - 1];
      var w := before[|before| - 1];
      RunInv(fs, constants, seen, e, before);
      var i :| 0 <= i < |w.queue| && run[|run| - 1] == Take(fs, constants, seen, w, i);
      TakeKeepsInv(fs, constants, seen, e, w, i);
    }
  }

  /** Whatever order empties the worklist, it has visited exactly the functions
      reachable from the entrypoint, found exactly their tables, and counted
      each function's statements exactly once. */
  lemma AnyOrderIsExact(fs: Functions, constants: Constants, seen: set<string>, e: string, run: seq<Work>)
    requires IsRun(fs, constants, seen, e, run) && run[|run| - 1].queue == []
    ensures var w := run[|run| - 1];
            && w.visited == Reach(fs - seen, e)
            && w.tables == TablesOver(fs, constants, Reach(fs - seen, e))
            && w.statements == CountOver(fs, constants, Reach(fs - seen, e))
  {
    RunInv(fs, constants, seen, e, run);
    DoneIsExact(fs, constants, seen, e, run[|run| - 1]);
  }

  // ----- the walk of the source ---------------------------------------------------------------

  /** The body of `_walk_from`'s loop for a function not visited before. */
  method ScanFunction(nodes: seq<Node>, fs: Functions, constants: Constants,
                      queue0: seq<string>, tables0: set<string>, statements0: nat)
    returns (queue: seq<string>, tables: set<string>, statements: nat)
    ensures queue == queue0 + ScanCallees(nodes, fs)
    ensures tables == tables0 + ScanTables(nodes, constants)
    ensures statements == statements0 + ScanCount(nodes, constants)
  {
    queue, tables, statements := queue0, tables0, statements0;
    var i := 0;
    while i < |nodes|
      invariant 0 <= i <= |nodes|
      invariant tables == tables0 + ScanTables(nodes[..i], constants)
      invariant statements == statements0 + ScanCount(nodes[..i], constants)
      invariant queue == queue0 + ScanCallees(nodes[..i], fs)
    {
      assert nodes[..i + 1][..i] == nodes[..i] && nodes[..i + 1][i] == nodes[i];
      match nodes[i] {
        case Sql(found) =>
          if found != {} {
            statements := statements + 1;
          }
          tables := tables + found;
        case NameRef(x) =>
          if x in constants {
            if constants[x] != {} {
              statements := statements + 1;
            }
            tables := tables + constants[x];
          }
        case Call(callee) =>
          if callee in fs {
            queue := queue + [callee];
          }
        case Other =>
      }
      i := i + 1;
    }
    assert nodes[..|nodes|] == nodes;
  }

  /** `_walk_from`: last in, first out.  It finds exactly the tables that nodes of reachable
      functions name, and counts exactly the positions of such nodes. */
  method WalkFrom(e: string, fs: Functions, constants: Constants)
    returns (tables: set<string>, visited: set<string>, statements: nat)
    ensures visited == Reach(fs, e)
    ensures forall t :: t in tables <==> NamedIn(fs, constants, Reach(fs, e), t)
    ensures statements == |Statements(fs, constants, Reach(fs, e))|
    ensures tables == TablesOver(fs, constants, Reach(fs, e))
    ensures statements == CountOver(fs, constants, Reach(fs, e))
  {
    hide Inv, Reach, TablesOver, CountOver, NamedIn, Statements;
    tables, visited, statements := {}, {}, 0;
    var queue := [e];
    ghost var w := Start(e);
    StartInv(fs, constants, {}, e);
    while queue != []
      invariant w == Work(queue, visited, tables, statements)
      invariant Inv(fs, constants, {}, e, w)
      decreases |fs.Keys - visited|, |queue|
    {
      w := TakeLast(fs, constants, e, w);
      var name := queue[|queue| - 1];
      queue := queue[..|queue| - 1];
      if name in visited || name !in fs {
        continue;
      }
      visited := visited + {name};
      queue, tables, statements := ScanFunction(fs[name], fs, constants, queue, tables, statements);
    }
    DoneFresh(fs, constants, e, w);
    ReachIsDefined(fs, e);
    CountIs(fs, constants, Reach(fs, e));
    forall t ensures t in tables <==> NamedIn(fs, constants, Reach(fs, e), t) { TablesAre(fs, constants, Reach(fs, e), t); }
  }

  lemma ReachIsDefined(fs: Functions, e: string)
    ensures Reach(fs, e) <= fs.Keys
  {
  }

  lemma DoneFresh(fs: Functions, constants: Constants, e: string, w: Work)
    requires Inv(fs, constants, {}, e, w) && w.queue == []
    ensures w.visited == Reach(fs, e)
    ensures w.tables == TablesOver(fs, constants, Reach(fs, e)) && w.statements == CountOver(fs, constants, Reach(fs, e))
  {
    DoneIsExact(fs, constants, {}, e, w);
    assert fs - {} == fs;
  }

  /** One turn of the source's loop, as a step of the state machine. */
  lemma TakeLast(fs: Functions, constants: Constants, e: string, w: Work) returns (w': Work)
    requires Inv(fs, constants, {}, e, w) && w.queue != []
    ensures Inv(fs, constants, {}, e, w')
    ensures var last := |w.queue| - 1; var name := w.queue[last];
            w' == if name in w.visited || name !in fs then w.(queue := w.queue[..last])
                  else Work(w.queue[..last] + ScanCallees(fs[name], fs), w.visited + {name},
                            w.tables + ScanTables(fs[name], constants), w.statements + ScanCount(fs[name], constants))
    ensures || |fs.Keys - w'.visited| < |fs.Keys - w.visited|
            || (w'.visited == w.visited && |w'.queue| < |w.queue|)
  {
    hide Inv;
    var last := |w.queue| - 1;
    assert w.queue[..last] + w.queue[last + 1..] == w.queue[..last];
    w' := Take(fs, constants, {}, w, last);
    TakeKeepsInv(fs, constants, {}, e, w, last);
    TakeProgresses(fs, constants, {}, w, last);
  }

  datatype Blind = Undefined(entrypoint: string) | ReachesNothing(entrypoint: string)

  /** The tables one erasure reaches. */
  ghost function Answer(fs: Functions, constants: Constants, e: string): set<string> {
    TablesOver(fs, constants, Reach(fs, e))
  }

  ghost predicate Sees(fs: Functions, constants: Constants, e: string) {
    e in fs && Answer(fs, constants, e) != {}
  }

  ghost function VisitedOver(fs: Functions, es: seq<string>): set<string> {
    if es == [] then {} else VisitedOver(fs, es[..|es| - 1]) + Reach(fs, es[|es| - 1])
  }

  ghost function StatementsOver(fs: Functions, constants: Constants, es: seq<string>): nat {
    if es == [] then 0
    else StatementsOver(fs, constants, es[..|es| - 1]) + CountOver(fs, constants, Reach(fs, es[|es| - 1]))
  }

  lemma UndefinedReachesNothing(fs: Functions, e: string)
    requires e !in fs
    ensures Reach(fs, e) == {}
  {
  }

  /** `erasure_reach`: one walk per entrypoint, each from a fresh seen-set. */
  method ErasureReach(entrypoints: seq<string>, fs: Functions, constants: Constants)
    returns (byEntrypoint: map<string, set<string>>, visited: set<string>, statements: nat, blind: seq<Blind>)
    ensures forall e :: e in byEntrypoint <==> e in entrypoints && e in fs
    ensures forall e, t :: e in byEntrypoint ==> (t in byEntrypoint[e] <==> NamedIn(fs, constants, Reach(fs, e), t))
    ensures forall e :: e in byEntrypoint ==> byEntrypoint[e] == Answer(fs, constants, e)
    ensures visited == VisitedOver(fs, entrypoints)
    ensures statements == StatementsOver(fs, constants, entrypoints)
    ensures forall b :: b in blind <==>
                          match b
                          case Undefined(e) => e in entrypoints && e !in fs
                          case ReachesNothing(e) => e in entrypoints && e in fs && forall t :: !NamedIn(fs, constants, Reach(fs, e), t)
    ensures blind == [] <==> forall e :: e in entrypoints ==> Sees(fs, constants, e)
  {
    hide NamedIn, Reach;
    byEntrypoint, visited, statements, blind := map[], {}, 0, [];
    var i := 0;
    while i < |entrypoints|
      invariant 0 <= i <= |entrypoints|
      invariant forall e :: e in byEntrypoint <==> e in entrypoints[..i] && e in fs
      invariant forall e :: e in byEntrypoint ==> byEntrypoint[e] == Answer(fs, constants, e)
      invariant visited == VisitedOver(fs, entrypoints[..i])
      invariant statements == StatementsOver(fs, constants, entrypoints[..i])
      invariant forall b :: b in blind <==> IsBlind(fs, constants, entrypoints[..i], b)
    {
      var name := entrypoints[i];
      ghost var before, after := entrypoints[..i], entrypoints[..i + 1];
      assert after == before + [name] && after[..i] == before;
      i := i + 1;
      if name !in fs {
        UndefinedReachesNothing(fs, name);
        blind := blind + [Undefined(name)];
        continue;
      }
      var tables, seen, found := WalkFrom(name, fs, constants);
      AnswerNames(fs, constants, name);
      byEntrypoint := byEntrypoint[name := tables];
      visited := visited + seen;
      statements := statements + found;
      if tables == {} {
        blind := blind + [ReachesNothing(name)];
      }
    }
    assert entrypoints[..|entrypoints|] == entrypoints;
    forall e, t | e in byEntrypoint ensures t in byEntrypoint[e] <==> NamedIn(fs, constants, Reach(fs, e), t) {
      AnswerNames(fs, constants, e);
    }
    NoneBlind(fs, constants, entrypoints, blind);
  }

  lemma NoneBlind(fs: Functions, constants: Constants, es: seq<string>, blind: seq<Blind>)
    requires forall b :: b in blind <==> IsBlind(fs, constants, es, b)
    ensures blind == [] <==> forall e :: e in es ==> Sees(fs, constants, e)
  {
    hide NamedIn, Answer;
    forall e { AnswerNames(fs, constants, e); }
    if blind != [] {
      assert blind[0] in blind;
    } else {
      forall e | e in es ensures Sees(fs, constants, e) {
        assert Undefined(e) !in blind && ReachesNothing(e) !in blind;
      }
    }
  }

  ghost predicate IsBlind(fs: Functions, constants: Constants, es: seq<string>, b: Blind) {
    match b
    case Undefined(e) => e in es && e !in fs
    case ReachesNothing(e) => e in es && e in fs && forall t :: !NamedIn(fs, constants, Reach(fs, e), t)
  }

  lemma AnswerNames(fs: Functions, constants: Constants, e: string)
    ensures forall t :: t in Answer(fs, constants, e) <==> NamedIn(fs, constants, Reach(fs, e), t)
    ensures Answer(fs, constants, e) == {} <==> forall t :: !NamedIn(fs, constants, Reach(fs, e), t)
  {
    hide NamedIn, TablesOver;
    forall t ensures t in Answer(fs, constants, e) <==> NamedIn(fs, constants, Reach(fs, e), t) {
      TablesAre(fs, constants, Reach(fs, e), t);
    }
    if Answer(fs, constants, e) != {} { var t :| t in Answer(fs, constants, e); }
  }

  // ----- one walk per entrypoint, or one seen-set for all -----------------------------------------

  lemma ReachMonotone(fs: Functions, seen: set<string>, e: string)
    ensures Reach(fs - seen, e) <= Reach(fs, e) - seen
  {
    forall f | f in Reach(fs - seen, e)
      ensures f in Reach(fs, e)
    {
      var path :| IsPath(fs - seen, path) && path[0] == e && path[|path| - 1] == f;
      forall i | 0 <= i < |path| - 1 ensures Edge(fs, path[i], path[i + 1]) { assert Edge(fs - seen, path[i], path[i + 1]); }
      assert IsPath(fs, path);
    }
  }

  /** A second walk that shares the first one's seen-set visits exactly what the
      first did not: together they are right, and the second answer on its own
      is right if and only if the two erasures share no helper. */
  lemma SharedSeenIsDifference(fs: Functions, first: string, second: string)
    ensures var r1, r2, shared := Reach(fs, first), Reach(fs, second), Reach(fs - Reach(fs, first), second);
            && shared == r2 - r1
            && r1 + shared == r1 + r2
            && (shared == r2 <==> r1 !! r2)
  {
    var r1, r2 := Reach(fs, first), Reach(fs, second);
    var g := fs - r1;
    var shared := Reach(g, second);
    ReachMonotone(fs, r1, second);
    if second in g {
      ReachRoot(g, second);
    }
    forall a, b | a in shared + r1 && Edge(fs, a, b)
      ensures b in shared + r1
    {
      if a in r1 {
        ReachStep(fs, first, a, b);
      } else if b !in r1 {
        assert Edge(g, a, b);
        ReachStep(g, second, a, b);
      }
    }
    ClosedHoldsReach(fs, second, shared + r1);
  }

  /** The shared form loses a table exactly when only shared helpers name it. */
  lemma SharedSeenLosesTables(fs: Functions, constants: Constants, first: string, second: string, t: string)
    ensures var r1, r2 := Reach(fs, first), Reach(fs, second);
            t in TablesOver(fs, constants, r2) && t !in TablesOver(fs, constants, Reach(fs - r1, second)) <==>
            && (exists f :: f in r2 && t in ScanTables(fs[f], constants))
            && (forall f :: f in r2 && t in ScanTables(fs[f], constants) ==> f in r1)
  {
    SharedSeenIsDifference(fs, first, second);
  }

  /** Two erasures with one helper: the second, sharing a seen-set, finds nothing. */
  lemma SharedSeenExample()
    ensures exists fs: Functions, first: string, second: string ::
              && TablesOver(fs, map[], Reach(fs, second)) == {"calls"}
              && TablesOver(fs, map[], Reach(fs - Reach(fs, first), second)) == {}
  {
    var fs: Functions := map["a" := [Call("h")], "b" := [Call("h")], "h" := [Sql({"calls"})]];
    assert Edge(fs, "a", "h") by { assert fs["a"][0] == Call("h"); }
    assert Edge(fs, "b", "h") by { assert fs["b"][0] == Call("h"); }
    ReachRoot(fs, "a");
    ReachStep(fs, "a", "a", "h");
    ReachRoot(fs, "b");
    ReachStep(fs, "b", "b", "h");
    ClosedHoldsReach(fs, "b", {"b", "h"});
    assert Reach(fs, "b") == {"b", "h"};
    SharedSeenIsDifference(fs, "a", "b");
    assert ScanTables(fs["h"], map[]) == {"calls"} by { assert fs["h"][..0] == []; }
    assert ScanTables(fs["b"], map[]) == {} by { assert fs["b"][..0] == []; }
    assert "calls" in ScanTables(fs["h"], map[]);
    assert TablesOver(fs, map[], Reach(fs, "b")) == {"calls"};
    assert Reach(fs - Reach(fs, "a"), "b") <= {"b"};
    assert TablesOver(fs, map[], Reach(fs - Reach(fs, "a"), "b")) == {};
  }
}

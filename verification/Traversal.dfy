/**
 Two ways to find the function around a node.

 `_peer_reads` (scripts/check_audit_ip.py) walks the tree breadth first and lets
 every function overwrite the entry of each node below it; `_call_sites`
 (scripts/check_compliance_invariants.py) walks depth first and carries a stack.
 Both are proved against one definition, the chain of functions above a node,
 and hence to agree.

 A node is identified by its position, the child indices on the way to it.
 */
module Traversal {
  import opened Ordering
  import opened Wrappers

  /** A function definition, a node the guard looks for, or anything else. */
  datatype Kind = Func(name: string) | Hit | Plain

  datatype Tree = Tree(kind: Kind, children: seq<Tree>)

  type Pos = seq<nat>

  predicate IsPos(t: Tree, p: Pos)
    decreases |p|
  {
    p == [] || (p[0] < |t.children| && IsPos(t.children[p[0]], p[1..]))
  }

  function At(t: Tree, p: Pos): Tree
    requires IsPos(t, p)
    decreases |p|
  {
    if p == [] then t else At(t.children[p[0]], p[1..])
  }

  lemma {:induction false} AtAppend(t: Tree, p: Pos, q: Pos)
    requires IsPos(t, p)
    ensures IsPos(t, p + q) <==> IsPos(At(t, p), q)
    ensures IsPos(t, p + q) ==> At(t, p + q) == At(At(t, p), q)
    decreases |p|
  {
    if p == [] {
      assert p + q == q;
    } else {
      assert (p + q)[0] == p[0] && (p + q)[1..] == p[1..] + q;
      AtAppend(t.children[p[0]], p[1..], q);
    }
  }

  lemma {:induction false} PrefixIsPos(t: Tree, p: Pos, q: Pos)
    requires IsPos(t, q) && p <= q
    ensures IsPos(t, p)
    decreases |p|
  {
    if p != [] {
      assert p[0] == q[0] && p[1..] <= q[1..];
      PrefixIsPos(t.children[p[0]], p[1..], q[1..]);
    }
  }

  predicate IsHit(t: Tree, p: Pos) {
    IsPos(t, p) && At(t, p).kind == Hit
  }

  predicate IsFunc(t: Tree, p: Pos) {
    IsPos(t, p) && At(t, p).kind.Func?
  }

  /** The names of the functions on the way from the root to `p`, outermost first. */
  function Chain(t: Tree, p: Pos): seq<string>
    requires IsPos(t, p)
    decreases |p|
  {
    (if t.kind.Func? then [t.kind.name] else []) +
    (if p == [] then [] else Chain(t.children[p[0]], p[1..]))
  }

  /** The same below the root. */
  function ChainBelow(t: Tree, p: Pos): seq<string>
    requires IsPos(t, p)
  {
    if p == [] then [] else Chain(t.children[p[0]], p[1..])
  }

  function Last(names: seq<string>): Option<string> {
    if names == [] then None else Some(names[|names| - 1])
  }

  // ----- breadth-first walk ---------------------------------------------------------

  function Size(t: Tree): nat {
    1 + Sizes(t.children)
  }

  function Sizes(ts: seq<Tree>): nat {
    if ts == [] then 0 else Size(ts[0]) + Sizes(ts[1..])
  }

  function QueueSize(t: Tree, queue: seq<Pos>): nat
    requires forall p :: p in queue ==> IsPos(t, p)
  {
    if queue == [] then 0 else Size(At(t, queue[0])) + QueueSize(t, queue[1..])
  }

  lemma {:induction false} QueueSizeAppend(t: Tree, a: seq<Pos>, b: seq<Pos>)
    requires forall p :: p in a ==> IsPos(t, p)
    requires forall p :: p in b ==> IsPos(t, p)
    ensures forall p :: p in a + b ==> IsPos(t, p)
    ensures QueueSize(t, a + b) == QueueSize(t, a) + QueueSize(t, b)
  {
    if a == [] {
      assert a + b == b;
    } else {
      assert (a + b)[1..] == a[1..] + b;
      QueueSizeAppend(t, a[1..], b);
    }
  }

  function ChildrenFrom(p: Pos, i: nat, n: nat): (r: seq<Pos>)
    requires i <= n
    ensures |r| == n - i && forall k :: 0 <= k < |r| ==> r[k] == p + [i + k]
    decreases n - i
  {
    if i == n then [] else [p + [i]] + ChildrenFrom(p, i + 1, n)
  }

  lemma {:induction false} ChildrenSize(t: Tree, p: Pos, i: nat)
    requires IsPos(t, p) && i <= |At(t, p).children|
    ensures forall q :: q in ChildrenFrom(p, i, |At(t, p).children|) ==> IsPos(t, q)
    ensures QueueSize(t, ChildrenFrom(p, i, |At(t, p).children|)) == Sizes(At(t, p).children[i..])
    decreases |At(t, p).children| - i
  {
    var cs := At(t, p).children;
    if i < |cs| {
      AtAppend(t, p, [i]);
      assert At(At(t, p), [i]) == cs[i];
      ChildrenSize(t, p, i + 1);
      var r := ChildrenFrom(p, i, |cs|);
      assert r[1..] == ChildrenFrom(p, i + 1, |cs|);
      assert cs[i..][1..] == cs[i + 1..];
    }
  }

  ghost predicate ByDepth(s: seq<Pos>) {
    forall i, j :: 0 <= i < j < |s| ==> |s[i]| <= |s[j]|
  }

  ghost predicate Children(t: Tree, p: Pos, s: seq<Pos>)
    requires IsPos(t, p)
  {
    forall i :: 0 <= i < |At(t, p).children| ==> p + [i] in s
  }

  /** Every node of `all` but the root has its parent in `order`. */
  ghost predicate ParentsIn(all: seq<Pos>, order: seq<Pos>) {
    forall p :: p in all && p != [] ==> p[..|p| - 1] in order
  }

  /** What the walk keeps: `all` is what was yielded followed by the queue. */
  ghost predicate WalkInv(t: Tree, order: seq<Pos>, all: seq<Pos>) {
    && order <= all && [] in all && Distinct(all) && ByDepth(all)
    && (forall p :: p in all ==> IsPos(t, p))
    && ParentsIn(all, order)
    && (forall p :: p in order ==> Children(t, p, all))
    && (|order| < |all| ==> forall i :: |order| <= i < |all| ==> |all[i]| <= |all[|order|]| + 1)
  }

  /** `ast.walk`: every node exactly once, in order of depth. */
  method AstWalk(t: Tree) returns (order: seq<Pos>)
    ensures forall p :: p in order <==> IsPos(t, p)
    ensures Distinct(order) && ByDepth(order)
  {
    order := [];
    var queue: seq<Pos> := [[]];
    while queue != []
      invariant WalkInv(t, order, order + queue)
      invariant forall p :: p in queue ==> IsPos(t, p)
      decreases QueueSize(t, queue)
    {
      var p := queue[0];
      assert p in queue && p in order + queue;
      var kids := ChildrenFrom(p, 0, |At(t, p).children|);
      ChildrenSize(t, p, 0);
      assert At(t, p).children[0..] == At(t, p).children;
      QueueSizeAppend(t, queue[1..], kids);
      WalkStepKeeps(t, order, queue, kids);
      order := order + [p];
      queue := queue[1..] + kids;
    }
    assert order + queue == order;
    forall p | IsPos(t, p) ensures p in order { ClosedHasAll(t, order, p); }
  }

  lemma WalkStepKeeps(t: Tree, order: seq<Pos>, queue: seq<Pos>, kids: seq<Pos>)
    requires queue != [] && WalkInv(t, order, order + queue) && IsPos(t, queue[0])
    requires kids == ChildrenFrom(queue[0], 0, |At(t, queue[0]).children|)
    requires forall p :: p in kids ==> IsPos(t, p)
    ensures WalkInv(t, order + [queue[0]], (order + [queue[0]]) + (queue[1..] + kids))
  {
    hide ParentsIn, Distinct, ByDepth, Children, IsPos, At;
    var p, all := queue[0], order + queue;
    Regroup(order, queue, kids);
    assert all[|order|] == p;
    KidsAreNew(order, all, p, kids);
    StepByDepth(order, all, p, kids);
    StepParents(order, all, p, kids);
    StepChildrenAll(t, order, all, p, kids);
  }

  lemma Regroup(order: seq<Pos>, queue: seq<Pos>, kids: seq<Pos>)
    requires queue != []
    ensures (order + [queue[0]]) + (queue[1..] + kids) == (order + queue) + kids
  {
  }

  lemma QueuedIsNotYielded(order: seq<Pos>, all: seq<Pos>, p: Pos)
    requires Distinct(all) && order <= all && |order| < |all| && all[|order|] == p
    ensures p !in order
  {
  }

  lemma ParentOf(order: seq<Pos>, all: seq<Pos>, p: Pos, i: nat)
    requires ParentsIn(all, order) && p + [i] in all
    ensures p in order
  {
    assert (p + [i])[..|p + [i]| - 1] == p;
  }

  /** The children of a queued node are not in the walk yet: their parent has
      not been yielded. */
  lemma KidsAreNew(order: seq<Pos>, all: seq<Pos>, p: Pos, kids: seq<Pos>)
    requires Distinct(all) && order <= all && |order| < |all| && all[|order|] == p && ParentsIn(all, order)
    requires forall k :: 0 <= k < |kids| ==> kids[k] == p + [k]
    ensures Distinct(all + kids)
  {
    QueuedIsNotYielded(order, all, p);
    hide ParentsIn, Distinct;
    forall k | 0 <= k < |kids|
      ensures kids[k] !in all
    {
      if p + [k] in all { ParentOf(order, all, p, k); }
    }
    KidsDistinct(p, kids);
    DistinctAppend(all, kids);
  }

  lemma KidsDistinct(p: Pos, kids: seq<Pos>)
    requires forall k :: 0 <= k < |kids| ==> kids[k] == p + [k]
    ensures Distinct(kids)
  {
    forall i, j | 0 <= i < j < |kids|
      ensures kids[i] != kids[j]
    {
      assert kids[i][|p|] == i && kids[j][|p|] == j;
    }
  }

  lemma StepByDepth(order: seq<Pos>, all: seq<Pos>, p: Pos, kids: seq<Pos>)
    requires ByDepth(all) && order <= all && |order| < |all| && all[|order|] == p
    requires forall i :: |order| <= i < |all| ==> |all[i]| <= |p| + 1
    requires forall q :: q in kids ==> |q| == |p| + 1
    ensures ByDepth(all + kids)
    ensures forall i :: |order| + 1 <= i < |all + kids| ==> |(all + kids)[i]| <= |(all + kids)[|order| + 1]| + 1
  {
    forall i | 0 <= i < |all| ensures |all[i]| <= |p| + 1 {
      if i < |order| { assert |all[i]| <= |all[|order|]|; }
    }
    forall i | |order| <= i < |all + kids| ensures |p| <= |(all + kids)[i]| <= |p| + 1 {
      if i < |all| {
        assert i == |order| || |all[|order|]| <= |all[i]|;
      } else {
        assert kids[i - |all|] in kids;
      }
    }
    forall i, j | 0 <= i < j < |all + kids|
      ensures |(all + kids)[i]| <= |(all + kids)[j]|
    {
      if j >= |all| {
        assert kids[j - |all|] in kids;
        if i >= |all| { assert kids[i - |all|] in kids; }
      }
    }
  }

  lemma StepParents(order: seq<Pos>, all: seq<Pos>, p: Pos, kids: seq<Pos>)
    requires ParentsIn(all, order)
    requires forall k :: 0 <= k < |kids| ==> kids[k] == p + [k]
    ensures ParentsIn(all + kids, order + [p])
  {
    forall q | q in all + kids && q != []
      ensures q[..|q| - 1] in order + [p]
    {
      if q !in all {
        var k :| 0 <= k < |kids| && kids[k] == q;
        assert q[..|q| - 1] == p;
      }
    }
  }

  lemma StepChildrenAll(t: Tree, order: seq<Pos>, all: seq<Pos>, p: Pos, kids: seq<Pos>)
    requires IsPos(t, p) && kids == ChildrenFrom(p, 0, |At(t, p).children|)
    requires forall r :: r in order ==> IsPos(t, r) && Children(t, r, all)
    ensures forall q :: q in order + [p] ==> IsPos(t, q) && Children(t, q, all + kids)
  {
    forall q | q in order + [p] ensures IsPos(t, q) && Children(t, q, all + kids) { StepChildren(t, order, all, p, kids, q); }
  }

  lemma StepChildren(t: Tree, order: seq<Pos>, all: seq<Pos>, p: Pos, kids: seq<Pos>, q: Pos)
    requires IsPos(t, p) && kids == ChildrenFrom(p, 0, |At(t, p).children|)
    requires forall r :: r in order ==> IsPos(t, r) && Children(t, r, all)
    requires q in order + [p]
    ensures IsPos(t, q) && Children(t, q, all + kids)
  {
    if q in order {
      assert Children(t, q, all);
    } else {
      forall i | 0 <= i < |At(t, p).children| ensures p + [i] in all + kids { assert kids[i] in kids; }
    }
  }

  /** A set of nodes with the root and every child of its members has every node. */
  lemma {:induction false} ClosedHasAll(t: Tree, s: seq<Pos>, p: Pos)
    requires [] in s && forall q :: q in s ==> IsPos(t, q) && Children(t, q, s)
    requires IsPos(t, p)
    ensures p in s
    decreases |p|
  {
    if p != [] {
      var q, i := p[..|p| - 1], p[|p| - 1];
      assert p == q + [i];
      PrefixIsPos(t, q, p);
      ClosedHasAll(t, s, q);
      AtAppend(t, q, [i]);
      assert Children(t, q, s);
    }
  }

  // ----- last writer wins -------------------------------------------------------------

  ghost predicate SameElsewhere(t: Tree, p: Pos, before: map<Pos, string>, after: map<Pos, string>, name: string) {
    && (forall h :: IsHit(t, h) && p <= h ==> h in after && after[h] == name)
    && (forall h :: !(IsHit(t, h) && p <= h) ==> (h in after <==> h in before))
    && (forall h :: !(IsHit(t, h) && p <= h) && h in before ==> after[h] == before[h])
  }

  /** The inner loop of `_peer_reads`: one function overwrites the entry of every
      hit below it. */
  method MarkBelow(t: Tree, p: Pos, name: string, before: map<Pos, string>) returns (after: map<Pos, string>)
    requires IsPos(t, p)
    ensures SameElsewhere(t, p, before, after, name)
  {
    after := before;
    var below := AstWalk(At(t, p));
    var i := 0;
    while i < |below|
      invariant 0 <= i <= |below|
      invariant forall j :: 0 <= j < i && IsHit(At(t, p), below[j]) ==> p + below[j] in after && after[p + below[j]] == name
      invariant forall h :: h in after && h !in before ==> IsHit(t, h) && p <= h
      invariant forall h :: h in before ==> h in after
      invariant forall h :: h in before && !(IsHit(t, h) && p <= h) ==> after[h] == before[h]
    {
      var q := below[i];
      assert q in below;
      if At(At(t, p), q).kind == Hit {
        AtAppend(t, p, q);
        assert p <= p + q;
        after := after[p + q := name];
      }
      i := i + 1;
    }
    forall h | IsHit(t, h) && p <= h
      ensures h in after && after[h] == name
    {
      var q := h[|p|..];
      assert h == p + q;
      AtAppend(t, p, q);
      assert q in below;
    }
  }

  /** `p` is a function, and `h` is at or below it. */
  predicate Encloses(t: Tree, p: Pos, h: Pos) {
    IsFunc(t, p) && p <= h
  }

  /** The name of the function that wrote the entry of `h` last, among the first
      `n` of the walk. */
  ghost function LastWriter(t: Tree, order: seq<Pos>, n: nat, h: Pos): Option<string>
    requires n <= |order|
  {
    if n == 0 then None
    else if Encloses(t, order[n - 1], h) then Some(At(t, order[n - 1]).kind.name)
    else LastWriter(t, order, n - 1, h)
  }

  /** The dictionary holds for `h` what was written last. */
  ghost predicate Recorded(t: Tree, order: seq<Pos>, n: nat, enclosing: map<Pos, string>, h: Pos)
    requires n <= |order|
  {
    (if h in enclosing then Some(enclosing[h]) else None) == LastWriter(t, order, n, h)
  }

  /** The outer loop of `_peer_reads`, over the walk `order`. */
  method RecordEnclosing(t: Tree, order: seq<Pos>) returns (enclosing: map<Pos, string>)
    requires forall p :: p in order <==> IsPos(t, p)
    ensures forall h :: IsHit(t, h) ==> Recorded(t, order, |order|, enclosing, h)
  {
    enclosing := map[];
    var i := 0;
    while i < |order|
      invariant 0 <= i <= |order|
      invariant forall h :: IsHit(t, h) ==> Recorded(t, order, i, enclosing, h)
    {
      var p := order[i];
      assert p in order;
      ghost var before := enclosing;
      if At(t, p).kind.Func? {
        enclosing := MarkBelow(t, p, At(t, p).kind.name, enclosing);
      }
      forall h | IsHit(t, h)
        ensures Recorded(t, order, i + 1, enclosing, h)
      {
        RecordedNext(t, order, i, before, enclosing, h);
      }
      i := i + 1;
    }
  }

  /** The hits of a walk, in its order. */
  function HitsOf(t: Tree, order: seq<Pos>): seq<Pos> {
    if order == [] then []
    else (if IsHit(t, order[0]) then [order[0]] else []) + HitsOf(t, order[1..])
  }

  lemma {:induction false} HitsOfExact(t: Tree, order: seq<Pos>)
    ensures forall p :: p in HitsOf(t, order) <==> p in order && IsHit(t, p)
    ensures Distinct(order) ==> Distinct(HitsOf(t, order))
  {
    if order != [] {
      HitsOfExact(t, order[1..]);
      if Distinct(order) && IsHit(t, order[0]) {
        assert order[0] !in order[1..];
        DistinctAppend([order[0]], HitsOf(t, order[1..]));
      }
    }
  }

  /** `_peer_reads`: every hit, once and in walk order, with the name recorded
      for it -- which is that of the innermost enclosing function. */
  method PeerReads(t: Tree) returns (order: seq<Pos>, found: seq<(Pos, Option<string>)>)
    ensures Distinct(order) && ByDepth(order) && forall p :: p in order <==> IsPos(t, p)
    ensures |found| == |HitsOf(t, order)| && Distinct(HitsOf(t, order))
    ensures forall p :: p in HitsOf(t, order) <==> IsHit(t, p)
    ensures forall i :: 0 <= i < |found| ==>
                          found[i].0 == HitsOf(t, order)[i] && IsHit(t, found[i].0) && found[i].1 == Last(Chain(t, found[i].0))
  {
    order := AstWalk(t);
    HitsOfExact(t, order);
    var enclosing := RecordEnclosing(t, order);
    found := ListHits(t, order, HitsOf(t, order), enclosing);
  }

  /** The closing comprehension of `_peer_reads`. */
  method ListHits(t: Tree, ghost order: seq<Pos>, hits: seq<Pos>, enclosing: map<Pos, string>) returns (found: seq<(Pos, Option<string>)>)
    requires ByDepth(order) && forall p :: p in order <==> IsPos(t, p)
    requires forall p :: p in hits ==> IsHit(t, p) && Recorded(t, order, |order|, enclosing, p)
    ensures |found| == |hits|
    ensures forall i :: 0 <= i < |found| ==>
                          found[i].0 == hits[i] && IsHit(t, found[i].0) && found[i].1 == Last(Chain(t, found[i].0))
  {
    hide LastWriter, Chain, IsPos, ByDepth;
    found := [];
    for i := 0 to |hits|
      invariant |found| == i
      invariant forall k :: 0 <= k < i ==>
                              found[k].0 == hits[k] && IsHit(t, found[k].0) && found[k].1 == Last(Chain(t, found[k].0))
    {
      var p := hits[i];
      assert p in hits;
      LastWriterIsInnermost(t, order, p);
      found := found + [(p, if p in enclosing then Some(enclosing[p]) else None)];
    }
  }

  lemma RecordedNext(t: Tree, order: seq<Pos>, i: nat, before: map<Pos, string>, after: map<Pos, string>, h: Pos)
    requires i < |order| && IsPos(t, order[i]) && IsHit(t, h)
    requires Recorded(t, order, i, before, h)
    requires if IsFunc(t, order[i]) then SameElsewhere(t, order[i], before, after, At(t, order[i]).kind.name) else after == before
    ensures Recorded(t, order, i + 1, after, h)
  {
  }

  /** Because the walk goes by depth, the function that writes last is the
      deepest one. */
  lemma {:induction false} LastWriterIsDeepest(t: Tree, order: seq<Pos>, n: nat, h: Pos) returns (d: Pos)
    requires n <= |order| && ByDepth(order) && exists i :: 0 <= i < n && Encloses(t, order[i], h)
    ensures Encloses(t, d, h) && forall i :: 0 <= i < n && Encloses(t, order[i], h) ==> |order[i]| <= |d|
    ensures LastWriter(t, order, n, h) == Some(At(t, d).kind.name)
    decreases n
  {
    if Encloses(t, order[n - 1], h) {
      d := order[n - 1];
      assert forall i :: 0 <= i < n - 1 ==> |order[i]| <= |order[n - 1]|;
    } else {
      d := LastWriterIsDeepest(t, order, n - 1, h);
    }
  }

  lemma {:induction false} NoWriter(t: Tree, order: seq<Pos>, n: nat, h: Pos)
    requires n <= |order| && forall i :: 0 <= i < n ==> !Encloses(t, order[i], h)
    ensures LastWriter(t, order, n, h) == None
    decreases n
  {
    if n > 0 { NoWriter(t, order, n - 1, h); }
  }

  /** What was written last is the innermost enclosing function. */
  lemma LastWriterIsInnermost(t: Tree, order: seq<Pos>, h: Pos)
    requires IsPos(t, h) && ByDepth(order) && forall p :: p in order <==> IsPos(t, p)
    ensures LastWriter(t, order, |order|, h) == Last(Chain(t, h))
  {
    if exists i :: 0 <= i < |order| && Encloses(t, order[i], h) {
      var d := LastWriterIsDeepest(t, order, |order|, h);
      forall q | Encloses(t, q, h) ensures |q| <= |d| { InWalk(t, order, q); }
      DeepestIsLast(t, h, d);
    } else {
      NoWriter(t, order, |order|, h);
      forall q ensures !Encloses(t, q, h) {
        if IsPos(t, q) { InWalk(t, order, q); }
      }
      NoFunctionNoChain(t, h);
    }
  }

  lemma InWalk(t: Tree, order: seq<Pos>, q: Pos)
    requires IsPos(t, q) && forall p :: p in order <==> IsPos(t, p)
    ensures exists i :: 0 <= i < |order| && order[i] == q
  {
    assert q in order;
  }

  /** A function on the way below a child is one on the way from the root. */
  lemma EnclosesFromRoot(t: Tree, h: Pos, q: Pos)
    requires h != [] && IsPos(t, h) && Encloses(t.children[h[0]], q, h[1..])
    ensures Encloses(t, [h[0]] + q, h)
  {
    assert ([h[0]] + q)[1..] == q;
  }

  /** The deepest function on the way to `h` is the last of its chain. */
  lemma {:induction false} DeepestIsLast(t: Tree, h: Pos, d: Pos)
    requires IsPos(t, h) && Encloses(t, d, h)
    requires forall q :: Encloses(t, q, h) ==> |q| <= |d|
    ensures Last(Chain(t, h)) == Some(At(t, d).kind.name)
    decreases |h|
  {
    if h != [] {
      var c := t.children[h[0]];
      forall q | Encloses(c, q, h[1..]) ensures |[h[0]] + q| <= |d| { EnclosesFromRoot(t, h, q); }
      if d == [] {
        NoFunctionNoChain(c, h[1..]);
      } else {
        assert d[0] == h[0] && d[1..] <= h[1..];
        assert Encloses(c, d[1..], h[1..]);
        DeepestIsLast(c, h[1..], d[1..]);
      }
    }
  }

  lemma {:induction false} NoFunctionNoChain(t: Tree, h: Pos)
    requires IsPos(t, h) && forall q :: !Encloses(t, q, h)
    ensures Chain(t, h) == []
    decreases |h|
  {
    assert [] <= h;
    assert !Encloses(t, [], h);
    if h != [] {
      var c := t.children[h[0]];
      forall q ensures !Encloses(c, q, h[1..]) {
        if Encloses(c, q, h[1..]) { EnclosesFromRoot(t, h, q); }
      }
      NoFunctionNoChain(c, h[1..]);
    }
  }

  // ----- depth-first walk with a stack ---------------------------------------------------

  datatype Site = Site(pos: Pos, stack: seq<string>)

  /** `_call_sites`: the children of the node at `at`, from the `i`-th on. */
  function CallSites(t: Tree, i: nat, at: Pos, stack: seq<string>): seq<Site>
    requires i <= |t.children|
    decreases t, |t.children| - i
  {
    if i == |t.children| then []
    else
      var c := t.children[i];
      var here := at + [i];
      (if c.kind.Func? then CallSites(c, 0, here, stack + [c.kind.name])
       else (if c.kind == Hit then [Site(here, stack)] else []) + CallSites(c, 0, here, stack)) +
      CallSites(t, i + 1, at, stack)
  }

  /** A position below the `i`-th or a later child. */
  ghost predicate From(t: Tree, i: nat, p: Pos) {
    p != [] && i <= p[0] && IsHit(t, p)
  }

  /** The site is a hit below the node at `at`, carrying the whole chain. */
  ghost predicate SiteOf(t: Tree, i: nat, at: Pos, stack: seq<string>, s: Site) {
    at <= s.pos && From(t, i, s.pos[|at|..]) && s.stack == stack + ChainBelow(t, s.pos[|at|..])
  }

  lemma {:induction false} SitesAreHits(t: Tree, i: nat, at: Pos, stack: seq<string>, s: Site)
    requires i <= |t.children| && s in CallSites(t, i, at, stack)
    ensures SiteOf(t, i, at, stack, s)
    decreases t, |t.children| - i
  {
    var c := t.children[i];
    var here := at + [i];
    if s in CallSites(t, i + 1, at, stack) {
      SitesAreHits(t, i + 1, at, stack, s);
    } else if s == Site(here, stack) && c.kind == Hit {
      OwnSite(t, i, at, stack);
    } else {
      var inner := stack + (if c.kind.Func? then [c.kind.name] else []);
      assert stack + [] == stack;
      SitesAreHits(c, 0, here, inner, s);
      SiteAbove(t, i, at, stack, s);
    }
  }

  lemma OwnSite(t: Tree, i: nat, at: Pos, stack: seq<string>)
    requires i < |t.children| && t.children[i].kind == Hit
    ensures SiteOf(t, i, at, stack, Site(at + [i], stack))
  {
    var p := at + [i];
    assert p[|at|..] == [i] && [i][1..] == [];
    assert At(t, [i]) == t.children[i];
    assert ChainBelow(t, [i]) == [];
    assert stack + [] == stack;
  }

  /** Positions seen from the parent. */
  lemma FromChild(t: Tree, i: nat, q: Pos)
    requires i < |t.children| && IsHit(t.children[i], q)
    ensures IsHit(t, [i] + q) && ChainBelow(t, [i] + q) == Chain(t.children[i], q)
  {
    assert ([i] + q)[1..] == q;
  }

  /** A site below a child is a site below the node. */
  lemma SiteAbove(t: Tree, i: nat, at: Pos, stack: seq<string>, s: Site)
    requires i < |t.children|
    requires var c := t.children[i];
             SiteOf(c, 0, at + [i], stack + (if c.kind.Func? then [c.kind.name] else []), s)
    ensures SiteOf(t, i, at, stack, s)
  {
    var c := t.children[i];
    var own := if c.kind.Func? then [c.kind.name] else [];
    var q := s.pos[|at + [i]|..];
    SuffixSplits(at, i, s.pos);
    FromChild(t, i, q);
    ChainSplits(c, q, own);
    hide IsHit, IsPos, At, Chain, ChainBelow;
    assert (stack + own) + ChainBelow(c, q) == stack + (own + ChainBelow(c, q));
  }

  lemma SuffixSplits(at: Pos, i: nat, p: Pos)
    requires at + [i] <= p
    ensures at <= p && p[|at|..] == [i] + p[|at + [i]|..]
  {
    assert p[|at|] == (at + [i])[|at|];
  }

  lemma ChainSplits(c: Tree, q: Pos, own: seq<string>)
    requires IsPos(c, q) && own == if c.kind.Func? then [c.kind.name] else []
    ensures Chain(c, q) == own + ChainBelow(c, q)
  {
  }

  /** Every hit below is a site of the walk. */
  lemma {:induction false} HitsAreSites(t: Tree, i: nat, at: Pos, stack: seq<string>, p: Pos)
    requires i <= |t.children| && From(t, i, p)
    ensures Site(at + p, stack + ChainBelow(t, p)) in CallSites(t, i, at, stack)
    decreases t, |t.children| - i
  {
    var c := t.children[i];
    var here := at + [i];
    if p[0] > i {
      HitsAreSites(t, i + 1, at, stack, p);
    } else {
      var q := p[1..];
      assert p == [i] + q;
      assert at + p == here + q;
      assert At(t, p) == At(c, q);
      if q == [] {
        assert Chain(c, q) == [];
        assert ChainBelow(t, p) == [];
        assert stack + [] == stack;
        assert at + p == here;
        assert CallSites(t, i, at, stack)[0] == Site(here, stack);
      } else {
        var inner := stack + (if c.kind.Func? then [c.kind.name] else []);
        HitsAreSites(c, 0, here, inner, q);
        assert inner + ChainBelow(c, q) == stack + ChainBelow(t, p);
        assert stack + [] == stack;
      }
    }
  }

  ghost predicate DistinctSites(r: seq<Site>) {
    forall k, m :: 0 <= k < m < |r| ==> r[k].pos != r[m].pos
  }

  lemma DistinctSitesAppend(a: seq<Site>, b: seq<Site>)
    requires DistinctSites(a) && DistinctSites(b)
    requires forall s, s' :: s in a && s' in b ==> s.pos != s'.pos
    ensures DistinctSites(a + b)
  {
    forall k, m | 0 <= k < m < |a + b|
      ensures (a + b)[k].pos != (a + b)[m].pos
    {
      if k < |a| <= m { assert a[k] in a && b[m - |a|] in b; }
    }
  }

  /** No node is yielded twice. */
  lemma {:induction false} SitesDistinct(t: Tree, i: nat, at: Pos, stack: seq<string>)
    requires i <= |t.children|
    ensures DistinctSites(CallSites(t, i, at, stack))
    decreases t, |t.children| - i
  {
    if i < |t.children| {
      var c := t.children[i];
      var here := at + [i];
      var own := if c.kind == Hit then [Site(here, stack)] else [];
      var inner := stack + (if c.kind.Func? then [c.kind.name] else []);
      assert stack + [] == stack;
      var below := CallSites(c, 0, here, inner);
      var rest := CallSites(t, i + 1, at, stack);
      SitesDistinct(c, 0, here, inner);
      SitesDistinct(t, i + 1, at, stack);
      assert CallSites(t, i, at, stack) == own + below + rest;
      forall s | s in below ensures here < s.pos { SitesAreHits(c, 0, here, inner, s); }
      forall s | s in rest ensures LaterSite(at, i, s) { SitesAreLater(t, i, at, stack, s); }
      ThreePartsDistinct(at, i, own, below, rest);
    }
  }

  /** The site lies below a later child than the `i`-th. */
  ghost predicate LaterSite(at: Pos, i: nat, s: Site) {
    |s.pos| > |at| && s.pos[|at|] > i
  }

  lemma SitesAreLater(t: Tree, i: nat, at: Pos, stack: seq<string>, s: Site)
    requires i < |t.children| && s in CallSites(t, i + 1, at, stack)
    ensures LaterSite(at, i, s)
  {
    SitesAreHits(t, i + 1, at, stack, s);
    assert s.pos[|at|..][0] == s.pos[|at|];
  }

  lemma ThreePartsDistinct(at: Pos, i: nat, own: seq<Site>, below: seq<Site>, rest: seq<Site>)
    requires DistinctSites(own) && DistinctSites(below) && DistinctSites(rest)
    requires forall s :: s in own ==> s.pos == at + [i]
    requires forall s :: s in below ==> at + [i] < s.pos
    requires forall s :: s in rest ==> LaterSite(at, i, s)
    ensures DistinctSites(own + below + rest)
  {
    DistinctSitesAppend(own, below);
    forall s | s in own + below ensures |s.pos| > |at| && s.pos[|at|] == i { assert (at + [i])[|at|] == i; }
    DistinctSitesAppend(own + below, rest);
  }

  /** The walk from the root yields every hit below the root exactly once, with
      the full chain of functions around it. */
  lemma CallSitesExact(t: Tree, p: Pos, stack: seq<string>)
    ensures Site(p, stack) in CallSites(t, 0, [], []) <==>
            p != [] && IsHit(t, p) && stack == ChainBelow(t, p)
    ensures DistinctSites(CallSites(t, 0, [], []))
  {
    SitesDistinct(t, 0, [], []);
    if Site(p, stack) in CallSites(t, 0, [], []) {
      SitesAreHits(t, 0, [], [], Site(p, stack));
      assert p[0..] == p;
      assert [] + ChainBelow(t, p) == ChainBelow(t, p);
    }
    if p != [] && IsHit(t, p) {
      HitsAreSites(t, 0, [], [], p);
      assert [] + p == p && [] + ChainBelow(t, p) == ChainBelow(t, p);
    }
  }

  /** Both walks over one tree.  They yield the same nodes, each once, but for the root,
      which the depth-first walk never looks at; and for a node both yield they name the
      same function, unless the root is itself a function and the only one around the
      node.  Started at a module, as both are, they agree on everything. */
  method BothWalks(t: Tree) returns (found: seq<(Pos, Option<string>)>, sites: seq<Site>)
    ensures (forall i, j :: 0 <= i < j < |found| ==> found[i].0 != found[j].0) && DistinctSites(sites)
    ensures forall p :: (exists i :: 0 <= i < |found| && found[i].0 == p) <==> IsHit(t, p)
    ensures forall p :: (exists k :: 0 <= k < |sites| && sites[k].pos == p) <==> p != [] && IsHit(t, p)
    ensures forall i, k :: 0 <= i < |found| && 0 <= k < |sites| && found[i].0 == sites[k].pos ==>
                             (found[i].1 == Last(sites[k].stack) <==> !(t.kind.Func? && sites[k].stack == []))
    ensures t.kind == Plain ==>
              && (forall i :: 0 <= i < |found| ==> exists k :: 0 <= k < |sites| && sites[k].pos == found[i].0 && Last(sites[k].stack) == found[i].1)
              && (forall k :: 0 <= k < |sites| ==> exists i :: 0 <= i < |found| && sites[k].pos == found[i].0 && Last(sites[k].stack) == found[i].1)
  {
    hide ByDepth, HitsOf, Chain, IsHit;
    var order;
    order, found := PeerReads(t);
    sites := CallSites(t, 0, [], []);
    ghost var hits := HitsOf(t, order);
    assert forall p :: p in hits <==> exists i :: 0 <= i < |found| && found[i].0 == p;
    SitesAreSuch(t, sites);
    forall i, k | 0 <= i < |found| && 0 <= k < |sites| && found[i].0 == sites[k].pos
      ensures found[i].1 == Last(sites[k].stack) <==> !(t.kind.Func? && sites[k].stack == [])
    {
      RootApart(t, sites[k].pos);
    }
    if t.kind == Plain {
      RootIsPlain(t);
    }
  }

  lemma SitesAreSuch(t: Tree, sites: seq<Site>)
    requires sites == CallSites(t, 0, [], [])
    ensures DistinctSites(sites)
    ensures forall k :: 0 <= k < |sites| ==> IsHit(t, sites[k].pos) && sites[k].stack == ChainBelow(t, sites[k].pos)
    ensures forall p :: (exists k :: 0 <= k < |sites| && sites[k].pos == p) <==> p != [] && IsHit(t, p)
  {
    SitesDistinct(t, 0, [], []);
    hide CallSites, IsHit, IsPos, At, ChainBelow;
    forall k | 0 <= k < |sites|
      ensures sites[k].pos != [] && IsHit(t, sites[k].pos) && sites[k].stack == ChainBelow(t, sites[k].pos)
    {
      CallSitesExact(t, sites[k].pos, sites[k].stack);
      assert sites[k] == Site(sites[k].pos, sites[k].stack) && sites[k] in sites;
    }
    forall p | p != [] && IsHit(t, p)
      ensures exists k :: 0 <= k < |sites| && sites[k].pos == p
    {
      HitHasSite(t, sites, p);
    }
  }

  lemma HitHasSite(t: Tree, sites: seq<Site>, p: Pos)
    requires sites == CallSites(t, 0, [], []) && p != [] && IsHit(t, p)
    ensures exists k :: 0 <= k < |sites| && sites[k].pos == p
  {
    CallSitesExact(t, p, ChainBelow(t, p));
    var s := Site(p, ChainBelow(t, p));
    assert s in sites;
    var k :| 0 <= k < |sites| && sites[k] == s;
    assert sites[k].pos == p;
  }

  lemma RootIsPlain(t: Tree)
    requires t.kind == Plain
    ensures !IsHit(t, [])
  {
  }

  /** The chain from the root, against the chain below it. */
  lemma RootApart(t: Tree, p: Pos)
    requires p != [] && IsHit(t, p)
    ensures Last(Chain(t, p)) == Last(ChainBelow(t, p)) <==> !(t.kind.Func? && ChainBelow(t, p) == [])
  {
    var below := ChainBelow(t, p);
    if t.kind.Func? {
      assert Chain(t, p) == [t.kind.name] + below;
    } else {
      assert Chain(t, p) == below;
    }
  }
}

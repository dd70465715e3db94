/**
 The pruned directory walk (scripts/tree_walk.py, `walk_files`): never entering a
 skipped directory gives exactly what filtering the full walk would, sorted.
 */
module TreeWalk {
  import opened Ordering

  datatype Dir = Dir(files: seq<string>, subdirs: seq<Sub>)

  datatype Sub = Sub(name: string, dir: Dir)

  type Path = seq<string>

  // ----- the full walk and the filter ---------------------------------------------------

  function FilesIn(files: seq<string>, at: Path, wanted: string -> bool): seq<Path> {
    if files == [] then []
    else (if wanted(files[0]) then [at + [files[0]]] else []) + FilesIn(files[1..], at, wanted)
  }

  /** Every file below `d`, top down. */
  function AllFiles(d: Dir, at: Path): seq<Path> {
    FilesIn(d.files, at, _ => true) + AllBelow(d.subdirs, at)
  }

  function AllBelow(subs: seq<Sub>, at: Path): seq<Path> {
    if subs == [] then [] else AllFiles(subs[0].dir, at + [subs[0].name]) + AllBelow(subs[1..], at)
  }

  /** The file's name is wanted, and no directory strictly between the root (whose
      path has `n` parts) and the file is skipped. */
  predicate Keeps(p: Path, n: nat, skip: set<string>, wanted: string -> bool) {
    |p| > n && wanted(p[|p| - 1]) && forall i :: n <= i < |p| - 1 ==> p[i] !in skip
  }

  function Filter(ps: seq<Path>, n: nat, skip: set<string>, wanted: string -> bool): seq<Path> {
    if ps == [] then []
    else (if Keeps(ps[0], n, skip, wanted) then [ps[0]] else []) + Filter(ps[1..], n, skip, wanted)
  }

  // ----- the pruned walk -------------------------------------------------------------------

  function Pruned(d: Dir, at: Path, skip: set<string>, wanted: string -> bool): seq<Path> {
    FilesIn(d.files, at, wanted) + PrunedBelow(d.subdirs, at, skip, wanted)
  }

  function PrunedBelow(subs: seq<Sub>, at: Path, skip: set<string>, wanted: string -> bool): seq<Path> {
    if subs == [] then []
    else (if subs[0].name in skip then [] else Pruned(subs[0].dir, at + [subs[0].name], skip, wanted))
         + PrunedBelow(subs[1..], at, skip, wanted)
  }

  // ----- pruning is filtering ----------------------------------------------------------------

  lemma {:induction false} FilterAppend(a: seq<Path>, b: seq<Path>, n: nat, skip: set<string>, wanted: string -> bool)
    ensures Filter(a + b, n, skip, wanted) == Filter(a, n, skip, wanted) + Filter(b, n, skip, wanted)
  {
    if a == [] {
      assert a + b == b;
    } else {
      assert (a + b)[1..] == a[1..] + b;
      FilterAppend(a[1..], b, n, skip, wanted);
    }
  }

  lemma {:induction false} FilterNone(ps: seq<Path>, n: nat, skip: set<string>, wanted: string -> bool)
    requires forall p :: p in ps ==> !Keeps(p, n, skip, wanted)
    ensures Filter(ps, n, skip, wanted) == []
  {
    if ps != [] { FilterNone(ps[1..], n, skip, wanted); }
  }

  lemma {:induction false} FilterFiles(files: seq<string>, at: Path, n: nat, skip: set<string>, wanted: string -> bool)
    requires n <= |at| && forall i :: n <= i < |at| ==> at[i] !in skip
    ensures Filter(FilesIn(files, at, _ => true), n, skip, wanted) == FilesIn(files, at, wanted)
  {
    if files != [] {
      var p := at + [files[0]];
      var all := FilesIn(files, at, _ => true);
      assert all[0] == p && all[1..] == FilesIn(files[1..], at, _ => true);
      assert Keeps(p, n, skip, wanted) <==> wanted(files[0]);
      FilterFiles(files[1..], at, n, skip, wanted);
    }
  }

  /** Every path of a walk lies below where it starts. */
  lemma {:induction false} AllFilesBelow(d: Dir, at: Path, p: Path)
    requires p in AllFiles(d, at)
    ensures at < p
    decreases d, 1
  {
    if p in FilesIn(d.files, at, _ => true) {
      FilesInBelow(d.files, at, p);
    } else {
      AllBelowBelow(d.subdirs, at, p);
    }
  }

  lemma {:induction false} FilesInBelow(files: seq<string>, at: Path, p: Path)
    requires p in FilesIn(files, at, _ => true)
    ensures exists f :: f in files && p == at + [f]
  {
    if p != at + [files[0]] { FilesInBelow(files[1..], at, p); }
  }

  lemma {:induction false} AllBelowBelow(subs: seq<Sub>, at: Path, p: Path)
    requires p in AllBelow(subs, at)
    ensures exists s :: s in subs && at + [s.name] < p && p in AllFiles(s.dir, at + [s.name])
    decreases subs, 0
  {
    if p in AllFiles(subs[0].dir, at + [subs[0].name]) {
      AllFilesBelow(subs[0].dir, at + [subs[0].name], p);
      assert subs[0] in subs;
    } else {
      AllBelowBelow(subs[1..], at, p);
    }
  }

  /** Not entering a skipped directory is the same as dropping what is below it. */
  lemma {:induction false} PrunedIsFiltered(d: Dir, at: Path, n: nat, skip: set<string>, wanted: string -> bool)
    requires n <= |at| && forall i :: n <= i < |at| ==> at[i] !in skip
    ensures Pruned(d, at, skip, wanted) == Filter(AllFiles(d, at), n, skip, wanted)
    decreases d, 1
  {
    FilterFiles(d.files, at, n, skip, wanted);
    FilterAppend(FilesIn(d.files, at, _ => true), AllBelow(d.subdirs, at), n, skip, wanted);
    PrunedBelowIsFiltered(d.subdirs, at, n, skip, wanted);
  }

  lemma {:induction false} PrunedBelowIsFiltered(subs: seq<Sub>, at: Path, n: nat, skip: set<string>, wanted: string -> bool)
    requires n <= |at| && forall i :: n <= i < |at| ==> at[i] !in skip
    ensures PrunedBelow(subs, at, skip, wanted) == Filter(AllBelow(subs, at), n, skip, wanted)
    decreases subs, 0
  {
    if subs != [] {
      var here := at + [subs[0].name];
      var below := AllFiles(subs[0].dir, here);
      FilterAppend(below, AllBelow(subs[1..], at), n, skip, wanted);
      PrunedBelowIsFiltered(subs[1..], at, n, skip, wanted);
      if subs[0].name in skip {
        forall p | p in below
          ensures !Keeps(p, n, skip, wanted)
        {
          AllFilesBelow(subs[0].dir, here, p);
          assert p[|at|] == here[|at|];
        }
        FilterNone(below, n, skip, wanted);
      } else {
        PrunedIsFiltered(subs[0].dir, here, n, skip, wanted);
      }
    }
  }

  // ----- the walk as the source runs it -----------------------------------------------------------

  function Size(d: Dir): nat {
    1 + Sizes(d.subdirs)
  }

  function Sizes(subs: seq<Sub>): nat {
    if subs == [] then 0 else Size(subs[0].dir) + Sizes(subs[1..])
  }

  function PendingSize(todo: seq<(Path, Dir)>): nat {
    if todo == [] then 0 else Size(todo[0].1) + PendingSize(todo[1..])
  }

  function Pending(todo: seq<(Path, Dir)>, skip: set<string>, wanted: string -> bool): seq<Path> {
    if todo == [] then [] else Pruned(todo[0].1, todo[0].0, skip, wanted) + Pending(todo[1..], skip, wanted)
  }

  /** The subdirectories left after pruning, as entries still to visit. */
  function Enter(subs: seq<Sub>, at: Path, skip: set<string>): seq<(Path, Dir)> {
    if subs == [] then []
    else (if subs[0].name in skip then [] else [(at + [subs[0].name], subs[0].dir)]) + Enter(subs[1..], at, skip)
  }

  lemma {:induction false} PendingAppend(a: seq<(Path, Dir)>, b: seq<(Path, Dir)>, skip: set<string>, wanted: string -> bool)
    ensures Pending(a + b, skip, wanted) == Pending(a, skip, wanted) + Pending(b, skip, wanted)
    ensures PendingSize(a + b) == PendingSize(a) + PendingSize(b)
  {
    if a == [] {
      assert a + b == b;
    } else {
      assert (a + b)[1..] == a[1..] + b;
      PendingAppend(a[1..], b, skip, wanted);
    }
  }

  lemma {:induction false} EnterIsBelow(subs: seq<Sub>, at: Path, skip: set<string>, wanted: string -> bool)
    ensures Pending(Enter(subs, at, skip), skip, wanted) == PrunedBelow(subs, at, skip, wanted)
    ensures PendingSize(Enter(subs, at, skip)) <= Sizes(subs)
  {
    if subs != [] {
      EnterIsBelow(subs[1..], at, skip, wanted);
      var rest := Enter(subs[1..], at, skip);
      if subs[0].name !in skip {
        var e := (at + [subs[0].name], subs[0].dir);
        assert ([e] + rest)[1..] == rest;
      } else {
        assert [] + rest == rest;
      }
    }
  }

  /** `walk_files`: prune in place while `os.walk` descends, extend, sort. */
  method WalkFiles(root: Dir, at: Path, skip: set<string>, wanted: string -> bool) returns (found: seq<Path>)
    ensures found == Sort(Filter(AllFiles(root, at), |at|, skip, wanted), PathLe)
    ensures Sorted(found, PathLe) && multiset(found) == multiset(Filter(AllFiles(root, at), |at|, skip, wanted))
    ensures forall p :: p in found ==> at <= p
    ensures forall q :: at + q in found <==> IsFile(root, q) && Keeps(q, 0, skip, wanted)
    ensures WellFormed(root) ==> Distinct(found)
  {
    found := [];
    var todo := [(at, root)];
    assert todo[1..] == [] && Pending(todo, skip, wanted) == Pruned(root, at, skip, wanted);
    while todo != []
      invariant multiset(found) + multiset(Pending(todo, skip, wanted)) == multiset(Pruned(root, at, skip, wanted))
      decreases PendingSize(todo)
    {
      var directory, d := todo[0].0, todo[0].1;
      var kept := Enter(d.subdirs, directory, skip);
      PendingAppend(kept, todo[1..], skip, wanted);
      EnterIsBelow(d.subdirs, directory, skip, wanted);
      found := found + FilesIn(d.files, directory, wanted);
      todo := kept + todo[1..];
    }
    PrunedIsFiltered(root, at, |at|, skip, wanted);
    PathLeIsTotal();
    SortKeeps(found, PathLe);
    SortKeeps(Filter(AllFiles(root, at), |at|, skip, wanted), PathLe);
    assert multiset(Pending([], skip, wanted)) == multiset{};
    found := Sort(found, PathLe);
    SortedUnique(found, Sort(Filter(AllFiles(root, at), |at|, skip, wanted), PathLe), PathLe);
    AnswerIsExact(root, at, skip, wanted, found);
  }

  lemma AnswerIsExact(root: Dir, at: Path, skip: set<string>, wanted: string -> bool, found: seq<Path>)
    requires multiset(found) == multiset(Filter(AllFiles(root, at), |at|, skip, wanted))
    ensures forall p :: p in found ==> at <= p
    ensures forall q :: at + q in found <==> IsFile(root, q) && Keeps(q, 0, skip, wanted)
    ensures WellFormed(root) ==> Distinct(found)
  {
    hide Filter, AllFiles, IsFile, Keeps, WellFormed;
    var all := Filter(AllFiles(root, at), |at|, skip, wanted);
    forall p ensures p in found <==> p in all { assert p in multiset(found) <==> p in multiset(all); }
    forall p | p in found ensures at <= p {
      FilterMember(AllFiles(root, at), |at|, skip, wanted, p);
      AllFilesBelow(root, at, p);
    }
    forall q ensures at + q in found <==> IsFile(root, q) && Keeps(q, 0, skip, wanted) { AnswerIff(root, at, skip, wanted, q); }
    if WellFormed(root) {
      EachFileOnce(root, at, skip, wanted);
      DistinctPermutes(all, found);
    }
  }

  // ----- what is in the answer -----------------------------------------------------------------------

  /** `p`, relative to `d`, is a file. */
  ghost predicate IsFile(d: Dir, p: Path)
    decreases |p|
  {
    if |p| == 0 then false
    else if |p| == 1 then p[0] in d.files
    else exists s :: s in d.subdirs && s.name == p[0] && IsFile(s.dir, p[1..])
  }

  /** Names are unique within a directory, as in a file system. */
  ghost predicate WellFormed(d: Dir) {
    && (forall i, j :: 0 <= i < j < |d.files| ==> d.files[i] != d.files[j])
    && (forall i, j :: 0 <= i < j < |d.subdirs| ==> d.subdirs[i].name != d.subdirs[j].name)
    && (forall s :: s in d.subdirs ==> WellFormed(s.dir))
  }

  lemma {:induction false} FilterMember(ps: seq<Path>, n: nat, skip: set<string>, wanted: string -> bool, p: Path)
    ensures p in Filter(ps, n, skip, wanted) <==> p in ps && Keeps(p, n, skip, wanted)
  {
    if ps != [] { FilterMember(ps[1..], n, skip, wanted, p); }
  }

  lemma {:induction false} FilesInMember(files: seq<string>, at: Path, f: string)
    requires f in files
    ensures at + [f] in FilesIn(files, at, _ => true)
  {
    if files[0] != f { FilesInMember(files[1..], at, f); }
  }

  lemma {:induction false} AllBelowMember(subs: seq<Sub>, at: Path, s: Sub, p: Path)
    requires s in subs && p in AllFiles(s.dir, at + [s.name])
    ensures p in AllBelow(subs, at)
  {
    if subs[0] != s { AllBelowMember(subs[1..], at, s, p); }
  }

  /** The full walk yields exactly the files. */
  lemma {:induction false} AllFilesIff(d: Dir, at: Path, q: Path)
    ensures at + q in AllFiles(d, at) <==> IsFile(d, q)
    decreases |q|
  {
    var p := at + q;
    if p in FilesIn(d.files, at, _ => true) {
      FilesInBelow(d.files, at, p);
      var f :| f in d.files && p == at + [f];
      assert q == p[|at|..] == [f];
    } else if p in AllBelow(d.subdirs, at) {
      AllBelowBelow(d.subdirs, at, p);
      var s :| s in d.subdirs && at + [s.name] < p && p in AllFiles(s.dir, at + [s.name]);
      assert q == p[|at|..] && q[0] == p[|at|] == (at + [s.name])[|at|];
      assert |q| > 1;
      assert p == (at + [s.name]) + q[1..];
      AllFilesIff(s.dir, at + [s.name], q[1..]);
    }
    if IsFile(d, q) {
      if |q| == 1 {
        assert q == [q[0]];
        FilesInMember(d.files, at, q[0]);
      } else {
        var s :| s in d.subdirs && s.name == q[0] && IsFile(s.dir, q[1..]);
        assert p == (at + [s.name]) + q[1..];
        AllFilesIff(s.dir, at + [s.name], q[1..]);
        AllBelowMember(d.subdirs, at, s, p);
      }
    }
  }

  /** The answer holds exactly the wanted files with no skipped directory above
      them below the root, whatever the root itself is called. */
  lemma AnswerIff(root: Dir, at: Path, skip: set<string>, wanted: string -> bool, q: Path)
    ensures at + q in Filter(AllFiles(root, at), |at|, skip, wanted) <==> IsFile(root, q) && Keeps(q, 0, skip, wanted)
  {
    FilterMember(AllFiles(root, at), |at|, skip, wanted, at + q);
    AllFilesIff(root, at, q);
    KeepsShift(at, q, skip, wanted);
  }

  lemma KeepsShift(at: Path, q: Path, skip: set<string>, wanted: string -> bool)
    ensures Keeps(at + q, |at|, skip, wanted) <==> Keeps(q, 0, skip, wanted)
  {
    var p := at + q;
    assert forall i :: |at| <= i < |p| ==> p[i] == q[i - |at|];
    if Keeps(p, |at|, skip, wanted) {
      forall i | 0 <= i < |q| - 1 ensures q[i] !in skip { assert p[i + |at|] == q[i]; }
    }
  }

  lemma {:induction false} FilesDistinct(files: seq<string>, at: Path)
    requires forall i, j :: 0 <= i < j < |files| ==> files[i] != files[j]
    ensures Distinct(FilesIn(files, at, _ => true))
  {
    if files != [] {
      FilesDistinct(files[1..], at);
      var rest := FilesIn(files[1..], at, _ => true);
      assert forall f :: f in files[1..] ==> (at + [f])[|at|] != files[0];
      assert (at + [files[0]])[|at|] == files[0];
      forall p | p in [at + [files[0]]] ensures p !in rest {
        if p in rest {
          FilesInBelow(files[1..], at, p);
        }
      }
      DistinctAppend([at + [files[0]]], rest);
    }
  }

  lemma {:induction false} AllDistinct(d: Dir, at: Path)
    requires WellFormed(d)
    ensures Distinct(AllFiles(d, at))
    decreases d, 1
  {
    var files, below := FilesIn(d.files, at, _ => true), AllBelow(d.subdirs, at);
    FilesDistinct(d.files, at);
    BelowDistinct(d.subdirs, at);
    forall p | p in files ensures p !in below {
      FilesInBelow(d.files, at, p);
      if p in below { AllBelowBelow(d.subdirs, at, p); }
    }
    DistinctAppend(files, below);
  }

  lemma {:induction false} BelowDistinct(subs: seq<Sub>, at: Path)
    requires forall i, j :: 0 <= i < j < |subs| ==> subs[i].name != subs[j].name
    requires forall s :: s in subs ==> WellFormed(s.dir)
    ensures Distinct(AllBelow(subs, at))
    decreases subs, 0
  {
    if subs != [] {
      var here := at + [subs[0].name];
      AllDistinct(subs[0].dir, here);
      BelowDistinct(subs[1..], at);
      forall p | p in AllFiles(subs[0].dir, here) ensures p !in AllBelow(subs[1..], at) {
        AllFilesBelow(subs[0].dir, here, p);
        assert p[|at|] == subs[0].name;
        if p in AllBelow(subs[1..], at) {
          AllBelowBelow(subs[1..], at, p);
        }
      }
      DistinctAppend(AllFiles(subs[0].dir, here), AllBelow(subs[1..], at));
    }
  }

  lemma {:induction false} FilterDistinct(ps: seq<Path>, n: nat, skip: set<string>, wanted: string -> bool)
    requires Distinct(ps)
    ensures Distinct(Filter(ps, n, skip, wanted))
  {
    if ps != [] {
      FilterDistinct(ps[1..], n, skip, wanted);
      forall p | p in [ps[0]] ensures p !in Filter(ps[1..], n, skip, wanted) { FilterMember(ps[1..], n, skip, wanted, p); }
      DistinctAppend(if Keeps(ps[0], n, skip, wanted) then [ps[0]] else [], Filter(ps[1..], n, skip, wanted));
    }
  }

  /** Each file once: the answer of `WalkFiles` is a permutation of this. */
  lemma EachFileOnce(root: Dir, at: Path, skip: set<string>, wanted: string -> bool)
    requires WellFormed(root)
    ensures Distinct(Filter(AllFiles(root, at), |at|, skip, wanted))
  {
    AllDistinct(root, at);
    FilterDistinct(AllFiles(root, at), |at|, skip, wanted);
  }
}

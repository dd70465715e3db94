/**
 Python's string and tuple ordering, `sorted`, and `str.strip`.
 */
module Ordering {

  // ----- total orders ---------------------------------------------------------------

  ghost predicate TotalOrder<T(!new)>(le: (T, T) -> bool) {
    && (forall a, b :: le(a, b) || le(b, a))
    && (forall a, b :: le(a, b) && le(b, a) ==> a == b)
    && (forall a, b, c :: le(a, b) && le(b, c) ==> le(a, c))
  }

  /** A total order but for ties, as a sort key gives. */
  ghost predicate TotalPreorder<T(!new)>(le: (T, T) -> bool) {
    (forall a, b :: le(a, b) || le(b, a)) && (forall a, b, c :: le(a, b) && le(b, c) ==> le(a, c))
  }

  ghost predicate Sorted<T>(s: seq<T>, le: (T, T) -> bool) {
    forall i, j :: 0 <= i < j < |s| ==> le(s[i], s[j])
  }

  ghost predicate Distinct<T>(s: seq<T>) {
    forall i, j :: 0 <= i < j < |s| ==> s[i] != s[j]
  }

  lemma DistinctAppend<T>(a: seq<T>, b: seq<T>)
    requires Distinct(a) && Distinct(b) && forall x :: x in a ==> x !in b
    ensures Distinct(a + b)
  {
    forall i, j | 0 <= i < j < |a + b|
      ensures (a + b)[i] != (a + b)[j]
    {
      if i < |a| <= j { assert a[i] in a && b[j - |a|] in b; }
    }
  }

  /** Whether elements repeat does not depend on their order. */
  lemma DistinctPermutes<T>(a: seq<T>, b: seq<T>)
    requires Distinct(a) && multiset(a) == multiset(b)
    ensures Distinct(b)
  {
    forall i, j | 0 <= i < j < |b|
      ensures b[i] != b[j]
    {
      OnceIfDistinct(a, b[i]);
      TwiceIfEqual(b, i, j);
    }
  }

  lemma TwiceIfEqual<T>(b: seq<T>, i: nat, j: nat)
    requires i < j < |b|
    ensures b[i] == b[j] ==> multiset(b)[b[i]] >= 2
  {
    assert b == b[..j] + [b[j]] + b[j + 1..];
    assert b[..j][i] in b[..j];
  }

  lemma {:induction false} OnceIfDistinct<T>(a: seq<T>, x: T)
    requires Distinct(a)
    ensures multiset(a)[x] <= 1
  {
    if a != [] {
      assert a == [a[0]] + a[1..];
      OnceIfDistinct(a[1..], x);
      assert a[0] !in a[1..];
    }
  }

  /** Strings compare by code points, first difference first. */
  predicate StringLe(a: string, b: string) {
    a == [] || (b != [] && (a[0] < b[0] || (a[0] == b[0] && StringLe(a[1..], b[1..]))))
  }

  /** Paths compare part by part. */
  predicate PathLe(a: seq<string>, b: seq<string>) {
    a == [] || (b != [] && if a[0] == b[0] then PathLe(a[1..], b[1..]) else StringLe(a[0], b[0]))
  }

  lemma {:induction false} StringTotal(a: string, b: string)
    ensures StringLe(a, b) || StringLe(b, a)
    ensures StringLe(a, b) && StringLe(b, a) ==> a == b
  {
    if a != [] && b != [] && a[0] == b[0] {
      StringTotal(a[1..], b[1..]);
      assert a == [a[0]] + a[1..] && b == [b[0]] + b[1..];
    }
  }

  lemma {:induction false} StringTransitive(a: string, b: string, c: string)
    requires StringLe(a, b) && StringLe(b, c)
    ensures StringLe(a, c)
  {
    if a != [] && a[0] == b[0] && b[0] == c[0] {
      StringTransitive(a[1..], b[1..], c[1..]);
    }
  }

  lemma {:induction false} PathTotal(a: seq<string>, b: seq<string>)
    ensures PathLe(a, b) || PathLe(b, a)
    ensures PathLe(a, b) && PathLe(b, a) ==> a == b
  {
    if a != [] && b != [] {
      StringTotal(a[0], b[0]);
      if a[0] == b[0] {
        PathTotal(a[1..], b[1..]);
        assert a == [a[0]] + a[1..] && b == [b[0]] + b[1..];
      }
    }
  }

  lemma {:induction false} PathTransitive(a: seq<string>, b: seq<string>, c: seq<string>)
    requires PathLe(a, b) && PathLe(b, c)
    ensures PathLe(a, c)
  {
    if a != [] {
      if a[0] == b[0] && b[0] == c[0] {
        PathTransitive(a[1..], b[1..], c[1..]);
      } else {
        if a[0] == b[0] { StringTotal(b[0], c[0]); } else if b[0] == c[0] { StringTotal(a[0], b[0]); } else {
          StringTransitive(a[0], b[0], c[0]);
          StringTotal(a[0], b[0]);
          StringTotal(b[0], c[0]);
        }
      }
    }
  }

  lemma PathLeIsTotal()
    ensures TotalOrder(PathLe)
  {
    forall a, b ensures (PathLe(a, b) || PathLe(b, a)) && (PathLe(a, b) && PathLe(b, a) ==> a == b) {
      PathTotal(a, b);
    }
    forall a, b, c | PathLe(a, b) && PathLe(b, c) ensures PathLe(a, c) {
      PathTransitive(a, b, c);
    }
  }

  // ----- sorted ----------------------------------------------------------------------

  function Insert<T>(x: T, s: seq<T>, le: (T, T) -> bool): seq<T> {
    if s == [] then [x]
    else if le(x, s[0]) then [x] + s
    else [s[0]] + Insert(x, s[1..], le)
  }

  function Sort<T>(s: seq<T>, le: (T, T) -> bool): seq<T> {
    if s == [] then [] else Insert(s[0], Sort(s[1..], le), le)
  }

  lemma {:induction false} InsertKeeps<T(!new)>(x: T, s: seq<T>, le: (T, T) -> bool)
    requires TotalPreorder(le) && Sorted(s, le)
    ensures multiset(Insert(x, s, le)) == multiset(s) + multiset{x}
    ensures Sorted(Insert(x, s, le), le)
  {
    if s != [] {
      assert s == [s[0]] + s[1..];
      if le(x, s[0]) {
        forall k | 0 <= k < |s| ensures le(x, s[k]) { assert k == 0 || le(s[0], s[k]); }
      } else {
        InsertKeeps(x, s[1..], le);
        var r := Insert(x, s[1..], le);
        forall y | y in r
          ensures le(s[0], y)
        {
          assert y in multiset(r);
          if y != x { assert y in s[1..]; }
        }
      }
    }
  }

  /** `sorted`: a permutation in order. */
  lemma {:induction false} SortKeeps<T(!new)>(s: seq<T>, le: (T, T) -> bool)
    requires TotalPreorder(le)
    ensures Sorted(Sort(s, le), le) && multiset(Sort(s, le)) == multiset(s)
  {
    if s != [] {
      SortKeeps(s[1..], le);
      InsertKeeps(s[0], Sort(s[1..], le), le);
      assert s == [s[0]] + s[1..];
    }
  }

  /** A sorted sequence is determined by its elements. */
  lemma {:induction false} SortedUnique<T(!new)>(a: seq<T>, b: seq<T>, le: (T, T) -> bool)
    requires TotalOrder(le) && Sorted(a, le) && Sorted(b, le) && multiset(a) == multiset(b)
    ensures a == b
  {
    assert |a| == |multiset(a)| && |b| == |multiset(b)|;
    if a != [] {
      FirstIsLeast(a, b, le);
      FirstIsLeast(b, a, le);
      DropFirst(a);
      DropFirst(b);
      SortedUnique(a[1..], b[1..], le);
    }
  }

  lemma FirstIsLeast<T(!new)>(a: seq<T>, b: seq<T>, le: (T, T) -> bool)
    requires TotalOrder(le) && Sorted(a, le) && multiset(a) == multiset(b) && a != [] && b != []
    ensures le(a[0], b[0])
  {
    assert b[0] in multiset(a);
    var i :| 0 <= i < |a| && a[i] == b[0];
    assert i == 0 || le(a[0], a[i]);
  }

  lemma DropFirst<T>(a: seq<T>)
    requires a != []
    ensures a == [a[0]] + a[1..] && multiset(a[1..]) == multiset(a) - multiset{a[0]}
  {
    assert a == [a[0]] + a[1..];
  }

  lemma {:induction false} HasLeast(s: set<string>)
    requires s != {}
    ensures exists x :: x in s && forall y :: y in s ==> StringLe(x, y)
    decreases |s|
  {
    var x :| x in s;
    if s == {x} {
      StringTotal(x, x);
    } else {
      assert s - {x} != {};
      HasLeast(s - {x});
      var z :| z in s - {x} && forall y :: y in s - {x} ==> StringLe(z, y);
      SmallerOfTwo(s, x, z);
    }
  }

  lemma SmallerOfTwo(s: set<string>, x: string, z: string)
    requires x in s && z in s && forall y :: y in s && y != x ==> StringLe(z, y)
    ensures exists w :: w in s && forall y :: y in s ==> StringLe(w, y)
  {
    StringTotal(x, z);
    StringTotal(x, x);
    if StringLe(x, z) {
      forall y | y in s ensures StringLe(x, y) {
        if y != x { StringTransitive(x, z, y); }
      }
    } else {
      assert forall y :: y in s ==> StringLe(z, y);
    }
  }

  function Least(s: set<string>): (x: string)
    requires s != {}
    ensures x in s && forall y :: y in s ==> StringLe(x, y)
  {
    HasLeast(s);
    assert forall a, b :: a in s && b in s && StringLe(a, b) && StringLe(b, a) ==> a == b by {
      forall a, b | a in s && b in s && StringLe(a, b) && StringLe(b, a) ensures a == b { StringTotal(a, b); }
    }
    var x :| x in s && forall y :: y in s ==> StringLe(x, y);
    x
  }

  /** `sorted` of a set of names. */
  function SortedNames(s: set<string>): (r: seq<string>)
    ensures forall x :: x in r <==> x in s
    decreases |s|
  {
    if s == {} then [] else
      var x := Least(s);
      [x] + SortedNames(s - {x})
  }

  /** Each name once, in order. */
  lemma {:induction false} SortedNamesOrdered(s: set<string>)
    ensures Distinct(SortedNames(s)) && Sorted(SortedNames(s), StringLe)
    decreases |s|
  {
    if s != {} {
      var x := Least(s);
      var rest := SortedNames(s - {x});
      SortedNamesOrdered(s - {x});
      forall j | 0 <= j < |rest| ensures rest[j] != x && StringLe(x, rest[j]) { assert rest[j] in rest; }
    }
  }

  // ----- str.strip ---------------------------------------------------------------------

  /** The characters `str.strip` removes. */
  predicate IsSpace(c: char) {
    var u := c as int;
    0x09 <= u <= 0x0D || 0x1C <= u <= 0x20 || u == 0x85 || u == 0xA0 || u == 0x1680 || 0x2000 <= u <= 0x200A ||
    u == 0x2028 || u == 0x2029 || u == 0x202F || u == 0x205F || u == 0x3000
  }

  /** One by one: the five ASCII controls and the blank, the four separators, next line, no-break
      space, and the Unicode spaces. */
  lemma SpacesAre(c: char)
    ensures IsSpace(c) <==>
            (c as int) in {9, 10, 11, 12, 13, 32, 28, 29, 30, 31, 133, 160, 5760, 8192, 8193, 8194, 8195, 8196, 8197,
                           8198, 8199, 8200, 8201, 8202, 8232, 8233, 8239, 8287, 12288}
  {
  }

  function LStrip(s: string): string {
    if s != [] && IsSpace(s[0]) then LStrip(s[1..]) else s
  }

  function RStrip(s: string): string {
    if s != [] && IsSpace(s[|s| - 1]) then RStrip(s[..|s| - 1]) else s
  }

  function Strip(s: string): string {
    RStrip(LStrip(s))
  }

  /** What is stripped is space, what is left neither starts nor ends with one, and
      nothing else changes. */
  lemma StripIs(s: string) returns (before: string, after: string)
    ensures s == before + Strip(s) + after
    ensures (forall c :: c in before ==> IsSpace(c)) && (forall c :: c in after ==> IsSpace(c))
    ensures Strip(s) != "" ==> !IsSpace(Strip(s)[0]) && !IsSpace(Strip(s)[|Strip(s)| - 1])
  {
    before := LStripIs(s);
    after := RStripIs(LStrip(s));
    assert s == before + (Strip(s) + after);
    if Strip(s) != "" { assert Strip(s)[0] == LStrip(s)[0]; }
  }

  lemma {:induction false} LStripIs(s: string) returns (before: string)
    ensures s == before + LStrip(s) && (forall c :: c in before ==> IsSpace(c))
    ensures LStrip(s) != "" ==> !IsSpace(LStrip(s)[0])
  {
    if s != "" && IsSpace(s[0]) {
      var more := LStripIs(s[1..]);
      before := [s[0]] + more;
    } else {
      before := "";
    }
  }

  lemma {:induction false} RStripIs(s: string) returns (after: string)
    ensures s == RStrip(s) + after && (forall c :: c in after ==> IsSpace(c))
    ensures RStrip(s) != "" ==> !IsSpace(RStrip(s)[|RStrip(s)| - 1])
  {
    if s != "" && IsSpace(s[|s| - 1]) {
      var more := RStripIs(s[..|s| - 1]);
      after := more + [s[|s| - 1]];
    } else {
      after := "";
    }
  }
}

/**
 What `_signature` (scripts/check_openapi_fresh.py) forgets, said without it.

 Two edits change a document without changing its contract: putting in or taking
 out an ignored entry, and swapping two neighbouring entries -- of the document or
 of anything inside it.  Two documents have one signature exactly when a chain of
 such edits leads from one to the other.
 */
module ContractEdits {
  import opened Ordering
  import opened OpenApi

  // ----- edits, and chains of them ------------------------------------------------------

  /** `fs` is `es` with one ignored entry put in. */
  ghost predicate Inserted(es: seq<Entry>, fs: seq<Entry>) {
    |fs| == |es| + 1 && exists i :: 0 <= i <= |es| && fs[i].key in IGNORED && fs == es[..i] + [fs[i]] + es[i..]
  }

  /** `fs` is `es` with two neighbours swapped. */
  ghost predicate Swapped(es: seq<Entry>, fs: seq<Entry>) {
    exists i :: 0 <= i < |es| - 1 && es[i].key != es[i + 1].key && fs == es[..i] + [es[i + 1], es[i]] + es[i + 2..]
  }

  /** One edit, at whatever depth. */
  ghost predicate Edited(a: Doc, b: Doc)
    decreases a
  {
    match a
    case Arr(xs) =>
      b.Arr? && |b.items| == |xs| &&
      exists i :: 0 <= i < |xs| && b.items == xs[i := b.items[i]] && Edited(xs[i], b.items[i])
    case Obj(es) =>
      b.Obj? && (Inserted(es, b.entries) || Swapped(es, b.entries) ||
                 (|b.entries| == |es| && exists i :: 0 <= i < |es| && b.entries == es[i := Entry(es[i].key, b.entries[i].value)] &&
                                                     Edited(es[i].value, b.entries[i].value)))
    case _ => false
  }

  ghost predicate Joined(a: Doc, b: Doc) {
    Edited(a, b) || Edited(b, a)
  }

  ghost predicate IsChain(docs: seq<Doc>, a: Doc, b: Doc) {
    docs != [] && docs[0] == a && docs[|docs| - 1] == b && forall i, j :: 0 <= i && j == i + 1 < |docs| ==> Joined(docs[i], docs[j])
  }

  /** A chain of edits leads from one document to the other. */
  ghost predicate Linked(a: Doc, b: Doc) {
    exists docs :: IsChain(docs, a, b)
  }

  lemma LinkedSelf(a: Doc)
    ensures Linked(a, a)
  {
    assert IsChain([a], a, a);
  }

  lemma LinkedOnce(a: Doc, b: Doc)
    requires Joined(a, b)
    ensures Linked(a, b)
  {
    assert IsChain([a, b], a, b);
  }

  lemma LinkedBack(a: Doc, b: Doc)
    requires Linked(a, b)
    ensures Linked(b, a)
  {
    var docs :| IsChain(docs, a, b);
    var back := seq(|docs|, i requires 0 <= i < |docs| => docs[|docs| - 1 - i]);
    forall i, j | 0 <= i && j == i + 1 < |back|
      ensures Joined(back[i], back[j])
    {
      assert Joined(docs[|docs| - 1 - j], docs[|docs| - 1 - i]);
    }
    assert IsChain(back, b, a);
  }

  lemma LinkedThen(a: Doc, b: Doc, c: Doc)
    requires Linked(a, b) && Linked(b, c)
    ensures Linked(a, c)
  {
    var one :| IsChain(one, a, b);
    var two :| IsChain(two, b, c);
    var all := one[..|one| - 1] + two;
    forall i, j | 0 <= i && j == i + 1 < |all|
      ensures Joined(all[i], all[j])
    {
      if j < |one| {
        assert Joined(one[i], one[j]);
      } else {
        assert Joined(two[i - (|one| - 1)], two[j - (|one| - 1)]);
      }
    }
    assert IsChain(all, a, c);
  }

  /** A chain of edits to an item is one of edits to the array. */
  lemma LiftItem(xs: seq<Doc>, i: nat, d: Doc)
    requires i < |xs| && Linked(xs[i], d)
    ensures Linked(Arr(xs), Arr(xs[i := d]))
  {
    var docs :| IsChain(docs, xs[i], d);
    var all := seq(|docs|, n requires 0 <= n < |docs| => Arr(xs[i := docs[n]]));
    forall m, n | 0 <= m && n == m + 1 < |all|
      ensures Joined(all[m], all[n])
    {
      assert Joined(docs[m], docs[n]);
      var p, q := all[m].items, all[n].items;
      assert q == p[i := q[i]] && p == q[i := p[i]];
    }
    assert xs[i := xs[i]] == xs;
    assert IsChain(all, Arr(xs), Arr(xs[i := d]));
  }

  lemma LiftValue(es: seq<Entry>, i: nat, d: Doc)
    requires i < |es| && Linked(es[i].value, d)
    ensures Linked(Obj(es), Obj(es[i := Entry(es[i].key, d)]))
  {
    var docs :| IsChain(docs, es[i].value, d);
    var all := seq(|docs|, n requires 0 <= n < |docs| => Obj(es[i := Entry(es[i].key, docs[n])]));
    forall m, n | 0 <= m && n == m + 1 < |all|
      ensures Joined(all[m], all[n])
    {
      assert Joined(docs[m], docs[n]);
      var p, q := all[m].entries, all[n].entries;
      assert q == p[i := Entry(p[i].key, q[i].value)] && p == q[i := Entry(q[i].key, p[i].value)];
    }
    assert es[i := Entry(es[i].key, es[i].value)] == es;
    assert IsChain(all, Obj(es), Obj(es[i := Entry(es[i].key, d)]));
  }

  // ----- an edit keeps the signature ----------------------------------------------------

  lemma {:induction false} LookupPatched(es: seq<Entry>, i: nat, d: Doc, k: string)
    requires i < |es| && k in KeysOf(es) && Signature(es[i].value) == Signature(d)
    ensures var fs := es[i := Entry(es[i].key, d)];
            k in KeysOf(fs) && Signature(Lookup(fs, k)) == Signature(Lookup(es, k))
    decreases |es|
  {
    hide Signature;
    var fs := es[i := Entry(es[i].key, d)];
    SameKeys(es, i, d);
    if es[0].key != k {
      var e :| e in es && e.key == k;
      assert e in es[1..];
      if i == 0 {
        assert fs[1..] == es[1..];
      } else {
        assert fs[1..] == es[1..][i - 1 := Entry(es[i].key, d)];
        LookupPatched(es[1..], i - 1, d, k);
      }
    }
  }

  lemma SameKeys(es: seq<Entry>, i: nat, d: Doc)
    requires i < |es|
    ensures KeysOf(es[i := Entry(es[i].key, d)]) == KeysOf(es)
  {
    var fs := es[i := Entry(es[i].key, d)];
    forall e | e in es ensures e.key in KeysOf(fs) { var j :| 0 <= j < |es| && es[j] == e; assert fs[j] in fs; }
    forall f | f in fs ensures f.key in KeysOf(es) { var j :| 0 <= j < |fs| && fs[j] == f; assert es[j] in es; }
  }

  lemma {:induction false} EditKeepsSignature(a: Doc, b: Doc)
    requires Edited(a, b)
    ensures Signature(a) == Signature(b)
    decreases a
  {
    match a
    case Arr(xs) =>
      var i :| 0 <= i < |xs| && b.items == xs[i := b.items[i]] && Edited(xs[i], b.items[i]);
      EditKeepsSignature(xs[i], b.items[i]);
      SameItems(xs, b.items);
    case Obj(es) =>
      hide Signature;
      var fs := b.entries;
      if Inserted(es, fs) {
        InsertKeepsSignature(es, fs);
      } else if Swapped(es, fs) {
        SwapKeepsSignature(es, fs);
      } else {
        var i :| 0 <= i < |es| && fs == es[i := Entry(es[i].key, fs[i].value)] && Edited(es[i].value, fs[i].value);
        EditKeepsSignature(es[i].value, fs[i].value);
        PatchKeepsSignature(es, i, fs[i].value);
      }
  }

  lemma InsertKeepsSignature(es: seq<Entry>, fs: seq<Entry>)
    requires Inserted(es, fs)
    ensures Signature(Obj(es)) == Signature(Obj(fs))
  {
    hide Signature;
    var i :| 0 <= i <= |es| && fs[i].key in IGNORED && fs == es[..i] + [fs[i]] + es[i..];
    IgnoredEntryIsForgotten(es[..i], fs[i], es[i..]);
    assert es[..i] + es[i..] == es;
  }

  lemma SwapKeepsSignature(es: seq<Entry>, fs: seq<Entry>)
    requires Swapped(es, fs)
    ensures Signature(Obj(es)) == Signature(Obj(fs))
  {
    hide Signature;
    var i :| 0 <= i < |es| - 1 && es[i].key != es[i + 1].key && fs == es[..i] + [es[i + 1], es[i]] + es[i + 2..];
    OrderIsForgotten(es[..i], es[i], es[i + 1], es[i + 2..]);
    assert es[..i] + [es[i], es[i + 1]] + es[i + 2..] == es;
  }

  lemma PatchKeepsSignature(es: seq<Entry>, i: nat, d: Doc)
    requires i < |es| && Signature(es[i].value) == Signature(d)
    ensures Signature(Obj(es)) == Signature(Obj(es[i := Entry(es[i].key, d)]))
  {
    hide Signature, Lookup;
    var fs := es[i := Entry(es[i].key, d)];
    SameKeys(es, i, d);
    forall k | k in Kept(es) ensures Signature(Lookup(es, k)) == Signature(Lookup(fs, k)) { LookupPatched(es, i, d, k); }
    SameEntries(es, fs);
  }

  lemma {:induction false} ChainKeepsSignature(docs: seq<Doc>, a: Doc, b: Doc)
    requires IsChain(docs, a, b)
    ensures Signature(a) == Signature(b)
    decreases |docs|
  {
    if |docs| > 1 {
      assert Joined(docs[0], docs[1]);
      if Edited(docs[0], docs[1]) { EditKeepsSignature(docs[0], docs[1]); } else { EditKeepsSignature(docs[1], docs[0]); }
      assert IsChain(docs[1..], docs[1], b);
      ChainKeepsSignature(docs[1..], docs[1], b);
    }
  }

  // ----- every document is linked to its signature -----------------------------------------

  ghost predicate UniqueKeys(es: seq<Entry>) {
    forall i, j :: 0 <= i < j < |es| ==> es[i].key != es[j].key
  }

  /** A document as Python holds it: no key twice in one dictionary. */
  ghost predicate WellFormed(d: Doc)
    decreases d
  {
    match d
    case Arr(xs) => forall i :: 0 <= i < |xs| ==> WellFormed(xs[i])
    case Obj(es) => UniqueKeys(es) && forall i :: 0 <= i < |es| ==> WellFormed(es[i].value)
    case _ => true
  }

  /** Entries before `at` stay; the entry at `at + n` moves up to `at`. */
  lemma {:induction false} Bubble(p: seq<Entry>, es: seq<Entry>, n: nat)
    requires n < |es| && UniqueKeys(es)
    ensures Linked(Obj(p + es), Obj(p + ([es[n]] + es[..n] + es[n + 1..])))
    decreases n
  {
    if n == 0 {
      assert [es[0]] + es[..0] + es[1..] == es;
      LinkedSelf(Obj(p + es));
    } else {
      var m := n - 1;
      var fs := es[..m] + [es[n], es[m]] + es[n + 1..];
      assert p + fs == (p + es)[..|p| + m] + [(p + es)[|p| + m + 1], (p + es)[|p| + m]] + (p + es)[|p| + m + 2..];
      assert Swapped(p + es, p + fs);
      LinkedOnce(Obj(p + es), Obj(p + fs));
      assert UniqueKeys(fs);
      Bubble(p, fs, m);
      assert [fs[m]] + fs[..m] + fs[m + 1..] == [es[n]] + es[..n] + es[n + 1..];
      LinkedThen(Obj(p + es), Obj(p + fs), Obj(p + ([es[n]] + es[..n] + es[n + 1..])));
    }
  }

  ghost predicate SameSet(es: seq<Entry>, fs: seq<Entry>) {
    forall e :: e in es <==> e in fs
  }

  lemma HasElement(es: seq<Entry>)
    ensures es == [] || exists e :: e in es
  {
    assert es == [] || es[0] in es;
  }

  /** The same entries in another order. */
  lemma {:induction false} Reorder(p: seq<Entry>, es: seq<Entry>, fs: seq<Entry>)
    requires UniqueKeys(es) && UniqueKeys(fs) && SameSet(es, fs)
    ensures Linked(Obj(p + es), Obj(p + fs))
    decreases |fs|
  {
    if fs == [] {
      HasElement(es);
      LinkedSelf(Obj(p + es));
    } else {
      assert fs[0] in fs;
      var n :| 0 <= n < |es| && es[n] == fs[0];
      var rest := es[..n] + es[n + 1..];
      Bubble(p, es, n);
      RestIsSame(es, n, fs);
      Reorder(p + [fs[0]], rest, fs[1..]);
      assert p + ([es[n]] + es[..n] + es[n + 1..]) == p + [fs[0]] + rest;
      assert p + [fs[0]] + fs[1..] == p + fs;
      LinkedThen(Obj(p + es), Obj(p + [fs[0]] + rest), Obj(p + fs));
    }
  }

  lemma RestIsSame(es: seq<Entry>, n: nat, fs: seq<Entry>)
    requires UniqueKeys(es) && UniqueKeys(fs) && SameSet(es, fs) && n < |es| && fs != [] && es[n] == fs[0]
    ensures UniqueKeys(es[..n] + es[n + 1..]) && UniqueKeys(fs[1..]) && SameSet(es[..n] + es[n + 1..], fs[1..])
  {
    var rest := es[..n] + es[n + 1..];
    forall e | e in rest
      ensures e in fs[1..]
    {
      assert e in es;
      var i :| 0 <= i < |rest| && rest[i] == e;
      assert e == if i < n then es[i] else es[i + 1];
      assert e.key != es[n].key;
      assert e in fs && e != fs[0];
    }
    forall e | e in fs[1..]
      ensures e in rest
    {
      var j :| 0 <= j < |fs[1..]| && fs[1..][j] == e;
      assert fs[j + 1] == e && e != fs[0];
      assert e in es;
    }
  }

  function Stripped(es: seq<Entry>): (r: seq<Entry>)
    ensures forall e :: e in r <==> e in es && e.key !in IGNORED
  {
    if es == [] then [] else (if es[0].key in IGNORED then [] else [es[0]]) + Stripped(es[1..])
  }

  lemma {:induction false} StrippedUnique(es: seq<Entry>)
    requires UniqueKeys(es)
    ensures UniqueKeys(Stripped(es))
  {
    if es != [] {
      StrippedUnique(es[1..]);
      var r := Stripped(es[1..]);
      forall j | 0 <= j < |r| ensures r[j].key != es[0].key {
        assert r[j] in r;
        var i :| 0 <= i < |es[1..]| && es[1..][i] == r[j];
        assert es[i + 1] == r[j];
      }
    }
  }

  lemma DropFirst(p: seq<Entry>, es: seq<Entry>)
    requires es != [] && es[0].key in IGNORED
    ensures Linked(Obj(p + es), Obj(p + es[1..]))
  {
    hide Linked;
    var without := p + es[1..];
    assert p + es == without[..|p|] + [(p + es)[|p|]] + without[|p|..];
    assert Inserted(without, p + es);
    assert Edited(Obj(without), Obj(p + es));
    LinkedOnce(Obj(p + es), Obj(without));
  }

  /** Ignored entries can all be taken out. */
  lemma {:induction false} StripIgnored(p: seq<Entry>, es: seq<Entry>)
    ensures Linked(Obj(p + es), Obj(p + Stripped(es)))
    decreases |es|
  {
    StrippedStep(es);
    hide Linked, Stripped;
    if es == [] {
      LinkedSelf(Obj(p + es));
    } else if es[0].key in IGNORED {
      DropFirst(p, es);
      StripIgnored(p, es[1..]);
      LinkedThen(Obj(p + es), Obj(p + es[1..]), Obj(p + Stripped(es)));
    } else {
      StripIgnored(p + [es[0]], es[1..]);
      assert p + [es[0]] + es[1..] == p + es;
      assert p + [es[0]] + Stripped(es[1..]) == p + Stripped(es);
    }
  }

  lemma StrippedStep(es: seq<Entry>)
    ensures if es == [] then Stripped(es) == []
            else Stripped(es) == if es[0].key in IGNORED then Stripped(es[1..]) else [es[0]] + Stripped(es[1..])
  {
  }

  /** The entries with their values replaced by signatures, from `n` on. */
  function Deep(es: seq<Entry>, n: nat): (r: seq<Entry>)
    requires n <= |es|
    ensures |r| == |es|
    ensures forall i :: 0 <= i < |es| ==> r[i] == if i < n then es[i] else Entry(es[i].key, Signature(es[i].value))
  {
    seq(|es|, i requires 0 <= i < |es| => if i < n then es[i] else Entry(es[i].key, Signature(es[i].value)))
  }

  lemma {:induction false} LinkValues(es: seq<Entry>, n: nat)
    requires n <= |es| && forall i :: 0 <= i < |es| ==> Linked(es[i].value, Signature(es[i].value))
    ensures Linked(Obj(es), Obj(Deep(es, n)))
    decreases |es| - n
  {
    hide Linked, Signature;
    if n == |es| {
      assert Deep(es, n) == es;
      LinkedSelf(Obj(es));
    } else {
      LinkValues(es, n + 1);
      var fs := Deep(es, n + 1);
      assert fs[n := Entry(fs[n].key, Signature(es[n].value))] == Deep(es, n);
      LiftValue(fs, n, Signature(es[n].value));
      LinkedThen(Obj(es), Obj(fs), Obj(Deep(es, n)));
    }
  }

  lemma {:induction false} LinkItems(xs: seq<Doc>, n: nat)
    requires n <= |xs| && forall i :: 0 <= i < |xs| ==> Linked(xs[i], Signature(xs[i]))
    ensures Linked(Arr(xs), Arr(xs[..n] + SignatureItems(xs, n)))
    decreases |xs| - n
  {
    hide Linked, Signature;
    if n == |xs| {
      assert xs[..n] + SignatureItems(xs, n) == xs;
      LinkedSelf(Arr(xs));
    } else {
      LinkItems(xs, n + 1);
      var ys := xs[..n + 1] + SignatureItems(xs, n + 1);
      assert ys[n] == xs[n];
      LiftItem(ys, n, Signature(xs[n]));
      assert ys[n := Signature(xs[n])] == xs[..n] + SignatureItems(xs, n);
      LinkedThen(Arr(xs), Arr(ys), Arr(xs[..n] + SignatureItems(xs, n)));
    }
  }

  /** The entries of a signature are the kept ones, by key, with their signatures. */
  lemma SignatureIsReordering(es: seq<Entry>)
    requires UniqueKeys(es)
    ensures Signature(Obj(es)).Obj?
    ensures UniqueKeys(Signature(Obj(es)).entries) && SameSet(Stripped(Deep(es, 0)), Signature(Obj(es)).entries)
  {
    var keys := SortedNames(Kept(es));
    var r := SignatureEntries(es, keys, 0);
    assert Signature(Obj(es)) == Obj(r);
    SortedNamesOrdered(Kept(es));
    hide Lookup, Signature, SignatureEntries, SortedNames, Stripped, Deep;
    forall i | 0 <= i < |r| ensures r[i].key == keys[i] { SignatureEntriesAt(es, keys, 0, i); }
    forall e | e in Stripped(Deep(es, 0)) ensures e in r { KeptIsSigned(es, e); }
    forall e | e in r ensures e in Stripped(Deep(es, 0)) { SignedIsKept(es, e); }
  }

  lemma KeptIsSigned(es: seq<Entry>, e: Entry)
    requires UniqueKeys(es) && e in Stripped(Deep(es, 0))
    ensures e in SignatureEntries(es, SortedNames(Kept(es)), 0)
  {
    hide Lookup, Signature, SignatureEntries, SortedNames, Stripped;
    var keys := SortedNames(Kept(es));
    var j :| 0 <= j < |es| && e == Deep(es, 0)[j];
    assert es[j] in es && es[j].key in Kept(es) && es[j].key in keys;
    var i :| 0 <= i < |keys| && keys[i] == es[j].key;
    SignatureEntriesAt(es, keys, 0, i);
    LookupUnique(es, j);
    assert SignatureEntries(es, keys, 0)[i] == e;
  }

  lemma SignedIsKept(es: seq<Entry>, e: Entry)
    requires UniqueKeys(es) && e in SignatureEntries(es, SortedNames(Kept(es)), 0)
    ensures e in Stripped(Deep(es, 0))
  {
    hide Lookup, Signature, SignatureEntries, SortedNames, Stripped;
    var keys := SortedNames(Kept(es));
    var r := SignatureEntries(es, keys, 0);
    var i :| 0 <= i < |r| && r[i] == e;
    assert keys[i] in keys && keys[i] in Kept(es);
    SignatureEntriesAt(es, keys, 0, i);
    var x :| x in es && x.key == keys[i];
    var j :| 0 <= j < |es| && es[j] == x;
    LookupUnique(es, j);
    assert Deep(es, 0)[j] == e;
  }

  lemma {:induction false} LookupUnique(es: seq<Entry>, j: nat)
    requires UniqueKeys(es) && j < |es|
    ensures es[j].key in KeysOf(es) && Lookup(es, es[j].key) == es[j].value
    decreases |es|
  {
    assert es[j] in es;
    if j > 0 {
      assert es[0].key != es[j].key;
      assert UniqueKeys(es[1..]);
      LookupUnique(es[1..], j - 1);
    }
  }

  lemma {:induction false} LinkedToSignature(d: Doc)
    requires WellFormed(d)
    ensures Linked(d, Signature(d))
    decreases d
  {
    match d
    case Arr(xs) =>
      forall i | 0 <= i < |xs| ensures Linked(xs[i], Signature(xs[i])) { LinkedToSignature(xs[i]); }
      LinkItems(xs, 0);
      assert xs[..0] + SignatureItems(xs, 0) == SignatureItems(xs, 0);
    case Obj(es) =>
      forall i | 0 <= i < |es| ensures Linked(es[i].value, Signature(es[i].value)) { LinkedToSignature(es[i].value); }
      LinkedObject(es);
    case _ =>
      LinkedSelf(d);
  }

  lemma LinkedObject(es: seq<Entry>)
    requires UniqueKeys(es) && forall i :: 0 <= i < |es| ==> Linked(es[i].value, Signature(es[i].value))
    ensures Linked(Obj(es), Signature(Obj(es)))
  {
    hide Linked, Signature, Stripped;
    LinkValues(es, 0);
    var deep := Deep(es, 0);
    var kept := Stripped(deep);
    StripIgnored([], deep);
    StrippedUnique(deep);
    SignatureIsReordering(es);
    var goal := Signature(Obj(es)).entries;
    Reorder([], kept, goal);
    assert [] + deep == deep && [] + kept == kept && [] + goal == goal;
    LinkedThen(Obj(es), Obj(deep), Obj(kept));
    LinkedThen(Obj(es), Obj(kept), Obj(goal));
  }

  /** One signature, if and only if a chain of edits leads from one to the other. */
  lemma SignatureForgetsExactly(a: Doc, b: Doc)
    requires WellFormed(a) && WellFormed(b)
    ensures Signature(a) == Signature(b) <==> Linked(a, b)
  {
    if Signature(a) == Signature(b) {
      LinkedToSignature(a);
      LinkedToSignature(b);
      LinkedBack(b, Signature(b));
      LinkedThen(a, Signature(a), b);
    }
    if Linked(a, b) {
      var docs :| IsChain(docs, a, b);
      ChainKeepsSignature(docs, a, b);
    }
  }
}

/**
 The committed API contract is fresh (scripts/check_openapi_fresh.py): the
 quotient `_signature` takes of a JSON document, and the exact `diff`.
 */
module OpenApi {
  import opened Ordering

  /** A JSON document; an object is its entries in the order they were read. */
  datatype Doc =
    | Null
    | Bool(b: bool)
    | Num(n: real)
    | Str(s: string)
    | Arr(items: seq<Doc>)
    | Obj(entries: seq<Entry>)

  datatype Entry = Entry(key: string, value: Doc)

  /** Prose and validation bounds: keys a generated client does not depend on. */
  const IGNORED: set<string> := {
    "title", "description", "summary", "example", "examples", "tags",
    "default", "minimum", "maximum", "exclusiveMinimum", "exclusiveMaximum", "multipleOf",
    "minLength", "maxLength", "pattern", "minItems", "maxItems", "uniqueItems"}

  /** Prose, one way or another; or a bound on a number, a text or a list, or its default. */
  lemma IgnoredIs(k: string)
    ensures k in IGNORED <==>
            || k in {"title", "description", "summary", "tags"} || k == "example" || k == "example" + "s"
            || k == "default" || k == "pattern" || k == "multipleOf" || k == "uniqueItems"
            || (exists way, what :: way in {"min", "max"} && what in {"imum", "Length", "Items"} && k == way + what)
            || (exists way :: way in {"exclusiveMin", "exclusiveMax"} && k == way + "imum")
  {
    assert "min" + "imum" == "minimum" && "max" + "imum" == "maximum";
    assert "min" + "Length" == "minLength" && "max" + "Length" == "maxLength";
    assert "min" + "Items" == "minItems" && "max" + "Items" == "maxItems";
    assert "exclusiveMin" + "imum" == "exclusiveMinimum" && "exclusiveMax" + "imum" == "exclusiveMaximum";
    assert "example" + "s" == "examples";
    if k in IGNORED {
      KeyIsPart(k, "min", "imum");
      KeyIsPart(k, "max", "imum");
      KeyIsPart(k, "min", "Length");
      KeyIsPart(k, "max", "Length");
      KeyIsPart(k, "min", "Items");
      KeyIsPart(k, "max", "Items");
    }
  }

  lemma KeyIsPart(k: string, way: string, what: string)
    requires way in {"min", "max"} && what in {"imum", "Length", "Items"}
    ensures k == way + what ==> exists v, w :: v in {"min", "max"} && w in {"imum", "Length", "Items"} && k == v + w
  {
  }

  function KeysOf(entries: seq<Entry>): set<string> {
    set e | e in entries :: e.key
  }

  function Kept(entries: seq<Entry>): set<string> {
    KeysOf(entries) - IGNORED
  }

  function Lookup(entries: seq<Entry>, key: string): Doc
    requires key in KeysOf(entries)
  {
    if entries[0].key == key then entries[0].value
    else
      assert exists e :: e in entries[1..] && e.key == key by {
        var e :| e in entries && e.key == key;
        assert e in entries[1..];
      }
      Lookup(entries[1..], key)
  }

  // ----- size, for recursion through dictionaries ---------------------------------------

  function Size(d: Doc): nat {
    match d
    case Arr(items) => 1 + Sizes(items)
    case Obj(entries) => 1 + EntrySizes(entries)
    case _ => 1
  }

  function Sizes(items: seq<Doc>): nat {
    if items == [] then 0 else Size(items[0]) + Sizes(items[1..])
  }

  function EntrySizes(entries: seq<Entry>): nat {
    if entries == [] then 0 else Size(entries[0].value) + EntrySizes(entries[1..])
  }

  lemma {:induction false} ItemIsSmaller(items: seq<Doc>, i: nat)
    requires i < |items|
    ensures Size(items[i]) <= Sizes(items)
  {
    if i > 0 { ItemIsSmaller(items[1..], i - 1); }
  }

  lemma {:induction false} ValueIsSmaller(entries: seq<Entry>, key: string)
    requires key in KeysOf(entries)
    ensures Size(Lookup(entries, key)) <= EntrySizes(entries)
  {
    if entries[0].key != key {
      var e :| e in entries && e.key == key;
      assert e in entries[1..];
      ValueIsSmaller(entries[1..], key);
    }
  }

  // ----- the quotient ----------------------------------------------------------------------

  /** `_signature`: entries by key, the ignored ones dropped, at every depth. */
  function Signature(d: Doc): Doc
    decreases Size(d), 1, 0
  {
    match d
    case Arr(items) => Arr(SignatureItems(items, 0))
    case Obj(entries) => Obj(SignatureEntries(entries, SortedNames(Kept(entries)), 0))
    case _ => d
  }

  function SignatureItems(items: seq<Doc>, i: nat): (r: seq<Doc>)
    requires i <= |items|
    ensures |r| == |items| - i
    decreases 1 + Sizes(items), 0, |items| - i
  {
    if i == |items| then []
    else
      ItemIsSmaller(items, i);
      [Signature(items[i])] + SignatureItems(items, i + 1)
  }

  function SignatureEntries(entries: seq<Entry>, keys: seq<string>, i: nat): (r: seq<Entry>)
    requires i <= |keys| && forall k :: k in keys ==> k in Kept(entries)
    ensures |r| == |keys| - i
    decreases 1 + EntrySizes(entries), 0, |keys| - i
  {
    if i == |keys| then []
    else
      assert keys[i] in keys && keys[i] in Kept(entries);
      ValueIsSmaller(entries, keys[i]);
      [Entry(keys[i], Signature(Lookup(entries, keys[i])))] + SignatureEntries(entries, keys, i + 1)
  }

  lemma {:induction false} SignatureItemsAt(items: seq<Doc>, i: nat, k: nat)
    requires i <= k < |items|
    ensures SignatureItems(items, i)[k - i] == Signature(items[k])
    decreases k - i
  {
    if i < k { SignatureItemsAt(items, i + 1, k); }
  }

  lemma {:induction false} SignatureEntriesAt(entries: seq<Entry>, keys: seq<string>, i: nat, k: nat)
    requires i <= k < |keys| && forall x :: x in keys ==> x in Kept(entries)
    ensures keys[k] in keys && keys[k] in KeysOf(entries)
    ensures SignatureEntries(entries, keys, i)[k - i] == Entry(keys[k], Signature(Lookup(entries, keys[k])))
    decreases k - i
  {
    assert keys[k] in keys && keys[k] in Kept(entries);
    if i < k { SignatureEntriesAt(entries, keys, i + 1, k); }
  }

  /** The same contract: equal up to ignored entries and entry order, at any
      depth. */
  ghost predicate Similar(a: Doc, b: Doc)
    decreases Size(a)
  {
    match a
    case Arr(xs) =>
      b.Arr? && |xs| == |b.items| &&
      forall i :: 0 <= i < |xs| ==> (ItemIsSmaller(xs, i); Similar(xs[i], b.items[i]))
    case Obj(es) =>
      b.Obj? && Kept(es) == Kept(b.entries) &&
      forall k :: k in Kept(es) ==> (ValueIsSmaller(es, k); Similar(Lookup(es, k), Lookup(b.entries, k)))
    case _ => a == b
  }

  lemma {:induction false} LookupBuilt(entries: seq<Entry>, keys: seq<string>, i: nat, k: string)
    requires i <= |keys| && (forall x :: x in keys ==> x in Kept(entries)) && k in keys[i..]
    ensures k in KeysOf(SignatureEntries(entries, keys, i)) && k in KeysOf(entries)
    ensures Lookup(SignatureEntries(entries, keys, i), k) == Signature(Lookup(entries, k))
    decreases |keys| - i
  {
    var r := SignatureEntries(entries, keys, i);
    SignatureEntriesAt(entries, keys, i, i);
    if keys[i] == k {
      assert r[0] in r;
    } else {
      assert k in keys[i + 1..];
      LookupBuilt(entries, keys, i + 1, k);
      var rest := SignatureEntries(entries, keys, i + 1);
      assert r == [r[0]] + rest && r[1..] == rest;
      var e :| e in rest && e.key == k;
      assert e in r;
    }
  }

  /** A signature keeps exactly the entries that are not ignored. */
  lemma SignatureLooksUp(entries: seq<Entry>)
    ensures Signature(Obj(entries)).Obj?
    ensures KeysOf(Signature(Obj(entries)).entries) == Kept(entries)
    ensures forall k :: k in Kept(entries) ==> Lookup(Signature(Obj(entries)).entries, k) == Signature(Lookup(entries, k))
  {
    hide Lookup, SortedNames;
    var keys := SortedNames(Kept(entries));
    var r := SignatureEntries(entries, keys, 0);
    assert keys[0..] == keys;
    forall k | k in Kept(entries)
      ensures k in KeysOf(r) && Lookup(r, k) == Signature(Lookup(entries, k))
    {
      LookupBuilt(entries, keys, 0, k);
    }
    forall e | e in r
      ensures e.key in Kept(entries)
    {
      var i :| 0 <= i < |r| && r[i] == e;
      SignatureEntriesAt(entries, keys, 0, i);
    }
  }

  /** Two documents have one signature exactly when they are the same contract. */
  lemma {:induction false} SignatureIff(a: Doc, b: Doc)
    ensures Signature(a) == Signature(b) <==> Similar(a, b)
    decreases Size(a)
  {
    match a
    case Arr(xs) =>
      if b.Arr? && |xs| == |b.items| {
        forall i | 0 <= i < |xs|
          ensures Signature(xs[i]) == Signature(b.items[i]) <==> Similar(xs[i], b.items[i])
        {
          ItemIsSmaller(xs, i);
          SignatureIff(xs[i], b.items[i]);
        }
        SameItems(xs, b.items);
      } else if b.Arr? {
        assert |Signature(a).items| == |xs| && |Signature(b).items| == |b.items|;
      }
    case Obj(es) =>
      if b.Obj? {
        SignatureLooksUp(es);
        SignatureLooksUp(b.entries);
        if Kept(es) == Kept(b.entries) {
          forall k | k in Kept(es)
            ensures Signature(Lookup(es, k)) == Signature(Lookup(b.entries, k)) <==> Similar(Lookup(es, k), Lookup(b.entries, k))
          {
            ValueIsSmaller(es, k);
            SignatureIff(Lookup(es, k), Lookup(b.entries, k));
          }
          SameEntries(es, b.entries);
        }
      }
    case _ =>
  }

  lemma SameItems(xs: seq<Doc>, ys: seq<Doc>)
    requires |xs| == |ys|
    ensures Signature(Arr(xs)) == Signature(Arr(ys)) <==> forall i :: 0 <= i < |xs| ==> Signature(xs[i]) == Signature(ys[i])
  {
    var r, s := SignatureItems(xs, 0), SignatureItems(ys, 0);
    forall i | 0 <= i < |xs|
      ensures r[i] == Signature(xs[i]) && s[i] == Signature(ys[i])
    {
      SignatureItemsAt(xs, 0, i);
      SignatureItemsAt(ys, 0, i);
    }
    if r == s {
      forall i | 0 <= i < |xs| ensures Signature(xs[i]) == Signature(ys[i]) { assert r[i] == s[i]; }
    }
  }

  lemma SameEntries(es: seq<Entry>, fs: seq<Entry>)
    requires Kept(es) == Kept(fs)
    ensures Signature(Obj(es)) == Signature(Obj(fs)) <==> forall k :: k in Kept(es) ==> Signature(Lookup(es, k)) == Signature(Lookup(fs, k))
  {
    if Signature(Obj(es)) == Signature(Obj(fs)) {
      SignatureLooksUp(es);
      SignatureLooksUp(fs);
    }
    if forall k :: k in Kept(es) ==> Signature(Lookup(es, k)) == Signature(Lookup(fs, k)) {
      SameBuilt(es, fs, SortedNames(Kept(es)));
    }
  }

  lemma SameBuilt(es: seq<Entry>, fs: seq<Entry>, keys: seq<string>)
    requires forall k :: k in keys ==> k in Kept(es) && k in Kept(fs) && Signature(Lookup(es, k)) == Signature(Lookup(fs, k))
    ensures SignatureEntries(es, keys, 0) == SignatureEntries(fs, keys, 0)
  {
    hide Lookup, Signature, SignatureEntries;
    var r, s := SignatureEntries(es, keys, 0), SignatureEntries(fs, keys, 0);
    forall i | 0 <= i < |keys|
      ensures r[i] == s[i]
    {
      SignatureEntriesAt(es, keys, 0, i);
      SignatureEntriesAt(fs, keys, 0, i);
    }
  }

  /** A document and its signature are the same contract, so taking the signature
      again changes nothing. */
  lemma {:induction false} SignatureIsSimilar(d: Doc)
    ensures Similar(Signature(d), d)
    decreases Size(d)
  {
    match d
    case Arr(items) =>
      var r := Signature(d).items;
      forall i | 0 <= i < |r|
        ensures Similar(r[i], items[i])
      {
        SignatureItemsAt(items, 0, i);
        ItemIsSmaller(items, i);
        SignatureIsSimilar(items[i]);
      }
    case Obj(entries) =>
      SignatureLooksUp(entries);
      forall k | k in Kept(entries)
        ensures Similar(Signature(Lookup(entries, k)), Lookup(entries, k))
      {
        ValueIsSmaller(entries, k);
        SignatureIsSimilar(Lookup(entries, k));
      }
    case _ =>
  }

  lemma SignatureIsIdempotent(d: Doc)
    ensures Signature(Signature(d)) == Signature(d)
  {
    SignatureIsSimilar(d);
    SignatureIff(Signature(d), d);
  }

  // ----- the two things a signature forgets ---------------------------------------------------

  lemma {:induction false} LookupSkips(a: seq<Entry>, x: Entry, b: seq<Entry>, k: string)
    requires k in KeysOf(a + b) && k != x.key
    ensures k in KeysOf(a + [x] + b) && Lookup(a + [x] + b, k) == Lookup(a + b, k)
  {
    var e :| e in a + b && e.key == k;
    assert e in a + [x] + b;
    if a == [] {
      assert (a + [x] + b)[1..] == b && a + b == b;
    } else {
      assert (a + [x] + b)[1..] == a[1..] + [x] + b && (a + b)[1..] == a[1..] + b;
      if a[0].key != k {
        assert e in a[1..] + b;
        LookupSkips(a[1..], x, b, k);
      }
    }
  }

  /** An ignored entry can be added anywhere. */
  lemma IgnoredEntryIsForgotten(a: seq<Entry>, x: Entry, b: seq<Entry>)
    requires x.key in IGNORED
    ensures Signature(Obj(a + [x] + b)) == Signature(Obj(a + b))
  {
    var with, without := a + [x] + b, a + b;
    assert Kept(with) == Kept(without) by {
      forall e | e in without ensures e in with {}
      forall e | e in with ensures e in without || e == x {}
    }
    forall k | k in Kept(with) ensures Lookup(with, k) == Lookup(without, k) { LookupSkips(a, x, b, k); }
    SameEntries(with, without);
  }

  /** Neighbouring entries can change places. */
  lemma OrderIsForgotten(a: seq<Entry>, x: Entry, y: Entry, b: seq<Entry>)
    requires x.key != y.key
    ensures Signature(Obj(a + [x, y] + b)) == Signature(Obj(a + [y, x] + b))
  {
    var one, two := a + [x, y] + b, a + [y, x] + b;
    assert Kept(one) == Kept(two) by {
      forall e ensures e in one <==> e in two {}
    }
    forall k | k in Kept(one) ensures Lookup(one, k) == Lookup(two, k) { LookupSwap(a, x, y, b, k); }
    SameEntries(one, two);
  }

  lemma {:induction false} LookupSwap(a: seq<Entry>, x: Entry, y: Entry, b: seq<Entry>, k: string)
    requires x.key != y.key && k in KeysOf(a + [x, y] + b) && k in KeysOf(a + [y, x] + b)
    ensures Lookup(a + [x, y] + b, k) == Lookup(a + [y, x] + b, k)
  {
    var one, two := a + [x, y] + b, a + [y, x] + b;
    if a == [] {
      assert one[1..] == [y] + b && two[1..] == [x] + b;
      assert one[1..][1..] == b && two[1..][1..] == b;
    } else if a[0].key != k {
      assert one[1..] == a[1..] + [x, y] + b && two[1..] == a[1..] + [y, x] + b;
      var e :| e in one && e.key == k;
      assert e in one[1..];
      var f :| f in two && f.key == k;
      assert f in two[1..];
      LookupSwap(a[1..], x, y, b, k);
    }
  }

  // ----- the diff ----------------------------------------------------------------------------

  type Named = map<string, map<string, Doc>>

  datatype Shape = Shape(paths: Named, schemas: Named)

  datatype Part = PATH | SCHEMA

  datatype Line = Added(part: Part, name: string) | Removed(part: Part, name: string) | Changed(part: Part, name: string)
                | FieldChanged(part: Part, name: string, fieldName: string)

  /** `dict.get`: a missing field reads as null. */
  function FieldOf(m: map<string, Doc>, name: string): Doc {
    if name in m then m[name] else Null
  }

  ghost predicate DiffLine(part: Part, was: Named, now: Named, l: Line) {
    l.part == part &&
    match l
    case Added(_, n) => n in now && n !in was
    case Removed(_, n) => n in was && n !in now
    case Changed(_, n) => n in was && n in now && was[n] != now[n]
    case FieldChanged(_, n, f) => n in was && n in now && was[n] != now[n] && (f in was[n] || f in now[n]) && FieldOf(was[n], f) != FieldOf(now[n], f)
  }

  method DiffFields(part: Part, name: string, was: map<string, Doc>, now: map<string, Doc>) returns (lines: seq<Line>)
    ensures forall l :: l in lines <==>
                          l.FieldChanged? && l.part == part && l.name == name && (l.fieldName in was || l.fieldName in now) &&
                          FieldOf(was, l.fieldName) != FieldOf(now, l.fieldName)
  {
    lines := [];
    var fields := SortedNames(was.Keys + now.Keys);
    for i := 0 to |fields|
      invariant forall l :: l in lines <==>
                              l.FieldChanged? && l.part == part && l.name == name && l.fieldName in fields[..i] &&
                              FieldOf(was, l.fieldName) != FieldOf(now, l.fieldName)
    {
      assert fields[..i + 1] == fields[..i] + [fields[i]];
      if FieldOf(was, fields[i]) != FieldOf(now, fields[i]) {
        lines := lines + [FieldChanged(part, name, fields[i])];
      }
    }
    assert fields[..|fields|] == fields;
  }

  method DiffPart(part: Part, was: Named, now: Named) returns (lines: seq<Line>)
    ensures forall l :: l in lines <==> DiffLine(part, was, now, l)
    ensures lines == [] <==> was == now
  {
    var added, removed := SortedNames(now.Keys - was.Keys), SortedNames(was.Keys - now.Keys);
    var changed := SortedNames(set n | n in was && n in now && was[n] != now[n]);
    var first := seq(|added|, i requires 0 <= i < |added| => Added(part, added[i]));
    var second := seq(|removed|, i requires 0 <= i < |removed| => Removed(part, removed[i]));
    lines := first + second;
    AddedAndRemoved(part, added, removed, first, second);
    var third := DiffChanged(part, was, now, changed);
    lines := lines + third;
    DiffEmptyIff(part, was, now);
    forall l ensures l in lines <==> DiffLine(part, was, now, l) {}
    if lines != [] {
      assert lines[0] in lines;
    } else {
      forall l ensures !DiffLine(part, was, now, l) { assert l !in lines; }
    }
  }

  /** The lines of the names both sides have and disagree on. */
  method DiffChanged(part: Part, was: Named, now: Named, changed: seq<string>) returns (lines: seq<Line>)
    requires forall n :: n in changed <==> n in was && n in now && was[n] != now[n]
    ensures forall l :: l in lines <==> (l.Changed? || l.FieldChanged?) && DiffLine(part, was, now, l)
  {
    lines := [];
    for i := 0 to |changed|
      invariant forall l :: l in lines <==> (l.Changed? || l.FieldChanged?) && l.name in changed[..i] && DiffLine(part, was, now, l)
    {
      var name := changed[i];
      assert name in changed;
      assert changed[..i + 1] == changed[..i] + [name];
      var more := DiffFields(part, name, was[name], now[name]);
      lines := lines + ([Changed(part, name)] + more);
      assert forall l :: l in [Changed(part, name)] + more <==> (l.Changed? || l.FieldChanged?) && l.name == name && DiffLine(part, was, now, l);
    }
    assert changed[..|changed|] == changed;
  }

  lemma AddedAndRemoved(part: Part, added: seq<string>, removed: seq<string>, first: seq<Line>, second: seq<Line>)
    requires |first| == |added| && forall i :: 0 <= i < |first| ==> first[i] == Added(part, added[i])
    requires |second| == |removed| && forall i :: 0 <= i < |second| ==> second[i] == Removed(part, removed[i])
    ensures forall l :: l in first + second <==>
                          l.part == part && ((l.Added? && l.name in added) || (l.Removed? && l.name in removed))
  {
    forall l: Line | l.part == part && l.Added? && l.name in added ensures l in first {
      var i :| 0 <= i < |added| && added[i] == l.name;
      assert first[i] == l;
    }
    forall l: Line | l.part == part && l.Removed? && l.name in removed ensures l in second {
      var i :| 0 <= i < |removed| && removed[i] == l.name;
      assert second[i] == l;
    }
  }

  lemma DiffEmptyIff(part: Part, was: Named, now: Named)
    ensures (forall l :: !DiffLine(part, was, now, l)) <==> was == now
  {
    if forall l :: !DiffLine(part, was, now, l) {
      forall n | n in now ensures n in was { assert !DiffLine(part, was, now, Added(part, n)); }
      forall n | n in was
        ensures n in now && was[n] == now[n]
      {
        assert !DiffLine(part, was, now, Removed(part, n));
        assert !DiffLine(part, was, now, Changed(part, n));
      }
    }
  }

  /** `diff`: exactly the differences, and none exactly when the shapes are equal. */
  method Diff(committed: Shape, current: Shape) returns (lines: seq<Line>)
    ensures forall l :: l in lines <==>
                          DiffLine(PATH, committed.paths, current.paths, l) || DiffLine(SCHEMA, committed.schemas, current.schemas, l)
    ensures lines == [] <==> committed == current
  {
    var paths := DiffPart(PATH, committed.paths, current.paths);
    var schemas := DiffPart(SCHEMA, committed.schemas, current.schemas);
    lines := paths + schemas;
  }

  /** A changed name without a changed field: the two sides differ only in a field
      that is absent on one side and null on the other. */
  lemma SilentChangeIff(was: map<string, Doc>, now: map<string, Doc>)
    ensures was != now && (forall f :: f in was || f in now ==> FieldOf(was, f) == FieldOf(now, f)) <==>
            && (forall f :: f in was && f in now ==> was[f] == now[f])
            && (forall f :: f in was && f !in now ==> was[f] == Null)
            && (forall f :: f in now && f !in was ==> now[f] == Null)
            && was.Keys != now.Keys
  {
    if was.Keys == now.Keys && forall f :: f in was && f in now ==> was[f] == now[f] {
      assert was == now;
    }
  }
}

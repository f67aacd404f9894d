/** `CDBTransactionIterator`: merging a transaction's sorted writes with the keys of
    its parent, to any depth of nesting. */
module DbIterator {
  import opened Options
  import opened DbLayers

  // ---- Key order ----

  /** Lexicographical comparison of byte strings. */
  predicate Less(a: Key, b: Key)
    decreases |a|
  {
    b != [] && (a == [] || a[0] < b[0] || (a[0] == b[0] && Less(a[1..], b[1..])))
  }

  lemma {:induction false} LessIrreflexive(a: Key)
    ensures !Less(a, a)
    decreases |a|
  {
    if a != [] {
      LessIrreflexive(a[1..]);
    }
  }

  lemma {:induction false} LessTransitive(a: Key, b: Key, c: Key)
    requires Less(a, b) && Less(b, c)
    ensures Less(a, c)
    decreases |a|
  {
    if a != [] && a[0] == b[0] && b[0] == c[0] {
      LessTransitive(a[1..], b[1..], c[1..]);
    }
  }

  lemma {:induction false} LessTotal(a: Key, b: Key)
    ensures a == b || Less(a, b) || Less(b, a)
    decreases |a|
  {
    if a != [] && b != [] && a[0] == b[0] {
      LessTotal(a[1..], b[1..]);
      assert a == [a[0]] + a[1..] && b == [b[0]] + b[1..];
    }
  }

  // ---- Sorted key lists ----

  predicate Sorted(s: seq<Key>) {
    forall i, j | 0 <= i < j < |s| :: Less(s[i], s[j])
  }

  lemma SortedTail(s: seq<Key>)
    requires Sorted(s) && s != []
    ensures Sorted(s[1..]) && s[0] !in s[1..] && forall k | k in s[1..] :: Less(s[0], k)
  {
    LessIrreflexive(s[0]);
  }

  lemma SortedCons(k: Key, s: seq<Key>)
    requires Sorted(s) && (s != [] ==> Less(k, s[0]))
    ensures Sorted([k] + s)
  {
    var t := [k] + s;
    forall i, j | 0 <= i < j < |t|
      ensures Less(t[i], t[j])
    {
      if i == 0 && j > 1 {
        LessTransitive(k, s[0], s[j - 1]);
      }
    }
  }

  /** A sorted list is determined by its elements. */
  lemma {:induction false} SortedUnique(s: seq<Key>, t: seq<Key>)
    requires Sorted(s) && Sorted(t) && forall k :: k in s <==> k in t
    ensures s == t
  {
    assert t != [] ==> t[0] in t;
    if s != [] {
      assert s[0] in t && t != [];
      assert t[0] in s;
      SortedTail(s);
      SortedTail(t);
      SameHead(s, t);
      forall k
        ensures k in s[1..] <==> k in t[1..]
      {
        assert k in s <==> k == s[0] || k in s[1..];
        assert k in t <==> k == t[0] || k in t[1..];
      }
      SortedUnique(s[1..], t[1..]);
      assert s == [s[0]] + s[1..] && t == [t[0]] + t[1..];
    }
  }

  lemma SameHead(s: seq<Key>, t: seq<Key>)
    requires s != [] && t != [] && s[0] in t && t[0] in s
    requires (forall k | k in s[1..] :: Less(s[0], k)) && (forall k | k in t[1..] :: Less(t[0], k))
    ensures s[0] == t[0]
  {
    assert t[0] == s[0] || t[0] in s[1..];
    assert s[0] == t[0] || s[0] in t[1..];
    if s[0] != t[0] {
      LessTransitive(s[0], t[0], s[0]);
      LessIrreflexive(s[0]);
    }
  }

  lemma MinExists(s: set<Key>)
    requires s != {}
    ensures exists k :: IsMin(k, s)
    decreases |s|
  {
    assert (forall x :: x !in s) ==> s == {};
    var x :| x in s;
    if s == {x} {
      assert IsMin(x, s);
    } else {
      var r := s - {x};
      assert r != {} by {
        assert s == r + {x};
      }
      MinExists(r);
      var m :| IsMin(m, r);
      LessTotal(x, m);
      if Less(x, m) {
        forall y | y in s && y != x
          ensures Less(x, y)
        {
          if y != m {
            LessTransitive(x, m, y);
          }
        }
        assert IsMin(x, s);
      } else {
        assert IsMin(m, s);
      }
    }
  }

  predicate IsMin(k: Key, s: set<Key>) {
    k in s && forall y | y in s && y != k :: Less(k, y)
  }

  lemma MinUnique(a: Key, b: Key, s: set<Key>)
    requires IsMin(a, s) && IsMin(b, s)
    ensures a == b
  {
    if a != b {
      LessTransitive(a, b, a);
      LessIrreflexive(a);
    }
  }

  lemma OneMin(s: set<Key>)
    ensures forall a, b | IsMin(a, s) && IsMin(b, s) :: a == b
  {
    forall a, b | IsMin(a, s) && IsMin(b, s)
      ensures a == b
    {
      MinUnique(a, b, s);
    }
  }

  /** The keys of an ordered container, in order. */
  function SortedKeys(s: set<Key>): (r: seq<Key>)
    ensures Sorted(r) && forall k :: k in r <==> k in s
    decreases |s|
  {
    if s == {} then [] else
      MinExists(s);
      OneMin(s);
      var m :| m in s && IsMin(m, s);
      var r := SortedKeys(s - {m});
      SortedCons(m, r);
      [m] + r
  }

  /** Those from `key` on. */
  function From(s: seq<Key>, key: Key): (r: seq<Key>)
    ensures Sorted(s) ==> Sorted(r)
  {
    if s != [] && Less(s[0], key) then From(s[1..], key) else s
  }

  lemma {:induction false} FromElements(s: seq<Key>, key: Key, k: Key)
    requires Sorted(s)
    ensures k in From(s, key) <==> k in s && !Less(k, key)
  {
    if s != [] {
      SortedTail(s);
      assert k in s <==> k == s[0] || k in s[1..];
      if Less(s[0], key) {
        FromElements(s[1..], key, k);
      } else if k in s[1..] && Less(k, key) {
        LessTransitive(s[0], k, key);
      }
    }
  }

  // ---- Merging ----

  predicate Hidden(l: Layer, k: Key) {
    k in l.deletes || k in l.writes
  }

  /** The parent's keys that the transaction does not hide, and its own. */
  function Merge(p: seq<Key>, w: seq<Key>, l: Layer): (r: seq<Key>)
    decreases |p| + |w|
  {
    if p == [] then w
    else if Hidden(l, p[0]) then Merge(p[1..], w, l)
    else if w == [] || Less(p[0], w[0]) then [p[0]] + Merge(p[1..], w, l)
    else [w[0]] + Merge(p, w[1..], l)
  }

  lemma {:induction false} MergeElements(p: seq<Key>, w: seq<Key>, l: Layer, k: Key)
    ensures k in Merge(p, w, l) <==> k in w || (k in p && !Hidden(l, k))
    decreases |p| + |w|
  {
    if p != [] {
      assert k in p <==> k == p[0] || k in p[1..];
      assert w != [] ==> (k in w <==> k == w[0] || k in w[1..]);
      if Hidden(l, p[0]) || w == [] || Less(p[0], w[0]) {
        MergeElements(p[1..], w, l, k);
      } else {
        MergeElements(p, w[1..], l, k);
      }
    }
  }

  lemma {:induction false} MergeSorted(p: seq<Key>, w: seq<Key>, l: Layer)
    requires Sorted(p) && Sorted(w) && forall k | k in w :: k in l.writes
    ensures Sorted(Merge(p, w, l))
    decreases |p| + |w|
  {
    if p != [] {
      SortedTail(p);
      if Hidden(l, p[0]) {
        MergeSorted(p[1..], w, l);
      } else if w == [] || Less(p[0], w[0]) {
        MergeSorted(p[1..], w, l);
        var r := Merge(p[1..], w, l);
        if r != [] {
          MergeElements(p[1..], w, l, r[0]);
          if r[0] in w {
            InSorted(w, r[0]);
            if r[0] != w[0] {
              LessTransitive(p[0], w[0], r[0]);
            }
          }
        }
        SortedCons(p[0], r);
      } else {
        SortedTail(w);
        MergeSorted(p, w[1..], l);
        LessTotal(p[0], w[0]);
        assert w[0] in l.writes;
        var r := Merge(p, w[1..], l);
        if r != [] {
          MergeElements(p, w[1..], l, r[0]);
          if r[0] in p {
            InSorted(p, r[0]);
            if r[0] != p[0] {
              LessTransitive(w[0], p[0], r[0]);
            }
          }
        }
        SortedCons(w[0], r);
      }
    }
  }

  lemma InSorted(s: seq<Key>, k: Key)
    requires Sorted(s) && k in s
    ensures k == s[0] || Less(s[0], k)
  {
  }

  // ---- Iterator states ----

  /** One level: the keys `transactionIt` still has, and the copy and choice that
      the source keeps beside it. */
  datatype Cursor = Cursor(it: seq<Key>, parentKey: Key, curIsParent: bool)

  /** The keys an iterator on level `i` still has to visit. */
  function Rest(db: seq<Key>, cs: seq<Cursor>, ls: seq<Layer>, i: nat): (r: seq<Key>)
    requires i <= |cs| == |ls|
  {
    if i == 0 then db else Merge(Rest(db, cs, ls, i - 1), cs[i - 1].it, ls[i - 1])
  }

  ghost predicate OwnKeys(c: Cursor, l: Layer) {
    Sorted(c.it) && forall k | k in c.it :: k in l.writes
  }

  /** The parent iterator does not stand on a hidden key, its key is known, and
      the smaller of the two current keys is chosen. */
  ghost predicate Settled(p: seq<Key>, c: Cursor, l: Layer) {
    && OwnKeys(c, l)
    && (p != [] ==> !Hidden(l, p[0]) && c.parentKey == p[0])
    && (p != [] || c.it != [] ==> c.curIsParent == (c.it == [] || (p != [] && !Less(c.it[0], p[0]))))
  }

  ghost predicate StateOk(db: seq<Key>, cs: seq<Cursor>, ls: seq<Layer>, i: nat)
    requires i <= |cs| == |ls|
  {
    if i == 0 then Sorted(db) else
      StateOk(db, cs, ls, i - 1) && Settled(Rest(db, cs, ls, i - 1), cs[i - 1], ls[i - 1])
  }

  lemma {:induction false} RestSorted(db: seq<Key>, cs: seq<Cursor>, ls: seq<Layer>, i: nat)
    requires i <= |cs| == |ls| && StateOk(db, cs, ls, i)
    ensures Sorted(Rest(db, cs, ls, i))
  {
    if i > 0 {
      RestSorted(db, cs, ls, i - 1);
      MergeSorted(Rest(db, cs, ls, i - 1), cs[i - 1].it, ls[i - 1]);
    }
  }

  /** Levels from `i` on do not matter to the levels below. */
  lemma {:induction false} Frame(db: seq<Key>, cs: seq<Cursor>, ds: seq<Cursor>, ls: seq<Layer>, i: nat)
    requires i <= |cs| == |ds| == |ls| && forall k | 0 <= k < i :: cs[k] == ds[k]
    ensures Rest(db, cs, ls, i) == Rest(db, ds, ls, i)
    ensures StateOk(db, cs, ls, i) == StateOk(db, ds, ls, i)
  {
    if i > 0 {
      Frame(db, cs, ds, ls, i - 1);
    }
  }

  /** What the choice means: it is the head of the merge. */
  lemma ChosenHead(p: seq<Key>, c: Cursor, l: Layer)
    requires Settled(p, c, l)
    ensures Merge(p, c.it, l) == [] <==> p == [] && c.it == []
    ensures p != [] || c.it != [] ==>
      if c.curIsParent then p != [] && Merge(p, c.it, l) == [c.parentKey] + Merge(p[1..], c.it, l)
      else c.it != [] && Merge(p, c.it, l) == [c.it[0]] + Merge(p, c.it[1..], l)
  {
    if p != [] && c.it != [] {
      LessTotal(p[0], c.it[0]);
      if Less(p[0], c.it[0]) && Less(c.it[0], p[0]) {
        LessTransitive(p[0], c.it[0], p[0]);
        LessIrreflexive(p[0]);
      }
      assert c.it[0] in l.writes;
    }
  }

  /** What is still to be visited is part of what the level shows. */
  lemma {:induction false} RestInView(base: Store, db: seq<Key>, cs: seq<Cursor>, ls: seq<Layer>, i: nat)
    requires i <= |cs| == |ls| && StateOk(db, cs, ls, i) && forall k | k in db :: k in base
    ensures forall k | k in Rest(db, cs, ls, i) :: k in ViewAt(base, ls, i)
  {
    if i > 0 {
      RestInView(base, db, cs, ls, i - 1);
      forall k | k in Rest(db, cs, ls, i)
        ensures k in ViewAt(base, ls, i)
      {
        MergeElements(Rest(db, cs, ls, i - 1), cs[i - 1].it, ls[i - 1], k);
      }
    }
  }

  /** The iterators of all levels over a store and its nested transactions. */
  class Iter {
    const base: Store
    const layers: seq<Layer>
    var db: seq<Key>
    var cursors: seq<Cursor>

    ghost function Left(i: nat): seq<Key>
      requires i <= |cursors| == |layers|
      reads this
    {
      Rest(db, cursors, layers, i)
    }

    ghost predicate Ok(i: nat)
      requires i <= |cursors| == |layers|
      reads this
    {
      StateOk(db, cursors, layers, i) && forall k | k in db :: k in base
    }

    constructor (store: Store, ls: seq<Layer>)
      ensures base == store && layers == ls && |cursors| == |ls|
    {
      base, layers := store, ls;
      db := [];
      cursors := seq(|ls|, _ => Cursor([], [], false));
    }

    method Valid(i: nat) returns (v: bool)
      requires i <= |cursors| == |layers| && Ok(i)
      ensures v <==> Left(i) != []
    {
      if i == 0 {
        return db != [];
      }
      ChosenHead(Left(i - 1), cursors[i - 1], layers[i - 1]);
      if cursors[i - 1].it != [] {
        return true;
      }
      v := Valid(i - 1);
    }

    method GetKey(i: nat) returns (k: Key)
      requires i <= |cursors| == |layers| && Ok(i)
      ensures k == if Left(i) == [] then [] else Left(i)[0]
      ensures forall x | x in Left(i) :: x == k || Less(k, x)
    {
      RestSorted(db, cursors, layers, i);
      var v := Valid(i);
      if !v {
        return [];
      }
      if i == 0 {
        return db[0];
      }
      ChosenHead(Left(i - 1), cursors[i - 1], layers[i - 1]);
      k := if cursors[i - 1].curIsParent then cursors[i - 1].parentKey else cursors[i - 1].it[0];
    }

    /** DecideCur */
    method DecideCur(i: nat)
      requires 0 < i <= |cursors| == |layers| && Ok(i - 1)
      requires OwnKeys(cursors[i - 1], layers[i - 1])
      requires Left(i - 1) != [] ==>
        !Hidden(layers[i - 1], Left(i - 1)[0]) && cursors[i - 1].parentKey == Left(i - 1)[0]
      modifies this`cursors
      ensures |cursors| == |old(cursors)| && Ok(i) && Left(i - 1) == old(Left(i - 1)) && Left(i) == old(Left(i))
      ensures cursors[i..] == old(cursors)[i..]
    {
      hide Merge, Less;
      ghost var before := cursors;
      var c := cursors[i - 1];
      var v := Valid(i - 1);
      var choice := c.curIsParent;
      if c.it != [] && !v {
        choice := false;
      } else if c.it == [] && v {
        choice := true;
      } else if c.it != [] && v {
        choice := !Less(c.it[0], c.parentKey);
      }
      cursors := cursors[i - 1 := c.(curIsParent := choice)];
      Frame(db, before, cursors, layers, i - 1);
    }

    /** SkipDeletedAndOverwritten */
    method Skip(i: nat)
      requires 0 < i <= |cursors| == |layers| && Ok(i - 1)
      modifies this
      ensures |cursors| == |old(cursors)| && Ok(i - 1) && Left(i) == old(Left(i))
      ensures Left(i - 1) != [] ==> !Hidden(layers[i - 1], Left(i - 1)[0]) && cursors[i - 1].parentKey == Left(i - 1)[0]
      ensures cursors[i - 1].it == old(cursors)[i - 1].it && cursors[i..] == old(cursors)[i..]
      decreases i, 1
    {
      hide Less, Hidden, Merge;
      var v := Valid(i - 1);
      while v
        invariant |cursors| == |old(cursors)| && Ok(i - 1) && Left(i) == old(Left(i))
        invariant v <==> Left(i - 1) != []
        invariant cursors[i - 1].it == old(cursors)[i - 1].it && cursors[i..] == old(cursors)[i..]
        decreases |Left(i - 1)|
      {
        var hidden := Look(i);
        if !hidden {
          break;
        }
        Pass(i);
        v := Valid(i - 1);
      }
    }

    /** Remember the parent's key and see whether this level hides it. */
    method Look(i: nat) returns (hidden: bool)
      requires 0 < i <= |cursors| == |layers| && Ok(i - 1) && Left(i - 1) != []
      modifies this`cursors
      ensures |cursors| == |old(cursors)| && Ok(i - 1)
      ensures Left(i - 1) == old(Left(i - 1)) && Left(i) == old(Left(i))
      ensures hidden <==> Hidden(layers[i - 1], Left(i - 1)[0])
      ensures cursors[i - 1] == old(cursors)[i - 1].(parentKey := Left(i - 1)[0]) && cursors[i..] == old(cursors)[i..]
    {
      hide Less, Merge;
      var key := GetKey(i - 1);
      ghost var before := cursors;
      cursors := cursors[i - 1 := cursors[i - 1].(parentKey := key)];
      Frame(db, before, cursors, layers, i - 1);
      hidden := key in layers[i - 1].deletes || key in layers[i - 1].writes;
    }

    /** Step the parent over a key that this level hides. */
    method Pass(i: nat)
      requires 0 < i <= |cursors| == |layers| && Ok(i - 1) && Left(i - 1) != []
      requires Hidden(layers[i - 1], Left(i - 1)[0])
      modifies this
      ensures |cursors| == |old(cursors)| && Ok(i - 1)
      ensures Left(i - 1) == old(Left(i - 1))[1..] && Left(i) == old(Left(i))
      ensures cursors[i - 1] == old(cursors)[i - 1] && cursors[i..] == old(cursors)[i..]
      decreases i, 0
    {
      hide Less, Hidden;
      ghost var before := cursors;
      Next(i - 1);
      assert cursors[i - 1] == cursors[i - 1..][0] == before[i - 1..][0];
      assert cursors[i..] == cursors[i - 1..][1..] == before[i - 1..][1..];
    }

    method Next(i: nat)
      requires i <= |cursors| == |layers| && Ok(i)
      modifies this
      ensures |cursors| == |old(cursors)| && Ok(i) && cursors[i..] == old(cursors)[i..]
      ensures Left(i) == if old(Left(i)) == [] then [] else old(Left(i))[1..]
      decreases i, 2
    {
      hide Less, Merge, Hidden;
      if i == 0 {
        db := if db == [] then [] else db[1..];
        return;
      }
      var v := Valid(i);
      if !v {
        return;
      }
      ChosenHead(Left(i - 1), cursors[i - 1], layers[i - 1]);
      ghost var before := cursors;
      if cursors[i - 1].curIsParent {
        Next(i - 1);
        assert cursors[i - 1] == cursors[i - 1..][0] == before[i - 1..][0];
        assert cursors[i..] == cursors[i - 1..][1..] == before[i - 1..][1..];
        Skip(i);
      } else {
        var c := cursors[i - 1];
        cursors := cursors[i - 1 := c.(it := c.it[1..])];
        Frame(db, before, cursors, layers, i - 1);
        SortedTail(c.it);
      }
      DecideCur(i);
    }

    /** SeekToFirst: everything the level shows is still to come. */
    method SeekToFirst(i: nat)
      requires i <= |cursors| == |layers|
      modifies this
      ensures |cursors| == |old(cursors)| && Ok(i) && cursors[i..] == old(cursors)[i..]
      ensures Left(i) == SortedKeys(ViewAt(base, layers, i).Keys)
    {
      hide Less, Merge;
      if i == 0 {
        db := SortedKeys(base.Keys);
        return;
      }
      var l := layers[i - 1];
      ghost var before := cursors;
      cursors := cursors[i - 1 := cursors[i - 1].(it := SortedKeys(l.writes.Keys))];
      ghost var mid := cursors;
      SeekToFirst(i - 1);
      assert cursors[i - 1] == cursors[i - 1..][0] == mid[i - 1..][0];
      assert cursors[i..] == cursors[i - 1..][1..] == mid[i - 1..][1..];
      MergeComplete(ViewAt(base, layers, i - 1), l);
      Skip(i);
      DecideCur(i);
      assert cursors[i..] == before[i..];
    }

    /** Seek: everything from `key` on. */
    method Seek(i: nat, key: Key)
      requires i <= |cursors| == |layers|
      modifies this
      ensures |cursors| == |old(cursors)| && Ok(i) && cursors[i..] == old(cursors)[i..]
      ensures Left(i) == From(SortedKeys(ViewAt(base, layers, i).Keys), key)
    {
      hide Less, Merge, From;
      if i == 0 {
        FromSubset(base.Keys, key);
        db := From(SortedKeys(base.Keys), key);
        return;
      }
      var l := layers[i - 1];
      ghost var before := cursors;
      cursors := cursors[i - 1 := cursors[i - 1].(it := From(SortedKeys(l.writes.Keys), key))];
      ghost var mid := cursors;
      Seek(i - 1, key);
      assert cursors[i - 1] == cursors[i - 1..][0] == mid[i - 1..][0];
      assert cursors[i..] == cursors[i - 1..][1..] == mid[i - 1..][1..];
      FromSubset(l.writes.Keys, key);
      MergeFrom(ViewAt(base, layers, i - 1), l, key);
      Skip(i);
      DecideCur(i);
      assert cursors[i..] == before[i..];
    }

    /** A whole walk visits each key the level shows once, in order. */
    method Walk(i: nat) returns (keys: seq<Key>)
      requires i <= |cursors| == |layers|
      modifies this
      ensures keys == SortedKeys(ViewAt(base, layers, i).Keys)
    {
      hide Rest, StateOk, SortedKeys, ViewAt;
      SeekToFirst(i);
      ghost var all := Left(i);
      keys := [];
      var v := Valid(i);
      while v
        invariant |cursors| == |layers| && Ok(i) && keys + Left(i) == all && (v <==> Left(i) != [])
        decreases |Left(i)|
      {
        var k := GetKey(i);
        keys := keys + [k];
        Next(i);
        v := Valid(i);
      }
    }

    /** GetValue reads through the transaction the iterator belongs to. */
    method GetValue(t: Transactions, i: nat, kind: int) returns (r: Answer)
      requires i <= |cursors| == |layers| && Ok(i)
      requires t.Valid() && t.base == base && t.layers == layers
      ensures forall k | k in Left(i) :: k in ViewAt(base, layers, i)
      ensures r.Missing? <==> Left(i) == []
      ensures r.Found? ==> r.value == ViewAt(base, layers, i)[Left(i)[0]]
      ensures Left(i) != [] ==>
        var p := Pending(layers, i, Left(i)[0]);
        r.WrongType? <==> p.Some? && p.value.kind != kind
    {
      hide Rest, StateOk, ViewAt;
      RestInView(base, db, cursors, layers, i);
      var v := Valid(i);
      if !v {
        return Missing;
      }
      var k := GetKey(i);
      r := t.Read(i, k, kind);
    }
  }

  lemma MergeComplete(m: Store, l: Layer)
    ensures Merge(SortedKeys(m.Keys), SortedKeys(l.writes.Keys), l) == SortedKeys(Overlay(m, l).Keys)
  {
    var p, w, o := SortedKeys(m.Keys), SortedKeys(l.writes.Keys), SortedKeys(Overlay(m, l).Keys);
    hide SortedKeys, Merge;
    MergeSorted(p, w, l);
    forall k
      ensures k in Merge(p, w, l) <==> k in o
    {
      MergeElements(p, w, l, k);
    }
    SortedUnique(Merge(p, w, l), o);
  }

  lemma FromSubset(s: set<Key>, key: Key)
    ensures forall k | k in From(SortedKeys(s), key) :: k in s
  {
    var w := SortedKeys(s);
    forall k | k in From(w, key)
      ensures k in s
    {
      FromElements(w, key, k);
    }
  }

  lemma MergeFrom(m: Store, l: Layer, key: Key)
    ensures Merge(From(SortedKeys(m.Keys), key), From(SortedKeys(l.writes.Keys), key), l)
         == From(SortedKeys(Overlay(m, l).Keys), key)
  {
    var p, w, o := SortedKeys(m.Keys), SortedKeys(l.writes.Keys), SortedKeys(Overlay(m, l).Keys);
    FromSubset(l.writes.Keys, key);
    hide SortedKeys, Merge, From, Less;
    MergeSorted(From(p, key), From(w, key), l);
    forall k
      ensures k in Merge(From(p, key), From(w, key), l) <==> k in From(o, key)
    {
      MergeElements(From(p, key), From(w, key), l, k);
      FromElements(p, key, k);
      FromElements(w, key, k);
      FromElements(o, key, k);
    }
    SortedUnique(Merge(From(p, key), From(w, key), l), From(o, key));
  }
}

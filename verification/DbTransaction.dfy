/** `CDBTransaction`: pending writes and deletes over a parent store, which may be
    another transaction. */
module DbLayers {
  import opened MapSums
  import opened Options

  type byte = x: nat | x < 256
  type Key = seq<byte>

  /** A stored value, known only by its identity, its serialized size and the
      type it was written with. */
  datatype Value = Value(id: int, size: nat, kind: int)

  type Store = map<Key, Value>

  datatype Layer = Layer(writes: map<Key, Value>, deletes: set<Key>, memoryUsage: int)

  const EMPTY_LAYER := Layer(map[], {}, 0)

  // ---- Memory accounting ----

  /** What each pending key counts for. */
  function Weights(l: Layer): (w: map<Key, nat>)
    ensures w.Keys == l.writes.Keys + l.deletes
  {
    map k | k in l.writes.Keys + l.deletes :: if k in l.writes then |k| + l.writes[k].size else |k|
  }

  ghost function Total(w: map<Key, nat>): nat {
    Sum(Itself, w)
  }

  ghost function Itself(n: nat): nat {
    n
  }

  lemma TotalSet(w: map<Key, nat>, k: Key, x: nat)
    ensures Total(w[k := x]) == Total(w) + x - (if k in w then w[k] else 0)
  {
    SumSet(Itself, w, k, x);
  }

  /** Writes and deletes are disjoint and the running total is the exact sum. */
  ghost predicate LayerOk(l: Layer) {
    l.writes.Keys !! l.deletes && l.memoryUsage == Total(Weights(l))
  }

  // ---- The view of one layer over a store ----

  function Overlay(m: Store, l: Layer): (v: Store)
    ensures v.Keys == (m.Keys - l.deletes) + l.writes.Keys
    ensures forall k | k in v :: v[k] == if k in l.writes then l.writes[k] else m[k]
  {
    map k | k in (m.Keys - l.deletes) + l.writes.Keys :: if k in l.writes then l.writes[k] else m[k]
  }

  /** Write, with the source's three adjustments of the running total. */
  function Written(l: Layer, k: Key, v: Value): (r: Layer) {
    var u := if k in l.deletes then l.memoryUsage - |k| else l.memoryUsage;
    var u' := if k in l.writes then u - (|k| + l.writes[k].size) else u;
    Layer(l.writes[k := v], l.deletes - {k}, u' + |k| + v.size)
  }

  function Erased(l: Layer, k: Key): (r: Layer) {
    var u := if k in l.writes then l.memoryUsage - (|k| + l.writes[k].size) else l.memoryUsage;
    var u' := if k in l.deletes then u else u + |k|;
    Layer(l.writes - {k}, l.deletes + {k}, u')
  }

  lemma WrittenWeights(l: Layer, k: Key, v: Value)
    ensures Weights(Written(l, k, v)) == Weights(l)[k := |k| + v.size]
  {
    var a, b := Weights(Written(l, k, v)), Weights(l)[k := |k| + v.size];
    assert a.Keys == b.Keys;
  }

  lemma ErasedWeights(l: Layer, k: Key)
    ensures Weights(Erased(l, k)) == Weights(l)[k := |k|]
  {
    var a, b := Weights(Erased(l, k)), Weights(l)[k := |k|];
    assert a.Keys == b.Keys;
  }

  lemma WrittenOk(l: Layer, k: Key, v: Value)
    requires LayerOk(l)
    ensures LayerOk(Written(l, k, v))
  {
    WrittenWeights(l, k, v);
    TotalSet(Weights(l), k, |k| + v.size);
    hide Total;
  }

  lemma ErasedOk(l: Layer, k: Key)
    requires LayerOk(l)
    ensures LayerOk(Erased(l, k))
  {
    ErasedWeights(l, k);
    TotalSet(Weights(l), k, |k|);
    hide Total;
  }

  /** On the view, Write and Erase are update and removal. */
  lemma WrittenView(m: Store, l: Layer, k: Key, v: Value)
    ensures Overlay(m, Written(l, k, v)) == Overlay(m, l)[k := v]
  {
    var a, b := Overlay(m, Written(l, k, v)), Overlay(m, l)[k := v];
    assert a.Keys == b.Keys;
  }

  lemma ErasedView(m: Store, l: Layer, k: Key)
    ensures Overlay(m, Erased(l, k)) == Overlay(m, l) - {k}
  {
    var a, b := Overlay(m, Erased(l, k)), Overlay(m, l) - {k};
    assert a.Keys == b.Keys;
  }

  lemma EmptyLayerOk(m: Store)
    ensures LayerOk(EMPTY_LAYER) && Overlay(m, EMPTY_LAYER) == m
  {
    assert Weights(EMPTY_LAYER) == map[];
    assert Overlay(m, EMPTY_LAYER).Keys == m.Keys;
  }

  // ---- A stack of nested transactions ----

  /** What level `i` shows: level 0 is the store, level i the i-th transaction. */
  function ViewAt(base: Store, layers: seq<Layer>, i: nat): (v: Store)
    requires i <= |layers|
  {
    if i == 0 then base else Overlay(ViewAt(base, layers, i - 1), layers[i - 1])
  }

  lemma {:induction false} ViewBelow(base: Store, layers: seq<Layer>, layers': seq<Layer>, i: nat)
    requires i <= |layers| && i <= |layers'| && layers[..i] == layers'[..i]
    ensures ViewAt(base, layers, i) == ViewAt(base, layers', i)
  {
    if i > 0 {
      assert layers[..i][..i - 1] == layers'[..i][..i - 1];
      assert layers[..i - 1] == layers[..i][..i - 1] && layers'[..i - 1] == layers'[..i][..i - 1];
      assert layers[..i][i - 1] == layers'[..i][i - 1];
      ViewBelow(base, layers, layers', i - 1);
    }
  }

  /** Erasing some keys and then writing others, in any order among themselves. */
  function Applied(m: Store, erased: set<Key>, written: map<Key, Value>): (r: Store) {
    (m - erased) + written
  }

  lemma OverlayIsApplied(m: Store, l: Layer)
    requires l.writes.Keys !! l.deletes
    ensures Overlay(m, l) == Applied(m, l.deletes, l.writes)
  {
    var a, b := Overlay(m, l), Applied(m, l.deletes, l.writes);
    assert a.Keys == b.Keys;
  }

  /** `CDBBatch`: operations on the store that are written together. */
  datatype BatchOp = Put(k: Key, v: Value) | Delete(k: Key)

  function Replay(m: Store, ops: seq<BatchOp>): Store {
    if ops == [] then m else
      var r := Replay(m, ops[..|ops| - 1]);
      match ops[|ops| - 1]
      case Put(k, v) => r[k := v]
      case Delete(k) => r - {k}
  }

  lemma ReplayNext(m: Store, ops: seq<BatchOp>, op: BatchOp)
    ensures Replay(m, ops + [op]) == if op.Put? then Replay(m, ops)[op.k := op.v] else Replay(m, ops) - {op.k}
  {
    assert (ops + [op])[..|ops|] == ops;
  }

  /** The answer to a read; asking for another type than a pending write's throws. */
  datatype Answer = Found(value: Value) | Missing | WrongType

  /** The pending write that decides a read, if a pending write does. */
  function Pending(layers: seq<Layer>, i: nat, k: Key): Option<Value>
    requires i <= |layers|
  {
    if i == 0 || k in layers[i - 1].deletes then None
    else if k in layers[i - 1].writes then Some(layers[i - 1].writes[k])
    else Pending(layers, i - 1, k)
  }

  datatype Op = Begin | Write(k: Key, v: Value) | Erase(k: Key) | Commit | Rollback

  /** The same operation on plain maps, the outermost first: a transaction is a
      copy of its parent, committing copies it back, rolling back copies it anew. */
  function PlainStep(views: seq<Store>, op: Op): (r: seq<Store>)
    requires views != []
    ensures r != []
  {
    var n := |views| - 1;
    match op
    case Begin => views + [views[n]]
    case Write(k, v) => if n == 0 then views else views[n := views[n][k := v]]
    case Erase(k) => if n == 0 then views else views[n := views[n] - {k}]
    case Commit => if n == 0 then views else views[n - 1 := views[n]]
    case Rollback => if n == 0 then views else views[n := views[n - 1]]
  }

  function PlainRun(views: seq<Store>, ops: seq<Op>): (r: seq<Store>)
    requires views != []
    decreases |ops|
  {
    if ops == [] then views else PlainRun(PlainStep(views, ops[0]), ops[1..])
  }

  class Transactions {
    var base: Store
    var batch: seq<BatchOp>
    var layers: seq<Layer>

    ghost predicate Valid()
      reads this
    {
      forall i | 0 <= i < |layers| :: LayerOk(layers[i])
    }

    ghost function View(i: nat): Store
      requires i <= |layers|
      reads this
    {
      ViewAt(base, layers, i)
    }

    /** What the commits of level `i + 1` change: the store with its batch, or
        the transaction below. */
    ghost function Target(i: nat): Store
      requires i <= |layers|
      reads this
    {
      if i == 0 then Replay(base, batch) else View(i)
    }

    constructor (store: Store)
      ensures Valid() && base == store && layers == [] && batch == []
    {
      base, layers, batch := store, [], [];
    }

    /** A new transaction on top; it shows what its parent shows. */
    method Begin()
      requires Valid()
      modifies this`layers
      ensures Valid() && layers == old(layers) + [EMPTY_LAYER]
      ensures View(|layers|) == old(View(|layers|))
      ensures forall j: nat | j < |layers| :: View(j) == old(View(j))
    {
      ghost var before := layers;
      layers := layers + [EMPTY_LAYER];
      forall j: nat | j <= |before|
        ensures ViewAt(base, layers, j) == ViewAt(base, before, j)
      {
        assert layers[..j] == before[..j];
        ViewBelow(base, before, layers, j);
      }
      EmptyLayerOk(ViewAt(base, layers, |before|));
    }

    method Write(i: nat, k: Key, v: Value)
      requires Valid() && 0 < i <= |layers|
      modifies this`layers
      ensures Valid() && |layers| == |old(layers)|
      ensures layers == old(layers)[i - 1 := layers[i - 1]]
      ensures View(i) == old(View(i))[k := v]
      ensures forall j: nat | j < i :: View(j) == old(View(j))
    {
      hide Total;
      ghost var before := layers;
      var writes, deletes, usage := layers[i - 1].writes, layers[i - 1].deletes, layers[i - 1].memoryUsage;
      if k in deletes {
        deletes := deletes - {k};
        usage := usage - |k|;
      }
      if k in writes {
        usage := usage - (|k| + writes[k].size);
      }
      writes := writes[k := v];
      usage := usage + |k| + v.size;
      layers := layers[i - 1 := Layer(writes, deletes, usage)];
      LayerChanged(base, before, layers, i);
      assert layers[i - 1] == Written(before[i - 1], k, v);
      WrittenOk(before[i - 1], k, v);
      WrittenView(ViewAt(base, before, i - 1), before[i - 1], k, v);
    }

    method Erase(i: nat, k: Key)
      requires Valid() && 0 < i <= |layers|
      modifies this`layers
      ensures Valid() && |layers| == |old(layers)|
      ensures layers == old(layers)[i - 1 := layers[i - 1]]
      ensures View(i) == old(View(i)) - {k}
      ensures forall j: nat | j < i :: View(j) == old(View(j))
    {
      hide Total;
      ghost var before := layers;
      var writes, deletes, usage := layers[i - 1].writes, layers[i - 1].deletes, layers[i - 1].memoryUsage;
      if k in writes {
        usage := usage - (|k| + writes[k].size);
        writes := writes - {k};
      }
      if k !in deletes {
        deletes := deletes + {k};
        usage := usage + |k|;
      }
      layers := layers[i - 1 := Layer(writes, deletes, usage)];
      LayerChanged(base, before, layers, i);
      assert layers[i - 1] == Erased(before[i - 1], k);
      ErasedOk(before[i - 1], k);
      ErasedView(ViewAt(base, before, i - 1), before[i - 1], k);
    }

    /** Read asks the transactions from the top down, then the store. */
    method Read(i: nat, k: Key, kind: int) returns (r: Answer)
      requires Valid() && i <= |layers|
      ensures r.WrongType? <==> Pending(layers, i, k).Some? && Pending(layers, i, k).value.kind != kind
      ensures !r.WrongType? ==> r == if k in View(i) then Found(View(i)[k]) else Missing
    {
      if i == 0 {
        return if k in base then Found(base[k]) else Missing;
      }
      if k in layers[i - 1].deletes {
        return Missing;
      }
      if k in layers[i - 1].writes {
        if layers[i - 1].writes[k].kind != kind {
          return WrongType;
        }
        return Found(layers[i - 1].writes[k]);
      }
      r := Read(i - 1, k, kind);
    }

    method Exists(i: nat, k: Key) returns (r: bool)
      requires Valid() && i <= |layers|
      ensures r <==> k in View(i)
    {
      if i == 0 {
        return k in base;
      }
      if k in layers[i - 1].deletes {
        return false;
      }
      if k in layers[i - 1].writes {
        return true;
      }
      r := Exists(i - 1, k);
    }

    /** GetMemoryUsage: the branch for a negative total is never taken. */
    method GetMemoryUsage(i: nat) returns (n: nat)
      requires Valid() && 0 < i <= |layers|
      ensures n == Total(Weights(layers[i - 1])) == layers[i - 1].memoryUsage
    {
      assert LayerOk(layers[i - 1]);
      n := layers[i - 1].memoryUsage;
    }

    method Clear(i: nat)
      requires Valid() && 0 < i <= |layers|
      modifies this`layers
      ensures Valid() && |layers| == |old(layers)|
      ensures layers == old(layers)[i - 1 := EMPTY_LAYER]
      ensures View(i) == old(View(i - 1))
      ensures forall j: nat | j < i :: View(j) == old(View(j))
    {
      ghost var before := layers;
      layers := layers[i - 1 := EMPTY_LAYER];
      LayerChanged(base, before, layers, i);
      EmptyLayerOk(ViewAt(base, before, i - 1));
    }

    /** Erase on a commit target: the store's batch or the parent transaction. */
    method TargetErase(i: nat, k: Key)
      requires Valid() && i <= |layers|
      modifies this`layers, this`batch
      ensures Valid() && |layers| == |old(layers)| && layers[i..] == old(layers)[i..]
      ensures Target(i) == old(Target(i)) - {k} && (i > 0 ==> batch == old(batch))
      ensures forall j: nat | j < i :: View(j) == old(View(j))
    {
      hide LayerOk, ViewAt, Replay;
      if i == 0 {
        ReplayNext(base, batch, Delete(k));
        batch := batch + [Delete(k)];
      } else {
        Erase(i, k);
      }
    }

    method TargetWrite(i: nat, k: Key, v: Value)
      requires Valid() && i <= |layers|
      modifies this`layers, this`batch
      ensures Valid() && |layers| == |old(layers)| && layers[i..] == old(layers)[i..]
      ensures Target(i) == old(Target(i))[k := v] && (i > 0 ==> batch == old(batch))
      ensures forall j: nat | j < i :: View(j) == old(View(j))
    {
      hide LayerOk, ViewAt, Replay;
      if i == 0 {
        ReplayNext(base, batch, Put(k, v));
        batch := batch + [Put(k, v)];
      } else {
        Write(i, k, v);
      }
    }

    /** The second loop of Commit. */
    method CommitWrites(i: nat, l: Layer, ghost m: Store)
      requires Valid() && 0 < i <= |layers| && Target(i - 1) == m
      modifies this`layers, this`batch
      ensures Valid() && |layers| == |old(layers)| && layers[i - 1..] == old(layers)[i - 1..]
      ensures Target(i - 1) == m + l.writes && (i > 1 ==> batch == old(batch))
      ensures forall j: nat | j < i - 1 :: View(j) == old(View(j))
    {
      hide LayerOk, ViewAt, WithWrites, Replay;
      var todo := l.writes.Keys;
      WritesBounds(m, l.writes);
      while todo != {}
        invariant Valid() && todo <= l.writes.Keys && |layers| == |old(layers)|
        invariant layers[i - 1..] == old(layers)[i - 1..] && (i > 1 ==> batch == old(batch))
        invariant forall j: nat | j < i - 1 :: View(j) == old(View(j))
        invariant Target(i - 1) == WithWrites(m, l.writes, todo)
        decreases |todo|
      {
        assert (forall x :: x !in todo) ==> todo == {};
        var k :| k in todo;
        OneMoreWrite(m, l.writes, todo, k);
        TargetWrite(i - 1, k, l.writes[k]);
        todo := todo - {k};
      }
    }

    /** Commit: the target gains exactly the transaction's changes, and the
        transaction is empty.  A parent transaction shows them at once; the
        store does so when its batch is written. */
    method Commit(i: nat)
      requires Valid() && 0 < i <= |layers|
      modifies this`layers, this`batch
      ensures Valid() && |layers| == |old(layers)| && layers[i..] == old(layers)[i..]
      ensures layers[i - 1] == EMPTY_LAYER
      ensures Target(i - 1) == Overlay(old(Target(i - 1)), old(layers[i - 1]))
      ensures View(i) == View(i - 1)
      ensures i > 1 ==> View(i - 1) == old(View(i)) && batch == old(batch)
      ensures forall j: nat | j < i - 1 :: View(j) == old(View(j))
    {
      hide LayerOk, Overlay, ViewAt, Replay;
      var l := layers[i - 1];
      ghost var m := Target(i - 1);
      var todo := l.deletes;
      assert m - (l.deletes - todo) == m;
      while todo != {}
        invariant Valid() && todo <= l.deletes && |layers| == |old(layers)|
        invariant layers[i - 1..] == old(layers)[i - 1..] && (i > 1 ==> batch == old(batch))
        invariant forall j: nat | j < i - 1 :: View(j) == old(View(j))
        invariant Target(i - 1) == m - (l.deletes - todo)
        decreases |todo|
      {
        assert (forall x :: x !in todo) ==> todo == {};
        var k :| k in todo;
        OneMoreErase(m, l.deletes, todo, k);
        TargetErase(i - 1, k);
        todo := todo - {k};
      }
      assert l.deletes - todo == l.deletes;
      CommitWrites(i, l, m - l.deletes);
      CommittedView(old(base), old(layers), i, m);
      ghost var after := layers;
      Clear(i);
      LayerChanged(base, after, layers, i);
      assert layers[i..] == after[i..] == after[i - 1..][1..];
    }

    /** CommitRootTransaction: the root's changes reach the store, and every
        transaction shows what it showed. */
    method CommitRoot()
      requires Valid() && |layers| > 0 && batch == []
      modifies this
      ensures Valid() && layers == old(layers)[0 := EMPTY_LAYER] && batch == []
      ensures base == View(0) == old(View(1))
      ensures forall j: nat | 1 <= j <= |layers| :: View(j) == old(View(j))
    {
      hide LayerOk, Replay;
      NothingToReplay(base);
      RootView(base, layers);
      Commit(1);
      assert layers == [layers[0]] + layers[1..];
      WriteBatch();
      RootMoved(old(base), old(layers), base, layers);
    }

    /** WriteBatch and Clear of the batch. */
    method WriteBatch()
      modifies this`base, this`batch
      ensures base == old(Replay(base, batch)) && batch == []
    {
      base := Replay(base, batch);
      batch := [];
    }

    ghost function Views(): (v: seq<Store>)
      reads this
      ensures |v| == |layers| + 1
    {
      seq(|layers| + 1, i requires 0 <= i <= |layers| reads this => View(i))
    }

    /** Any run on the innermost transaction, with nesting, is the run on plain
        maps. */
    method Run(ops: seq<Op>)
      requires Valid() && batch == []
      modifies this
      ensures Valid() && batch == [] && Views() == PlainRun(old(Views()), ops)
    {
      for n := 0 to |ops|
        invariant Valid() && batch == [] && PlainRun(Views(), ops[n..]) == PlainRun(old(Views()), ops)
      {
        assert ops[n..][0] == ops[n] && ops[n..][1..] == ops[n + 1..];
        Do(ops[n]);
      }
    }

    method Do(op: Op)
      requires Valid() && batch == []
      modifies this
      ensures Valid() && batch == [] && Views() == PlainStep(old(Views()), op)
    {
      hide LayerOk, ViewAt;
      ghost var v0 := Views();
      var n := |layers|;
      match op {
        case Begin =>
          Begin();
        case Write(k, v) =>
          if n > 0 {
            Write(n, k, v);
          }
        case Erase(k) =>
          if n > 0 {
            Erase(n, k);
          }
        case Commit =>
          if n == 1 {
            CommitRoot();
          } else if n > 1 {
            Commit(n);
          }
        case Rollback =>
          if n > 0 {
            Clear(n);
          }
      }
      forall j | 0 <= j < |Views()|
        ensures Views()[j] == PlainStep(v0, op)[j]
      {
        assert Views()[j] == View(j);
        assert j <= n ==> v0[j] == old(View(j));
      }
    }
  }

  lemma OneMoreErase(m: Store, d: set<Key>, todo: set<Key>, k: Key)
    requires k in todo && todo <= d
    ensures (m - (d - todo)) - {k} == m - (d - (todo - {k}))
  {
    var a, b := (m - (d - todo)) - {k}, m - (d - (todo - {k}));
    assert a.Keys == b.Keys;
  }

  /** The store after all writes but those of `todo`. */
  function WithWrites(m: Store, w: map<Key, Value>, todo: set<Key>): Store {
    m + (w - todo)
  }

  lemma WritesBounds(m: Store, w: map<Key, Value>)
    ensures WithWrites(m, w, w.Keys) == m && WithWrites(m, w, {}) == m + w
  {
    assert w - w.Keys == map[] && w - {} == w;
    assert m + map[] == m;
  }

  lemma OneMoreWrite(m: Store, w: map<Key, Value>, todo: set<Key>, k: Key)
    requires k in todo && todo <= w.Keys
    ensures WithWrites(m, w, todo)[k := w[k]] == WithWrites(m, w, todo - {k})
  {
    var a, b := WithWrites(m, w, todo)[k := w[k]], WithWrites(m, w, todo - {k});
    assert a.Keys == b.Keys;
  }

  lemma CommittedView(base: Store, layers: seq<Layer>, i: nat, m: Store)
    requires 0 < i <= |layers| && LayerOk(layers[i - 1])
    ensures Overlay(m, layers[i - 1]) == (m - layers[i - 1].deletes) + layers[i - 1].writes
    ensures ViewAt(base, layers, i) == Overlay(ViewAt(base, layers, i - 1), layers[i - 1])
  {
    OverlayIsApplied(m, layers[i - 1]);
  }

  lemma NothingToReplay(m: Store)
    ensures Replay(m, []) == m
  {
  }

  lemma RootView(base: Store, layers: seq<Layer>)
    requires |layers| > 0
    ensures ViewAt(base, layers, 0) == base && ViewAt(base, layers, 1) == Overlay(base, layers[0])
  {
  }

  lemma RootMoved(base: Store, layers: seq<Layer>, base': Store, layers': seq<Layer>)
    requires |layers| > 0 && layers' == layers[0 := EMPTY_LAYER] && base' == ViewAt(base, layers, 1)
    ensures forall j: nat | 1 <= j <= |layers| :: ViewAt(base', layers', j) == ViewAt(base, layers, j)
  {
    forall j: nat | 1 <= j <= |layers| ensures ViewAt(base', layers', j) == ViewAt(base, layers, j) {
      RootMovedAt(base, layers, base', layers', j);
    }
  }

  lemma {:induction false} RootMovedAt(base: Store, layers: seq<Layer>, base': Store, layers': seq<Layer>, j: nat)
    requires |layers| > 0 && layers' == layers[0 := EMPTY_LAYER] && base' == ViewAt(base, layers, 1)
    requires 1 <= j <= |layers|
    ensures ViewAt(base', layers', j) == ViewAt(base, layers, j)
    decreases j
  {
    if j == 1 {
      RootView(base', layers');
      EmptyLayerOk(base');
    } else {
      RootMovedAt(base, layers, base', layers', j - 1);
    }
  }

  lemma LayerChanged(base: Store, before: seq<Layer>, after: seq<Layer>, i: nat)
    requires 0 < i <= |before| == |after| && after == before[i - 1 := after[i - 1]]
    ensures forall j: nat | j < i :: ViewAt(base, after, j) == ViewAt(base, before, j)
  {
    forall j: nat | j < i
      ensures ViewAt(base, after, j) == ViewAt(base, before, j)
    {
      assert before[..j] == after[..j];
      ViewBelow(base, before, after, j);
    }
  }
}

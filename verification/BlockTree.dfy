/** The block tree with skip pointers (`CBlockIndex`) and the active chain (`CChain`).
    Blocks are named by their place in an arena; -1 is the null pointer. */
module BlockTree {
  import opened NatArith

  const NULL := -1

  datatype Node = Node(prev: int, skip: int, height: int)

  // ---- Skip heights ----

  /** Turn the lowest one bit into a zero: `n & (n - 1)`. */
  function InvertLowestOne(n: nat): (r: nat) {
    if n == 0 then 0 else And(n, n - 1)
  }

  lemma {:induction false} AndSelf(a: nat)
    ensures And(a, a) == a
  {
    if a > 0 {
      AndSelf(a / 2);
    }
  }

  /** Exactly the lowest one bit goes. */
  lemma {:induction false} LowestOneGoes(n: nat) returns (k: nat, q: nat)
    requires n > 0
    ensures n == q * (2 * Pow2(k)) + Pow2(k) && InvertLowestOne(n) == q * (2 * Pow2(k))
    decreases n
  {
    if n % 2 == 1 {
      k, q := 0, n / 2;
      assert Pow2(0) == 1;
      AndSelf(n / 2);
      assert (n - 1) / 2 == n / 2;
    } else {
      var j, p := LowestOneGoes(n / 2);
      k, q := j + 1, p;
      Regrouped(p, Pow2(j));
      EvenInvert(n / 2);
    }
  }

  lemma Regrouped(q: nat, p: nat)
    ensures 2 * (q * (2 * p)) == q * (2 * (2 * p))
  {
    MulAssoc(2, q, 2 * p);
    MulAssoc(q, 2, 2 * p);
  }

  lemma EvenInvert(m: nat)
    requires m > 0
    ensures InvertLowestOne(2 * m) == 2 * InvertLowestOne(m)
  {
    assert (2 * m - 1) / 2 == m - 1;
  }

  lemma InvertDecreases(n: nat)
    ensures InvertLowestOne(n) <= n && (n > 0 ==> InvertLowestOne(n) < n)
  {
    if n > 0 {
      var k, q := LowestOneGoes(n);
    }
  }

  /** The height a block's skip pointer leads to. */
  function GetSkipHeight(height: int): (r: int)
    ensures 0 <= r && (height > 0 ==> r < height)
  {
    if height < 2 then 0 else
      InvertDecreases(height);
      InvertDecreases(height - 1);
      InvertDecreases(InvertLowestOne(height - 1));
      if height % 2 == 1 then InvertLowestOne(InvertLowestOne(height - 1)) + 1 else InvertLowestOne(height)
  }

  lemma {:induction false} ShiftedInvert(p: nat, j: nat)
    ensures InvertLowestOne(p * Pow2(j)) == InvertLowestOne(p) * Pow2(j)
  {
    hide InvertLowestOne;
    if j > 0 {
      ShiftedInvert(p, j - 1);
      Doubled(p, Pow2(j - 1));
      Doubled(InvertLowestOne(p), Pow2(j - 1));
      if p * Pow2(j - 1) > 0 {
        EvenInvert(p * Pow2(j - 1));
      } else {
        InvertDecreases(0);
        InvertDecreases(p * Pow2(j));
      }
    }
  }

  lemma Doubled(p: nat, q: nat)
    ensures p * (2 * q) == 2 * (p * q)
  {
    MulAssoc(p, 2, q);
    MulAssoc(2, p, q);
  }

  /** From height 0 or 1 a skip leads to 0.  An even height loses its lowest one
      bit.  An odd height keeps its last bit and loses the two lowest one bits
      above it, or the only one there is. */
  lemma SkipHeightIs(height: nat) returns (k: nat, p: nat, m: nat, q: nat)
    ensures height < 2 ==> GetSkipHeight(height) == 0
    ensures height >= 2 ==> height - height % 2 == p * (2 * Pow2(k)) + Pow2(k)
    ensures height >= 2 && height % 2 == 0 ==> GetSkipHeight(height) == p * (2 * Pow2(k))
    ensures height >= 2 && height % 2 == 1 ==>
      if p == 0 then GetSkipHeight(height) == 1
      else p == q * (2 * Pow2(m)) + Pow2(m) && GetSkipHeight(height) == q * (2 * Pow2(m)) * (2 * Pow2(k)) + 1
  {
    hide InvertLowestOne;
    k, p, m, q := 0, 0, 0, 0;
    if height >= 2 {
      k, p := LowestOneGoes(height - height % 2);
      if height % 2 == 1 {
        ShiftedInvert(p, k + 1);
        if p == 0 {
          InvertDecreases(0);
        } else {
          m, q := LowestOneGoes(p);
        }
      }
    }
  }

  // ---- The tree and the plain parent walk ----

  predicate Block(t: seq<Node>, i: int) {
    0 <= i < |t|
  }

  predicate Linked(t: seq<Node>, i: int)
    requires Block(t, i)
  {
    && t[i].height >= 0
    && (t[i].prev == NULL ==> t[i].height == 0)
    && (t[i].prev != NULL ==> Block(t, t[i].prev) && t[t[i].prev].height == t[i].height - 1)
  }

  /** Every parent is one block lower. */
  predicate Tree(t: seq<Node>) {
    forall i | 0 <= i < |t| :: Linked(t, i)
  }

  /** The ancestor at height `h`, found one parent at a time. */
  function Walk(t: seq<Node>, i: int, h: int): (a: int)
    requires Tree(t) && Block(t, i)
    ensures Block(t, a) && t[a].height <= t[i].height
    decreases t[i].height
  {
    assert Linked(t, i);
    if t[i].height <= h || t[i].prev == NULL then i else Walk(t, t[i].prev, h)
  }

  lemma {:induction false} WalkHeight(t: seq<Node>, i: int, h: int)
    requires Tree(t) && Block(t, i) && 0 <= h <= t[i].height
    ensures t[Walk(t, i, h)].height == h
    decreases t[i].height
  {
    assert Linked(t, i);
    if t[i].height > h {
      WalkHeight(t, t[i].prev, h);
    }
  }

  lemma {:induction false} WalkWalk(t: seq<Node>, i: int, g: int, h: int)
    requires Tree(t) && Block(t, i) && h <= g
    ensures Walk(t, Walk(t, i, g), h) == Walk(t, i, h)
    decreases t[i].height
  {
    assert Linked(t, i);
    if t[i].height > g && t[i].prev != NULL {
      WalkWalk(t, t[i].prev, g, h);
    }
  }

  /** A skip pointer is unset or leads to the ancestor at the skip height. */
  predicate SkipOk(t: seq<Node>, i: int)
    requires Tree(t) && Block(t, i)
  {
    t[i].skip == NULL || (t[i].height > 0 && t[i].skip == Walk(t, i, GetSkipHeight(t[i].height)))
  }

  predicate TreeOk(t: seq<Node>) {
    Tree(t) && forall i | 0 <= i < |t| :: SkipOk(t, i)
  }

  /** Only skip pointers differ, so walks agree. */
  lemma {:induction false} WalkIgnoresSkips(t: seq<Node>, u: seq<Node>, i: int, h: int)
    requires Tree(t) && Tree(u) && |t| <= |u| && Block(t, i)
    requires forall k | 0 <= k < |t| :: t[k].prev == u[k].prev && t[k].height == u[k].height
    ensures Walk(u, i, h) == Walk(t, i, h)
    decreases t[i].height
  {
    assert Linked(t, i);
    if t[i].height > h && t[i].prev != NULL {
      WalkIgnoresSkips(t, u, t[i].prev, h);
    }
  }

  // ---- Ancestors and common ancestors ----

  /** `a` lies on the path from `i` to its root (a block is its own ancestor). */
  predicate Ancestor(t: seq<Node>, a: int, i: int)
    requires Tree(t)
  {
    Block(t, i) && Block(t, a) && Walk(t, i, t[a].height) == a
  }

  lemma AncestorStep(t: seq<Node>, a: int, i: int)
    requires Tree(t) && Block(t, i)
    ensures Ancestor(t, a, i) <==> a == i || Ancestor(t, a, t[i].prev)
  {
    assert Linked(t, i);
    if Block(t, a) && t[i].prev != NULL {
      var p := t[i].prev;
      assert Linked(t, a) && Linked(t, p);
      if t[a].height >= t[i].height {
        assert Walk(t, p, t[a].height) == p;
      }
    }
    if Block(t, a) && t[i].prev == NULL {
      assert Linked(t, a);
    }
  }

  /** The highest block that is an ancestor of both; null if there is none. */
  ghost predicate HighestCommon(t: seq<Node>, r: int, a: int, b: int)
    requires Tree(t) && Block(t, a) && Block(t, b)
  {
    && (r != NULL ==> Block(t, r) && Ancestor(t, r, a) && Ancestor(t, r, b))
    && (forall c | Block(t, c) && Ancestor(t, c, a) && Ancestor(t, c, b) ::
          r != NULL && t[c].height <= t[r].height)
  }

  /** Going up from one side past blocks the other side is too low for changes
      nothing. */
  lemma CommonBelow(t: seq<Node>, a: int, b: int, c: int)
    requires Tree(t) && Block(t, a) && Block(t, b) && 0 <= t[b].height <= t[a].height
    ensures Ancestor(t, c, a) && Ancestor(t, c, b)
       <==> Ancestor(t, c, Walk(t, a, t[b].height)) && Ancestor(t, c, b)
  {
    assert Linked(t, b);
    if Ancestor(t, c, b) {
      assert t[c].height <= t[b].height;
      WalkWalk(t, a, t[b].height, t[c].height);
    }
  }

  // ---- The path from the root, and the chain ----

  function Path(t: seq<Node>, i: int): (p: seq<int>)
    requires Tree(t) && Block(t, i)
    ensures |p| == t[i].height + 1
    decreases t[i].height
  {
    assert Linked(t, i);
    if t[i].height == 0 then [i] else Path(t, t[i].prev) + [i]
  }

  lemma {:induction false} PathIsWalk(t: seq<Node>, i: int, k: nat)
    requires Tree(t) && Block(t, i) && k <= t[i].height
    ensures Path(t, i)[k] == Walk(t, i, k)
    decreases t[i].height
  {
    assert Linked(t, i);
    if k < t[i].height {
      PathIsWalk(t, t[i].prev, k);
    }
  }

  lemma WalkIsPrefix(t: seq<Node>, i: int, h: nat)
    requires Tree(t) && Block(t, i) && h <= t[i].height
    ensures Path(t, Walk(t, i, h)) == Path(t, i)[..h + 1]
  {
    WalkHeight(t, i, h);
    var a := Walk(t, i, h);
    forall k: nat | k <= h
      ensures Path(t, a)[k] == Path(t, i)[k]
    {
      PathIsWalk(t, a, k);
      PathIsWalk(t, i, k);
      WalkWalk(t, i, h, k);
    }
  }

  /** A vector that is the ancestor path of its last entry, or empty. */
  predicate ChainOk(t: seq<Node>, v: seq<int>)
    requires Tree(t)
  {
    v == [] || (Block(t, v[|v| - 1]) && v == Path(t, v[|v| - 1]))
  }

  lemma ChainEntry(t: seq<Node>, v: seq<int>, k: nat)
    requires Tree(t) && ChainOk(t, v) && k < |v|
    ensures Block(t, v[k]) && t[v[k]].height == k && v[..k + 1] == Path(t, v[k])
  {
    var tip := v[|v| - 1];
    PathIsWalk(t, tip, k);
    WalkHeight(t, tip, k);
    WalkIsPrefix(t, tip, k);
  }

  /** Being on the chain is being an ancestor of its tip. */
  lemma ContainsIsAncestor(t: seq<Node>, v: seq<int>, i: int)
    requires Tree(t) && ChainOk(t, v) && v != [] && Block(t, i) && t[i].height >= 0
    ensures (t[i].height < |v| && v[t[i].height] == i) <==> Ancestor(t, i, v[|v| - 1])
  {
    var tip := v[|v| - 1];
    if t[i].height < |v| {
      PathIsWalk(t, tip, t[i].height);
    }
  }

  class BlockMap {
    var tree: seq<Node>

    ghost predicate Valid()
      reads this
    {
      TreeOk(tree)
    }

    constructor ()
      ensures Valid() && tree == []
    {
      tree := [];
    }

    /** The skip-pointer walk finds what the parent walk finds. */
    method GetAncestor(i: int, height: int) returns (a: int)
      requires Valid() && Block(tree, i)
      ensures a == if height > tree[i].height || height < 0 then NULL else Walk(tree, i, height)
    {
      assert Linked(tree, i);
      if height > tree[i].height || height < 0 {
        return NULL;
      }
      var walk, heightWalk := i, tree[i].height;
      while heightWalk > height
        invariant Block(tree, walk) && tree[walk].height == heightWalk >= height
        invariant Walk(tree, walk, height) == Walk(tree, i, height)
        decreases heightWalk
      {
        assert Linked(tree, walk) && SkipOk(tree, walk);
        var heightSkip := GetSkipHeight(heightWalk);
        var heightSkipPrev := GetSkipHeight(heightWalk - 1);
        if tree[walk].skip != NULL &&
           (heightSkip == height ||
            (heightSkip > height && !(heightSkipPrev < heightSkip - 2 && heightSkipPrev >= height))) {
          WalkHeight(tree, walk, heightSkip);
          WalkWalk(tree, walk, heightSkip, height);
          walk := tree[walk].skip;
          heightWalk := heightSkip;
        } else {
          walk := tree[walk].prev;
          heightWalk := heightWalk - 1;
        }
      }
      return walk;
    }

    method BuildSkip(i: int)
      requires Valid() && Block(tree, i)
      modifies this
      ensures Valid() && |tree| == |old(tree)|
      ensures forall k | 0 <= k < |tree| && k != i :: tree[k] == old(tree)[k]
      ensures tree[i].prev == old(tree)[i].prev && tree[i].height == old(tree)[i].height
      ensures tree[i].prev != NULL ==> tree[i].skip == Walk(tree, i, GetSkipHeight(tree[i].height))
    {
      assert Linked(tree, i);
      if tree[i].prev != NULL {
        var before := tree;
        var skip := GetAncestor(tree[i].prev, GetSkipHeight(tree[i].height));
        assert Linked(before, before[i].prev);
        tree := tree[i := tree[i].(skip := skip)];
        TreeKept(before, tree);
        WalkIgnoresSkips(before, tree, i, GetSkipHeight(tree[i].height));
        forall k | 0 <= k < |tree|
          ensures SkipOk(tree, k)
        {
          assert SkipOk(before, k);
          WalkIgnoresSkips(before, tree, k, GetSkipHeight(tree[k].height));
        }
      }
    }

    /** The links AddToBlockIndex sets for a block whose parent is `prev`, or
        for a block without a known parent. */
    method AddBlock(prev: int) returns (i: int)
      requires Valid() && (prev != NULL ==> Block(tree, prev))
      modifies this
      ensures Valid() && i == |old(tree)| && |tree| == i + 1 && old(tree) == tree[..i]
      ensures tree[i].prev == prev && tree[i].height == if prev == NULL then 0 else tree[prev].height + 1
      ensures prev != NULL ==> tree[i].skip == Walk(tree, i, GetSkipHeight(tree[i].height))
    {
      var before := tree;
      i := |tree|;
      tree := tree + [Node(prev, NULL, if prev == NULL then 0 else tree[prev].height + 1)];
      assert Tree(tree) by {
        forall k | 0 <= k < |tree|
          ensures Linked(tree, k)
        {
          assert k < |before| ==> Linked(before, k);
          assert prev != NULL ==> Linked(before, prev);
        }
      }
      forall k | 0 <= k < |tree|
        ensures SkipOk(tree, k)
      {
        if k < |before| {
          assert SkipOk(before, k);
          WalkIgnoresSkips(before, tree, k, GetSkipHeight(tree[k].height));
        }
      }
      if prev != NULL {
        BuildSkip(i);
      }
      assert tree[..i] == before;
    }

    /** LastCommonAncestor: null only when the blocks do not share a root. */
    method LastCommonAncestor(a: int, b: int) returns (r: int)
      requires Valid() && Block(tree, a) && Block(tree, b)
      ensures HighestCommon(tree, r, a, b)
    {
      var pa, pb := a, b;
      assert Linked(tree, a) && Linked(tree, b);
      if tree[pa].height > tree[pb].height {
        pa := GetAncestor(pa, tree[pb].height);
        WalkHeight(tree, a, tree[b].height);
      } else if tree[pb].height > tree[pa].height {
        pb := GetAncestor(pb, tree[pa].height);
        WalkHeight(tree, b, tree[a].height);
      }
      forall c
        ensures Ancestor(tree, c, a) && Ancestor(tree, c, b) <==> Ancestor(tree, c, pa) && Ancestor(tree, c, pb)
      {
        if tree[b].height <= tree[a].height {
          CommonBelow(tree, a, b, c);
        } else {
          CommonBelow(tree, b, a, c);
        }
      }
      while pa != pb && pa != NULL && pb != NULL
        invariant pa == NULL <==> pb == NULL
        invariant pa != NULL ==> Block(tree, pa) && Block(tree, pb) && tree[pa].height == tree[pb].height
        invariant forall c :: Ancestor(tree, c, a) && Ancestor(tree, c, b) <==>
                              Ancestor(tree, c, pa) && Ancestor(tree, c, pb)
        decreases if pa == NULL then -1 else tree[pa].height
      {
        assert Linked(tree, pa) && Linked(tree, pb);
        forall c
          ensures Ancestor(tree, c, pa) && Ancestor(tree, c, pb) <==>
                  Ancestor(tree, c, tree[pa].prev) && Ancestor(tree, c, tree[pb].prev)
        {
          BothStep(tree, pa, pb, c);
        }
        BothStep(tree, pa, pb, pa);
        pa := tree[pa].prev;
        pb := tree[pb].prev;
      }
      assert pa == pb;
      return pa;
    }
  }

  lemma TreeKept(t: seq<Node>, u: seq<Node>)
    requires Tree(t) && |t| == |u|
    requires forall k | 0 <= k < |t| :: t[k].prev == u[k].prev && t[k].height == u[k].height
    ensures Tree(u)
  {
    forall k | 0 <= k < |u|
      ensures Linked(u, k)
    {
      assert Linked(t, k);
    }
  }

  /** Two different blocks of one height have their common ancestors above. */
  lemma BothStep(t: seq<Node>, a: int, b: int, c: int)
    requires Tree(t) && Block(t, a) && Block(t, b) && a != b && t[a].height == t[b].height
    ensures t[a].prev == NULL <==> t[b].prev == NULL
    ensures Ancestor(t, c, a) && Ancestor(t, c, b) <==>
            Ancestor(t, c, t[a].prev) && Ancestor(t, c, t[b].prev)
  {
    assert Linked(t, a) && Linked(t, b);
    AncestorStep(t, c, a);
    AncestorStep(t, c, b);
    if t[a].prev != NULL {
      assert Linked(t, t[a].prev);
    }
    if t[b].prev != NULL {
      assert Linked(t, t[b].prev);
    }
    NotBelow(t, a, t[b].prev);
    NotBelow(t, b, t[a].prev);
  }

  /** A block is no ancestor of a lower one. */
  lemma NotBelow(t: seq<Node>, a: int, p: int)
    requires Tree(t) && Block(t, a) && (Block(t, p) ==> t[p].height < t[a].height)
    ensures !Ancestor(t, a, p)
  {
  }

  function Clamp(h: int): int {
    if h > 0 then h else 0
  }

  /** The step taken after the k-th entry of a locator. */
  function LocatorStep(k: nat): (r: nat)
    ensures r > 0
  {
    Pow2(if k <= 10 then 0 else k - 10)
  }

  lemma StepDoubles(k: nat)
    ensures LocatorStep(k + 1) == if k + 1 > 10 then 2 * LocatorStep(k) else LocatorStep(k)
  {
  }

  /** Each entry is an ancestor of the first, one step below the one before. */
  ghost predicate LocatorOk(t: seq<Node>, have: seq<int>)
    requires Tree(t)
  {
    && (forall k | 0 <= k < |have| :: Block(t, have[k]) && Ancestor(t, have[k], have[0]))
    && (forall k | 0 < k < |have| ::
          t[have[k]].height == Clamp(t[have[k - 1]].height - LocatorStep(k - 1)))
  }

  ghost predicate LocatorNext(t: seq<Node>, have: seq<int>, p: int)
    requires Tree(t) && LocatorOk(t, have)
  {
    && Block(t, p)
    && (have != [] ==>
          && Ancestor(t, p, have[0])
          && t[p].height == Clamp(t[have[|have| - 1]].height - LocatorStep(|have| - 1)))
  }

  lemma LocatorPush(t: seq<Node>, have: seq<int>, p: int)
    requires Tree(t) && LocatorOk(t, have) && LocatorNext(t, have, p)
    ensures LocatorOk(t, have + [p])
  {
  }

  /** How far below the first entry the k-th one is. */
  function Back(k: nat): nat {
    if k <= 11 then k else Pow2(k - 10) + 9
  }

  lemma BackNext(k: nat)
    ensures Back(k + 1) == Back(k) + LocatorStep(k)
  {
    if k == 11 {
      assert Pow2(1) == 2 && Pow2(2) == 4;
    } else if k < 11 {
      assert Pow2(0) == 1;
    }
  }

  lemma {:induction false} HeightAt(t: seq<Node>, have: seq<int>, k: nat)
    requires Tree(t) && LocatorOk(t, have) && k < |have|
    ensures t[have[k]].height == Clamp(t[have[0]].height - Back(k))
  {
    hide Ancestor, Back, LocatorStep;
    if k == 0 {
      assert Linked(t, have[0]);
      BackStart();
    } else {
      HeightAt(t, have, k - 1);
      BackNext(k - 1);
    }
  }

  lemma BackStart()
    ensures Back(0) == 0
  {
  }

  /** A locator that goes down to a root and no further. */
  ghost predicate Locator(t: seq<Node>, have: seq<int>)
    requires Tree(t)
  {
    && have != [] && LocatorOk(t, have) && t[have[|have| - 1]].height == 0
    && forall k | 0 <= k < |have| - 1 :: t[have[k]].height > 0
  }

  const INT_LIMIT := 0x8000_0000

  /** The step fits an int throughout exactly up to the height 2^30 + 9.  Below
      2^31 at most the last step computed does not fit, and that one is not used. */
  lemma LocatorStepsFit(t: seq<Node>, have: seq<int>)
    requires Tree(t) && Locator(t, have)
    ensures (forall k: nat | k < |have| :: LocatorStep(k) < INT_LIMIT) <==> t[have[0]].height <= 0x4000_0009
    ensures t[have[0]].height < INT_LIMIT ==> forall k: nat | k < |have| - 1 :: LocatorStep(k) < INT_LIMIT
  {
    hide Ancestor, Back, LocatorStep;
    var h := t[have[0]].height;
    var n := |have| - 1;
    BigSteps();
    HeightAt(t, have, n);
    if n >= 41 {
      HeightAt(t, have, 40);
      StepsGrow(41, n);
    }
    if h <= 0x4000_0009 {
      assert n <= 40;
    }
    if n >= 42 {
      HeightAt(t, have, 41);
    }
    if h > 0x4000_0009 && n <= 40 {
      BackGrows(n, 40);
    }
    forall k: nat | k <= 40 ensures LocatorStep(k) < INT_LIMIT {
      StepsGrow(k, 40);
    }
  }

  lemma BigSteps()
    ensures LocatorStep(40) == 0x4000_0000 && LocatorStep(41) == INT_LIMIT
    ensures Back(40) == 0x4000_0009 && Back(41) == 0x8000_0009
  {
    assert Pow2(10) == 1024 by {
      assert Pow(2, 5) == 32;
      PowAdd(2, 5, 5);
    }
    PowAdd(2, 10, 10);
    PowAdd(2, 20, 10);
    assert Pow2(31) == 2 * Pow2(30);
  }

  lemma StepsGrow(j: nat, k: nat)
    requires j <= k
    ensures LocatorStep(j) <= LocatorStep(k)
  {
    PowMono(2, if j <= 10 then 0 else j - 10, if k <= 10 then 0 else k - 10);
  }

  lemma BackGrows(j: nat, k: nat)
    requires j <= k
    ensures Back(j) <= Back(k)
    decreases k - j
  {
    hide Back, LocatorStep;
    if j < k {
      BackNext(j);
      BackGrows(j + 1, k);
    }
  }

  /** A chain of `n` blocks without forks. */
  function Line(n: nat): (t: seq<Node>)
    ensures |t| == n && Tree(t)
  {
    seq(n, i => Node(i - 1, NULL, i))
  }

  lemma {:induction false} LineAncestor(n: nat, i: nat, h: nat)
    requires h <= i < n
    ensures Ancestor(Line(n), h, i)
    decreases i
  {
    if h < i {
      LineAncestor(n, i - 1, h);
    }
  }

  /** The entries for the tip of that chain. */
  function LineLocator(top: nat, size: nat): (have: seq<int>) {
    seq(size, k requires 0 <= k < size => Clamp(top - Back(k)))
  }

  lemma LineLocatorEntry(top: nat, size: nat, k: nat)
    requires k < size
    ensures var (t, p) := (Line(top + 1), LineLocator(top, size)[k]);
      Block(t, p) && t[p].height == p == Clamp(top - Back(k)) && Ancestor(t, p, top)
  {
    hide Ancestor, Back;
    var p := Clamp(top - Back(k));
    LineAncestor(top + 1, top, p);
  }

  lemma LineLocatorStep(top: nat, size: nat, k: nat)
    requires 0 < k < size
    ensures LineLocator(top, size)[k] == Clamp(LineLocator(top, size)[k - 1] - LocatorStep(k - 1))
  {
    hide Back, LocatorStep;
    BackNext(k - 1);
  }

  lemma LineLocatorOk(top: nat, size: nat)
    requires size > 0
    ensures LocatorOk(Line(top + 1), LineLocator(top, size)) && LineLocator(top, size)[0] == top
  {
    BackStart();
    var (t, have) := (Line(top + 1), LineLocator(top, size));
    LineSize(top, size);
    assert have[0] == top;
    hide Ancestor, LocatorStep, Back, Line, LineLocator, Clamp, Linked, Walk;
    forall k | 0 <= k < |have| ensures Block(t, have[k]) && Ancestor(t, have[k], have[0]) {
      LineLocatorEntry(top, size, k);
    }
    forall k | 0 < k < |have| ensures t[have[k]].height == Clamp(t[have[k - 1]].height - LocatorStep(k - 1)) {
      LineLocatorEntry(top, size, k);
      LineLocatorEntry(top, size, k - 1);
      LineLocatorStep(top, size, k);
    }
  }

  lemma LineLocatorIs(top: nat, size: nat)
    requires size > 1 && Back(size - 2) < top <= Back(size - 1)
    ensures Locator(Line(top + 1), LineLocator(top, size)) && LineLocator(top, size)[0] == top
  {
    hide LocatorOk, LocatorStep, Back, Line, LineLocator, Linked, Walk, Ancestor;
    LineSize(top, size);
    LineLocatorOk(top, size);
    LineLocatorEntry(top, size, size - 1);
    var (t, have) := (Line(top + 1), LineLocator(top, size));
    forall k | 0 <= k < |have| - 1 ensures Block(t, have[k]) && t[have[k]].height > 0 {
      LineLocatorEntry(top, size, k);
      BackGrows(k, size - 2);
    }
  }

  lemma LineSize(top: nat, size: nat)
    ensures |LineLocator(top, size)| == size
  {
  }

  /** At the height 2^30 + 10 the step reaches 2^31. */
  lemma LocatorOverflows()
    ensures var (t, have) := (Line(0x4000_000b), LineLocator(0x4000_000a, 42));
      Locator(t, have) && have[0] == 0x4000_000a && LocatorStep(41) == INT_LIMIT && 41 < |have|
  {
    hide *;
    BigSteps();
    LineSize(0x4000_000a, 42);
    LineLocatorIs(0x4000_000a, 42);
  }

  lemma Further(t: seq<Node>, p: int, start: int, h: int)
    requires Tree(t) && Ancestor(t, p, start) && 0 <= h <= t[p].height
    ensures Ancestor(t, Walk(t, p, h), start)
  {
    WalkHeight(t, p, h);
    WalkWalk(t, start, t[p].height, h);
  }

  /** Below a block of the chain, the vector holds that block's ancestors. */
  lemma OnChain(t: seq<Node>, v: seq<int>, p: int, h: nat)
    requires Tree(t) && ChainOk(t, v) && Block(t, p) && h <= t[p].height < |v| && v[t[p].height] == p
    ensures v[h] == Walk(t, p, h)
  {
    ChainEntry(t, v, t[p].height);
    PathIsWalk(t, p, h);
    assert v[..t[p].height + 1][h] == v[h];
  }

  /** Adding blocks and setting skip pointers does not disturb a chain. */
  lemma ChainSurvives(t: seq<Node>, u: seq<Node>, v: seq<int>)
    requires Tree(t) && Tree(u) && |t| <= |u| && ChainOk(t, v)
    requires forall k | 0 <= k < |t| :: t[k].prev == u[k].prev && t[k].height == u[k].height
    ensures ChainOk(u, v)
  {
    if v != [] {
      var tip := v[|v| - 1];
      forall k | 0 <= k < |v|
        ensures v[k] == Path(u, tip)[k]
      {
        PathIsWalk(t, tip, k);
        PathIsWalk(u, tip, k);
        WalkIgnoresSkips(t, u, tip, k);
      }
    }
  }

  /** When the loop of SetTip stops, what it has not written is already right. */
  lemma EarlyStop(t: seq<Node>, v: seq<int>, v0: seq<int>, tip: int, p: int)
    requires Tree(t) && ChainOk(t, v0) && Block(t, tip) && |v| == t[tip].height + 1
    requires p != NULL ==> Block(t, p) && 0 <= t[p].height < |v| && p == Walk(t, tip, t[p].height) == v[t[p].height]
    requires forall k | 0 <= k < |v| && (p != NULL ==> k > t[p].height) :: v[k] == Walk(t, tip, k)
    requires p != NULL ==> forall k | 0 <= k <= t[p].height :: v[k] == if k < |v0| then v0[k] else NULL
    ensures v == Path(t, tip)
    ensures ChainOk(t, v)
  {
    if p != NULL {
      ChainEntry(t, v0, t[p].height);
    }
    forall k | 0 <= k < |v|
      ensures v[k] == Path(t, tip)[k]
    {
      PathIsWalk(t, tip, k);
      if p != NULL && k <= t[p].height {
        assert v0[..t[p].height + 1][k] == v0[k];
        PathIsWalk(t, p, k);
        WalkWalk(t, tip, t[p].height, k);
      }
    }
    assert Linked(t, tip);
    PathIsWalk(t, tip, t[tip].height);
  }

  /** `CChain`: a vector of blocks that follows a tip. */
  class Chain {
    var vChain: seq<int>

    constructor ()
      ensures vChain == []
    {
      vChain := [];
    }

    /** The vector becomes the path of the new tip, though the loop stops at the
        first block it already holds. */
    method SetTip(t: seq<Node>, tip: int)
      requires TreeOk(t) && ChainOk(t, vChain) && (tip != NULL ==> Block(t, tip))
      modifies this
      ensures ChainOk(t, vChain)
      ensures vChain == if tip == NULL then [] else Path(t, tip)
    {
      if tip == NULL {
        vChain := [];
        return;
      }
      ghost var v0 := vChain;
      hide Path, ChainOk, SkipOk;
      assert Linked(t, tip);
      var size := t[tip].height + 1;
      vChain := if |vChain| >= size then vChain[..size] else vChain + seq(size - |vChain|, _ => NULL);
      var p := tip;
      while p != NULL && vChain[t[p].height] != p
        invariant |vChain| == size
        invariant p != NULL ==> Block(t, p) && 0 <= t[p].height < size && p == Walk(t, tip, t[p].height)
        invariant forall k | 0 <= k < size && (p != NULL ==> k > t[p].height) :: vChain[k] == Walk(t, tip, k)
        invariant p != NULL ==> forall k | 0 <= k <= t[p].height ::
                    vChain[k] == if k < |v0| then v0[k] else NULL
        decreases if p == NULL then -1 else t[p].height
      {
        assert Linked(t, p);
        vChain := vChain[t[p].height := p];
        if t[p].prev != NULL {
          WalkWalk(t, tip, t[p].height, t[p].height - 1);
          assert Linked(t, t[p].prev);
        }
        p := t[p].prev;
      }
      EarlyStop(t, vChain, v0, tip, p);
    }

    function At(height: int): int
      reads this
    {
      if height < 0 || height >= |vChain| then NULL else vChain[height]
    }

    predicate Contains(t: seq<Node>, i: int)
      requires Block(t, i)
      reads this
    {
      At(t[i].height) == i
    }

    /** GetLocator: back from `i` (or the tip) in steps that double after ten
        blocks, down to the root, whichever of the two lookups is used. */
    method GetLocator(m: BlockMap, i: int) returns (have: seq<int>)
      requires m.Valid() && ChainOk(m.tree, vChain) && (i != NULL ==> Block(m.tree, i))
      ensures i == NULL && vChain == [] ==> have == []
      ensures i != NULL ==> have != [] && have[0] == i
      ensures i == NULL && vChain != [] ==> have != [] && have[0] == vChain[|vChain| - 1]
      ensures have != [] ==> Locator(m.tree, have)
    {
      hide Path, SkipOk, Ancestor, LocatorStep;
      var t := m.tree;
      var step := LocatorStep(0);
      have := [];
      var p := if i == NULL then At(|vChain| - 1) else i;
      if vChain != [] {
        ChainEntry(t, vChain, |vChain| - 1);
      }
      ghost var start := p;
      while p != NULL
        invariant LocatorOk(t, have) && step == LocatorStep(|have|)
        invariant p != NULL ==> LocatorNext(t, have, p)
        invariant (if have == [] then p else have[0]) == start
        invariant p == NULL ==> have == []
        invariant forall k | 0 <= k < |have| :: t[have[k]].height > 0
        decreases if p == NULL then -1 else t[p].height
      {
        assert Linked(t, p);
        LocatorPush(t, have, p);
        have := have + [p];
        if t[p].height == 0 {
          break;
        }
        var height := Clamp(t[p].height - step);
        WalkHeight(t, p, height);
        Further(t, p, have[0], height);
        StepDoubles(|have| - 1);
        if Contains(t, p) {
          OnChain(t, vChain, p, height);
          p := At(height);
        } else {
          p := m.GetAncestor(p, height);
        }
        if |have| > 10 {
          step := step * 2;
        }
      }
    }

    /** FindFork: the highest block of the chain that is an ancestor of `i`. */
    method FindFork(m: BlockMap, i: int) returns (r: int)
      requires m.Valid() && ChainOk(m.tree, vChain) && (i != NULL ==> Block(m.tree, i))
      ensures r == NULL || (Block(m.tree, r) && Contains(m.tree, r) && Ancestor(m.tree, r, i))
      ensures forall c | Block(m.tree, c) && Contains(m.tree, c) && Ancestor(m.tree, c, i) ::
                r != NULL && m.tree[c].height <= m.tree[r].height
      ensures vChain != [] && i != NULL ==> HighestCommon(m.tree, r, i, vChain[|vChain| - 1])
    {
      if i == NULL {
        return NULL;
      }
      var t := m.tree;
      var p := i;
      assert Linked(t, i);
      if t[p].height > |vChain| - 1 {
        p := m.GetAncestor(p, |vChain| - 1);
        forall c | Block(t, c) && Contains(t, c) && Ancestor(t, c, i)
          ensures Ancestor(t, c, p)
        {
          WalkWalk(t, i, |vChain| - 1, t[c].height);
        }
        if p != NULL {
          WalkHeight(t, i, |vChain| - 1);
        }
      }
      while p != NULL && !Contains(t, p)
        invariant p != NULL ==> Ancestor(t, p, i)
        invariant forall c | Block(t, c) && Contains(t, c) && Ancestor(t, c, i) :: Ancestor(t, c, p)
        decreases if p == NULL then -1 else t[p].height
      {
        assert Linked(t, p);
        forall c | Block(t, c) && Contains(t, c) && Ancestor(t, c, i)
          ensures Ancestor(t, c, t[p].prev)
        {
          AncestorStep(t, c, p);
        }
        if t[p].prev != NULL {
          WalkWalk(t, i, t[p].height, t[p].height - 1);
        }
        p := t[p].prev;
      }
      r := p;
      if vChain != [] {
        forall c | Block(t, c)
          ensures Contains(t, c) <==> Ancestor(t, c, vChain[|vChain| - 1])
        {
          assert Linked(t, c);
          ContainsIsAncestor(t, vChain, c);
        }
      }
    }
  }

  /** Whatever tips are set one after the other, the vector is the path of the
      last one. */
  method SetTips(c: Chain, t: seq<Node>, tips: seq<int>)
    requires TreeOk(t) && ChainOk(t, c.vChain)
    requires forall k | 0 <= k < |tips| :: tips[k] == NULL || Block(t, tips[k])
    modifies c
    ensures ChainOk(t, c.vChain)
    ensures tips != [] ==>
              c.vChain == if tips[|tips| - 1] == NULL then [] else Path(t, tips[|tips| - 1])
  {
    for n := 0 to |tips|
      invariant ChainOk(t, c.vChain)
      invariant n > 0 ==> c.vChain == if tips[n - 1] == NULL then [] else Path(t, tips[n - 1])
    {
      c.SetTip(t, tips[n]);
    }
  }
}

/**
 * Level-order (breadth-first) views of a shape. The four BFS loops of
 * tree.go (nextAvailableNode, getSuccessor, Find, DumpTree) all keep a
 * queue holding one level of the tree and append the children of each
 * node they visit; the functions here say what such a walk sees, and the
 * lemmas say what that means for the tree.
 */
module Levels {
  import opened PeerNode
  import opened Shapes

  /** Side of the free slot that nextAvailableNode reports. */
  const LeftDir: int := 0
  const RightDir: int := 1

  /** nextAvailableNode gives up when it is about to scan level MaxLength. */
  const MaxLength: nat := 20

  datatype Option<T> = None | Some(value: T)

  predicate AllNodes(q: seq<Shape>)
  {
    forall j :: 0 <= j < |q| ==> q[j].Node?
  }

  /** Every subtree of q has its child links in the arena. */
  predicate WiredAll(ps: seq<Peer>, q: seq<Shape>)
  {
    forall j :: 0 <= j < |q| ==> Wired(ps, q[j])
  }

  /** A node with both children present: the slot search passes over it. */
  predicate Full(t: Shape)
  {
    t.Node? && t.left.Node? && t.right.Node?
  }

  /** A node with a free child slot. */
  predicate Open(t: Shape)
  {
    t.Node? && (t.left.Nil? || t.right.Nil?)
  }

  predicate IsLeaf(t: Shape)
  {
    t.Node? && t.left.Nil? && t.right.Nil?
  }

  /** The present children of a node, left before right. */
  function Children(t: Shape): seq<Shape>
  {
    match t
    case Nil => []
    case Node(_, l, r) => (if l.Node? then [l] else []) + (if r.Node? then [r] else [])
  }

  /** The level below q: the present children of q's subtrees, in order. */
  function NextLevel(q: seq<Shape>): seq<Shape>
  {
    if q == [] then [] else NextLevel(q[..|q| - 1]) + Children(q[|q| - 1])
  }

  function TotalSize(q: seq<Shape>): nat
  {
    if q == [] then 0 else TotalSize(q[..|q| - 1]) + Size(q[|q| - 1])
  }

  /** The queue contents of a BFS level: the root index of each subtree. */
  function RootKeys(q: seq<Shape>): (ks: seq<int>)
    ensures |ks| == |q|
    ensures forall j :: 0 <= j < |q| ==> ks[j] == RootKey(q[j])
  {
    seq(|q|, j requires 0 <= j < |q| => RootKey(q[j]))
  }

  /** All the nodes of q's subtrees in breadth-first order, level by level. */
  function LevelOrder(q: seq<Shape>): (L: seq<Shape>)
    requires AllNodes(q)
    ensures AllNodes(L)
    decreases TotalSize(q)
  {
    if q == [] then []
    else
      NextLevelFacts(q);
      q + LevelOrder(NextLevel(q))
  }

  /** The first n levels of the breadth-first order. */
  function Scan(q: seq<Shape>, n: nat): (L: seq<Shape>)
    requires AllNodes(q)
    ensures AllNodes(L)
    decreases n
  {
    if q == [] || n == 0 then []
    else
      NextLevelFacts(q);
      q + Scan(NextLevel(q), n - 1)
  }

  /** Index of the first element satisfying P, or |q| when there is none. */
  function FirstIdx(q: seq<Shape>, P: Shape -> bool): (i: nat)
    ensures i <= |q|
    ensures forall j :: 0 <= j < i ==> !P(q[j])
    ensures i < |q| ==> P(q[i])
  {
    if q == [] then 0 else if P(q[0]) then 0 else 1 + FirstIdx(q[1..], P)
  }

  /** The slot reported for an open node: its left side if that is free, else its right. */
  function SlotOf(s: Shape): (slot: (int, int))
    requires Open(s)
    ensures slot.1 == LeftDir <==> s.left.Nil?
    ensures slot.1 == RightDir <==> s.left.Node?
  {
    (s.key, if s.left.Nil? then LeftDir else RightDir)
  }

  /**
   * Where nextAvailableNode attaches a new peer in the non-empty tree t: the
   * first open node in level order among the first MaxLength - 1 levels, or
   * None when all of those are full.
   */
  function NextSlot(t: Shape): Option<(int, int)>
    requires t.Node?
  {
    var L := Scan([t], MaxLength - 1);
    var i := FirstIdx(L, Open);
    if i < |L| then Some(SlotOf(L[i])) else None
  }

  /** The node getSuccessor returns from the subtree t: its first leaf in level order. */
  function FirstLeaf(t: Shape): int
    requires t.Node?
  {
    var L := LevelOrder([t]);
    var i := FirstIdx(L, IsLeaf);
    if i < |L| then L[i].key else NULL
  }

  /** Does the peer at the root of s carry this id? */
  function HasId(ps: seq<Peer>, id: int): Shape -> bool
  {
    (s: Shape) => s.Node? && 0 <= s.key < |ps| && ps[s.key].id == id
  }

  /** What Find returns for the non-empty tree t: the first node in level order with this id. */
  function FindFirst(ps: seq<Peer>, t: Shape, id: int): int
    requires t.Node?
  {
    var L := LevelOrder([t]);
    var i := FirstIdx(L, HasId(ps, id));
    if i < |L| then L[i].key else NULL
  }

  /** The id of the peer at the root of s (NULL for an index outside the arena). */
  function IdAt(ps: seq<Peer>, s: Shape): int
  {
    if s.Node? && 0 <= s.key < |ps| then ps[s.key].id else NULL
  }

  /** The ids of one BFS level, in queue order. */
  function Ids(ps: seq<Peer>, q: seq<Shape>): (ids: seq<int>)
    ensures |ids| == |q|
    ensures forall j :: 0 <= j < |q| ==> ids[j] == IdAt(ps, q[j])
  {
    seq(|q|, j requires 0 <= j < |q| => IdAt(ps, q[j]))
  }

  /** The per-level id lists DumpTree builds. */
  function LevelIds(ps: seq<Peer>, q: seq<Shape>): seq<seq<int>>
    requires AllNodes(q)
    decreases TotalSize(q)
  {
    if q == [] then []
    else
      NextLevelFacts(q);
      [Ids(ps, q)] + LevelIds(ps, NextLevel(q))
  }

  function Flatten(ls: seq<seq<int>>): seq<int>
  {
    if ls == [] then [] else ls[0] + Flatten(ls[1..])
  }

  function NodesAll(q: seq<Shape>): set<Shape>
  {
    if q == [] then {} else NodesAll(q[..|q| - 1]) + Subtrees(q[|q| - 1])
  }

  /** The non-empty subtrees of t, t included. */
  function Subtrees(t: Shape): set<Shape>
  {
    match t
    case Nil => {}
    case Node(_, l, r) => {t} + Subtrees(l) + Subtrees(r)
  }


  // ------------------------------------------------------------ structure

  lemma TotalSizeAppend(a: seq<Shape>, b: seq<Shape>)
    ensures TotalSize(a + b) == TotalSize(a) + TotalSize(b)
    decreases |b|
  {
    if b == [] {
      assert a + b == a;
    } else {
      var ab := a + b;
      assert ab[..|ab| - 1] == a + b[..|b| - 1];
      assert ab[|ab| - 1] == b[|b| - 1];
      TotalSizeAppend(a, b[..|b| - 1]);
    }
  }

  lemma TotalSizeOne(x: Shape)
    ensures TotalSize([x]) == Size(x)
  {
    assert [x][..0] == [];
  }

  lemma ChildrenSize(t: Shape)
    requires t.Node?
    ensures TotalSize(Children(t)) + 1 == Size(t)
    ensures AllNodes(Children(t))
  {
    var c := Children(t);
    if t.left.Node? && t.right.Node? {
      assert c == [t.left] + [t.right];
      TotalSizeAppend([t.left], [t.right]);
      TotalSizeOne(t.left);
      TotalSizeOne(t.right);
    } else if t.left.Node? {
      assert c == [t.left];
      TotalSizeOne(t.left);
    } else if t.right.Node? {
      assert c == [t.right];
      TotalSizeOne(t.right);
    } else {
      assert c == [];
    }
  }

  /** One step of the inner BFS loop: visiting q[i] appends its children to the next level. */
  lemma NextLevelSnoc(q: seq<Shape>, i: int)
    requires 0 <= i < |q|
    ensures NextLevel(q[..i + 1]) == NextLevel(q[..i]) + Children(q[i])
  {
    assert q[..i + 1][..i] == q[..i];
  }

  /** The next level holds only non-empty subtrees, and one node fewer per subtree of q. */
  lemma {:induction false} NextLevelFacts(q: seq<Shape>)
    requires AllNodes(q)
    ensures AllNodes(NextLevel(q))
    ensures TotalSize(NextLevel(q)) + |q| == TotalSize(q)
  {
    if q != [] {
      var p := q[..|q| - 1];
      var t := q[|q| - 1];
      NextLevelFacts(p);
      TotalSizeAppend(NextLevel(p), Children(t));
      ChildrenSize(t);
    }
  }

  lemma {:induction false} NextLevelWired(ps: seq<Peer>, q: seq<Shape>)
    requires WiredAll(ps, q)
    ensures WiredAll(ps, NextLevel(q))
  {
    if q != [] {
      NextLevelWired(ps, q[..|q| - 1]);
    }
  }

  /** The children of a full node of q appear in the next level, at the positions returned. */
  lemma {:induction false} ChildrenInNextLevel(q: seq<Shape>, j: int) returns (a: int, b: int)
    requires 0 <= j < |q| && Full(q[j])
    ensures 0 <= a < |NextLevel(q)| && NextLevel(q)[a] == q[j].left
    ensures 0 <= b < |NextLevel(q)| && NextLevel(q)[b] == q[j].right
  {
    var p := q[..|q| - 1];
    if j == |q| - 1 {
      assert Children(q[j]) == [q[j].left, q[j].right];
      a, b := |NextLevel(p)|, |NextLevel(p)| + 1;
    } else {
      a, b := ChildrenInNextLevel(p, j);
    }
  }

  // ------------------------------------------------------------ first match

  /** Locating the first match across a prefix that holds none. */
  lemma {:induction false} FirstIdxAfter(a: seq<Shape>, b: seq<Shape>, P: Shape -> bool)
    requires forall j :: 0 <= j < |a| ==> !P(a[j])
    ensures FirstIdx(a + b, P) == |a| + FirstIdx(b, P)
    decreases |a|
  {
    if a != [] {
      assert (a + b)[0] == a[0];
      assert (a + b)[1..] == a[1..] + b;
      FirstIdxAfter(a[1..], b, P);
    } else {
      assert a + b == b;
    }
  }

  // ------------------------------------------------------------ level order

  /** Level order lists exactly the non-empty subtrees of q's subtrees. */
  lemma {:induction false} LevelOrderNodes(q: seq<Shape>, s: Shape)
    requires AllNodes(q)
    ensures s in LevelOrder(q) <==> s in NodesAll(q)
    decreases TotalSize(q)
  {
    if q != [] {
      NextLevelFacts(q);
      LevelOrderNodes(NextLevel(q), s);
      NodesAllSplit(q, s);
    }
  }

  /** A scan with levels left to go is the current level followed by the scan of the next one. */
  lemma ScanUnfold(q: seq<Shape>, n: nat, m: nat)
    requires AllNodes(q) && q != [] && n == m + 1
    ensures AllNodes(NextLevel(q))
    ensures Scan(q, n) == q + Scan(NextLevel(q), m)
  {
    NextLevelFacts(q);
  }

  lemma ScanNonEmpty(q: seq<Shape>, n: nat)
    requires AllNodes(q) && 0 < |Scan(q, n)|
    ensures n > 0 && q != []
  {
  }

  /** Position i of a scan, when it is in the current level. */
  lemma ScanHere(q: seq<Shape>, n: nat, i: int)
    requires AllNodes(q) && 0 <= i < |Scan(q, n)| && i < |q|
    ensures Scan(q, n)[i] == q[i]
  {
    ScanNonEmpty(q, n);
    ScanUnfold(q, n, n - 1);
  }

  /**
   * Position i of a scan, when it is past the current level: position k of
   * the scan of the next level, m levels deep.
   */
  lemma ScanNext(q: seq<Shape>, n: nat, i: int) returns (m: nat, k: int)
    requires AllNodes(q) && |q| <= i < |Scan(q, n)|
    ensures m + 1 == n && k == i - |q| && AllNodes(NextLevel(q))
    ensures 0 <= k < |Scan(NextLevel(q), m)|
    ensures Scan(q, n)[i] == Scan(NextLevel(q), m)[k]
  {
    ScanNonEmpty(q, n);
    m := n - 1;
    ScanUnfold(q, n, m);
    k := ScanIndexAfter(q, Scan(NextLevel(q), m), i);
  }

  lemma ScanIndexAfter(q: seq<Shape>, R: seq<Shape>, i: int) returns (k: int)
    requires |q| <= i < |q + R|
    ensures k == i - |q| && 0 <= k < |R| && (q + R)[i] == R[k]
  {
    k := i - |q|;
  }

  /** The first levels of q hold only subtrees of q's subtrees. */
  lemma {:induction false} LevelsNodes(q: seq<Shape>, n: nat, i: int)
    requires AllNodes(q) && 0 <= i < |Scan(q, n)|
    ensures Scan(q, n)[i] in NodesAll(q)
    decreases n
  {
    if i < |q| {
      ScanHere(q, n, i);
      InLevel(q, i);
    } else {
      var m, k := ScanNext(q, n, i);
      LevelsNodes(NextLevel(q), m, k);
      InNextLevel(q, Scan(q, n)[i]);
    }
  }

  lemma InLevel(q: seq<Shape>, i: int)
    requires AllNodes(q) && 0 <= i < |q|
    ensures q[i] in NodesAll(q)
  {
    NodesAllSplit(q, q[i]);
  }

  lemma InNextLevel(q: seq<Shape>, x: Shape)
    requires AllNodes(q) && x in NodesAll(NextLevel(q))
    ensures x in NodesAll(q)
  {
    NodesAllSplit(q, x);
  }

  lemma ChildrenNodes(t: Shape)
    requires t.Node?
    ensures NodesAll(Children(t)) == Subtrees(t.left) + Subtrees(t.right)
  {
    var c := Children(t);
    if t.left.Node? && t.right.Node? {
      assert c == [t.left] + [t.right];
      NodesAllAppend([t.left], [t.right]);
      NodesAllSingle(t.left);
      NodesAllSingle(t.right);
    } else if t.left.Node? {
      assert c == [t.left];
      NodesAllSingle(t.left);
    } else if t.right.Node? {
      assert c == [t.right];
      NodesAllSingle(t.right);
    } else {
      assert c == [];
    }
  }

  /** The subtrees of a level are the level itself and the subtrees of the next level. */
  lemma {:induction false} NodesAllSplit(q: seq<Shape>, s: Shape)
    requires AllNodes(q)
    ensures s in NodesAll(q) <==> s in q || s in NodesAll(NextLevel(q))
  {
    if q != [] {
      var p, t := q[..|q| - 1], q[|q| - 1];
      assert q == p + [t];
      NodesAllSplit(p, s);
      NodesAllAppend(NextLevel(p), Children(t));
      ChildrenNodes(t);
      assert NodesAll(q) == NodesAll(p) + Subtrees(t);
      assert NextLevel(q) == NextLevel(p) + Children(t);
      assert Subtrees(t) == {t} + NodesAll(Children(t));
      assert s in q <==> s in p || s == t;
    }
  }

  lemma {:induction false} NodesAllAppend(a: seq<Shape>, b: seq<Shape>)
    ensures NodesAll(a + b) == NodesAll(a) + NodesAll(b)
    decreases |b|
  {
    if b == [] {
      assert a + b == a;
    } else {
      var ab := a + b;
      assert ab[..|ab| - 1] == a + b[..|b| - 1];
      assert ab[|ab| - 1] == b[|b| - 1];
      NodesAllAppend(a, b[..|b| - 1]);
    }
  }

  lemma NodesAllSingle(t: Shape)
    ensures NodesAll([t]) == Subtrees(t)
  {
    assert [t][..0] == [];
  }

  /** In a tree without repeated indices, a subtree is the subtree rooted at its own index. */
  lemma {:induction false} SubtreeIsSub(t: Shape, s: Shape)
    requires Distinct(t) && s in Subtrees(t)
    ensures s.Node? && s.key in Keys(t) && Sub(t, s.key) == s
  {
    match t
    case Node(j, l, r) =>
      if s != t {
        if s in Subtrees(l) {
          SubtreeIsSub(l, s);
          assert s.key != j;
        } else {
          SubtreeIsSub(r, s);
          assert s.key != j && s.key !in Keys(l);
        }
      }
  }

  lemma {:induction false} SubIsSubtree(t: Shape, k: int)
    requires k in Keys(t)
    ensures Sub(t, k) in Subtrees(t)
  {
    match t
    case Node(j, l, r) =>
      if j != k {
        if k in Keys(l) { SubIsSubtree(l, k); } else { SubIsSubtree(r, k); }
      }
  }

  /** Every non-empty tree has a leaf. */
  lemma {:induction false} HasLeaf(t: Shape)
    requires t.Node?
    ensures exists s :: s in Subtrees(t) && IsLeaf(s)
  {
    if t.left.Node? {
      HasLeaf(t.left);
    } else if t.right.Node? {
      HasLeaf(t.right);
    } else {
      assert t in Subtrees(t) && IsLeaf(t);
    }
  }

  // ------------------------------------------------------------ meanings

  /**
   * getSuccessor never comes back empty: the first leaf of a non-empty
   * subtree is one of its leaves.
   */
  lemma FirstLeafIsLeaf(t: Shape)
    requires Distinct(t) && t.Node?
    ensures FirstLeaf(t) in Keys(t) && IsLeaf(Sub(t, FirstLeaf(t)))
  {
    var L := LevelOrder([t]);
    NodesAllSingle(t);
    HasLeaf(t);
    var s :| s in Subtrees(t) && IsLeaf(s);
    LevelOrderNodes([t], s);
    var j :| 0 <= j < |L| && L[j] == s;
    var i := FirstIdx(L, IsLeaf);
    assert i <= j;
    LevelOrderNodes([t], L[i]);
    SubtreeIsSub(t, L[i]);
  }

  /** Find's answer both ways: NULL exactly when no node of the tree carries the id. */
  lemma FindFirstCorrect(ps: seq<Peer>, t: Shape, id: int)
    requires Wired(ps, t) && Distinct(t) && t.Node?
    ensures FindFirst(ps, t, id) != NULL ==>
      FindFirst(ps, t, id) in Keys(t) && 0 <= FindFirst(ps, t, id) < |ps| && ps[FindFirst(ps, t, id)].id == id
    ensures FindFirst(ps, t, id) == NULL <==> forall k :: k in Keys(t) && 0 <= k < |ps| ==> ps[k].id != id
  {
    var L := LevelOrder([t]);
    var P := HasId(ps, id);
    NodesAllSingle(t);
    WiredInRange(ps, t);
    var i := FirstIdx(L, P);
    if i < |L| {
      LevelOrderNodes([t], L[i]);
      SubtreeIsSub(t, L[i]);
    } else {
      forall k | k in Keys(t) && 0 <= k < |ps| ensures ps[k].id != id {
        SubIsSubtree(t, k);
        SubFacts(t, k);
        var s := Sub(t, k);
        LevelOrderNodes([t], s);
        var j :| 0 <= j < |L| && L[j] == s;
        assert !P(L[j]);
      }
    }
  }

  lemma IdsAppend(ps: seq<Peer>, a: seq<Shape>, b: seq<Shape>)
    ensures Ids(ps, a + b) == Ids(ps, a) + Ids(ps, b)
  {
  }

  /** The levels DumpTree prints, concatenated, are the tree in level order. */
  lemma {:induction false} LevelIdsFlatten(ps: seq<Peer>, q: seq<Shape>)
    requires AllNodes(q)
    ensures Flatten(LevelIds(ps, q)) == Ids(ps, LevelOrder(q))
    decreases TotalSize(q)
  {
    if q != [] {
      NextLevelFacts(q);
      var n := NextLevel(q);
      LevelIdsFlatten(ps, n);
      var ls := LevelIds(ps, q);
      assert ls[0] == Ids(ps, q) && ls[1..] == LevelIds(ps, n);
      IdsAppend(ps, q, LevelOrder(n));
    }
  }

  /** No level DumpTree prints is empty. */
  lemma {:induction false} LevelIdsNonEmpty(ps: seq<Peer>, q: seq<Shape>, j: int)
    requires AllNodes(q) && 0 <= j < |LevelIds(ps, q)|
    ensures LevelIds(ps, q)[j] != []
    decreases TotalSize(q)
  {
    NextLevelFacts(q);
    if j > 0 {
      LevelIdsNonEmpty(ps, NextLevel(q), j - 1);
    }
  }

  /** DumpTree's count: the levels hold as many ids as the tree has nodes. */
  lemma DumpCount(ps: seq<Peer>, t: Shape)
    requires t.Node?
    ensures |Flatten(LevelIds(ps, [t]))| == Size(t)
  {
    LevelIdsFlatten(ps, [t]);
    LevelOrderSize([t]);
    TotalSizeOne(t);
  }

  lemma {:induction false} LevelOrderSize(q: seq<Shape>)
    requires AllNodes(q)
    ensures |LevelOrder(q)| == TotalSize(q)
    decreases TotalSize(q)
  {
    if q != [] {
      NextLevelFacts(q);
      LevelOrderSize(NextLevel(q));
    }
  }

  predicate AllFull(L: seq<Shape>)
  {
    forall k :: 0 <= k < |L| ==> Full(L[k])
  }

  lemma AllFullSplit(a: seq<Shape>, b: seq<Shape>)
    requires AllFull(a + b)
    ensures AllFull(a) && AllFull(b)
  {
    assert forall k :: 0 <= k < |a| ==> (a + b)[k] == a[k];
    assert forall k :: 0 <= k < |b| ==> (a + b)[|a| + k] == b[k];
  }

  /**
   * When every node in the first n levels of q is full, every subtree of q
   * is at least n high.
   */
  lemma {:induction false} FullLevelsHeight(q: seq<Shape>, n: nat, j: int)
    requires AllNodes(q) && 0 <= j < |q| && AllFull(Scan(q, n))
    ensures Height(q[j]) >= n
    decreases n
  {
    if n > 0 {
      var m := LevelsStep(q, n, j);
      var nx := NextLevel(q);
      var t := q[j];
      var a, b := ChildrenInNextLevel(q, j);
      FullLevelsHeight(nx, m, a);
      FullLevelsHeight(nx, m, b);
      HeightStep(t, m);
    }
  }

  lemma HeightStep(t: Shape, m: nat)
    requires Full(t) && Height(t.left) >= m && Height(t.right) >= m
    ensures Height(t) >= m + 1
  {
  }

  lemma LevelsStep(q: seq<Shape>, n: nat, j: int) returns (m: nat)
    requires AllNodes(q) && 0 <= j < |q| && n > 0 && AllFull(Scan(q, n))
    ensures m + 1 == n
    ensures AllNodes(NextLevel(q)) && Full(q[j]) && AllFull(Scan(NextLevel(q), m))
  {
    m := n - 1;
    ScanUnfold(q, n, m);
    AllFullSplit(q, Scan(NextLevel(q), m));
  }

  /** The slot search fails exactly when the first MaxLength - 1 levels are full, so only on a tree at least that high. */
  lemma NoSlotMeansTall(t: Shape)
    requires t.Node?
    ensures NextSlot(t) == None <==> AllFull(Scan([t], MaxLength - 1))
    ensures NextSlot(t) == None ==> Height(t) >= MaxLength - 1
  {
    var L := Scan([t], MaxLength - 1);
    var i := FirstIdx(L, Open);
    if i == |L| {
      assert AllFull(L) by {
        forall k | 0 <= k < |L| ensures Full(L[k]) {
          assert !Open(L[k]);
        }
      }
      FullLevelsHeight([t], MaxLength - 1, 0);
    } else {
      assert !Full(L[i]);
    }
  }

  /** A reported slot is a free child position of a node of the tree. */
  lemma SlotIsFree(t: Shape)
    requires Distinct(t) && t.Node? && NextSlot(t).Some?
    ensures NextSlot(t).value.0 in Keys(t)
    ensures var s := Sub(t, NextSlot(t).value.0);
      s.Node? && if NextSlot(t).value.1 == LeftDir then s.left.Nil? else NextSlot(t).value.1 == RightDir && s.right.Nil?
  {
    var L := Scan([t], MaxLength - 1);
    var i := FirstIdx(L, Open);
    LevelsNodes([t], MaxLength - 1, i);
    NodesAllSingle(t);
    SubtreeIsSub(t, L[i]);
  }
}

/**
 * The breadth-first walks of tree.go over the arena. Each keeps a queue
 * holding one level of the tree, visits the level front to back while
 * appending the present children of every node it visits, and then drops
 * the visited level; the ghost forest `q` is the level the queue holds.
 */
module Search {
  import opened PeerNode
  import opened Shapes
  import opened Levels
  import opened Relink

  /** The root index of the first subtree in the breadth-first order of q that satisfies P; NULL when none does. */
  function FirstKeyOf(q: seq<Shape>, P: Shape -> bool): int
    requires AllNodes(q)
  {
    var L := LevelOrder(q);
    var i := FirstIdx(L, P);
    if i < |L| then L[i].key else NULL
  }

  /** A level without a match passes the search on to the next level. */
  lemma {:induction false} FirstKeyNext(q: seq<Shape>, P: Shape -> bool)
    requires AllNodes(q) && q != [] && forall j :: 0 <= j < |q| ==> !P(q[j])
    ensures AllNodes(NextLevel(q)) && FirstKeyOf(q, P) == FirstKeyOf(NextLevel(q), P)
  {
    NextLevelFacts(q);
    var R := LevelOrder(NextLevel(q));
    var L := LevelOrder(q);
    assert L == q + R;
    FirstIdxAfter(q, R, P);
    var i := FirstIdx(R, P);
    assert FirstIdx(L, P) == |q| + i;
    if i < |R| {
      assert L[|q| + i] == R[i];
    }
  }

  /** The first match is at i when L[i] matches and nothing before it does. */
  lemma {:induction false} FirstIdxAt(L: seq<Shape>, P: Shape -> bool, i: int)
    requires 0 <= i < |L| && P(L[i]) && forall j :: 0 <= j < i ==> !P(L[j])
    ensures FirstIdx(L, P) == i
    decreases i
  {
    if i > 0 {
      assert !P(L[0]);
      FirstIdxAt(L[1..], P, i - 1);
    }
  }

  /** The first match of a level, when nothing before it matches, is the first match of the walk. */
  lemma {:induction false} FirstKeyHere(q: seq<Shape>, P: Shape -> bool, i: int)
    requires AllNodes(q) && 0 <= i < |q| && P(q[i])
    requires forall j :: 0 <= j < i ==> !P(q[j])
    ensures FirstKeyOf(q, P) == q[i].key
  {
    NextLevelFacts(q);
    var L := LevelOrder(q);
    assert L == q + LevelOrder(NextLevel(q));
    assert forall j :: 0 <= j <= i ==> L[j] == q[j];
    FirstIdxAt(L, P, i);
  }

  /** The visited prefix of a level grows by one node that does not match. */
  lemma NoMatchStep(q: seq<Shape>, P: Shape -> bool, i: int)
    requires 0 <= i < |q| && !P(q[i]) && forall j :: 0 <= j < i ==> !P(q[j])
    ensures forall j :: 0 <= j < i + 1 ==> !P(q[j])
  {
  }

  /** The slot nextAvailableNode reports for the forest q when it may scan n more levels. */
  function SlotIn(q: seq<Shape>, n: nat): Option<(int, int)>
    requires AllNodes(q)
  {
    var L := Scan(q, n);
    var i := FirstIdx(L, Open);
    if i < |L| then Some(SlotOf(L[i])) else None
  }

  /** A level of full nodes passes the slot search on to the next level, with one level less to scan. */
  lemma {:induction false} SlotNext(q: seq<Shape>, n: nat)
    requires AllNodes(q) && q != [] && n > 0 && forall j :: 0 <= j < |q| ==> !Open(q[j])
    ensures AllNodes(NextLevel(q)) && SlotIn(q, n) == SlotIn(NextLevel(q), n - 1)
  {
    NextLevelFacts(q);
    var R := Scan(NextLevel(q), n - 1);
    assert Scan(q, n) == q + R;
    FirstIdxAfter(q, R, Open);
    var i := FirstIdx(R, Open);
    if i < |R| {
      assert (q + R)[|q| + i] == R[i];
    }
  }

  lemma {:induction false} SlotHere(q: seq<Shape>, n: nat, i: int)
    requires AllNodes(q) && n > 0 && 0 <= i < |q| && Open(q[i])
    requires forall j :: 0 <= j < i ==> !Open(q[j])
    ensures SlotIn(q, n) == Some(SlotOf(q[i]))
  {
    NextLevelFacts(q);
    var L := Scan(q, n);
    assert L == q + Scan(NextLevel(q), n - 1);
    assert forall j :: 0 <= j <= i ==> L[j] == q[j];
    FirstIdxAt(L, Open, i);
  }

  /** The nil tests the walks make on a node's child links are tests on its subtrees. */
  lemma ChildTest(ps: seq<Peer>, s: Shape)
    requires Wired(ps, s) && s.Node?
    ensures 0 <= s.key < |ps|
    ensures ps[s.key].leftChild == NULL <==> s.left.Nil?
    ensures ps[s.key].rightChild == NULL <==> s.right.Nil?
  {
    NullAbsent(ps, s.left);
    NullAbsent(ps, s.right);
  }

  lemma FlattenAppend(ls: seq<seq<int>>, x: seq<int>)
    ensures Flatten(ls + [x]) == Flatten(ls) + x
  {
    if ls != [] {
      assert (ls + [x])[1..] == ls[1..] + [x];
      FlattenAppend(ls[1..], x);
    }
  }

  /** The id list of a level grows by the id of the node visited. */
  lemma IdsStep(ps: seq<Peer>, q: seq<Shape>, i: int, temp: seq<int>)
    requires 0 <= i < |q| && q[i].Node? && 0 <= q[i].key < |ps| && temp == Ids(ps, q[..i])
    ensures temp + [ps[q[i].key].id] == Ids(ps, q[..i + 1])
  {
  }

  /** Closing a level of DumpTree: its list joins the result, the walk moves to the next level. */
  lemma DumpStep(ps: seq<Peer>, q: seq<Shape>, res: seq<seq<int>>, temp: seq<int>, all: seq<seq<int>>)
    requires AllNodes(q) && q != [] && temp == Ids(ps, q) && res + LevelIds(ps, q) == all
    ensures AllNodes(NextLevel(q))
    ensures (res + [temp]) + LevelIds(ps, NextLevel(q)) == all
    ensures |Flatten(res + [temp])| == |Flatten(res)| + |q|
  {
    NextLevelFacts(q);
    assert LevelIds(ps, q) == [temp] + LevelIds(ps, NextLevel(q));
    assert (res + [temp]) + LevelIds(ps, NextLevel(q)) == res + ([temp] + LevelIds(ps, NextLevel(q)));
    FlattenAppend(res, temp);
  }

  /** Appending the children of q[i] to the queue extends the next level by them. */
  lemma QueueStep(ps: seq<Peer>, q: seq<Shape>, i: int, queue: seq<int>)
    requires AllNodes(q) && WiredAll(ps, q) && 0 <= i < |q|
    requires queue == RootKeys(q) + RootKeys(NextLevel(q[..i]))
    ensures var s := q[i]; 0 <= s.key < |ps| && i < |queue| && queue[i] == s.key
    ensures var s := q[i]; var k := s.key;
      var queue1 := if ps[k].leftChild != NULL then queue + [ps[k].leftChild] else queue;
      var queue2 := if ps[k].rightChild != NULL then queue1 + [ps[k].rightChild] else queue1;
      queue2 == RootKeys(q) + RootKeys(NextLevel(q[..i + 1]))
  {
    var s := q[i];
    assert Wired(ps, s);
    NextLevelSnoc(q, i);
    var A := NextLevel(q[..i]);
    var k := s.key;
    assert s.left.Node? ==> Wired(ps, s.left) && s.left.key >= 0;
    assert s.right.Node? ==> Wired(ps, s.right) && s.right.key >= 0;
    if s.left.Node? {
      assert RootKeys(A + [s.left]) == RootKeys(A) + [s.left.key];
      if s.right.Node? {
        assert RootKeys(A + [s.left] + [s.right]) == RootKeys(A + [s.left]) + [s.right.key];
        assert A + Children(s) == A + [s.left] + [s.right];
      } else {
        assert Children(s) == [s.left];
      }
    } else if s.right.Node? {
      assert RootKeys(A + [s.right]) == RootKeys(A) + [s.right.key];
      assert Children(s) == [s.right];
    } else {
      assert Children(s) == [];
      assert A + Children(s) == A;
    }
  }

  /**
   * getSuccessor (tree.go:136-158): breadth-first from n, the first node
   * without children; NULL if the walk ends without one.
   */
  method GetSuccessor(ps: seq<Peer>, n: int, ghost t: Shape) returns (s: int)
    requires Wired(ps, t) && t.Node? && n == t.key
    ensures s == FirstLeaf(t)
  {
    var queue := [n];
    ghost var q := [t];
    while |queue| > 0
      invariant AllNodes(q) && WiredAll(ps, q) && queue == RootKeys(q)
      invariant FirstKeyOf(q, IsLeaf) == FirstLeaf(t)
      decreases TotalSize(q)
    {
      var l := |queue|;
      var i := 0;
      while i < l
        invariant 0 <= i <= l == |q| && queue == RootKeys(q) + RootKeys(NextLevel(q[..i]))
        invariant forall j :: 0 <= j < i ==> !IsLeaf(q[j])
      {
        QueueStep(ps, q, i, queue);
        var cur := queue[i];
        ChildTest(ps, q[i]);
        if ps[cur].leftChild == NULL && ps[cur].rightChild == NULL {
          FirstKeyHere(q, IsLeaf, i);
          return cur;
        }
        NoMatchStep(q, IsLeaf, i);
        if ps[cur].leftChild != NULL {
          queue := queue + [ps[cur].leftChild];
        }
        if ps[cur].rightChild != NULL {
          queue := queue + [ps[cur].rightChild];
        }
        i := i + 1;
      }
      assert q[..l] == q;
      NextLevelFacts(q);
      NextLevelWired(ps, q);
      FirstKeyNext(q, IsLeaf);
      queue := queue[l..];
      q := NextLevel(q);
    }
    s := NULL;
  }
}

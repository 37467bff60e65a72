/**
 * One iteration of Delete's fix-up loop (tree.go:351-368) read against the
 * shape-level walk `FixUp`: where the cursor's subtree ends up, where the
 * cursor moves next, why the cached balance factors pick the same case as
 * the true ones, and how tree.go's two-rotation cases land on `FixStep`.
 */
module FixUpWalk {
  import opened Util
  import opened PeerNode
  import opened Shapes
  import opened Surgery
  import opened Balance
  import opened Relink

  /** The tree after one fix-up step at c. */
  function StepShape(t: Shape, c: int): Shape
    requires Distinct(t) && c in Keys(t)
  {
    if CaseOf(Sub(t, c)) == NoRotation then t else Replace(t, c, FixStep(Sub(t, c)))
  }

  /** The cursor after one fix-up step at c: c's parent, or the root of the rearranged subtree. */
  function StepNext(t: Shape, c: int): int
    requires Distinct(t) && c in Keys(t)
  {
    if CaseOf(Sub(t, c)) == NoRotation then ParentOf(t, c, NULL)
    else
      RotateStep(t, c);
      FixStep(Sub(t, c)).key
  }

  /**
   * The walk's measure, in the order FixUp decreases it: the cursor's
   * depth, the sum of heights below it, and whether it is out of balance.
   */
  function Depth(t: Shape, c: int): nat
  {
    if c == NULL then 0 else |Anc(t, c)|
  }

  function Weight(t: Shape, c: int): nat
  {
    SumH(Sub(t, c))
  }

  function Tilt(t: Shape, c: int): nat
  {
    if Unbalanced(Sub(t, c)) then 1 else 0
  }

  /** One step of the walk; the loop of tree.go repeats it until the cursor leaves the tree. */
  lemma FixUpStep(t: Shape, c: int)
    requires Distinct(t) && c in Keys(t) && NULL !in Keys(t)
    ensures Distinct(StepShape(t, c))
    ensures StepNext(t, c) == NULL || StepNext(t, c) in Keys(StepShape(t, c))
    ensures FixUp(StepShape(t, c), StepNext(t, c)) == FixUp(t, c)
    ensures var t', n := StepShape(t, c), StepNext(t, c);
      Depth(t', n) < Depth(t, c)
      || (Depth(t', n) == Depth(t, c) && Weight(t', n) < Weight(t, c))
      || (Depth(t', n) == Depth(t, c) && Weight(t', n) == Weight(t, c) && Tilt(t', n) < Tilt(t, c))
  {
    var s := Sub(t, c);
    if CaseOf(s) == NoRotation {
      ParentStep(t, c);
      assert FixUp(t, c) == FixUp(t, ParentOf(t, c, NULL));
    } else {
      RotateStep(t, c);
      var u := FixStep(s);
      assert StepShape(t, c) == Replace(t, c, u) && StepNext(t, c) == u.key;
      assert FixUp(t, c) == FixUp(Replace(t, c, u), u.key);
    }
  }

  /** A rotation puts the old subtree root directly below the new one. */
  lemma FixStepChild(s: Shape)
    requires CaseOf(s) != NoRotation
    ensures FixStep(s).Node? && (RootKey(FixStep(s).left) == s.key || RootKey(FixStep(s).right) == s.key)
  {
    CaseOfUnbalanced(s);
  }

  /** A child z of c has c's ancestor path and itself as its own. */
  lemma AncChild(t: Shape, c: int, z: int)
    requires Distinct(t) && c in Keys(t) && Sub(t, c).Node?
    requires (Sub(t, c).left.Node? && z == Sub(t, c).left.key) || (Sub(t, c).right.Node? && z == Sub(t, c).right.key)
    ensures z in Keys(t) && z !in Anc(t, c) && Anc(t, z) == Anc(t, c) + {z}
  {
    match t
    case Node(j, l, r) =>
      if j != c {
        var side := if c in Keys(l) then l else r;
        SubFacts(side, c);
        AncChild(side, c, z);
        AncFacts(side, z);
      }
  }

  /** Without NULL among the keys, the parent's ancestor path is c's without c. */
  lemma ParentAnc(t: Shape, c: int)
    requires Distinct(t) && c in Keys(t) && NULL !in Keys(t)
    ensures Anc(t, ParentOf(t, c, NULL)) == Anc(t, c) - {c}
  {
    AncParent(t, c, NULL);
    if c == t.key {
      AncAbsent(t, NULL);
    }
  }

  /**
   * After the step at c, c hangs from the cursor's next position, and the
   * heights left stale (c's proper ancestors) lie on the next cursor's path.
   */
  lemma StepDone(ps: seq<Peer>, t: Shape, c: int)
    requires Distinct(t) && c in Keys(t) && Wired(ps, StepShape(t, c))
    ensures c in Keys(StepShape(t, c)) && Distinct(StepShape(t, c))
    ensures ParentOf(StepShape(t, c), c, NULL) == StepNext(t, c)
    ensures Anc(t, c) - {c} <= Anc(StepShape(t, c), StepNext(t, c))
  {
    NullAbsent(ps, StepShape(t, c));
    var s := Sub(t, c);
    if CaseOf(s) == NoRotation {
      ParentAnc(t, c);
    } else {
      var u := FixStep(s);
      var t' := Replace(t, c, u);
      SubFacts(t, c);
      RotateStep(t, c);
      FixStepChild(s);
      FixStepKeys(s);
      SubWired(ps, t', u.key, NULL);
      WiredInRange(ps, t');
      OnlyParentPoints(ps, t', NULL, c, u.key);
      AncReplaceIn(t, c, u, u.key);
    }
  }

  /**
   * With only the path down to c stale, recomputing c's height from its
   * children's cached heights stores its true height, and the cached
   * balance factors of c and of its children are the true ones.
   */
  lemma RefreshAt(ps: seq<Peer>, root: int, t: Shape, c: int)
    requires TreeLinked(ps, root, t) && c in Keys(t) && HeightsOKExcept(ps, t, Anc(t, c))
    ensures 0 <= c < |ps| && IsRef(ps, ps[c].leftChild) && IsRef(ps, ps[c].rightChild)
    ensures var r := RefreshHeight(ps, c);
      TreeLinked(r, root, t) && HeightsOKExcept(r, t, Anc(t, c) - {c}) && SamePayload(ps, r)
      && r[c].parent == ParentOf(t, c, NULL)
    ensures Sub(t, c).Node?
    ensures var r := RefreshHeight(ps, c); var s := Sub(t, c);
      r[c].leftChild == RootKey(s.left) && r[c].rightChild == RootKey(s.right)
      && GetBalanceFactor(r, c) == BF(s)
    ensures var r := RefreshHeight(ps, c); var s := Sub(t, c);
      IsRef(r, RootKey(s.left)) && (s.left.Node? ==> 0 <= s.left.key < |r| && IsRef(r, r[s.left.key].leftChild) && IsRef(r, r[s.left.key].rightChild))
      && GetBalanceFactor(r, RootKey(s.left)) == BF(s.left)
    ensures var r := RefreshHeight(ps, c); var s := Sub(t, c);
      IsRef(r, RootKey(s.right)) && (s.right.Node? ==> 0 <= s.right.key < |r| && IsRef(r, r[s.right.key].leftChild) && IsRef(r, r[s.right.key].rightChild))
      && GetBalanceFactor(r, RootKey(s.right)) == BF(s.right)
  {
    var s := Sub(t, c);
    SubFacts(t, c);
    SubWired(ps, t, c, NULL);
    BackLinkedParent(ps, NULL, t, c);
    HeightsBelow(ps, t, c);
    CachedRoot(ps, s.left);
    CachedRoot(ps, s.right);
    var r := RefreshHeight(ps, c);
    assert r == ps[c := ps[c].(height := Height(s))];
    HeightRefresh(ps, t, c, Anc(t, c));
    KeepLinks(ps, r, t, NULL);
    SubWired(r, t, c, NULL);
    HeightsFrame(ps, r, s.left, {});
    HeightsFrame(ps, r, s.right, {});
    CachedRoot(r, s.left);
    CachedRoot(r, s.right);
  }

  /**
   * The LR case as tree.go performs it: leftRotate at c's left child z,
   * after which c is still stale only along its own path, then
   * rightRotate at c, which yields the double rotation of FixStep.
   */
  lemma InnerLeft(t: Shape, c: int)
    requires Distinct(t) && c in Keys(t) && CaseOf(Sub(t, c)) == LR
    ensures Sub(t, c).Node? && Sub(t, c).left.Node? && Sub(t, c).left.right.Node?
    ensures var s := Sub(t, c); var z := s.left.key;
      z in Keys(t) && Sub(t, z) == s.left && Anc(t, z) - {z} == Anc(t, c)
    ensures var s := Sub(t, c); var z := s.left.key; var t1 := Replace(t, z, RotL(s.left));
      Distinct(t1) && c in Keys(t1) && Anc(t1, c) == Anc(t, c)
      && Sub(t1, c) == Node(c, RotL(s.left), s.right)
      && Replace(t1, c, RotR(Sub(t1, c))) == StepShape(t, c)
  {
    var s := Sub(t, c);
    SubFacts(t, c);
    CaseOfUnbalanced(s);
    var z, L := s.left.key, s.left;
    SubSub(t, c, z);
    assert Sub(s, z) == L;
    AncChild(t, c, z);
    var u1 := RotL(L);
    RotLKeys(L);
    RearrangeAt(t, z, u1);
    AncReplaceOut(t, z, u1, c);
    SubReplaceInside(t, c, z, u1);
    assert Replace(s, z, u1) == Node(c, u1, s.right);
    ReplaceReplace(t, c, z, u1, RotR(Node(c, u1, s.right)));
  }

  /** The RL case: the mirror image of InnerLeft. */
  lemma InnerRight(t: Shape, c: int)
    requires Distinct(t) && c in Keys(t) && CaseOf(Sub(t, c)) == RL
    ensures Sub(t, c).Node? && Sub(t, c).right.Node? && Sub(t, c).right.left.Node?
    ensures var s := Sub(t, c); var z := s.right.key;
      z in Keys(t) && Sub(t, z) == s.right && Anc(t, z) - {z} == Anc(t, c)
    ensures var s := Sub(t, c); var z := s.right.key; var t1 := Replace(t, z, RotR(s.right));
      Distinct(t1) && c in Keys(t1) && Anc(t1, c) == Anc(t, c)
      && Sub(t1, c) == Node(c, s.left, RotR(s.right))
      && Replace(t1, c, RotL(Sub(t1, c))) == StepShape(t, c)
  {
    var s := Sub(t, c);
    SubFacts(t, c);
    CaseOfUnbalanced(s);
    var z, R := s.right.key, s.right;
    SubSub(t, c, z);
    assert Sub(s, z) == R;
    AncChild(t, c, z);
    var u1 := RotR(R);
    RotRKeys(R);
    RearrangeAt(t, z, u1);
    AncReplaceOut(t, z, u1, c);
    SubReplaceInside(t, c, z, u1);
    assert Replace(s, z, u1) == Node(c, s.left, u1);
    ReplaceReplace(t, c, z, u1, RotL(Node(c, s.left, u1)));
  }
}

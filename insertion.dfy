/**
 * Where Insert puts a new peer (tree.go:95-134): an empty tree gets it as
 * its root; otherwise it becomes a leaf in the slot nextAvailableNode
 * reports, and the tree is left as it is when there is no such slot. The
 * lemmas say what the two arena writes of the attach leave behind: links
 * that follow the grown shape, and stale heights only on the path from the
 * slot's owner to the root, which the height walk then refreshes.
 */
module Insertion {
  import opened Util
  import opened PeerNode
  import opened Shapes
  import opened Surgery
  import opened Levels
  import opened Relink

  /** s with a new leaf n on side dir of its root. */
  function Grow(s: Shape, n: int, dir: int): Shape
    requires s.Node?
  {
    if dir == LeftDir then Node(s.key, Node(n, Nil, Nil), s.right) else Node(s.key, s.left, Node(n, Nil, Nil))
  }

  /** The slot search gives up: the tree has a root and no free slot in its first MaxLength - 1 levels. */
  predicate NoRoom(t: Shape)
  {
    t.Node? && NextSlot(t).None?
  }

  /** The tree after Insert(n). */
  function InsertShape(t: Shape, n: int): Shape
    requires Distinct(t)
  {
    if t.Nil? then Node(n, Nil, Nil)
    else if NextSlot(t).None? then t
    else
      SlotIsFree(t);
      var p := NextSlot(t).value.0;
      Replace(t, p, Grow(Sub(t, p), n, NextSlot(t).value.1))
  }

  /** The side dir of s's root is free, and n is not in s. */
  predicate FreeSide(s: Shape, n: int, dir: int)
  {
    s.Node? && n !in Keys(s)
    && ((dir == LeftDir && s.left.Nil?) || (dir == RightDir && s.right.Nil?))
  }

  lemma GrowKeys(s: Shape, n: int, dir: int)
    requires FreeSide(s, n, dir) && Distinct(s)
    ensures Keys(Grow(s, n, dir)) == Keys(s) + {n} && Distinct(Grow(s, n, dir))
    ensures Anc(Grow(s, n, dir), n) == {s.key, n} && Anc(Grow(s, n, dir), s.key) == {s.key}
    ensures Sub(Grow(s, n, dir), n) == Node(n, Nil, Nil)
  {
  }

  /** Growing the subtree at p keeps every other peer and adds n once. */
  lemma GrowAtKeys(t: Shape, p: int, n: int, dir: int)
    requires Distinct(t) && p in Keys(t) && n !in Keys(t) && FreeSide(Sub(t, p), n, dir)
    ensures var t' := Replace(t, p, Grow(Sub(t, p), n, dir));
      Keys(t') == Keys(t) + {n} && Distinct(t') && Size(t') == Size(t) + 1
  {
    var s := Sub(t, p);
    var g := Grow(s, n, dir);
    SubFacts(t, p);
    GrowKeys(s, n, dir);
    ReplaceKeys(t, p, g);
    ReplaceDistinct(t, p, g);
    SizeReplace(t, p, g);
  }

  /** Replacing the subtree at x by u changes the size by the difference of the two. */
  lemma {:induction false} SizeReplace(t: Shape, x: int, u: Shape)
    requires x in Keys(t)
    ensures Size(Replace(t, x, u)) == Size(t) - Size(Sub(t, x)) + Size(u)
  {
    match t
    case Node(j, l, r) =>
      if j != x {
        if x in Keys(l) { SizeReplace(l, x, u); } else { SizeReplace(r, x, u); }
      }
  }

  /** After growing, n is a leaf below p, and p keeps its place and its ancestor path. */
  lemma GrowAt(t: Shape, p: int, n: int, dir: int)
    requires Distinct(t) && p in Keys(t) && n !in Keys(t) && FreeSide(Sub(t, p), n, dir)
    ensures var t' := Replace(t, p, Grow(Sub(t, p), n, dir));
      Keys(t') == Keys(t) + {n} && Distinct(t') && p in Keys(t')
      && Sub(t', n) == Node(n, Nil, Nil) && Sub(t', p) == Grow(Sub(t, p), n, dir)
      && Anc(t', p) == Anc(t, p) && Anc(t', n) == Anc(t, p) + {n}
      && ParentOf(t', p, NULL) == ParentOf(t, p, NULL)
  {
    var s := Sub(t, p);
    var g := Grow(s, n, dir);
    SubFacts(t, p);
    GrowKeys(s, n, dir);
    ReplaceKeys(t, p, g);
    ReplaceDistinct(t, p, g);
    var t' := Replace(t, p, g);
    SubReplaceRoot(t, p, g);
    SubSub(t', p, n);
    AncFacts(t, p);
    AncReplaceIn(t, p, g, p);
    AncReplaceIn(t, p, g, n);
  }

  /** Insert adds exactly n, once, unless the slot search gives up; then nothing changes. */
  lemma InsertKeys(t: Shape, n: int)
    requires Distinct(t) && n !in Keys(t)
    ensures Distinct(InsertShape(t, n))
    ensures Keys(InsertShape(t, n)) == if NoRoom(t) then Keys(t) else Keys(t) + {n}
    ensures Size(InsertShape(t, n)) == if NoRoom(t) then Size(t) else Size(t) + 1
    ensures NoRoom(t) ==> InsertShape(t, n) == t
  {
    if t.Node? && NextSlot(t).Some? {
      var p, dir := AttachSite(t, n);
      GrowAtKeys(t, p, n, dir);
    }
  }

  /** The slot Insert fills, and the tree it yields, in terms of Replace and Grow. */
  lemma AttachSite(t: Shape, n: int) returns (p: int, dir: int)
    requires Distinct(t) && n !in Keys(t) && t.Node? && NextSlot(t).Some?
    ensures NextSlot(t) == Some((p, dir)) && p in Keys(t) && FreeSide(Sub(t, p), n, dir)
    ensures InsertShape(t, n) == Replace(t, p, Grow(Sub(t, p), n, dir))
  {
    SlotIsFree(t);
    p, dir := NextSlot(t).value.0, NextSlot(t).value.1;
    SubFacts(t, p);
  }

  /**
   * Where n ends up: a leaf, with no parent in an empty tree, and
   * otherwise a child of the reported slot owner on the reported side,
   * below the owner's ancestor path.
   */
  lemma InsertedLeaf(t: Shape, n: int)
    requires Distinct(t) && n !in Keys(t) && !NoRoom(t)
    ensures var t' := InsertShape(t, n); n in Keys(t') && Sub(t', n) == Node(n, Nil, Nil)
    ensures t.Nil? ==> ParentOf(InsertShape(t, n), n, NULL) == NULL
    ensures t.Node? ==>
      var slot := NextSlot(t).value; var t' := InsertShape(t, n);
      slot.0 in Keys(t) && ParentOf(t', n, NULL) == slot.0 && Anc(t', n) == Anc(t, slot.0) + {n}
      && Sub(t', slot.0).Node?
      && (if slot.1 == LeftDir then Sub(t', slot.0).left else Sub(t', slot.0).right) == Node(n, Nil, Nil)
  {
    if t.Node? {
      var p, dir := AttachSite(t, n);
      GrowAt(t, p, n, dir);
      GrowPlace(t, p, n, dir);
    }
  }

  /** The new leaf hangs from p on side dir, so p is its parent. */
  lemma GrowPlace(t: Shape, p: int, n: int, dir: int)
    requires Distinct(t) && p in Keys(t) && n !in Keys(t) && FreeSide(Sub(t, p), n, dir)
    ensures var t' := Replace(t, p, Grow(Sub(t, p), n, dir));
      Sub(t', p).Node? && ParentOf(t', n, NULL) == p
      && (if dir == LeftDir then Sub(t', p).left else Sub(t', p).right) == Node(n, Nil, Nil)
  {
    GrowAt(t, p, n, dir);
    var t' := Replace(t, p, Grow(Sub(t, p), n, dir));
    assert Sub(t', p) == Grow(Sub(t, p), n, dir);
    ParentIsOwner(t', p, n);
  }

  /** A node whose child is n is n's parent. */
  lemma ParentIsOwner(t: Shape, p: int, n: int)
    requires Distinct(t) && p in Keys(t) && n in Keys(t)
    requires Sub(t, p).Node? && ((Sub(t, p).left.Node? && Sub(t, p).left.key == n) || (Sub(t, p).right.Node? && Sub(t, p).right.key == n))
    ensures ParentOf(t, n, NULL) == p
  {
    match t
    case Node(j, l, r) =>
      if j != p {
        if p in Keys(l) {
          SubFacts(l, p);
          ParentIsOwnerIn(l, p, n, j);
        } else {
          SubFacts(r, p);
          ParentIsOwnerIn(r, p, n, j);
        }
      } else {
        assert n != j;
      }
  }

  lemma ParentIsOwnerIn(t: Shape, p: int, n: int, par: int)
    requires Distinct(t) && p in Keys(t)
    requires Sub(t, p).Node? && ((Sub(t, p).left.Node? && Sub(t, p).left.key == n) || (Sub(t, p).right.Node? && Sub(t, p).right.key == n))
    ensures n in Keys(t) && n != t.key && ParentOf(t, n, par) == p
  {
    match t
    case Node(j, l, r) =>
      if j != p {
        if p in Keys(l) {
          SubFacts(l, p);
          ParentIsOwnerIn(l, p, n, j);
        } else {
          SubFacts(r, p);
          ParentIsOwnerIn(r, p, n, j);
        }
      }
  }

  /**
   * The attach writes of tree.go:111-121: p's free link on side dir now
   * names n, n's parent is p, and nothing else changed. The arena then
   * follows the grown tree, n is a leaf of height 0, and only heights on
   * p's ancestor path may be stale.
   */
  lemma AttachLinked(ps: seq<Peer>, ps': seq<Peer>, root: int, t: Shape, p: int, n: int, dir: int)
    requires TreeLinked(ps, root, t) && p in Keys(t) && n !in Keys(t) && FreeSide(Sub(t, p), n, dir)
    requires 0 <= n < |ps| && ps[n].leftChild == NULL && ps[n].rightChild == NULL
    requires |ps'| == |ps| && forall k :: 0 <= k < |ps| && k != p && k != n ==> ps'[k] == ps[k]
    requires 0 <= p < |ps| && ps'[p] == (if dir == LeftDir then ps[p].(leftChild := n) else ps[p].(rightChild := n))
    requires ps'[n] == ps[n].(parent := p)
    ensures TreeLinked(ps', root, Replace(t, p, Grow(Sub(t, p), n, dir)))
  {
    var s := Sub(t, p);
    var g := Grow(s, n, dir);
    SubFacts(t, p);
    SubWired(ps, t, p, NULL);
    BackLinkedParent(ps, NULL, t, p);
    GrowAt(t, p, n, dir);
    ReplaceKeys(t, p, g);
    KeepLinks(ps, ps', s.left, p);
    KeepLinks(ps, ps', s.right, p);
    assert Wired(ps', g) && BackLinked(ps', ParentOf(t, p, NULL), g);
    ReplaceLinked(ps, ps', t, NULL, p, g);
    RootKeyReplace(t, p, g);
  }

  lemma AttachHeights(ps: seq<Peer>, ps': seq<Peer>, t: Shape, p: int, n: int, dir: int)
    requires Wired(ps, t) && Distinct(t) && HeightsOK(ps, t) && p in Keys(t) && n !in Keys(t) && FreeSide(Sub(t, p), n, dir)
    requires |ps'| == |ps| && 0 <= n < |ps| && ps'[n].height == 0
    requires forall k :: 0 <= k < |ps| && k != n ==> ps'[k].height == ps[k].height
    ensures var t' := Replace(t, p, Grow(Sub(t, p), n, dir)); HeightsOKExcept(ps', t', Anc(t', p))
  {
    var s := Sub(t, p);
    var g := Grow(s, n, dir);
    SubFacts(t, p);
    SubWired(ps, t, p, NULL);
    GrowHeights(ps, ps', s, n, dir);
    GrowAt(t, p, n, dir);
    AncFacts(t, p);
    HeightsWeaken(ps, t, {}, {p});
    ReplaceHeights(ps, ps', t, p, g, {p});
    assert {p} + (Anc(t, p) - {p}) == Anc(t, p);
  }

  /** Below the slot owner, whose height is the only one left stale, the grown subtree caches its heights. */
  lemma GrowHeights(ps: seq<Peer>, ps': seq<Peer>, s: Shape, n: int, dir: int)
    requires FreeSide(s, n, dir) && Distinct(s) && HeightsOK(ps, s.left) && HeightsOK(ps, s.right)
    requires |ps'| == |ps| && 0 <= n < |ps| && ps'[n].height == 0
    requires forall k :: 0 <= k < |ps| && k != n ==> ps'[k].height == ps[k].height
    requires 0 <= s.key < |ps|
    ensures HeightsOKExcept(ps', Grow(s, n, dir), {s.key})
  {
    HeightsFrame(ps, ps', s.left, {});
    HeightsFrame(ps, ps', s.right, {});
    HeightsWeaken(ps', s.left, {}, {s.key});
    HeightsWeaken(ps', s.right, {}, {s.key});
    assert HeightsOKExcept(ps', Node(n, Nil, Nil), {s.key});
  }
}

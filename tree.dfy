/**
 * The peer tree of tree.go: a binary fan-out tree of peers that Insert
 * fills in level order and Delete repairs with AVL rotations. Peers live
 * in an arena; the tree keeps the root index, the insertion counter and a
 * ghost shape that its links are proved to follow.
 */
module PeerTree {
  import opened Util
  import opened PeerNode
  import opened Shapes
  import opened Surgery
  import opened Levels
  import opened Balance
  import opened Relink
  import opened FixUpWalk
  import opened Search
  import opened Deletion
  import opened Insertion

  /** The attached peers carry distinct ids, all below the counter n. */
  predicate IdsBelow(ps: seq<Peer>, t: Shape, n: int)
  {
    (forall k :: k in Keys(t) && 0 <= k < |ps| ==> 0 <= ps[k].id < n)
    && (forall j, k :: j in Keys(t) && k in Keys(t) && 0 <= j < |ps| && 0 <= k < |ps| && j != k ==> ps[j].id != ps[k].id)
  }

  class Tree {
    const arena: Arena
    var funcName: string
    var Root: int
    var length: int
    ghost var shape: Shape

    ghost predicate Linked()
      reads this, arena
    {
      TreeLinked(arena.peers, Root, shape)
    }

    /** The tree invariant: links follow the shape, heights are cached, ids are distinct and counted. */
    ghost predicate Valid()
      reads this, arena
    {
      Linked() && HeightsOK(arena.peers, shape)
      && 0 <= Size(shape) <= length && IdsBelow(arena.peers, shape, length)
    }

    /** NewTree: an empty tree for the named function (tree.go:37-43). */
    constructor (s: string, a: Arena)
      ensures funcName == s && arena == a && Root == NULL && length == 0 && shape == Nil
      ensures Valid()
    {
      arena := a;
      funcName := s;
      Root := NULL;
      length := 0;
      shape := Nil;
    }

    /** GetLen / len / getIdx: the insertion counter, never below the number of attached peers. */
    function GetLen(): (n: int)
      reads this, arena
      ensures Valid() ==> n >= Size(shape)
      ensures n == length
    {
      length
    }

    /**
     * Delete (tree.go:208-371): a nil peer is an error and changes nothing;
     * otherwise d is unlinked as its case demands (cases 0 to 3) and the
     * fix-up walk recomputes heights and rotates from where it starts. The
     * counter is left as it is, so later ids stay fresh.
     */
    method Delete(d: int) returns (err: bool)
      requires Valid() && (d == NULL || d in Keys(shape))
      modifies this, arena
      ensures err <==> d == NULL
      ensures err ==> shape == old(shape) && Root == old(Root) && arena.peers == old(arena.peers)
      ensures !err ==> shape == DeleteShape(old(shape), d) && Keys(shape) == Keys(old(shape)) - {d}
      ensures Valid() && SamePayload(old(arena.peers), arena.peers)
      ensures Untouched(old(arena.peers), arena.peers, Keys(old(shape)))
      ensures funcName == old(funcName) && length == old(length)
    {
      if d == NULL {
        return true;
      }
      ghost var t, ps0 := shape, arena.peers;
      var parent, early := Detach(d);
      if early {
        NullAbsent(arena.peers, shape);
        AncAbsent(shape, NULL);
      } else {
        ghost var ps1 := arena.peers;
        Rebalance(parent);
        PayloadTrans(ps0, ps1, arena.peers);
        UnlinkKeys(t, d);
        UntouchedTrans(ps0, ps1, arena.peers, Keys(t), Keys(t) - {d}, Keys(t));
      }
      assert Size(shape) <= length && Keys(shape) == Keys(t) - {d} by {
        DeleteKeys(t, d);
      }
      IdsKeep(ps0, arena.peers, t, shape, length);
      return false;
    }

    /**
     * The unlinking of Delete (tree.go:218-347), by the cases of d's
     * children: a childless root empties the tree; a leaf below the root is
     * cut off; an only child takes d's place; with two children the
     * successor does. It returns the peer the fix-up walk starts from, and
     * `early` for the two cases where tree.go returns before the walk.
     */
    method Detach(d: int) returns (parent: int, early: bool)
      requires Linked() && HeightsOK(arena.peers, shape) && d in Keys(shape)
      modifies this, arena
      ensures shape == Unlink(old(shape), d) && parent == FixStart(old(shape), d)
      ensures early ==> parent == NULL
      ensures Linked() && (parent == NULL || parent in Keys(shape))
      ensures HeightsOKExcept(arena.peers, shape, Anc(shape, parent))
      ensures SamePayload(old(arena.peers), arena.peers)
      ensures Untouched(old(arena.peers), arena.peers, Keys(old(shape)))
      ensures funcName == old(funcName) && length == old(length)
    {
      ghost var t := shape;
      ParentLinks(arena.peers, Root, t, d);
      UnlinkKeys(t, d);
      parent := arena.peers[d].parent;
      var root := Root;
      var ps := arena.peers;
      if d == root && ps[d].leftChild == NULL && ps[d].rightChild == NULL {
        Root := NULL;
        shape := Nil;
        return NULL, true;
      }
      if d != root && ps[d].leftChild == NULL && ps[d].rightChild == NULL {
        CutLeaf(d);
      } else if (ps[d].leftChild != NULL && ps[d].rightChild == NULL) || (ps[d].leftChild == NULL && ps[d].rightChild != NULL) {
        PromoteChild(d);
        if d == root {
          NullAbsent(arena.peers, shape);
          AncAbsent(shape, NULL);
          return NULL, true;
        }
      } else {
        parent := ReplaceBySuccessor(d);
      }
      early := false;
    }

    /**
     * Case 1 (tree.go:240-247): a leaf d below the root is cut from its
     * parent, whose link that named d is set to nil.
     */
    method CutLeaf(d: int)
      requires Linked() && HeightsOK(arena.peers, shape) && d in Keys(shape) && d != Root && IsLeaf(Sub(shape, d))
      modifies this, arena
      ensures shape == Unlink(old(shape), d) && Root == old(Root)
      ensures Linked() && HeightsOKExcept(arena.peers, shape, Anc(shape, FixStart(old(shape), d)))
      ensures SamePayload(old(arena.peers), arena.peers)
      ensures Untouched(old(arena.peers), arena.peers, Keys(old(shape)))
      ensures funcName == old(funcName) && length == old(length)
    {
      ghost var t, ps0 := shape, arena.peers;
      ParentLinks(ps0, Root, t, d);
      ParentKey(t, d);
      var P := arena.peers[d].parent;
      arena.peers := SwapChild(arena.peers, P, d, NULL, true);
      shape := Replace(t, d, Nil);
      TransplantDone(ps0, arena.peers, Root, t, d, Nil);
      PayloadFrame(ps0, arena.peers, P, P, P, P);
      UntouchedFrame(ps0, arena.peers, Keys(t), P, P, P, P);
    }

    /**
     * Cases 2.1 and 2.2 (tree.go:252-280): d's only child c takes d's
     * place; below the root, c takes d's parent as parent and the parent's
     * link that named d names c. At the root c becomes Root and, unlike
     * tree.go:254-256 and 268-270, takes NULL as parent (see
     * RootPromotionAsWritten).
     */
    method PromoteChild(d: int)
      requires Linked() && HeightsOK(arena.peers, shape) && d in Keys(shape)
      requires Sub(shape, d).Node? && Sub(shape, d).left.Nil? != Sub(shape, d).right.Nil?
      modifies this, arena
      ensures shape == Unlink(old(shape), d) && Root == (if old(Root) == d then RootKey(shape) else old(Root))
      ensures Linked() && HeightsOKExcept(arena.peers, shape, Anc(shape, FixStart(old(shape), d)))
      ensures SamePayload(old(arena.peers), arena.peers)
      ensures Untouched(old(arena.peers), arena.peers, Keys(old(shape)))
      ensures funcName == old(funcName) && length == old(length)
    {
      ghost var t, ps0 := shape, arena.peers;
      ghost var D := Sub(t, d);
      ghost var u := if D.left.Node? then D.left else D.right;
      PromoteReady(ps0, Root, t, d);
      var c := if arena.peers[d].rightChild == NULL then arena.peers[d].leftChild else arena.peers[d].rightChild;
      var P := arena.peers[d].parent;
      if d == Root {
        arena.peers := Adopt(arena.peers, c, NULL);
        Root := c;
      } else {
        arena.peers := Adopt(arena.peers, c, P);
        arena.peers := SwapChild(arena.peers, P, d, c, true);
      }
      shape := Replace(t, d, u);
      TransplantDone(ps0, arena.peers, old(Root), t, d, u);
      PayloadFrame(ps0, arena.peers, P, c, c, c);
      NearKeys(t, d);
      UntouchedFrame(ps0, arena.peers, Keys(t), P, c, c, c);
    }

    /**
     * Case 3 (tree.go:293-347): the successor s, d's first leaf in level
     * order, is cut from its parent tp, then takes d's place (or Root) and
     * d's children other than itself. The walk starts at tp, or at s when
     * tp was d.
     */
    method ReplaceBySuccessor(d: int) returns (start: int)
      requires Linked() && HeightsOK(arena.peers, shape) && d in Keys(shape)
      requires Sub(shape, d).Node? && Sub(shape, d).left.Node? && Sub(shape, d).right.Node?
      modifies this, arena
      ensures shape == Unlink(old(shape), d) && start == FixStart(old(shape), d)
      ensures Root == (if old(Root) == d then RootKey(shape) else old(Root))
      ensures Linked() && HeightsOKExcept(arena.peers, shape, Anc(shape, start))
      ensures SamePayload(old(arena.peers), arena.peers)
      ensures Untouched(old(arena.peers), arena.peers, Keys(old(shape)))
      ensures funcName == old(funcName) && length == old(length)
    {
      ghost var t, ps0 := shape, arena.peers;
      ghost var D := Sub(t, d);
      ParentLinks(ps0, Root, t, d);
      SubFacts(t, d);
      var l, r := arena.peers[d].leftChild, arena.peers[d].rightChild;
      var s, tp := CutSuccessor(d);
      ghost var ps1 := arena.peers;
      SuccessorCut(t, d);
      SplicedChildren(D);
      if s == l {
        l := NULL;
      } else if s == r {
        r := NULL;
      }
      SpliceSuccessor(d, s, l, r, tp);
      PayloadTrans(ps0, ps1, arena.peers);
      ReplaceKeys(t, s, Nil);
      UntouchedTrans(ps0, ps1, arena.peers, Keys(t), Keys(t) - {s} + {s}, Keys(t));
      start := if tp == d then s else tp;
    }

    /** tree.go:295-305: find the successor s of d and cut it from its parent tp. */
    method CutSuccessor(d: int) returns (s: int, tp: int)
      requires Linked() && HeightsOK(arena.peers, shape) && d in Keys(shape)
      requires Sub(shape, d).Node? && Sub(shape, d).left.Node? && Sub(shape, d).right.Node?
      modifies this, arena
      ensures s == FirstLeaf(Sub(old(shape), d)) && tp == ParentOf(old(shape), s, NULL)
      ensures shape == Replace(old(shape), s, Nil) && Root == old(Root)
      ensures Linked() && 0 <= s < |arena.peers| && HeightsOKExcept(arena.peers, shape, Anc(shape, tp))
      ensures SamePayload(old(arena.peers), arena.peers)
      ensures Untouched(old(arena.peers), arena.peers, Keys(old(shape)))
      ensures funcName == old(funcName) && length == old(length)
    {
      ghost var t, ps0 := shape, arena.peers;
      SubWired(ps0, t, d, NULL);
      SubFacts(t, d);
      s := GetSuccessor(arena.peers, d, Sub(t, d));
      SuccessorCut(t, d);
      ParentLinks(ps0, Root, t, s);
      tp := arena.peers[s].parent;
      arena.peers := SwapChild(arena.peers, tp, s, NULL, true);
      shape := Replace(t, s, Nil);
      TransplantDone(ps0, arena.peers, Root, t, s, Nil);
      PayloadFrame(ps0, arena.peers, tp, tp, tp, tp);
      ParentKey(t, s);
      UntouchedFrame(ps0, arena.peers, Keys(t), tp, tp, tp, tp);
    }

    /**
     * tree.go:307-346: the cut-out successor s takes d's place below d's
     * parent (or at the root) and takes l and r, d's remaining children.
     */
    method SpliceSuccessor(d: int, s: int, l: int, r: int, tp: int)
      requires Linked() && d in Keys(shape) && s !in Keys(shape) && 0 <= s < |arena.peers|
      requires Sub(shape, d).Node? && l == RootKey(Sub(shape, d).left) && r == RootKey(Sub(shape, d).right)
      requires tp in Keys(Sub(shape, d)) && HeightsOKExcept(arena.peers, shape, Anc(shape, tp))
      modifies this, arena
      ensures shape == Replace(old(shape), d, Node(s, Sub(old(shape), d).left, Sub(old(shape), d).right))
      ensures Root == (if old(Root) == d then s else old(Root))
      ensures Linked() && HeightsOKExcept(arena.peers, shape, Anc(shape, if tp == d then s else tp))
      ensures SamePayload(old(arena.peers), arena.peers)
      ensures Untouched(old(arena.peers), arena.peers, Keys(old(shape)) + {s})
      ensures funcName == old(funcName) && length == old(length)
    {
      ghost var t1, ps1 := shape, arena.peers;
      SpliceReady(ps1, Root, t1, d, s);
      var P := if d == Root then NULL else arena.peers[d].parent;
      arena.peers := Splice(arena.peers, d, s, P, l, r);
      PayloadFrame(ps1, arena.peers, s, P, l, r);
      NearKeys(t1, d);
      UntouchedFrame(ps1, arena.peers, Keys(t1) + {s}, s, P, l, r);
      if d == Root {
        Root := s;
      }
      shape := Replace(t1, d, Node(s, Sub(t1, d).left, Sub(t1, d).right));
      SpliceDone(ps1, arena.peers, old(Root), t1, d, s);
      SpliceHeights(ps1, arena.peers, t1, d, s, tp);
    }

    /**
     * Insert (tree.go:95-134): the new peer n takes the counter as its id.
     * An empty tree gets n as its root, with no parent; otherwise n hangs
     * in the slot nextAvailableNode reports, and when there is none Insert
     * fails with "tree is full", having changed nothing but n's id. Then
     * the heights from n's parent up to the root are recomputed, and the
     * counter grows by one.
     */
    method Insert(n: int) returns (err: bool)
      requires Valid() && 0 <= n < |arena.peers| && n !in Keys(shape) && Detached(arena.peers[n])
      modifies this, arena
      ensures err <==> NoRoom(old(shape))
      ensures shape == InsertShape(old(shape), n) && |arena.peers| == |old(arena.peers)|
      ensures length == if err then old(length) else old(length) + 1
      ensures arena.peers[n].id == old(length)
      ensures err ==> Root == old(Root) && arena.peers == old(arena.peers)[n := old(arena.peers)[n].(id := old(length))]
      ensures !err && old(Root) == NULL ==> Root == n && arena.peers[n].parent == NULL
      ensures !err && old(Root) != NULL ==> Root == old(Root) && arena.peers[n].parent == NextSlot(old(shape)).value.0
      ensures SamePayload(old(arena.peers)[n := old(arena.peers)[n].(id := old(length))], arena.peers)
      ensures forall k :: 0 <= k < |arena.peers| && k !in Anc(shape, n) ==> arena.peers[k].height == old(arena.peers)[k].height
      ensures Keys(shape) == if err then Keys(old(shape)) else Keys(old(shape)) + {n}
      ensures Untouched(old(arena.peers), arena.peers, Keys(old(shape)) + {n})
      ensures Valid() && funcName == old(funcName)
    {
      ghost var t, ps0 := shape, arena.peers;
      var parent;
      err, parent := Place(n);
      ghost var ps1 := old(arena.peers)[n := old(arena.peers)[n].(id := old(length))];
      if err {
        assert IdsBelow(arena.peers, shape, length) && Size(shape) <= length && Keys(shape) == Keys(t) by {
          InsertKeys(t, n);
          IdsInsert(ps0, arena.peers, t, shape, n, length);
        }
        return;
      }
      ghost var ps2 := arena.peers;
      InsertPlaced(ps0, ps2, t, shape, n, length);
      Settle(n, parent);
      InsertSettled(ps0, ps2, arena.peers, t, shape, n, old(length));
      err := false;
    }

    /**
     * The end of a successful Insert (tree.go:124-133): the heights from
     * n's parent up to the root are recomputed, then the counter grows by
     * one. Links, payloads and the peers outside the tree stay as they are.
     */
    method Settle(n: int, parent: int)
      requires Linked() && n in Keys(shape) && (parent == NULL || parent in Keys(shape))
      requires Anc(shape, n) == Anc(shape, parent) + {n} && HeightsOKExcept(arena.peers, shape, Anc(shape, parent))
      requires Size(shape) <= length + 1 && IdsBelow(arena.peers, shape, length + 1)
      modifies this, arena
      ensures Valid() && length == old(length) + 1
      ensures shape == old(shape) && Root == old(Root) && funcName == old(funcName)
      ensures SamePayload(old(arena.peers), arena.peers)
      ensures forall k :: 0 <= k < |arena.peers| ==> SameLinks(arena.peers[k], old(arena.peers)[k])
      ensures forall k :: 0 <= k < |arena.peers| && k !in Anc(shape, n) ==> arena.peers[k].height == old(arena.peers)[k].height
      ensures Untouched(old(arena.peers), arena.peers, Keys(shape))
    {
      RefreshPath(parent);
      IdsKeep(old(arena.peers), arena.peers, shape, shape, length + 1);
      length := length + 1;
    }

    /**
     * The first part of Insert (tree.go:99-122): n takes the counter as its
     * id, then hangs as the root of an empty tree, with no parent, or in
     * the slot nextAvailableNode reports; an error when there is no slot,
     * with nothing changed but the id. It returns n's parent, from which
     * the height walk starts.
     */
    method Place(n: int) returns (err: bool, parent: int)
      requires Linked() && HeightsOK(arena.peers, shape) && 0 <= n < |arena.peers| && n !in Keys(shape)
      requires Detached(arena.peers[n])
      modifies this, arena
      ensures err <==> NoRoom(old(shape))
      ensures shape == InsertShape(old(shape), n) && |arena.peers| == |old(arena.peers)|
      ensures arena.peers[n].id == old(length)
      ensures err ==> Root == old(Root) && arena.peers == old(arena.peers)[n := old(arena.peers)[n].(id := old(length))]
      ensures err ==> parent == NULL && HeightsOK(arena.peers, shape)
      ensures !err && old(Root) == NULL ==> Root == n && parent == NULL
      ensures !err && old(Root) != NULL ==> Root == old(Root) && parent == NextSlot(old(shape)).value.0
      ensures !err ==> arena.peers[n].parent == parent && n in Keys(shape)
      ensures !err ==> (parent == NULL || parent in Keys(shape)) && Anc(shape, n) == Anc(shape, parent) + {n}
      ensures Linked() && HeightsOKExcept(arena.peers, shape, Anc(shape, parent))
      ensures SamePayload(old(arena.peers)[n := old(arena.peers)[n].(id := old(length))], arena.peers)
      ensures forall k :: 0 <= k < |arena.peers| ==> arena.peers[k].height == old(arena.peers)[k].height
      ensures Untouched(old(arena.peers), arena.peers, Keys(old(shape)) + {n})
      ensures funcName == old(funcName) && length == old(length)
    {
      ghost var t, ps0 := shape, arena.peers;
      arena.peers := arena.peers[n := arena.peers[n].(id := length)];
      ghost var ps1 := arena.peers;
      UntouchedFrame(ps0, ps1, Keys(t) + {n}, n, n, n, n);
      KeepLinks(ps0, ps1, t, NULL);
      HeightsFrame(ps0, ps1, t, {});
      InsertKeys(t, n);
      if Root == NULL {
        Root := n;
        arena.peers := Adopt(arena.peers, n, NULL);
        UntouchedFrame(ps0, arena.peers, Keys(t) + {n}, n, n, n, n);
        shape := Node(n, Nil, Nil);
        return false, NULL;
      }
      var p, dir, ok := NextAvailableNode();
      if !ok {
        NullAbsent(arena.peers, shape);
        AncAbsent(shape, NULL);
        return true, NULL;
      }
      Attach(n, p, dir);
      UntouchedFrame(ps1, arena.peers, Keys(t) + {n}, p, n, n, n);
      UntouchedTrans(ps0, ps1, arena.peers, Keys(t) + {n}, Keys(t) + {n}, Keys(t) + {n});
      return false, p;
    }

    /**
     * The writes of tree.go:111-121: the slot owner p takes n as its child
     * on side dir, and n takes p as its parent. The links then follow the
     * grown tree and only the heights on p's ancestor path are stale.
     */
    method Attach(n: int, p: int, dir: int)
      requires Linked() && HeightsOK(arena.peers, shape) && shape.Node? && NextSlot(shape) == Some((p, dir))
      requires 0 <= n < |arena.peers| && n !in Keys(shape) && Detached(arena.peers[n])
      modifies this, arena
      ensures shape == InsertShape(old(shape), n) && Root == old(Root)
      ensures Linked() && p in Keys(shape) && HeightsOKExcept(arena.peers, shape, Anc(shape, p))
      ensures n in Keys(shape) && Anc(shape, n) == Anc(shape, p) + {n}
      ensures |arena.peers| == |old(arena.peers)|
      ensures forall k :: 0 <= k < |arena.peers| && k != p && k != n ==> arena.peers[k] == old(arena.peers)[k]
      ensures arena.peers[n] == old(arena.peers)[n].(parent := p)
      ensures 0 <= p < |arena.peers| && arena.peers[p].height == old(arena.peers)[p].height
      ensures p in Keys(old(shape))
      ensures SamePayload(old(arena.peers), arena.peers)
      ensures funcName == old(funcName) && length == old(length)
    {
      ghost var t, ps0 := shape, arena.peers;
      var q, side := AttachSite(t, n);
      WiredInRange(ps0, t);
      var ps := arena.peers;
      if dir == LeftDir {
        arena.peers := ps[p := ps[p].(leftChild := n)];
      } else {
        arena.peers := ps[p := ps[p].(rightChild := n)];
      }
      arena.peers := Adopt(arena.peers, n, p);
      shape := Replace(t, p, Grow(Sub(t, p), n, dir));
      AttachLinked(ps0, arena.peers, Root, t, p, n, dir);
      AttachHeights(ps0, arena.peers, t, p, n, dir);
      GrowAt(t, p, n, dir);
      PayloadFrame(ps0, arena.peers, p, n, n, n);
    }

    /**
     * The height walk of Insert (tree.go:124-129): from c up to the root,
     * each peer caches one more than the larger cached height of its
     * children. With only c's ancestor path stale before, every height is
     * cached correctly after; links and payloads are untouched, and peers
     * off the path keep their heights.
     */
    method RefreshPath(c: int)
      requires Linked() && (c == NULL || c in Keys(shape)) && HeightsOKExcept(arena.peers, shape, Anc(shape, c))
      modifies arena
      ensures Linked() && HeightsOK(arena.peers, shape)
      ensures SamePayload(old(arena.peers), arena.peers)
      ensures forall k :: 0 <= k < |arena.peers| ==> SameLinks(arena.peers[k], old(arena.peers)[k])
      ensures forall k :: 0 <= k < |arena.peers| && k !in Anc(shape, c) ==> arena.peers[k].height == old(arena.peers)[k].height
      ensures Untouched(old(arena.peers), arena.peers, Keys(shape))
    {
      var p := c;
      while p != NULL
        invariant Linked() && (p == NULL || p in Keys(shape)) && HeightsOKExcept(arena.peers, shape, Anc(shape, p))
        invariant Anc(shape, p) <= Anc(shape, c)
        invariant SamePayload(old(arena.peers), arena.peers)
        invariant forall k :: 0 <= k < |arena.peers| ==> SameLinks(arena.peers[k], old(arena.peers)[k])
        invariant forall k :: 0 <= k < |arena.peers| && k !in Anc(shape, c) ==> arena.peers[k].height == old(arena.peers)[k].height
        invariant Untouched(old(arena.peers), arena.peers, Keys(shape))
        decreases Depth(shape, p)
      {
        NullAbsent(arena.peers, shape);
        RefreshAt(arena.peers, Root, shape, p);
        ParentAnc(shape, p);
        AncFacts(shape, p);
        ghost var before := arena.peers;
        arena.peers := RefreshHeight(arena.peers, p);
        UntouchedFrame(before, arena.peers, Keys(shape), p, p, p, p);
        UntouchedTrans(old(arena.peers), before, arena.peers, Keys(shape), Keys(shape), Keys(shape));
        p := arena.peers[p].parent;
      }
      NullAbsent(arena.peers, shape);
      AncAbsent(shape, NULL);
    }

    /**
     * nextAvailableNode (tree.go:61-93): breadth-first from the root, the
     * first peer with a free child slot, left before right, scanning at
     * most MaxLength - 1 levels; (NULL, NULL, false) when all of those are
     * full. Insert calls it only on a tree with a root.
     */
    method NextAvailableNode() returns (p: int, dir: int, ok: bool)
      requires Linked() && Root != NULL
      ensures shape.Node? && (ok <==> NextSlot(shape).Some?)
      ensures ok ==> (p, dir) == NextSlot(shape).value
      ensures !ok ==> p == NULL && dir == NULL
    {
      var ps := arena.peers;
      var queue := [Root];
      ghost var q := [shape];
      var level := 1;
      while |queue| > 0
        invariant AllNodes(q) && WiredAll(ps, q) && queue == RootKeys(q)
        invariant 1 <= level <= MaxLength
        invariant SlotIn(q, MaxLength - level) == NextSlot(shape)
        decreases TotalSize(q)
      {
        var l := |queue|;
        if level == MaxLength {
          return NULL, NULL, false;
        }
        var i := 0;
        while i < l
          invariant 0 <= i <= l == |q| && queue == RootKeys(q) + RootKeys(NextLevel(q[..i]))
          invariant forall j :: 0 <= j < i ==> !Open(q[j])
        {
          QueueStep(ps, q, i, queue);
          var cur := queue[i];
          ChildTest(ps, q[i]);
          if ps[cur].leftChild == NULL {
            SlotHere(q, MaxLength - level, i);
            return cur, LeftDir, true;
          } else {
            queue := queue + [ps[cur].leftChild];
          }
          if ps[cur].rightChild == NULL {
            SlotHere(q, MaxLength - level, i);
            return cur, RightDir, true;
          } else {
            queue := queue + [ps[cur].rightChild];
          }
          NoMatchStep(q, Open, i);
          i := i + 1;
        }
        assert q[..l] == q;
        NextLevelFacts(q);
        NextLevelWired(ps, q);
        SlotNext(q, MaxLength - level);
        level := level + 1;
        queue := queue[l..];
        q := NextLevel(q);
      }
      return NULL, NULL, false;
    }

    /**
     * Find (tree.go:373-401): breadth-first from the root, the first peer
     * carrying the id; NULL for an empty tree or when no peer carries it.
     */
    method Find(id: int) returns (p: int)
      requires Linked()
      ensures p == (if shape.Nil? then NULL else FindFirst(arena.peers, shape, id))
      ensures p != NULL ==> p in Keys(shape) && 0 <= p < |arena.peers| && arena.peers[p].id == id
      ensures p == NULL <==> forall k :: k in Keys(shape) && 0 <= k < |arena.peers| ==> arena.peers[k].id != id
    {
      var ps := arena.peers;
      if Root == NULL {
        return NULL;
      }
      var queue := [Root];
      ghost var q := [shape];
      ghost var P := HasId(ps, id);
      while |queue| > 0
        invariant AllNodes(q) && WiredAll(ps, q) && queue == RootKeys(q)
        invariant FirstKeyOf(q, P) == FindFirst(ps, shape, id)
        decreases TotalSize(q)
      {
        var l := |queue|;
        var i := 0;
        while i < l
          invariant 0 <= i <= l == |q| && queue == RootKeys(q) + RootKeys(NextLevel(q[..i]))
          invariant forall j :: 0 <= j < i ==> !P(q[j])
        {
          QueueStep(ps, q, i, queue);
          var cur := queue[i];
          if ps[cur].id == id {
            FirstKeyHere(q, P, i);
            FindFirstCorrect(ps, shape, id);
            return cur;
          }
          NoMatchStep(q, P, i);
          if ps[cur].leftChild != NULL {
            queue := queue + [ps[cur].leftChild];
          }
          if ps[cur].rightChild != NULL {
            queue := queue + [ps[cur].rightChild];
          }
          i := i + 1;
        }
        assert q[..l] == q;
        NextLevelFacts(q);
        NextLevelWired(ps, q);
        FirstKeyNext(q, P);
        queue := queue[l..];
        q := NextLevel(q);
      }
      FindFirstCorrect(ps, shape, id);
      return NULL;
    }

    /**
     * DumpTree (tree.go:404-434): the ids of the peers level by level, and
     * the number of peers visited; tree.go writes both to its log.
     */
    method DumpTree() returns (res: seq<seq<int>>, count: int)
      requires Linked()
      ensures res == (if shape.Nil? then [] else LevelIds(arena.peers, [shape]))
      ensures count == Size(shape) && |Flatten(res)| == count
    {
      var ps := arena.peers;
      res, count := [], 0;
      if Root == NULL {
        return;
      }
      DumpCount(ps, shape);
      var queue := [Root];
      ghost var q := [shape];
      while |queue| > 0
        invariant AllNodes(q) && WiredAll(ps, q) && queue == RootKeys(q)
        invariant res + LevelIds(ps, q) == LevelIds(ps, [shape])
        invariant count == |Flatten(res)|
        decreases TotalSize(q)
      {
        var l := |queue|;
        var temp := [];
        var i := 0;
        while i < l
          invariant 0 <= i <= l == |q| && queue == RootKeys(q) + RootKeys(NextLevel(q[..i]))
          invariant temp == Ids(ps, q[..i]) && count == |Flatten(res)| + i
        {
          QueueStep(ps, q, i, queue);
          var cur := queue[i];
          count := count + 1;
          IdsStep(ps, q, i, temp);
          temp := temp + [ps[cur].id];
          if ps[cur].leftChild != NULL {
            queue := queue + [ps[cur].leftChild];
          }
          if ps[cur].rightChild != NULL {
            queue := queue + [ps[cur].rightChild];
          }
          i := i + 1;
        }
        assert q[..l] == q;
        NextLevelFacts(q);
        NextLevelWired(ps, q);
        DumpStep(ps, q, res, temp, LevelIds(ps, [shape]));
        res := res + [temp];
        queue := queue[l..];
        q := NextLevel(q);
      }
    }

    /**
     * leftRotate (tree.go:160-182): x's right child y takes x's place, x
     * becomes y's left child and y's old left subtree becomes x's right;
     * x's height is recomputed, then y's.
     */
    method LeftRotate(x: int)
      requires Linked() && x in Keys(shape) && Sub(shape, x).Node? && Sub(shape, x).right.Node?
      requires HeightsOKExcept(arena.peers, shape, Anc(shape, x))
      modifies this, arena
      ensures shape == Replace(old(shape), x, RotL(Sub(old(shape), x))) && Keys(shape) == Keys(old(shape))
      ensures Linked() && HeightsOKExcept(arena.peers, shape, Anc(old(shape), x) - {x})
      ensures SamePayload(old(arena.peers), arena.peers)
      ensures Untouched(old(arena.peers), arena.peers, Keys(old(shape)))
      ensures funcName == old(funcName) && length == old(length)
    {
      ghost var t, ps0 := shape, arena.peers;
      ghost var s := Sub(t, x);
      ghost var A, B, C := s.left, s.right.left, s.right.right;
      SubFacts(t, x);
      RotLReads(ps0, t, x, A, s.right.key, B, C, ParentOf(t, x, NULL));
      RotLCached(ps0, t, x, A, s.right.key, B, C);
      var ps, y, P := LeftRotation(arena.peers, x);
      if P == NULL {
        Root := y;
      }
      arena.peers := ps;
      shape := Replace(t, x, RotL(s));
      RotLDone(ps0, ps, t, x, A, y, B, C, P);
      RotLFrame(ps0, ps, t, x, y, RootKey(B), P);
    }

    /** rightRotate (tree.go:184-206): the mirror image of LeftRotate. */
    method RightRotate(x: int)
      requires Linked() && x in Keys(shape) && Sub(shape, x).Node? && Sub(shape, x).left.Node?
      requires HeightsOKExcept(arena.peers, shape, Anc(shape, x))
      modifies this, arena
      ensures shape == Replace(old(shape), x, RotR(Sub(old(shape), x))) && Keys(shape) == Keys(old(shape))
      ensures Linked() && HeightsOKExcept(arena.peers, shape, Anc(old(shape), x) - {x})
      ensures SamePayload(old(arena.peers), arena.peers)
      ensures Untouched(old(arena.peers), arena.peers, Keys(old(shape)))
      ensures funcName == old(funcName) && length == old(length)
    {
      ghost var t, ps0 := shape, arena.peers;
      ghost var s := Sub(t, x);
      ghost var A, B, C := s.left.left, s.left.right, s.right;
      SubFacts(t, x);
      RotRReads(ps0, t, x, A, s.left.key, B, C, ParentOf(t, x, NULL));
      RotRCached(ps0, t, x, A, s.left.key, B, C);
      var ps, y, P := RightRotation(arena.peers, x);
      if P == NULL {
        Root := y;
      }
      arena.peers := ps;
      shape := Replace(t, x, RotR(s));
      RotRDone(ps0, ps, t, x, A, y, B, C, P);
      RotRFrame(ps0, ps, t, x, y, RootKey(B), P);
    }

    /**
     * The LR case of the fix-up (tree.go:360-363): leftRotate at c's left
     * child, then rightRotate at c.
     */
    method RotateLeftRight(c: int)
      requires Linked() && c in Keys(shape) && CaseOf(Sub(shape, c)) == LR
      requires HeightsOKExcept(arena.peers, shape, Anc(shape, c))
      modifies this, arena
      ensures shape == StepShape(old(shape), c)
      ensures Linked() && HeightsOKExcept(arena.peers, shape, Anc(old(shape), c) - {c})
      ensures SamePayload(old(arena.peers), arena.peers)
      ensures Untouched(old(arena.peers), arena.peers, Keys(old(shape)))
      ensures funcName == old(funcName) && length == old(length)
    {
      ghost var t := shape;
      InnerLeft(t, c);
      SubFacts(t, c);
      SubWired(arena.peers, t, c, NULL);
      var z := arena.peers[c].leftChild;
      HeightsWeaken(arena.peers, t, Anc(t, c), Anc(t, z));
      LeftRotate(z);
      ghost var ps1 := arena.peers;
      RightRotate(c);
      UntouchedTrans(old(arena.peers), ps1, arena.peers, Keys(t), Keys(t), Keys(t));
    }

    /**
     * The RL case of the fix-up (tree.go:364-367): rightRotate at c's
     * right child, then leftRotate at c.
     */
    method RotateRightLeft(c: int)
      requires Linked() && c in Keys(shape) && CaseOf(Sub(shape, c)) == RL
      requires HeightsOKExcept(arena.peers, shape, Anc(shape, c))
      modifies this, arena
      ensures shape == StepShape(old(shape), c)
      ensures Linked() && HeightsOKExcept(arena.peers, shape, Anc(old(shape), c) - {c})
      ensures SamePayload(old(arena.peers), arena.peers)
      ensures Untouched(old(arena.peers), arena.peers, Keys(old(shape)))
      ensures funcName == old(funcName) && length == old(length)
    {
      ghost var t := shape;
      InnerRight(t, c);
      SubFacts(t, c);
      SubWired(arena.peers, t, c, NULL);
      var z := arena.peers[c].rightChild;
      HeightsWeaken(arena.peers, t, Anc(t, c), Anc(t, z));
      RightRotate(z);
      ghost var ps1 := arena.peers;
      LeftRotate(c);
      UntouchedTrans(old(arena.peers), ps1, arena.peers, Keys(t), Keys(t), Keys(t));
    }

    /**
     * One iteration of the fix-up loop (tree.go:351-368): c's height is
     * recomputed, the first of the R, L, LR and RL tests that holds picks
     * the rotation, and the cursor moves to c's parent as the rotation
     * left it.
     */
    method FixAt(c: int) returns (next: int)
      requires Linked() && c in Keys(shape) && HeightsOKExcept(arena.peers, shape, Anc(shape, c))
      modifies this, arena
      ensures shape == StepShape(old(shape), c) && next == StepNext(old(shape), c)
      ensures Linked() && HeightsOKExcept(arena.peers, shape, Anc(shape, next))
      ensures SamePayload(old(arena.peers), arena.peers)
      ensures Untouched(old(arena.peers), arena.peers, Keys(old(shape)))
      ensures funcName == old(funcName) && length == old(length)
    {
      ghost var t := shape;
      ghost var s := Sub(t, c);
      RefreshAt(arena.peers, Root, t, c);
      arena.peers := RefreshHeight(arena.peers, c);
      ghost var ps1 := arena.peers;
      UntouchedFrame(old(arena.peers), ps1, Keys(t), c, c, c, c);
      HeightsWeaken(ps1, t, Anc(t, c) - {c}, Anc(t, c));
      CaseOfUnbalanced(s);
      var ps := arena.peers;
      if GetBalanceFactor(ps, c) > 1 && GetBalanceFactor(ps, ps[c].leftChild) >= 0 {
        RightRotate(c);
      } else if GetBalanceFactor(ps, c) < -1 && GetBalanceFactor(ps, ps[c].rightChild) <= 0 {
        LeftRotate(c);
      } else if GetBalanceFactor(ps, c) > 1 && GetBalanceFactor(ps, ps[c].leftChild) < 0 {
        RotateLeftRight(c);
      } else if GetBalanceFactor(ps, c) < -1 && GetBalanceFactor(ps, ps[c].rightChild) > 0 {
        RotateRightLeft(c);
      }
      UntouchedTrans(old(arena.peers), ps1, arena.peers, Keys(t), Keys(t), Keys(t));
      StepDone(arena.peers, t, c);
      BackLinkedParent(arena.peers, NULL, shape, c);
      next := arena.peers[c].parent;
      HeightsWeaken(arena.peers, shape, Anc(t, c) - {c}, Anc(shape, next));
    }

    /**
     * The fix-up loop of Delete (tree.go:349-369): starting at c, repeat
     * the step until the cursor passes the root. The result is the walk
     * FixUp describes, with every cached height correct again.
     */
    method Rebalance(c: int)
      requires Linked() && (c == NULL || c in Keys(shape)) && HeightsOKExcept(arena.peers, shape, Anc(shape, c))
      modifies this, arena
      ensures shape == FixUp(old(shape), c)
      ensures Linked() && HeightsOK(arena.peers, shape)
      ensures SamePayload(old(arena.peers), arena.peers)
      ensures Untouched(old(arena.peers), arena.peers, Keys(old(shape)))
      ensures funcName == old(funcName) && length == old(length)
    {
      var parent := c;
      while parent != NULL
        invariant Linked() && (parent == NULL || parent in Keys(shape))
        invariant HeightsOKExcept(arena.peers, shape, Anc(shape, parent))
        invariant FixUp(shape, parent) == FixUp(old(shape), c)
        invariant SamePayload(old(arena.peers), arena.peers)
        invariant Keys(shape) == Keys(old(shape)) && Untouched(old(arena.peers), arena.peers, Keys(old(shape)))
        invariant funcName == old(funcName) && length == old(length)
        decreases Depth(shape, parent), Weight(shape, parent), Tilt(shape, parent)
      {
        NullAbsent(arena.peers, shape);
        FixUpStep(shape, parent);
        ghost var ps := arena.peers;
        parent := FixAt(parent);
        PayloadTrans(old(arena.peers), ps, arena.peers);
        UntouchedTrans(old(arena.peers), ps, arena.peers, Keys(old(shape)), Keys(old(shape)), Keys(old(shape)));
      }
      NullAbsent(arena.peers, shape);
      AncAbsent(shape, NULL);
    }
  }

  /** Deleting peers keeps the ids of those that stay: distinct, and below the counter. */
  lemma IdsKeep(ps: seq<Peer>, ps': seq<Peer>, t: Shape, t': Shape, n: int)
    requires IdsBelow(ps, t, n) && SamePayload(ps, ps') && Keys(t') <= Keys(t)
    ensures IdsBelow(ps', t', n)
  {
  }

  /**
   * The counter becomes the new peer's id: the attached ids stay distinct,
   * below the counter once it has grown by one, and below the old counter
   * when n did not join.
   */
  lemma IdsInsert(ps: seq<Peer>, ps': seq<Peer>, t: Shape, t': Shape, n: int, len: int)
    requires IdsBelow(ps, t, len) && 0 <= len && n !in Keys(t) && Keys(t') <= Keys(t) + {n}
    requires |ps'| == |ps| && 0 <= n < |ps| && ps'[n].id == len
    requires forall k :: 0 <= k < |ps| && k != n ==> ps'[k].id == ps[k].id
    ensures IdsBelow(ps', t', len + 1)
    ensures n !in Keys(t') ==> IdsBelow(ps', t', len)
  {
  }

  /**
   * After n is placed with the counter len as its id: the tree's keys grew
   * by n, and the ids stay distinct and below the counter grown by one.
   */
  lemma InsertPlaced(ps0: seq<Peer>, ps2: seq<Peer>, t: Shape, t': Shape, n: int, len: int)
    requires IdsBelow(ps0, t, len) && Size(t) <= len && Distinct(t) && 0 <= n < |ps0| && n !in Keys(t)
    requires t' == InsertShape(t, n) && n in Keys(t')
    requires SamePayload(ps0[n := ps0[n].(id := len)], ps2)
    ensures IdsBelow(ps2, t', len + 1) && Size(t') <= len + 1 && Keys(t') == Keys(t) + {n}
  {
    InsertKeys(t, n);
    IdsInsert(ps0, ps2, t, t', n, len);
  }

  /**
   * What a successful Insert leaves behind once the height walk is done:
   * payloads as after the id write, heights changed only on n's ancestor
   * path, and no peer outside the grown tree touched.
   */
  lemma InsertSettled(ps0: seq<Peer>, ps2: seq<Peer>, ps3: seq<Peer>, t: Shape, t': Shape, n: int, len: int)
    requires 0 <= n < |ps0| && Keys(t') == Keys(t) + {n}
    requires SamePayload(ps0[n := ps0[n].(id := len)], ps2) && SamePayload(ps2, ps3)
    requires forall k :: 0 <= k < |ps2| ==> ps2[k].height == ps0[k].height
    requires forall k :: 0 <= k < |ps3| && k !in Anc(t', n) ==> ps3[k].height == ps2[k].height
    requires Untouched(ps0, ps2, Keys(t) + {n}) && Untouched(ps2, ps3, Keys(t'))
    ensures SamePayload(ps0[n := ps0[n].(id := len)], ps3)
    ensures Untouched(ps0, ps3, Keys(t) + {n})
    ensures forall k :: 0 <= k < |ps3| && k !in Anc(t', n) ==> ps3[k].height == ps0[k].height
  {
    PayloadTrans(ps0[n := ps0[n].(id := len)], ps2, ps3);
    UntouchedTrans(ps0, ps2, ps3, Keys(t) + {n}, Keys(t'), Keys(t) + {n});
  }

  /**
   * NewPeer appends to the arena: a tree valid over the old arena stays
   * valid over the grown one, and the new index is not in it, so peers
   * can be allocated and inserted one after another.
   */
  lemma AllocKeepsTree(ps: seq<Peer>, p: Peer, root: int, t: Shape, len: int)
    requires TreeLinked(ps, root, t) && HeightsOK(ps, t) && IdsBelow(ps, t, len)
    ensures TreeLinked(ps + [p], root, t) && HeightsOK(ps + [p], t) && IdsBelow(ps + [p], t, len)
    ensures |ps| !in Keys(t)
  {
    AppendKeeps(ps, p, NULL, t, {});
    WiredInRange(ps, t);
  }

  /**
   * The peers a rotation at x rewrites (x, the child y that rises, y's
   * inner child and x's parent) are absent or nodes of t.
   */
  lemma RotateNear(t: Shape, x: int)
    requires Distinct(t) && x in Keys(t)
    ensures var s, P := Sub(t, x), ParentOf(t, x, NULL);
      s.Node? && (P == NULL || P in Keys(t))
      && (s.right.Node? ==> s.right.key in Keys(t) && (RootKey(s.right.left) == NULL || RootKey(s.right.left) in Keys(t)))
      && (s.left.Node? ==> s.left.key in Keys(t) && (RootKey(s.left.right) == NULL || RootKey(s.left.right) in Keys(t)))
  {
    NearKeys(t, x);
    SubFacts(t, x);
    var s := Sub(t, x);
    assert Keys(s) == {x} + Keys(s.left) + Keys(s.right);
    if s.right.Node? {
      assert Keys(s.right) == {s.right.key} + Keys(s.right.left) + Keys(s.right.right);
    }
    if s.left.Node? {
      assert Keys(s.left) == {s.left.key} + Keys(s.left.left) + Keys(s.left.right);
    }
  }

  /**
   * A left rotation at x that rewrites only x, y, b and P (x's right
   * child, its left child and x's parent) leaves every peer outside t as
   * it was, and t keeps its keys.
   */
  lemma RotLFrame(ps: seq<Peer>, ps': seq<Peer>, t: Shape, x: int, y: int, b: int, P: int)
    requires Distinct(t) && x in Keys(t) && Sub(t, x).Node? && Sub(t, x).right.Node?
    requires y == Sub(t, x).right.key && b == RootKey(Sub(t, x).right.left) && P == ParentOf(t, x, NULL)
    requires |ps'| == |ps| && forall k :: 0 <= k < |ps| && k != x && k != y && k != b && k != P ==> ps'[k] == ps[k]
    ensures Untouched(ps, ps', Keys(t)) && Keys(Replace(t, x, RotL(Sub(t, x)))) == Keys(t)
  {
    RotateNear(t, x);
    UntouchedFrame(ps, ps', Keys(t), x, y, b, P);
    SubFacts(t, x);
    RotLKeys(Sub(t, x));
    RearrangeAt(t, x, RotL(Sub(t, x)));
  }

  /** The mirror image of RotLFrame, for a right rotation at x. */
  lemma RotRFrame(ps: seq<Peer>, ps': seq<Peer>, t: Shape, x: int, y: int, b: int, P: int)
    requires Distinct(t) && x in Keys(t) && Sub(t, x).Node? && Sub(t, x).left.Node?
    requires y == Sub(t, x).left.key && b == RootKey(Sub(t, x).left.right) && P == ParentOf(t, x, NULL)
    requires |ps'| == |ps| && forall k :: 0 <= k < |ps| && k != x && k != y && k != b && k != P ==> ps'[k] == ps[k]
    ensures Untouched(ps, ps', Keys(t)) && Keys(Replace(t, x, RotR(Sub(t, x)))) == Keys(t)
  {
    RotateNear(t, x);
    UntouchedFrame(ps, ps', Keys(t), x, y, b, P);
    SubFacts(t, x);
    RotRKeys(Sub(t, x));
    RearrangeAt(t, x, RotR(Sub(t, x)));
  }

  /** Rewriting only links keeps every cached height GetHeight reads. */
  lemma SameHeights(ps: seq<Peer>, q: seq<Peer>, n: int)
    requires |q| == |ps| && IsRef(ps, n)
    requires forall k :: 0 <= k < |ps| ==> q[k].height == ps[k].height
    ensures GetHeight(q, n) == GetHeight(ps, n)
  {
  }

  /**
   * The arena writes of leftRotate (tree.go:161-181), in the source's
   * order: with y = x's right child, b = y's left child and P = x's
   * parent, x takes b as right child, b takes x as parent, y takes P as
   * parent, P's link to x now names y, y takes x as left child and x
   * takes y as parent; then x's height is recomputed, and y's. It
   * returns y and P: when P is NULL the caller makes y the root.
   */
  method LeftRotation(ps: seq<Peer>, x: int) returns (ps': seq<Peer>, y: int, P: int)
    requires 0 <= x < |ps| && 0 <= ps[x].rightChild < |ps| && ps[x].rightChild != x
    requires IsRef(ps, ps[x].leftChild) && ps[x].leftChild != x && ps[x].leftChild != ps[x].rightChild
    requires var y := ps[x].rightChild;
      IsRef(ps, ps[y].leftChild) && ps[y].leftChild != x && ps[y].leftChild != y
      && IsRef(ps, ps[y].rightChild) && ps[y].rightChild != x && ps[y].rightChild != y
    requires var P := ps[x].parent;
      P == NULL || (0 <= P < |ps| && P != x && P != ps[x].rightChild && P != ps[ps[x].rightChild].leftChild
        && (ps[P].leftChild == x) != (ps[P].rightChild == x))
    ensures y == ps[x].rightChild && P == ps[x].parent && |ps'| == |ps|
    ensures var b := ps[y].leftChild; var hx := 1 + Max(GetHeight(ps, ps[x].leftChild), GetHeight(ps, b));
      ps'[x] == ps[x].(parent := y, rightChild := b, height := hx)
      && ps'[y] == ps[y].(parent := P, leftChild := x, height := 1 + Max(hx, GetHeight(ps, ps[y].rightChild)))
      && (b != NULL ==> ps'[b] == ps[b].(parent := x))
      && (P != NULL ==> ps'[P] == ps[P].(leftChild := Redir(ps[P].leftChild, x, y), rightChild := Redir(ps[P].rightChild, x, y)))
      && (forall k :: 0 <= k < |ps| && k != x && k != y && k != b && k != P ==> ps'[k] == ps[k])
  {
    var ps1;
    ps1, y, P := LeftRelink(ps, x);
    SameHeights(ps, ps1, ps[x].leftChild);
    SameHeights(ps, ps1, ps[y].leftChild);
    SameHeights(ps, ps1, ps[y].rightChild);
    ps' := RefreshPair(ps1, x, y);
  }

  /**
   * The two height updates closing a rotation: x's height is recomputed,
   * then that of y, whose children may include x.
   */
  method RefreshPair(ps: seq<Peer>, x: int, y: int) returns (ps': seq<Peer>)
    requires 0 <= x < |ps| && 0 <= y < |ps| && x != y
    requires IsRef(ps, ps[x].leftChild) && IsRef(ps, ps[x].rightChild)
    requires IsRef(ps, ps[y].leftChild) && IsRef(ps, ps[y].rightChild)
    ensures var hx := 1 + Max(GetHeight(ps, ps[x].leftChild), GetHeight(ps, ps[x].rightChild));
      var hl := if ps[y].leftChild == x then hx else GetHeight(ps, ps[y].leftChild);
      var hr := if ps[y].rightChild == x then hx else GetHeight(ps, ps[y].rightChild);
      |ps'| == |ps| && ps'[x] == ps[x].(height := hx) && ps'[y] == ps[y].(height := 1 + Max(hl, hr))
      && (forall k :: 0 <= k < |ps| && k != x && k != y ==> ps'[k] == ps[k])
  {
    ps' := RefreshHeight(ps, x);
    ps' := RefreshHeight(ps', y);
  }

  /** The link writes of LeftRotation, before the heights are recomputed. */
  method LeftRelink(ps: seq<Peer>, x: int) returns (ps': seq<Peer>, y: int, P: int)
    requires 0 <= x < |ps| && 0 <= ps[x].rightChild < |ps| && ps[x].rightChild != x
    requires var y := ps[x].rightChild;
      IsRef(ps, ps[y].leftChild) && ps[y].leftChild != x && ps[y].leftChild != y
    requires var P := ps[x].parent;
      P == NULL || (0 <= P < |ps| && P != x && P != ps[x].rightChild && P != ps[ps[x].rightChild].leftChild
        && (ps[P].leftChild == x) != (ps[P].rightChild == x))
    ensures y == ps[x].rightChild && P == ps[x].parent && |ps'| == |ps|
    ensures var b := ps[y].leftChild;
      ps'[x] == ps[x].(parent := y, rightChild := b)
      && ps'[y] == ps[y].(parent := P, leftChild := x)
      && (b != NULL ==> ps'[b] == ps[b].(parent := x))
      && (P != NULL ==> ps'[P] == ps[P].(leftChild := Redir(ps[P].leftChild, x, y), rightChild := Redir(ps[P].rightChild, x, y)))
      && (forall k :: 0 <= k < |ps| && k != x && k != y && k != b && k != P ==> ps'[k] == ps[k])
    ensures forall k :: 0 <= k < |ps| ==> ps'[k].height == ps[k].height
  {
    var b;
    ps', y, b := LeftCut(ps, x);
    ps', P := LeftLift(ps', x, y);
  }

  /** tree.go:161-166: x's right link takes over y's left subtree b, and b takes x as parent. */
  method LeftCut(ps: seq<Peer>, x: int) returns (ps': seq<Peer>, y: int, b: int)
    requires 0 <= x < |ps| && 0 <= ps[x].rightChild < |ps|
    requires IsRef(ps, ps[ps[x].rightChild].leftChild) && ps[ps[x].rightChild].leftChild != x
    ensures y == ps[x].rightChild && b == ps[y].leftChild && |ps'| == |ps|
    ensures ps'[x] == ps[x].(rightChild := b) && (b != NULL ==> ps'[b] == ps[b].(parent := x))
    ensures forall k :: 0 <= k < |ps| && k != x && k != b ==> ps'[k] == ps[k]
    ensures forall k :: 0 <= k < |ps| ==> ps'[k].height == ps[k].height
  {
    y := ps[x].rightChild;
    b := ps[y].leftChild;
    ps' := ps[x := ps[x].(rightChild := b)];
    ps' := Adopt(ps', b, x);
  }

  /**
   * tree.go:167-177: y takes x's parent P, P's link to x (tested left
   * first) now names y, y takes x as left child and x takes y as parent.
   */
  method LeftLift(ps: seq<Peer>, x: int, y: int) returns (ps': seq<Peer>, P: int)
    requires 0 <= x < |ps| && 0 <= y < |ps| && x != y
    requires var P := ps[x].parent;
      P == NULL || (0 <= P < |ps| && P != x && P != y && (ps[P].leftChild == x) != (ps[P].rightChild == x))
    ensures P == ps[x].parent && |ps'| == |ps|
    ensures ps'[x] == ps[x].(parent := y) && ps'[y] == ps[y].(parent := P, leftChild := x)
    ensures P != NULL ==> ps'[P] == ps[P].(leftChild := Redir(ps[P].leftChild, x, y), rightChild := Redir(ps[P].rightChild, x, y))
    ensures forall k :: 0 <= k < |ps| && k != x && k != y && k != P ==> ps'[k] == ps[k]
    ensures forall k :: 0 <= k < |ps| ==> ps'[k].height == ps[k].height
  {
    P := ps[x].parent;
    ps' := ps[y := ps[y].(parent := P)];
    if P != NULL {
      ps' := SwapChild(ps', P, x, y, true);
    }
    ps' := ps'[y := ps'[y].(leftChild := x)];
    ps' := ps'[x := ps'[x].(parent := y)];
  }

  /**
   * The arena writes of rightRotate (tree.go:185-205): the mirror image
   * of LeftRotation, except that P's right link is tested first.
   */
  method RightRotation(ps: seq<Peer>, x: int) returns (ps': seq<Peer>, y: int, P: int)
    requires 0 <= x < |ps| && 0 <= ps[x].leftChild < |ps| && ps[x].leftChild != x
    requires IsRef(ps, ps[x].rightChild) && ps[x].rightChild != x && ps[x].rightChild != ps[x].leftChild
    requires var y := ps[x].leftChild;
      IsRef(ps, ps[y].rightChild) && ps[y].rightChild != x && ps[y].rightChild != y
      && IsRef(ps, ps[y].leftChild) && ps[y].leftChild != x && ps[y].leftChild != y
    requires var P := ps[x].parent;
      P == NULL || (0 <= P < |ps| && P != x && P != ps[x].leftChild && P != ps[ps[x].leftChild].rightChild
        && (ps[P].leftChild == x) != (ps[P].rightChild == x))
    ensures y == ps[x].leftChild && P == ps[x].parent && |ps'| == |ps|
    ensures var b := ps[y].rightChild; var hx := 1 + Max(GetHeight(ps, b), GetHeight(ps, ps[x].rightChild));
      ps'[x] == ps[x].(parent := y, leftChild := b, height := hx)
      && ps'[y] == ps[y].(parent := P, rightChild := x, height := 1 + Max(GetHeight(ps, ps[y].leftChild), hx))
      && (b != NULL ==> ps'[b] == ps[b].(parent := x))
      && (P != NULL ==> ps'[P] == ps[P].(leftChild := Redir(ps[P].leftChild, x, y), rightChild := Redir(ps[P].rightChild, x, y)))
      && (forall k :: 0 <= k < |ps| && k != x && k != y && k != b && k != P ==> ps'[k] == ps[k])
  {
    var ps1;
    ps1, y, P := RightRelink(ps, x);
    SameHeights(ps, ps1, ps[x].rightChild);
    SameHeights(ps, ps1, ps[y].leftChild);
    SameHeights(ps, ps1, ps[y].rightChild);
    ps' := RefreshPair(ps1, x, y);
  }

  /** The link writes of RightRotation, before the heights are recomputed. */
  method RightRelink(ps: seq<Peer>, x: int) returns (ps': seq<Peer>, y: int, P: int)
    requires 0 <= x < |ps| && 0 <= ps[x].leftChild < |ps| && ps[x].leftChild != x
    requires var y := ps[x].leftChild;
      IsRef(ps, ps[y].rightChild) && ps[y].rightChild != x && ps[y].rightChild != y
    requires var P := ps[x].parent;
      P == NULL || (0 <= P < |ps| && P != x && P != ps[x].leftChild && P != ps[ps[x].leftChild].rightChild
        && (ps[P].leftChild == x) != (ps[P].rightChild == x))
    ensures y == ps[x].leftChild && P == ps[x].parent && |ps'| == |ps|
    ensures var b := ps[y].rightChild;
      ps'[x] == ps[x].(parent := y, leftChild := b)
      && ps'[y] == ps[y].(parent := P, rightChild := x)
      && (b != NULL ==> ps'[b] == ps[b].(parent := x))
      && (P != NULL ==> ps'[P] == ps[P].(leftChild := Redir(ps[P].leftChild, x, y), rightChild := Redir(ps[P].rightChild, x, y)))
      && (forall k :: 0 <= k < |ps| && k != x && k != y && k != b && k != P ==> ps'[k] == ps[k])
    ensures forall k :: 0 <= k < |ps| ==> ps'[k].height == ps[k].height
  {
    var b;
    ps', y, b := RightCut(ps, x);
    ps', P := RightLift(ps', x, y);
  }

  /** tree.go:185-190: x's left link takes over y's right subtree b, and b takes x as parent. */
  method RightCut(ps: seq<Peer>, x: int) returns (ps': seq<Peer>, y: int, b: int)
    requires 0 <= x < |ps| && 0 <= ps[x].leftChild < |ps|
    requires IsRef(ps, ps[ps[x].leftChild].rightChild) && ps[ps[x].leftChild].rightChild != x
    ensures y == ps[x].leftChild && b == ps[y].rightChild && |ps'| == |ps|
    ensures ps'[x] == ps[x].(leftChild := b) && (b != NULL ==> ps'[b] == ps[b].(parent := x))
    ensures forall k :: 0 <= k < |ps| && k != x && k != b ==> ps'[k] == ps[k]
    ensures forall k :: 0 <= k < |ps| ==> ps'[k].height == ps[k].height
  {
    y := ps[x].leftChild;
    b := ps[y].rightChild;
    ps' := ps[x := ps[x].(leftChild := b)];
    ps' := Adopt(ps', b, x);
  }

  /**
   * tree.go:191-201: y takes x's parent P, P's link to x (tested right
   * first) now names y, y takes x as right child and x takes y as parent.
   */
  method RightLift(ps: seq<Peer>, x: int, y: int) returns (ps': seq<Peer>, P: int)
    requires 0 <= x < |ps| && 0 <= y < |ps| && x != y
    requires var P := ps[x].parent;
      P == NULL || (0 <= P < |ps| && P != x && P != y && (ps[P].leftChild == x) != (ps[P].rightChild == x))
    ensures P == ps[x].parent && |ps'| == |ps|
    ensures ps'[x] == ps[x].(parent := y) && ps'[y] == ps[y].(parent := P, rightChild := x)
    ensures P != NULL ==> ps'[P] == ps[P].(leftChild := Redir(ps[P].leftChild, x, y), rightChild := Redir(ps[P].rightChild, x, y))
    ensures forall k :: 0 <= k < |ps| && k != x && k != y && k != P ==> ps'[k] == ps[k]
    ensures forall k :: 0 <= k < |ps| ==> ps'[k].height == ps[k].height
  {
    P := ps[x].parent;
    ps' := ps[y := ps[y].(parent := P)];
    if P != NULL {
      ps' := SwapChild(ps', P, x, y, false);
    }
    ps' := ps'[y := ps'[y].(rightChild := x)];
    ps' := ps'[x := ps'[x].(parent := y)];
  }
}

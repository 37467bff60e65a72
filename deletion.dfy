/**
 * Delete (tree.go:208-371) on shapes: the subtree that takes the deleted
 * peer's place in each case tree.go distinguishes, where the fix-up walk
 * starts, and the facts that show the arena tree.go rewires follows the
 * new shape.
 */
module Deletion {
  import opened Util
  import opened PeerNode
  import opened Shapes
  import opened Surgery
  import opened Levels
  import opened Balance
  import opened Relink

  // ------------------------------------------------------------ shapes

  /**
   * Case 3 (tree.go:293-347): the first leaf s of D in level order is cut
   * out of D and takes D's root position, above what is left of D's
   * children.
   */
  function Spliced(D: Shape): Shape
    requires Distinct(D) && D.Node? && D.left.Node? && D.right.Node?
  {
    FirstLeafIsLeaf(D);
    var s := FirstLeaf(D);
    var D1 := Replace(D, s, Nil);
    Node(s, D1.left, D1.right)
  }

  /**
   * The tree after the unlinking phase removes d: a leaf leaves its slot
   * empty (cases 0 and 1), a single child takes d's place (cases 2.1 and
   * 2.2), and two children are taken over by the successor (case 3).
   */
  function Unlink(t: Shape, d: int): Shape
    requires Distinct(t) && d in Keys(t)
  {
    SubFacts(t, d);
    var D := Sub(t, d);
    if IsLeaf(D) then Replace(t, d, Nil)
    else if D.right.Nil? then Replace(t, d, D.left)
    else if D.left.Nil? then Replace(t, d, D.right)
    else Replace(t, d, Spliced(D))
  }

  /**
   * Where the fix-up walk starts (tree.go:220 and 340-344): at d's parent,
   * or in case 3 at the successor's old parent, or at the successor itself
   * when that parent was d. NULL, for a root with at most one child, is
   * the early return of tree.go:228 and tree.go:255/269.
   */
  function FixStart(t: Shape, d: int): int
    requires Distinct(t) && d in Keys(t)
  {
    SubFacts(t, d);
    var D := Sub(t, d);
    if D.left.Node? && D.right.Node? then
      var tp := ParentOf(t, FirstLeaf(D), NULL);
      if tp == d then FirstLeaf(D) else tp
    else
      ParentOf(t, d, NULL)
  }

  /** The tree after Delete(d): the unlinked tree, rebalanced from the start of the walk. */
  function DeleteShape(t: Shape, d: int): Shape
    requires Distinct(t) && d in Keys(t)
  {
    UnlinkKeys(t, d);
    FixUp(Unlink(t, d), FixStart(t, d))
  }

  // ------------------------------------------------------------ keys

  /** The successor is a leaf of D other than D's root. */
  lemma SuccessorFacts(D: Shape)
    requires Distinct(D) && D.Node? && D.left.Node? && D.right.Node?
    ensures FirstLeaf(D) in Keys(D) && FirstLeaf(D) != D.key && IsLeaf(Sub(D, FirstLeaf(D)))
    ensures Keys(Replace(D, FirstLeaf(D), Nil)) == Keys(D) - {FirstLeaf(D)}
    ensures Distinct(Replace(D, FirstLeaf(D), Nil))
  {
    FirstLeafIsLeaf(D);
    var s := FirstLeaf(D);
    SubFacts(D, s);
    ReplaceKeys(D, s, Nil);
    ReplaceDistinct(D, s, Nil);
    assert Keys(Sub(D, s)) == {s};
  }

  /** The spliced subtree holds D's peers except D's root, each once. */
  lemma SplicedKeys(D: Shape)
    requires Distinct(D) && D.Node? && D.left.Node? && D.right.Node?
    ensures Keys(Spliced(D)) == Keys(D) - {D.key} && Distinct(Spliced(D))
    ensures Spliced(D).key == FirstLeaf(D)
  {
    SuccessorFacts(D);
    var s := FirstLeaf(D);
    var D1 := Replace(D, s, Nil);
    assert D1 == Node(D.key, D1.left, D1.right);
    assert Keys(D1) == {D.key} + Keys(D1.left) + Keys(D1.right);
  }

  /** Unlinking removes exactly d, keeps the peers distinct, and the walk starts inside the new tree. */
  lemma UnlinkKeys(t: Shape, d: int)
    requires Distinct(t) && d in Keys(t)
    ensures Keys(Unlink(t, d)) == Keys(t) - {d} && Distinct(Unlink(t, d))
    ensures FixStart(t, d) == NULL || FixStart(t, d) in Keys(Unlink(t, d))
  {
    SubFacts(t, d);
    var D := Sub(t, d);
    var u := if IsLeaf(D) then Nil else if D.right.Nil? then D.left else if D.left.Nil? then D.right else Spliced(D);
    assert Unlink(t, d) == Replace(t, d, u);
    if D.left.Node? && D.right.Node? {
      SplicedKeys(D);
    } else {
      assert Keys(D) == {d} + Keys(u);
    }
    ReplaceKeys(t, d, u);
    ReplaceDistinct(t, d, u);
    if D.left.Node? && D.right.Node? {
      SuccessorFacts(D);
      SubSub(t, d, FirstLeaf(D));
      var tp := ParentOf(t, FirstLeaf(D), NULL);
      if tp != d {
        AncParentKey(t, FirstLeaf(D));
      }
    } else if d != t.key {
      AncParentKey(t, d);
    } else {
      AncParent(t, d, NULL);
    }
  }

  /** Below the root, a peer's parent is another peer of the tree. */
  lemma AncParentKey(t: Shape, x: int)
    requires Distinct(t) && x in Keys(t) && x != t.key
    ensures ParentOf(t, x, NULL) in Keys(t) && ParentOf(t, x, NULL) != x
  {
    AncParent(t, x, NULL);
    var p := ParentOf(t, x, NULL);
    AncFacts(t, p);
  }

  /** The peers next to a node d of t (its parent and its children) are absent or nodes of t. */
  lemma NearKeys(t: Shape, d: int)
    requires Distinct(t) && d in Keys(t)
    ensures var D, P := Sub(t, d), ParentOf(t, d, NULL);
      D.Node? && (P == NULL || P in Keys(t))
      && (RootKey(D.left) == NULL || RootKey(D.left) in Keys(t))
      && (RootKey(D.right) == NULL || RootKey(D.right) in Keys(t))
  {
    SubFacts(t, d);
    ParentKey(t, d);
    var D := Sub(t, d);
    assert Keys(D) == {d} + Keys(D.left) + Keys(D.right);
  }

  /** The parent of a node of t is absent or another node of t. */
  lemma ParentKey(t: Shape, x: int)
    requires Distinct(t) && x in Keys(t)
    ensures ParentOf(t, x, NULL) == NULL || ParentOf(t, x, NULL) in Keys(t)
  {
    if x != t.key {
      AncParentKey(t, x);
    }
  }

  /** Delete removes exactly d: the peers that stay are the others, each once, and the size drops by one. */
  lemma DeleteKeys(t: Shape, d: int)
    requires Distinct(t) && d in Keys(t)
    ensures Keys(DeleteShape(t, d)) == Keys(t) - {d} && Distinct(DeleteShape(t, d))
    ensures Size(DeleteShape(t, d)) == Size(t) - 1
  {
    UnlinkKeys(t, d);
    SizeKeys(t);
    SizeKeys(DeleteShape(t, d));
  }

  // ------------------------------------------------------------ paths

  lemma {:induction false} ReplaceSub(t: Shape, x: int)
    ensures Replace(t, x, Sub(t, x)) == t
  {
    match t
    case Nil =>
    case Node(j, l, r) =>
      if j != x {
        if x in Keys(l) {
          ReplaceSub(l, x);
        } else {
          ReplaceSub(r, x);
        }
      }
  }

  /** The path down to y inside the subtree at x is x's path continued inside that subtree. */
  lemma AncSub(t: Shape, x: int, y: int)
    requires Distinct(t) && x in Keys(t) && y in Keys(Sub(t, x))
    ensures Anc(t, y) == (Anc(t, x) - {x}) + Anc(Sub(t, x), y)
  {
    ReplaceSub(t, x);
    AncReplaceIn(t, x, Sub(t, x), y);
  }

  /** Inside the subtree at d, parents are those the subtree itself gives, d's own being d's parent in t. */
  lemma {:induction false} ParentSub(t: Shape, d: int, s: int, par: int)
    requires Distinct(t) && d in Keys(t) && s in Keys(Sub(t, d))
    ensures ParentOf(t, s, par) == ParentOf(Sub(t, d), s, ParentOf(t, d, par))
  {
    match t
    case Node(j, l, r) =>
      if j != d {
        if d in Keys(l) {
          SubFacts(l, d);
          ParentSub(l, d, s, j);
        } else {
          SubFacts(r, d);
          ParentSub(r, d, s, j);
        }
      }
  }

  /**
   * Putting s, a peer outside t1, in d's place above d's children
   * replaces d by s on the path to every peer below d.
   */
  lemma AncRegraft(t1: Shape, d: int, s: int, y: int)
    requires Distinct(t1) && d in Keys(t1) && s !in Keys(t1) && y in Keys(Sub(t1, d)) && y != d
    ensures Sub(t1, d).Node?
    ensures var D1 := Sub(t1, d);
      Anc(Replace(t1, d, Node(s, D1.left, D1.right)), y) == (Anc(t1, y) - {d}) + {s}
  {
    SubFacts(t1, d);
    var D1 := Sub(t1, d);
    var W := Node(s, D1.left, D1.right);
    var side := if y in Keys(D1.left) then D1.left else D1.right;
    assert Keys(W) !! Ctx(t1, d);
    AncReplaceIn(t1, d, W, y);
    AncSub(t1, d, y);
    AncFacts(side, y);
    assert Anc(W, y) == {s} + Anc(side, y);
    assert Anc(D1, y) == {d} + Anc(side, y);
    assert d !in Anc(side, y);
  }

  // ------------------------------------------------------------ case 3 in two steps

  /**
   * Case 3 as tree.go performs it: cutting the successor s from its parent
   * tp, then putting s in d's place above what is left of d's children,
   * gives Unlink; tp lies in what is left of d's subtree, and the walk
   * starts at tp, or at s when tp is d.
   */
  lemma SuccessorCut(t: Shape, d: int)
    requires Distinct(t) && d in Keys(t) && Sub(t, d).Node? && Sub(t, d).left.Node? && Sub(t, d).right.Node?
    ensures var s := FirstLeaf(Sub(t, d));
      s in Keys(t) && s != t.key && s != d && Sub(t, s).Node? && IsLeaf(Sub(t, s))
    ensures var D := Sub(t, d); var s := FirstLeaf(D); var t1 := Replace(t, s, Nil);
      var tp := ParentOf(t, s, NULL);
      Distinct(t1) && d in Keys(t1) && s !in Keys(t1) && Sub(t1, d) == Replace(D, s, Nil)
      && Sub(t1, d).Node? && tp in Keys(Sub(t1, d))
      && Replace(t1, d, Node(s, Sub(t1, d).left, Sub(t1, d).right)) == Unlink(t, d)
      && (if tp == d then s else tp) == FixStart(t, d)
  {
    SubFacts(t, d);
    var D := Sub(t, d);
    SuccessorFacts(D);
    var s := FirstLeaf(D);
    SubSub(t, d, s);
    var t1 := Replace(t, s, Nil);
    ReplaceKeys(t, s, Nil);
    ReplaceDistinct(t, s, Nil);
    SubFacts(t, s);
    assert Keys(Sub(t, s)) == {s};
    SubReplaceInside(t, d, s, Nil);
    ParentSub(t, d, s, NULL);
    AncParentKey(D, s);
    var W := Node(s, Sub(t1, d).left, Sub(t1, d).right);
    ReplaceReplace(t, d, s, Nil, W);
    assert W == Spliced(D);
  }

  // ------------------------------------------------------------ links

  /** The facts about x's parent P that a transplant at x needs. */
  lemma TransplantFacts(t: Shape, x: int, u: Shape)
    requires Distinct(t) && x in Keys(t) && NULL !in Keys(t) && Sub(t, x).Node? && (u == Sub(t, x).left || u == Sub(t, x).right)
    ensures Keys(u) <= Keys(Sub(t, x)) - {x} && Distinct(u) && Keys(u) !! Ctx(t, x)
    ensures var P := ParentOf(t, x, NULL);
      P == NULL ==> x == t.key && Anc(t, x) - {x} == {}
    ensures var P := ParentOf(t, x, NULL);
      P != NULL ==> (P in Ctx(t, x) && P !in Keys(u) && P in Keys(Replace(t, x, u))
                     && Anc(Replace(t, x, u), P) == Anc(t, x) - {x})
  {
    SubFacts(t, x);
    ReplaceKeys(t, x, u);
    AncParent(t, x, NULL);
    NullKey(t, x);
    var P := ParentOf(t, x, NULL);
    if P != NULL {
      AncFacts(t, P);
      AncAbove(t, x);
      AncReplaceOut(t, x, u, P);
    }
  }

  /** With NULL not a key, x's parent is NULL exactly at the root. */
  lemma NullKey(t: Shape, x: int)
    requires Distinct(t) && x in Keys(t) && NULL !in Keys(t)
    ensures ParentOf(t, x, NULL) == NULL <==> x == t.key
  {
    if x != t.key {
      AncParentKey(t, x);
    }
  }

  /**
   * Moving u, one of x's child subtrees, into x's place: when x's parent P
   * redirects its link from x to u's root, u's root takes P as parent and
   * no other peer changes, the arena follows the tree with u in x's place
   * and only the path down to P has stale heights. This is case 1
   * (tree.go:240-247, u empty), case 2 below the root (tree.go:257-264
   * and 271-278), and the cut of the successor in case 3 (tree.go:300-305).
   */
  lemma TransplantDone(ps: seq<Peer>, ps': seq<Peer>, root: int, t: Shape, x: int, u: Shape)
    requires TreeLinked(ps, root, t) && HeightsOK(ps, t) && x in Keys(t)
    requires Sub(t, x).Node? && (u == Sub(t, x).left || u == Sub(t, x).right) && |ps'| == |ps|
    requires forall k :: 0 <= k < |ps| && k != ParentOf(t, x, NULL) && k != RootKey(u) ==> ps'[k] == ps[k]
    requires var P := ParentOf(t, x, NULL);
      P != NULL ==> 0 <= P < |ps| && RedirectedAt(ps, ps', P, x, RootKey(u)) && ps'[P].height == ps[P].height
    requires u.Node? ==> 0 <= u.key < |ps| && ps'[u.key] == ps[u.key].(parent := ParentOf(t, x, NULL))
    ensures var t', P := Replace(t, x, u), ParentOf(t, x, NULL);
      TreeLinked(ps', if x == root then RootKey(u) else root, t')
      && (P == NULL || P in Keys(t')) && HeightsOKExcept(ps', t', Anc(t', P))
  {
    NullAbsent(ps, t);
    TransplantFacts(t, x, u);
    var P := ParentOf(t, x, NULL);
    var t' := Replace(t, x, u);
    SubFacts(t, x);
    SubWired(ps, t, x, NULL);
    var D := Sub(t, x);
    WiredInRange(ps, D);
    Rehang(ps, ps', u, x, P);
    RedirectFromParent(ps, ps', t, x, RootKey(u));
    ReplaceLinked(ps, ps', t, NULL, x, u);
    ReplaceDistinct(t, x, u);
    RootKeyReplace(t, x, u);
    HeightsFrame(ps, ps', u, {});
    ReplaceHeights(ps, ps', t, x, u, {});
    if P == NULL {
      HeightsWeaken(ps', t', {} + (Anc(t, x) - {x}), Anc(t', P));
    } else {
      assert {} + (Anc(t, x) - {x}) == Anc(t', P);
    }
  }

  /**
   * Case 2 at the root as tree.go:254-256 and 268-270 write it: Root is
   * set to the only child c and nothing else is written, so c's parent
   * link still names the removed root, and the arena does not realise the
   * new tree: every later walk up parent links from c reaches the removed
   * peer, and a rotation at c finds a parent and leaves Root unchanged.
   */
  lemma RootPromotionAsWritten(ps: seq<Peer>, t: Shape)
    requires t.Node? && TreeLinked(ps, t.key, t) && t.left.Nil? != t.right.Nil?
    ensures var u := if t.left.Node? then t.left else t.right;
      u == Unlink(t, t.key) && 0 <= u.key < |ps| && ps[u.key].parent == t.key != NULL
      && !TreeLinked(ps, u.key, u)
  {
    var u := if t.left.Node? then t.left else t.right;
    assert BackLinked(ps, t.key, u);
  }

  /**
   * The evident intent of the same lines: the promoted child c also takes
   * NULL as parent, and then the arena realises c's subtree as the tree,
   * with every height still cached.
   */
  lemma RootPromotionCorrected(ps: seq<Peer>, t: Shape)
    requires t.Node? && TreeLinked(ps, t.key, t) && HeightsOK(ps, t) && t.left.Nil? != t.right.Nil?
    ensures var u := if t.left.Node? then t.left else t.right;
      u == Unlink(t, t.key) && 0 <= u.key < |ps|
      && TreeLinked(Adopt(ps, u.key, NULL), u.key, u) && HeightsOK(Adopt(ps, u.key, NULL), u)
  {
    var u := if t.left.Node? then t.left else t.right;
    assert Wired(ps, u) && Sub(t, t.key) == t;
    var ps' := Adopt(ps, u.key, NULL);
    TransplantDone(ps, ps', t.key, t, t.key, u);
    NullAbsent(ps', u);
    AncAbsent(u, NULL);
  }

  // ------------------------------------------------------------ the splice

  /**
   * The arena writes of tree.go:309-326, in the source's order: s takes
   * d's place below P, or becomes parentless when d was the root (P is
   * NULL).
   */
  method SpliceUp(ps: seq<Peer>, d: int, s: int, P: int) returns (ps': seq<Peer>)
    requires 0 <= s < |ps| && s != P
    requires P == NULL || (0 <= P < |ps| && (ps[P].leftChild == d) != (ps[P].rightChild == d))
    ensures |ps'| == |ps| && ps'[s] == ps[s].(parent := P)
    ensures P != NULL ==> ps'[P] == ps[P].(leftChild := Redir(ps[P].leftChild, d, s), rightChild := Redir(ps[P].rightChild, d, s))
    ensures forall k :: 0 <= k < |ps| && k != s && k != P ==> ps'[k] == ps[k]
  {
    if P == NULL {
      ps' := ps[s := ps[s].(parent := NULL)];
    } else {
      ps' := SwapChild(ps, P, d, s, true);
      ps' := ps'[s := ps'[s].(parent := P)];
    }
  }

  /** tree.go:328-335: s takes l and r as children, and each present one takes s as parent. */
  method SpliceDown(ps: seq<Peer>, s: int, l: int, r: int) returns (ps': seq<Peer>)
    requires 0 <= s < |ps| && IsRef(ps, l) && IsRef(ps, r) && s != l && s != r && (l != NULL ==> l != r)
    ensures |ps'| == |ps| && ps'[s] == ps[s].(leftChild := l, rightChild := r)
    ensures l != NULL ==> ps'[l] == ps[l].(parent := s)
    ensures r != NULL ==> ps'[r] == ps[r].(parent := s)
    ensures forall k :: 0 <= k < |ps| && k != s && k != l && k != r ==> ps'[k] == ps[k]
  {
    ps' := ps[s := ps[s].(leftChild := l)];
    ps' := Adopt(ps', l, s);
    ps' := ps'[s := ps'[s].(rightChild := r)];
    ps' := Adopt(ps', r, s);
  }

  /**
   * The splice of case 3 after the successor s was cut out of t1: s
   * takes d's place and d's remaining children. When s's links and those
   * of d's parent and children changed so, and no other peer changed,
   * the arena follows the tree with s in d's place.
   */
  lemma SpliceDone(ps: seq<Peer>, ps': seq<Peer>, root: int, t1: Shape, d: int, s: int)
    requires TreeLinked(ps, root, t1) && d in Keys(t1) && s !in Keys(t1) && 0 <= s < |ps| && |ps'| == |ps|
    requires Sub(t1, d).Node?
    requires var D1, P := Sub(t1, d), ParentOf(t1, d, NULL);
      var l, r := RootKey(D1.left), RootKey(D1.right);
      ps'[s] == ps[s].(parent := P, leftChild := l, rightChild := r)
      && (P != NULL ==> 0 <= P < |ps| && RedirectedAt(ps, ps', P, d, s))
      && (l != NULL ==> 0 <= l < |ps| && ps'[l] == ps[l].(parent := s))
      && (r != NULL ==> 0 <= r < |ps| && ps'[r] == ps[r].(parent := s))
      && (forall k :: 0 <= k < |ps| && k != s && k != P && k != l && k != r ==> ps'[k] == ps[k])
    ensures var D1 := Sub(t1, d);
      TreeLinked(ps', if d == root then s else root, Replace(t1, d, Node(s, D1.left, D1.right)))
  {
    var D1, P := Sub(t1, d), ParentOf(t1, d, NULL);
    var W := Node(s, D1.left, D1.right);
    NullAbsent(ps, t1);
    TransplantFacts(t1, d, D1.left);
    TransplantFacts(t1, d, D1.right);
    SubFacts(t1, d);
    SubWired(ps, t1, d, NULL);
    WiredInRange(ps, D1);
    Rehang(ps, ps', D1.left, d, s);
    Rehang(ps, ps', D1.right, d, s);
    assert Wired(ps', W) && BackLinked(ps', P, W);
    assert Keys(W) !! Ctx(t1, d);
    RedirectFromParent(ps, ps', t1, d, s);
    ReplaceLinked(ps, ps', t1, NULL, d, W);
    ReplaceDistinct(t1, d, W);
    RootKeyReplace(t1, d, W);
  }

  /**
   * The heights after the splice: with only the path down to tp stale
   * before it (tp in d's subtree), the stale peers afterwards are those of
   * that path without d, and s, all on the path down to where the walk
   * starts.
   */
  lemma SpliceHeights(ps: seq<Peer>, ps': seq<Peer>, t1: Shape, d: int, s: int, tp: int)
    requires Distinct(t1) && d in Keys(t1) && s !in Keys(t1) && 0 <= s < |ps| && |ps'| == |ps|
    requires tp in Keys(Sub(t1, d)) && HeightsOKExcept(ps, t1, Anc(t1, tp))
    requires forall k :: 0 <= k < |ps| ==> ps'[k].height == ps[k].height
    ensures Sub(t1, d).Node?
    ensures var D1 := Sub(t1, d); var t2 := Replace(t1, d, Node(s, D1.left, D1.right));
      var start := if tp == d then s else tp;
      start in Keys(t2) && HeightsOKExcept(ps', t2, Anc(t2, start))
  {
    SubFacts(t1, d);
    var D1 := Sub(t1, d);
    var W := Node(s, D1.left, D1.right);
    var t2 := Replace(t1, d, W);
    var A := Anc(t1, tp);
    var S := A + {s};
    AncSub(t1, d, tp);
    AncFacts(t1, d);
    SubWired(ps, t1, d, NULL);
    HeightsFrame(ps, ps', D1, A);
    HeightsWeaken(ps', D1.left, A, S);
    HeightsWeaken(ps', D1.right, A, S);
    assert HeightsOKExcept(ps', W, S);
    HeightsWeaken(ps, t1, A, S);
    assert forall k :: k in Ctx(t1, d) && 0 <= k < |ps| ==> ps'[k].height == ps[k].height;
    ReplaceHeights(ps, ps', t1, d, W, S);
    assert S + (Anc(t1, d) - {d}) == S;
    ReplaceKeys(t1, d, W);
    assert Keys(W) !! Ctx(t1, d);
    var start := if tp == d then s else tp;
    if tp == d {
      AncReplaceIn(t1, d, W, s);
      assert Anc(W, s) == {s};
    } else {
      AncRegraft(t1, d, s, tp);
    }
    assert Anc(t2, start) == (A - {d}) + {s};
    HeightsWeaken(ps', t2, S, Anc(t2, start));
  }

  /** Both halves of the splice, in the source's order. */
  method Splice(ps: seq<Peer>, d: int, s: int, P: int, l: int, r: int) returns (ps': seq<Peer>)
    requires 0 <= s < |ps| && IsRef(ps, l) && IsRef(ps, r)
    requires P == NULL || (0 <= P < |ps| && (ps[P].leftChild == d) != (ps[P].rightChild == d))
    requires s != P && s != l && s != r && (l != NULL ==> l != r && l != P) && (r != NULL ==> r != P)
    ensures |ps'| == |ps| && ps'[s] == ps[s].(parent := P, leftChild := l, rightChild := r)
    ensures P != NULL ==> RedirectedAt(ps, ps', P, d, s) && ps'[P] == ps[P].(leftChild := ps'[P].leftChild, rightChild := ps'[P].rightChild)
    ensures l != NULL ==> ps'[l] == ps[l].(parent := s)
    ensures r != NULL ==> ps'[r] == ps[r].(parent := s)
    ensures forall k :: 0 <= k < |ps| && k != s && k != P && k != l && k != r ==> ps'[k] == ps[k]
  {
    ps' := SpliceUp(ps, d, s, P);
    ps' := SpliceDown(ps', s, l, r);
  }

  /** After cutting the successor, d's children are the old ones, except that the successor itself is gone. */
  lemma SplicedChildren(D: Shape)
    requires Distinct(D) && D.Node? && D.left.Node? && D.right.Node?
    ensures var s := FirstLeaf(D); var D1 := Replace(D, s, Nil);
      D1.Node? && RootKey(D1.left) == (if s == D.left.key then NULL else D.left.key)
      && RootKey(D1.right) == (if s == D.right.key then NULL else D.right.key)
  {
    SuccessorFacts(D);
    var s := FirstLeaf(D);
    if s in Keys(D.left) {
      SubFacts(D.left, s);
      assert s == D.left.key ==> Sub(D, s) == D.left;
    } else {
      SubFacts(D.right, s);
      assert s == D.right.key ==> Sub(D, s) == D.right;
    }
  }

  /**
   * What the arena says about a peer x of a linked tree: its parent link
   * names its parent in t (NULL exactly at the root), its child links name
   * its children, and exactly one link of its parent names it.
   */
  lemma ParentLinks(ps: seq<Peer>, root: int, t: Shape, x: int)
    requires TreeLinked(ps, root, t) && x in Keys(t)
    ensures 0 <= x < |ps| && Sub(t, x).Node? && ps[x].parent == ParentOf(t, x, NULL)
    ensures ps[x].leftChild == RootKey(Sub(t, x).left) && ps[x].rightChild == RootKey(Sub(t, x).right)
    ensures Sub(t, x).left.Nil? <==> ps[x].leftChild == NULL
    ensures Sub(t, x).right.Nil? <==> ps[x].rightChild == NULL
    ensures ParentOf(t, x, NULL) == NULL <==> x == root
    ensures var P := ParentOf(t, x, NULL);
      P != NULL ==> 0 <= P < |ps| && (ps[P].leftChild == x) != (ps[P].rightChild == x)
  {
    NullAbsent(ps, t);
    NullKey(t, x);
    BackLinkedParent(ps, NULL, t, x);
    SubFacts(t, x);
    SubWired(ps, t, x, NULL);
    NullAbsent(ps, Sub(t, x));
    var P := ParentOf(t, x, NULL);
    if P != NULL {
      AncParent(t, x, NULL);
      SubFacts(t, P);
      SubWired(ps, t, P, NULL);
    }
  }

  /** Before the promotion: the links tree.go reads name d's parent and its only child, apart from each other. */
  lemma PromoteReady(ps: seq<Peer>, root: int, t: Shape, d: int)
    requires TreeLinked(ps, root, t) && d in Keys(t)
    requires Sub(t, d).Node? && Sub(t, d).left.Nil? != Sub(t, d).right.Nil?
    ensures var D := Sub(t, d); var u := if D.left.Node? then D.left else D.right;
      var P := ParentOf(t, d, NULL);
      0 <= d < |ps| && u.Node? && 0 <= u.key < |ps| && u.key != P
      && (if ps[d].rightChild == NULL then ps[d].leftChild else ps[d].rightChild) == u.key
      && ps[d].parent == P && (P == NULL <==> d == root)
      && (P != NULL ==> 0 <= P < |ps| && (ps[P].leftChild == d) != (ps[P].rightChild == d))
      && Unlink(t, d) == Replace(t, d, u) && FixStart(t, d) == P
  {
    ParentLinks(ps, root, t, d);
    var D := Sub(t, d);
    var u := if D.left.Node? then D.left else D.right;
    SubWired(ps, t, d, NULL);
    NullAbsent(ps, t);
    TransplantFacts(t, d, u);
    SubFacts(t, d);
  }

  /** Before the splice: the links tree.go reads name d's parent and remaining children, all apart from s. */
  lemma SpliceReady(ps: seq<Peer>, root: int, t1: Shape, d: int, s: int)
    requires TreeLinked(ps, root, t1) && d in Keys(t1) && s !in Keys(t1) && 0 <= s < |ps|
    ensures Sub(t1, d).Node?
    ensures var D1, P := Sub(t1, d), ParentOf(t1, d, NULL);
      var l, r := RootKey(D1.left), RootKey(D1.right);
      IsRef(ps, l) && IsRef(ps, r) && s != P && s != l && s != r
      && (l != NULL ==> l != r && l != P) && (r != NULL ==> r != P)
      && 0 <= d < |ps| && ps[d].parent == P && (P == NULL <==> d == root)
      && (P != NULL ==> 0 <= P < |ps| && (ps[P].leftChild == d) != (ps[P].rightChild == d))
  {
    ParentLinks(ps, root, t1, d);
    SubFacts(t1, d);
    var D1 := Sub(t1, d);
    NullAbsent(ps, t1);
    TransplantFacts(t1, d, D1.left);
    TransplantFacts(t1, d, D1.right);
    SubWired(ps, t1, d, NULL);
    WiredInRange(ps, D1);
    NullAbsent(ps, D1);
  }
}

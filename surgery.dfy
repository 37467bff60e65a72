/**
 * Facts about replacing one subtree of a shape by another, and about how
 * the arena's links, cached heights and ancestor paths follow such a
 * replacement. Every relinking step of tree.go (attach, cut, transplant,
 * splice, rotate) is an instance of `Replace`.
 */
module Surgery {
  import opened Util
  import opened PeerNode
  import opened Shapes

  /** The nodes of t outside the subtree rooted at x. */
  function Ctx(t: Shape, x: int): set<int>
  {
    Keys(t) - Keys(Sub(t, x))
  }

  /** Peer k of ps' is peer k of ps with every link to x redirected to w. */
  predicate RedirectedAt(ps: seq<Peer>, ps': seq<Peer>, k: int, x: int, w: int)
    requires 0 <= k < |ps| && |ps'| == |ps|
  {
    ps'[k].parent == ps[k].parent
    && ps'[k].leftChild == Redir(ps[k].leftChild, x, w)
    && ps'[k].rightChild == Redir(ps[k].rightChild, x, w)
  }

  // ------------------------------------------------------------ shape facts

  lemma ReplaceAbsent(t: Shape, x: int, u: Shape)
    requires x !in Keys(t)
    ensures Replace(t, x, u) == t
  {
    match t
    case Nil =>
    case Node(_, l, r) => ReplaceAbsent(r, x, u);
  }

  lemma SubSub(t: Shape, c: int, x: int)
    requires Distinct(t) && c in Keys(t) && x in Keys(Sub(t, c))
    ensures Sub(t, x) == Sub(Sub(t, c), x)
    ensures x != c ==> c !in Keys(Sub(t, x))
  {
    SubFacts(t, c);
    match t
    case Node(j, l, r) =>
      if j == c {
        if x != c {
          if x in Keys(l) { SubFacts(l, x); } else { SubFacts(r, x); }
        }
      } else if c in Keys(l) {
        SubFacts(l, c);
        SubSub(l, c, x);
      } else {
        SubFacts(r, c);
        SubSub(r, c, x);
      }
  }

  lemma ReplaceKeys(t: Shape, x: int, u: Shape)
    requires Distinct(t) && x in Keys(t)
    ensures Keys(Replace(t, x, u)) == Ctx(t, x) + Keys(u)
    ensures Keys(Sub(t, x)) <= Keys(t)
  {
    SubFacts(t, x);
    match t
    case Node(j, l, r) =>
      if j != x {
        if x in Keys(l) { ReplaceKeys(l, x, u); } else { ReplaceKeys(r, x, u); }
      }
  }

  lemma ReplaceDistinct(t: Shape, x: int, u: Shape)
    requires Distinct(t) && Distinct(u) && x in Keys(t) && Keys(u) !! Ctx(t, x)
    ensures Distinct(Replace(t, x, u))
  {
    match t
    case Node(j, l, r) =>
      if j != x {
        if x in Keys(l) {
          SubFacts(l, x);
          ReplaceKeys(l, x, u);
          ReplaceDistinct(l, x, u);
        } else {
          SubFacts(r, x);
          ReplaceKeys(r, x, u);
          ReplaceDistinct(r, x, u);
        }
      }
  }

  lemma RootKeyReplace(t: Shape, x: int, u: Shape)
    requires x in Keys(t)
    ensures RootKey(Replace(t, x, u)) == if t.key == x then RootKey(u) else t.key
  {
  }

  lemma SubReplaceRoot(t: Shape, x: int, u: Shape)
    requires Distinct(t) && x in Keys(t) && u.Node? && Keys(u) !! Ctx(t, x)
    ensures Sub(Replace(t, x, u), u.key) == u
    ensures ParentOf(Replace(t, x, u), u.key, NULL) == ParentOf(t, x, NULL)
  {
    ParentOfReplaceRoot(t, x, u, NULL);
  }

  lemma ParentOfReplaceRoot(t: Shape, x: int, u: Shape, par: int)
    requires Distinct(t) && x in Keys(t) && u.Node? && Keys(u) !! Ctx(t, x)
    ensures Sub(Replace(t, x, u), u.key) == u
    ensures ParentOf(Replace(t, x, u), u.key, par) == ParentOf(t, x, par)
  {
    match t
    case Node(j, l, r) =>
      if j != x {
        if x in Keys(l) {
          SubFacts(l, x);
          ReplaceKeys(l, x, u);
          ParentOfReplaceRoot(l, x, u, j);
        } else {
          SubFacts(r, x);
          ReplaceKeys(r, x, u);
          ParentOfReplaceRoot(r, x, u, j);
        }
      }
  }

  lemma SubReplaceInside(t: Shape, c: int, x: int, w: Shape)
    requires Distinct(t) && c in Keys(t) && x in Keys(Sub(t, c)) && x != c
    ensures Sub(Replace(t, x, w), c) == Replace(Sub(t, c), x, w)
    ensures Replace(Replace(t, x, w), c, Nil) == Replace(t, c, Nil)
  {
    SubFacts(t, c);
    SubSub(t, c, x);
    match t
    case Node(j, l, r) =>
      if j != c {
        if c in Keys(l) {
          SubFacts(l, c);
          SubSub(l, c, x);
          SubFacts(l, x);
          ReplaceKeys(l, x, w);
          SubReplaceInside(l, c, x, w);
        } else {
          SubFacts(r, c);
          SubSub(r, c, x);
          SubFacts(r, x);
          ReplaceKeys(r, x, w);
          SubReplaceInside(r, c, x, w);
        }
      }
  }

  lemma ReplaceReplace(t: Shape, c: int, x: int, w: Shape, z: Shape)
    requires Distinct(t) && c in Keys(t) && x in Keys(Sub(t, c)) && x != c
    ensures Replace(Replace(t, x, w), c, z) == Replace(t, c, z)
  {
    SubFacts(t, c);
    SubSub(t, c, x);
    match t
    case Node(j, l, r) =>
      if j != c {
        if c in Keys(l) {
          SubFacts(l, c);
          SubSub(l, c, x);
          SubFacts(l, x);
          ReplaceKeys(l, x, w);
          ReplaceReplace(l, c, x, w, z);
        } else {
          SubFacts(r, c);
          SubSub(r, c, x);
          SubFacts(r, x);
          ReplaceKeys(r, x, w);
          ReplaceReplace(r, c, x, w, z);
        }
      }
  }

  // --------------------------------------------------------- ancestor paths

  lemma AncFacts(t: Shape, x: int)
    requires x in Keys(t)
    ensures x in Anc(t, x) && Anc(t, x) <= Keys(t)
  {
    match t
    case Node(j, l, r) =>
      if j != x {
        if x in Keys(l) { AncFacts(l, x); } else { AncFacts(r, x); }
      }
  }

  /** The strict ancestors of x lie outside x's subtree. */
  lemma AncAbove(t: Shape, x: int)
    requires Distinct(t) && x in Keys(t)
    ensures (Anc(t, x) - {x}) !! Keys(Sub(t, x))
  {
    match t
    case Node(j, l, r) =>
      if j != x {
        if x in Keys(l) {
          SubFacts(l, x);
          AncAbove(l, x);
        } else {
          SubFacts(r, x);
          AncAbove(r, x);
        }
      }
  }

  /**
   * Moving from x to its parent P drops exactly x from the ancestor path,
   * and P links to x; at the root the parent is `par` and the path is {x}.
   */
  lemma AncParent(t: Shape, x: int, par: int)
    requires Distinct(t) && x in Keys(t)
    ensures x == t.key ==> ParentOf(t, x, par) == par && Anc(t, x) == {x}
    ensures x != t.key ==>
      var p := ParentOf(t, x, par);
      p in Keys(t) && Anc(t, p) == Anc(t, x) - {x}
      && Sub(t, p).Node? && (RootKey(Sub(t, p).left) == x || RootKey(Sub(t, p).right) == x)
  {
    match t
    case Node(j, l, r) =>
      if j != x {
        var s := if x in Keys(l) then l else r;
        if x != s.key {
          AncParent(s, x, j);
          var p := ParentOf(s, x, j);
          SubFacts(s, p);
        }
      }
  }

  lemma DropOther(b: set<int>, c: set<int>, j: int, x: int)
    requires j != x
    ensures {j} + ((b - {x}) + c) == (({j} + b) - {x}) + c
  {
  }

  lemma AncReplaceIn(t: Shape, x: int, u: Shape, y: int)
    requires Distinct(t) && x in Keys(t) && y !in Ctx(t, x) && y in Keys(u)
    ensures Anc(Replace(t, x, u), y) == (Anc(t, x) - {x}) + Anc(u, y)
    decreases t, 1
  {
    match t
    case Node(j, l, r) =>
      if j == x {
        assert Anc(t, x) - {x} == {};
      } else if x in Keys(l) {
        AncReplaceInLeft(j, l, r, x, u, y);
      } else {
        AncReplaceInRight(j, l, r, x, u, y);
      }
  }

  lemma AncReplaceInLeft(j: int, l: Shape, r: Shape, x: int, u: Shape, y: int)
    requires Distinct(Node(j, l, r)) && j != x && x in Keys(l)
    requires y !in Ctx(Node(j, l, r), x) && y in Keys(u)
    ensures Anc(Replace(Node(j, l, r), x, u), y) == (Anc(Node(j, l, r), x) - {x}) + Anc(u, y)
    decreases Node(j, l, r), 0
  {
    var t := Node(j, l, r);
    SubFacts(l, x);
    assert j in Ctx(t, x) && Ctx(l, x) <= Ctx(t, x);
    ReplaceKeys(l, x, u);
    var l' := Replace(l, x, u);
    AncReplaceIn(l, x, u, y);
    assert Replace(t, x, u) == Node(j, l', r);
    AncOfNode(j, l', r, y);
    DropOther(Anc(l, x), Anc(u, y), j, x);
  }

  lemma AncReplaceInRight(j: int, l: Shape, r: Shape, x: int, u: Shape, y: int)
    requires Distinct(Node(j, l, r)) && j != x && x in Keys(r)
    requires y !in Ctx(Node(j, l, r), x) && y in Keys(u)
    ensures Anc(Replace(Node(j, l, r), x, u), y) == (Anc(Node(j, l, r), x) - {x}) + Anc(u, y)
    decreases Node(j, l, r), 0
  {
    RightFacts(j, l, r, x, u, y);
    AncReplaceIn(r, x, u, y);
    AncStep(j, l, Replace(r, x, u), y, Anc(r, x), Anc(u, y), x);
  }

  lemma RightFacts(j: int, l: Shape, r: Shape, x: int, u: Shape, y: int)
    requires Distinct(Node(j, l, r)) && j != x && x in Keys(r)
    requires y !in Ctx(Node(j, l, r), x) && y in Keys(u)
    ensures Anc(Node(j, l, r), x) == {j} + Anc(r, x)
    ensures Replace(Node(j, l, r), x, u) == Node(j, l, Replace(r, x, u))
    ensures Distinct(r) && y !in Ctx(r, x) && y != j && y !in Keys(l)
    ensures y in Keys(Replace(r, x, u))
  {
    var t := Node(j, l, r);
    assert Sub(t, x) == Sub(r, x);
    SubFacts(r, x);
    assert Keys(l) <= Ctx(t, x) && Ctx(r, x) <= Ctx(t, x);
    ReplaceKeys(r, x, u);
  }

  /** The ancestor set of y below a node j whose right subtree holds y. */
  lemma AncStep(j: int, l: Shape, r: Shape, y: int, b: set<int>, c: set<int>, x: int)
    requires y != j && j != x && y !in Keys(l) && y in Keys(r)
    requires Anc(r, y) == (b - {x}) + c
    ensures Anc(Node(j, l, r), y) == (({j} + b) - {x}) + c
  {
    DropOther(b, c, j, x);
  }

  lemma AncOfNode(j: int, l: Shape, r: Shape, y: int)
    requires y != j && (y in Keys(l) || y in Keys(r))
    ensures Anc(Node(j, l, r), y) == {j} + (if y in Keys(l) then Anc(l, y) else Anc(r, y))
  {
  }

  lemma AncReplaceOut(t: Shape, x: int, u: Shape, y: int)
    requires Distinct(t) && x in Keys(t) && Keys(u) !! Ctx(t, x) && y in Ctx(t, x)
    ensures Anc(Replace(t, x, u), y) == Anc(t, y)
  {
    match t
    case Node(j, l, r) =>
      if j != x && y != j {
        if x in Keys(l) {
          SubFacts(l, x);
          ReplaceKeys(l, x, u);
          if y in Keys(l) { AncReplaceOut(l, x, u, y); }
        } else {
          SubFacts(r, x);
          ReplaceKeys(r, x, u);
          if y in Keys(r) { AncReplaceOut(r, x, u, y); }
        }
      }
  }

  // ------------------------------------------------------------------ links

  lemma RedirFrame(ps: seq<Peer>, ps': seq<Peer>, t: Shape, par: int, x: int, w: int)
    requires |ps'| == |ps| && x >= 0
    requires Wired(ps, t) && BackLinked(ps, par, t) && x !in Keys(t)
    requires forall k :: k in Keys(t) && 0 <= k < |ps| ==> RedirectedAt(ps, ps', k, x, w)
    ensures Wired(ps', t) && BackLinked(ps', par, t)
  {
    match t
    case Nil =>
    case Node(k, l, r) =>
      assert RedirectedAt(ps, ps', k, x, w);
      RedirFrame(ps, ps', l, k, x, w);
      RedirFrame(ps, ps', r, k, x, w);
  }

  /**
   * Relinking that replaces the subtree at x by u: if u is linked in ps'
   * with its root pointing back to x's old parent, and every other node of
   * t keeps its links except that links to x now lead to u's root, then
   * ps' realises the replaced tree.
   */
  lemma ReplaceLinked(ps: seq<Peer>, ps': seq<Peer>, t: Shape, par: int, x: int, u: Shape)
    requires |ps'| == |ps|
    requires Wired(ps, t) && BackLinked(ps, par, t) && Distinct(t) && x in Keys(t)
    requires Wired(ps', u) && BackLinked(ps', ParentOf(t, x, par), u)
    requires Keys(u) !! Ctx(t, x)
    requires forall k :: k in Ctx(t, x) && 0 <= k < |ps| ==> RedirectedAt(ps, ps', k, x, RootKey(u))
    ensures Wired(ps', Replace(t, x, u)) && BackLinked(ps', par, Replace(t, x, u))
  {
    WiredInRange(ps, t);
    match t
    case Node(j, l, r) =>
      if j != x {
        if x in Keys(l) { SubFacts(l, x); } else { SubFacts(r, x); }
        assert j in Ctx(t, x);
        assert RedirectedAt(ps, ps', j, x, RootKey(u));
        if x in Keys(l) {
          ReplaceLinked(ps, ps', l, j, x, u);
          RedirFrame(ps, ps', r, j, x, RootKey(u));
        } else {
          ReplaceLinked(ps, ps', r, j, x, u);
          RedirFrame(ps, ps', l, j, x, RootKey(u));
        }
      }
  }

  /** Links at nodes other than x's parent P are unchanged; P's link to x now leads to w. */
  lemma RedirectFromParent(ps: seq<Peer>, ps': seq<Peer>, t: Shape, x: int, w: int)
    requires |ps'| == |ps|
    requires Wired(ps, t) && Distinct(t) && x in Keys(t)
    requires forall k :: k in Ctx(t, x) && 0 <= k < |ps| && k != ParentOf(t, x, NULL) ==> SameLinks(ps'[k], ps[k])
    requires var p := ParentOf(t, x, NULL);
      p != NULL && 0 <= p < |ps| ==> RedirectedAt(ps, ps', p, x, w)
    ensures forall k :: k in Ctx(t, x) && 0 <= k < |ps| ==> RedirectedAt(ps, ps', k, x, w)
  {
    forall k | k in Ctx(t, x) && 0 <= k < |ps|
      ensures RedirectedAt(ps, ps', k, x, w)
    {
      var p := ParentOf(t, x, NULL);
      if k != p {
        if ps[k].leftChild == x || ps[k].rightChild == x {
          OnlyParentPoints(ps, t, NULL, x, k);
        }
      }
    }
  }

  // ---------------------------------------------------------------- heights

  lemma HeightsWeaken(ps: seq<Peer>, t: Shape, S: set<int>, S': set<int>)
    requires HeightsOKExcept(ps, t, S)
    requires forall k :: k in Keys(t) && k in S ==> k in S'
    ensures HeightsOKExcept(ps, t, S')
  {
    match t
    case Nil =>
    case Node(_, l, r) =>
      HeightsWeaken(ps, l, S, S');
      HeightsWeaken(ps, r, S, S');
  }

  lemma HeightsFrame(ps: seq<Peer>, ps': seq<Peer>, t: Shape, S: set<int>)
    requires |ps'| == |ps| && HeightsOKExcept(ps, t, S)
    requires forall k :: k in Keys(t) && 0 <= k < |ps| ==> ps'[k].height == ps[k].height
    ensures HeightsOKExcept(ps', t, S)
  {
    match t
    case Nil =>
    case Node(_, l, r) =>
      HeightsFrame(ps, ps', l, S);
      HeightsFrame(ps, ps', r, S);
  }

  /** Replacing the subtree at x leaves stale at most the heights of x's proper ancestors. */
  lemma ReplaceHeights(ps: seq<Peer>, ps': seq<Peer>, t: Shape, x: int, u: Shape, S: set<int>)
    requires |ps'| == |ps| && Distinct(t) && x in Keys(t)
    requires HeightsOKExcept(ps, t, S) && HeightsOKExcept(ps', u, S)
    requires forall k :: k in Ctx(t, x) && 0 <= k < |ps| ==> ps'[k].height == ps[k].height
    ensures HeightsOKExcept(ps', Replace(t, x, u), S + (Anc(t, x) - {x}))
  {
    match t
    case Node(j, l, r) =>
      var S' := S + (Anc(t, x) - {x});
      if j == x {
        HeightsWeaken(ps', u, S, S');
      } else if x in Keys(l) {
        SubFacts(l, x);
        ReplaceHeights(ps, ps', l, x, u, S);
        HeightsWeaken(ps', Replace(l, x, u), S + (Anc(l, x) - {x}), S');
        HeightsFrame(ps, ps', r, S);
        HeightsWeaken(ps', r, S, S');
      } else {
        SubFacts(r, x);
        ReplaceHeights(ps, ps', r, x, u, S);
        HeightsWeaken(ps', Replace(r, x, u), S + (Anc(r, x) - {x}), S');
        HeightsFrame(ps, ps', l, S);
        HeightsWeaken(ps', l, S, S');
      }
  }

  /**
   * Putting u, whose heights are all cached, in x's place leaves stale at
   * most x's proper ancestors, even when x's own height was stale.
   */
  lemma ReplaceHeightsAt(ps: seq<Peer>, ps': seq<Peer>, t: Shape, x: int, u: Shape)
    requires |ps'| == |ps| && Distinct(t) && x in Keys(t)
    requires HeightsOKExcept(ps, t, Anc(t, x)) && HeightsOK(ps', u)
    requires forall k :: k in Ctx(t, x) && 0 <= k < |ps| ==> ps'[k].height == ps[k].height
    ensures HeightsOKExcept(ps', Replace(t, x, u), Anc(t, x) - {x})
  {
    match t
    case Node(j, l, r) =>
      var S := Anc(t, x) - {x};
      if j == x {
        HeightsWeaken(ps', u, {}, S);
      } else if x in Keys(l) {
        SubFacts(l, x);
        AncFacts(l, x);
        HeightsWeaken(ps, l, Anc(t, x), Anc(l, x));
        ReplaceHeightsAt(ps, ps', l, x, u);
        HeightsWeaken(ps', Replace(l, x, u), Anc(l, x) - {x}, S);
        HeightsFrame(ps, ps', r, Anc(t, x));
        HeightsWeaken(ps', r, Anc(t, x), S);
      } else {
        SubFacts(r, x);
        AncFacts(r, x);
        HeightsWeaken(ps, r, Anc(t, x), Anc(r, x));
        ReplaceHeightsAt(ps, ps', r, x, u);
        HeightsWeaken(ps', Replace(r, x, u), Anc(r, x) - {x}, S);
        HeightsFrame(ps, ps', l, Anc(t, x));
        HeightsWeaken(ps', l, Anc(t, x), S);
      }
  }

  /** When only the path down to x (x included) is stale, x's children hold true heights. */
  lemma HeightsBelow(ps: seq<Peer>, t: Shape, x: int)
    requires Distinct(t) && x in Keys(t) && HeightsOKExcept(ps, t, Anc(t, x))
    ensures Sub(t, x).Node? && HeightsOK(ps, Sub(t, x).left) && HeightsOK(ps, Sub(t, x).right)
  {
    SubFacts(t, x);
    SubWired(ps, t, x, NULL);
    AncAbove(t, x);
    var s := Sub(t, x);
    HeightsWeaken(ps, s.left, Anc(t, x), {});
    HeightsWeaken(ps, s.right, Anc(t, x), {});
  }
}

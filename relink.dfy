/**
 * Link-level facts for the link surgery of tree.go: what the arena must
 * look like after a rotation, an attach, a cut, a transplant or a splice
 * for its links and cached heights to follow the rearranged shape.
 */
module Relink {
  import opened Util
  import opened PeerNode
  import opened Shapes
  import opened Surgery
  import opened Balance

  /** The arena's links realise t, with `root` naming its root. */
  predicate TreeLinked(ps: seq<Peer>, root: int, t: Shape)
  {
    root == RootKey(t) && Wired(ps, t) && BackLinked(ps, NULL, t) && Distinct(t)
  }

  /** Two records with the same id, address, port and readiness. */
  predicate SamePeerPayload(a: Peer, b: Peer)
  {
    a.id == b.id && a.addr == b.addr && a.port == b.port && a.ready == b.ready
  }

  /** Only links and heights changed: every peer keeps its id, address, port and readiness. */
  predicate SamePayload(ps: seq<Peer>, ps': seq<Peer>)
  {
    |ps'| == |ps| && forall k :: 0 <= k < |ps| ==> SamePeerPayload(ps'[k], ps[k])
  }

  lemma PayloadTrans(a: seq<Peer>, b: seq<Peer>, c: seq<Peer>)
    requires SamePayload(a, b) && SamePayload(b, c)
    ensures SamePayload(a, c)
  {
  }

  /** Rewriting the links and heights of at most four peers keeps every payload. */
  lemma PayloadFrame(ps: seq<Peer>, ps': seq<Peer>, a: int, b: int, c: int, d: int)
    requires |ps'| == |ps|
    requires forall k :: 0 <= k < |ps| && k != a && k != b && k != c && k != d ==> ps'[k] == ps[k]
    requires forall k :: k in {a, b, c, d} && 0 <= k < |ps| ==> SamePeerPayload(ps'[k], ps[k])
    ensures SamePayload(ps, ps')
  {
    forall k | 0 <= k < |ps|
      ensures SamePeerPayload(ps'[k], ps[k])
    {
      if k in {a, b, c, d} {
      } else {
        assert ps'[k] == ps[k];
      }
    }
  }

  /** Every peer outside K is left exactly as it was: links, height and payload. */
  predicate Untouched(ps: seq<Peer>, ps': seq<Peer>, K: set<int>)
  {
    |ps'| == |ps| && forall k :: 0 <= k < |ps| && k !in K ==> ps'[k] == ps[k]
  }

  lemma UntouchedTrans(a: seq<Peer>, b: seq<Peer>, c: seq<Peer>, K1: set<int>, K2: set<int>, K: set<int>)
    requires Untouched(a, b, K1) && Untouched(b, c, K2) && K1 <= K && K2 <= K
    ensures Untouched(a, c, K)
  {
  }

  /** Rewriting at most four peers, each absent or in K, leaves the peers outside K untouched. */
  lemma UntouchedFrame(ps: seq<Peer>, ps': seq<Peer>, K: set<int>, a: int, b: int, c: int, d: int)
    requires |ps'| == |ps|
    requires forall k :: 0 <= k < |ps| && k != a && k != b && k != c && k != d ==> ps'[k] == ps[k]
    requires (a == NULL || a in K) && (b == NULL || b in K) && (c == NULL || c in K) && (d == NULL || d in K)
    ensures Untouched(ps, ps', K)
  {
  }

  // ------------------------------------------------------------ writes

  /** `if b != nil { b.parent = x }`: b, when present, takes x as its parent. */
  function Adopt(ps: seq<Peer>, b: int, x: int): (r: seq<Peer>)
    requires IsRef(ps, b)
    ensures |r| == |ps| && (b != NULL ==> r[b] == ps[b].(parent := x))
    ensures forall k :: 0 <= k < |ps| && k != b ==> r[k] == ps[k]
  {
    if b != NULL then ps[b := ps[b].(parent := x)] else ps
  }

  /**
   * The link of a non-root parent P that named x now names y. As in
   * tree.go, the child link tested first is the one that is rewritten
   * when it names x, and otherwise the other one is.
   */
  function SwapChild(ps: seq<Peer>, P: int, x: int, y: int, leftFirst: bool): (r: seq<Peer>)
    requires 0 <= P < |ps| && (ps[P].leftChild == x) != (ps[P].rightChild == x)
    ensures |r| == |ps| && r[P] == ps[P].(leftChild := Redir(ps[P].leftChild, x, y), rightChild := Redir(ps[P].rightChild, x, y))
    ensures forall k :: 0 <= k < |ps| && k != P ==> r[k] == ps[k]
  {
    if leftFirst then
      if ps[P].leftChild == x then ps[P := ps[P].(leftChild := y)] else ps[P := ps[P].(rightChild := y)]
    else
      if ps[P].rightChild == x then ps[P := ps[P].(rightChild := y)] else ps[P := ps[P].(leftChild := y)]
  }

  // ------------------------------------------------------------ frames

  /** Nodes whose links did not change keep t linked. */
  lemma KeepLinks(ps: seq<Peer>, ps': seq<Peer>, t: Shape, par: int)
    requires |ps'| == |ps| && Wired(ps, t) && BackLinked(ps, par, t)
    requires forall k :: k in Keys(t) && 0 <= k < |ps| ==> SameLinks(ps'[k], ps[k])
    ensures Wired(ps', t) && BackLinked(ps', par, t)
  {
    match t
    case Nil =>
    case Node(k, l, r) =>
      KeepLinks(ps, ps', l, k);
      KeepLinks(ps, ps', r, k);
  }

  /** Only the root's parent link changed: t hangs from its new parent. */
  lemma Rehang(ps: seq<Peer>, ps': seq<Peer>, t: Shape, par: int, par': int)
    requires |ps'| == |ps| && Wired(ps, t) && BackLinked(ps, par, t) && Distinct(t)
    requires forall k :: k in Keys(t) && 0 <= k < |ps| && k != RootKey(t) ==> SameLinks(ps'[k], ps[k])
    requires t.Node? ==>
      0 <= t.key < |ps| && ps'[t.key].parent == par'
      && ps'[t.key].leftChild == ps[t.key].leftChild && ps'[t.key].rightChild == ps[t.key].rightChild
    ensures Wired(ps', t) && BackLinked(ps', par', t)
  {
    match t
    case Nil =>
    case Node(k, l, r) =>
      KeepLinks(ps, ps', l, k);
      KeepLinks(ps, ps', r, k);
  }

  lemma AncAbsent(t: Shape, x: int)
    requires x !in Keys(t)
    ensures Anc(t, x) == {}
  {
  }

  /** Arena indices are never NULL. */
  lemma NullAbsent(ps: seq<Peer>, t: Shape)
    requires Wired(ps, t)
    ensures NULL !in Keys(t)
    ensures RootKey(t) != NULL <==> t.Node?
  {
    WiredInRange(ps, t);
  }

  // ------------------------------------------------------------ heights

  /**
   * The height update that tree.go repeats after every relinking: peer k
   * caches one more than the larger cached height of its children.
   */
  function RefreshHeight(ps: seq<Peer>, k: int): (r: seq<Peer>)
    requires 0 <= k < |ps| && IsRef(ps, ps[k].leftChild) && IsRef(ps, ps[k].rightChild)
    ensures |r| == |ps| && r[k] == ps[k].(height := 1 + Max(GetHeight(ps, ps[k].leftChild), GetHeight(ps, ps[k].rightChild)))
    ensures forall j :: 0 <= j < |ps| && j != k ==> r[j] == ps[j]
  {
    ps[k := ps[k].(height := 1 + Max(GetHeight(ps, ps[k].leftChild), GetHeight(ps, ps[k].rightChild)))]
  }

  /** A subtree whose heights are all cached correctly reports its true height and balance. */
  lemma CachedRoot(ps: seq<Peer>, u: Shape)
    requires Wired(ps, u) && HeightsOK(ps, u)
    ensures IsRef(ps, RootKey(u)) && GetHeight(ps, RootKey(u)) == Height(u)
    ensures IsRef(ps, RootKey(u)) && (RootKey(u) != NULL ==> IsRef(ps, ps[RootKey(u)].leftChild) && IsRef(ps, ps[RootKey(u)].rightChild))
    ensures GetBalanceFactor(ps, RootKey(u)) == BF(u)
  {
    match u
    case Nil =>
    case Node(k, l, r) =>
      assert HeightsOK(ps, l) && HeightsOK(ps, r);
      match l { case Nil => case Node(_, _, _) => }
      match r { case Nil => case Node(_, _, _) => }
  }

  /** Recomputing c's cached height from the true height of its subtree takes c out of the stale set. */
  lemma HeightRefresh(ps: seq<Peer>, t: Shape, c: int, S: set<int>)
    requires Distinct(t) && c in Keys(t) && 0 <= c < |ps| && HeightsOKExcept(ps, t, S)
    ensures HeightsOKExcept(ps[c := ps[c].(height := Height(Sub(t, c)))], t, S - {c})
  {
    var ps' := ps[c := ps[c].(height := Height(Sub(t, c)))];
    match t
    case Node(j, l, r) =>
      if j == c {
        HeightsFrame(ps, ps', l, S);
        HeightsWeaken(ps', l, S, S - {c});
        HeightsFrame(ps, ps', r, S);
        HeightsWeaken(ps', r, S, S - {c});
      } else if c in Keys(l) {
        HeightRefresh(ps, l, c, S);
        HeightsFrame(ps, ps', r, S);
        HeightsWeaken(ps', r, S, S - {c});
      } else {
        HeightRefresh(ps, r, c, S);
        HeightsFrame(ps, ps', l, S);
        HeightsWeaken(ps', l, S, S - {c});
      }
  }

  // ------------------------------------------------------------ rotations

  /** The pieces of the subtree a rotation at x rearranges sit apart from each other and from x's parent. */
  lemma RotationApart(ps: seq<Peer>, t: Shape, x: int)
    requires Wired(ps, t) && BackLinked(ps, NULL, t) && Distinct(t) && x in Keys(t)
    ensures var s := Sub(t, x); var P := ParentOf(t, x, NULL);
      s.Node? && s.key == x && Distinct(s) && Wired(ps, s) && BackLinked(ps, P, s)
      && (P == NULL || (0 <= P < |ps| && P in Ctx(t, x)))
      && P !in Keys(s) && NULL !in Keys(t)
      && (P != NULL ==> (ps[P].leftChild == x) != (ps[P].rightChild == x))
      && (P == NULL <==> x == t.key)
  {
    WiredInRange(ps, t);
    SubFacts(t, x);
    SubWired(ps, t, x, NULL);
    AncParent(t, x, NULL);
    AncAbove(t, x);
    var P := ParentOf(t, x, NULL);
    if x != t.key {
      AncFacts(t, P);
      SubFacts(t, P);
      SubWired(ps, t, P, NULL);
      var sp := Sub(t, P);
      assert Keys(sp.left) !! Keys(sp.right);
    }
  }

  /** The three subtrees a rotation moves stay linked: A and C as they were, B hanging from x. */
  lemma RotationPieces(ps: seq<Peer>, ps': seq<Peer>, P: int, x: int, y: int, A: Shape, B: Shape, C: Shape, pa: int, pc: int)
    requires x !in Keys(A) && x !in Keys(B) && x !in Keys(C)
    requires y !in Keys(A) && y !in Keys(B) && y !in Keys(C)
    requires P !in Keys(A) && P !in Keys(B) && P !in Keys(C)
    requires RootKey(B) !in Keys(A) && RootKey(B) !in Keys(C) && Distinct(B)
    requires |ps'| == |ps|
    requires Wired(ps, A) && BackLinked(ps, pa, A) && Wired(ps, B) && BackLinked(ps, y, B) && Wired(ps, C) && BackLinked(ps, pc, C)
    requires B.Node? ==>
      0 <= B.key < |ps| && ps'[B.key].parent == x
      && ps'[B.key].leftChild == ps[B.key].leftChild && ps'[B.key].rightChild == ps[B.key].rightChild
    requires forall k :: 0 <= k < |ps| && k != x && k != y && k != RootKey(B) && k != P ==> SameLinks(ps'[k], ps[k])
    ensures Wired(ps', A) && BackLinked(ps', pa, A) && Wired(ps', B) && BackLinked(ps', x, B)
    ensures Wired(ps', C) && BackLinked(ps', pc, C)
  {
    KeepApart(ps, ps', A, pa, x, y, RootKey(B), P);
    RehangApart(ps, ps', B, x, y, P);
    KeepApart(ps, ps', C, pc, x, y, RootKey(B), P);
  }

  lemma KeepApart(ps: seq<Peer>, ps': seq<Peer>, T: Shape, par: int, x: int, y: int, b: int, P: int)
    requires x !in Keys(T) && y !in Keys(T) && b !in Keys(T) && P !in Keys(T)
    requires |ps'| == |ps| && Wired(ps, T) && BackLinked(ps, par, T)
    requires forall k :: 0 <= k < |ps| && k != x && k != y && k != b && k != P ==> SameLinks(ps'[k], ps[k])
    ensures Wired(ps', T) && BackLinked(ps', par, T)
  {
    KeepLinks(ps, ps', T, par);
  }

  lemma RehangApart(ps: seq<Peer>, ps': seq<Peer>, B: Shape, x: int, y: int, P: int)
    requires x !in Keys(B) && y !in Keys(B) && P !in Keys(B) && Distinct(B)
    requires |ps'| == |ps| && Wired(ps, B) && BackLinked(ps, y, B)
    requires B.Node? ==>
      0 <= B.key < |ps| && ps'[B.key].parent == x
      && ps'[B.key].leftChild == ps[B.key].leftChild && ps'[B.key].rightChild == ps[B.key].rightChild
    requires forall k :: 0 <= k < |ps| && k != x && k != y && k != RootKey(B) && k != P ==> SameLinks(ps'[k], ps[k])
    ensures Wired(ps', B) && BackLinked(ps', x, B)
  {
    Rehang(ps, ps', B, y, x);
  }

  /** In a well-keyed Node(x, A, Node(y, B, C)) the pieces are pairwise apart. */
  lemma ApartL(x: int, A: Shape, y: int, B: Shape, C: Shape, P: int)
    requires Distinct(Node(x, A, Node(y, B, C))) && P !in Keys(Node(x, A, Node(y, B, C)))
    requires NULL !in Keys(Node(x, A, Node(y, B, C)))
    ensures x !in Keys(A) && x !in Keys(B) && x !in Keys(C) && x != y
    ensures y !in Keys(A) && y !in Keys(B) && y !in Keys(C)
    ensures P !in Keys(A) && P !in Keys(B) && P !in Keys(C)
    ensures RootKey(B) !in Keys(A) && RootKey(B) !in Keys(C) && Distinct(B)
  {
    assert Keys(Node(y, B, C)) == {y} + Keys(B) + Keys(C);
  }

  /** In a well-keyed Node(x, Node(y, A, B), C) the pieces are pairwise apart. */
  lemma ApartR(x: int, A: Shape, y: int, B: Shape, C: Shape, P: int)
    requires Distinct(Node(x, Node(y, A, B), C)) && P !in Keys(Node(x, Node(y, A, B), C))
    requires NULL !in Keys(Node(x, Node(y, A, B), C))
    ensures x !in Keys(A) && x !in Keys(B) && x !in Keys(C) && x != y
    ensures y !in Keys(A) && y !in Keys(B) && y !in Keys(C)
    ensures P !in Keys(A) && P !in Keys(B) && P !in Keys(C)
    ensures RootKey(B) !in Keys(A) && RootKey(B) !in Keys(C) && Distinct(B)
  {
    assert Keys(Node(y, A, B)) == {y} + Keys(A) + Keys(B);
  }

  /**
   * leftRotate's links: with Sub(t, x) = Node(x, A, Node(y, B, C)), the
   * arena links Node(y, Node(x, A, B), C) in x's place once x, y, B's root
   * and x's parent P carry the links leftRotate writes and nothing else changed.
   */
  lemma RotLLinked(ps: seq<Peer>, ps': seq<Peer>, t: Shape, x: int, A: Shape, y: int, B: Shape, C: Shape, P: int)
    requires Wired(ps, t) && BackLinked(ps, NULL, t) && Distinct(t) && x in Keys(t)
    requires Sub(t, x) == Node(x, A, Node(y, B, C)) && P == ParentOf(t, x, NULL) && |ps'| == |ps|
    requires 0 <= x < |ps| && 0 <= y < |ps|
    requires ps'[x].parent == y && ps'[x].leftChild == RootKey(A) && ps'[x].rightChild == RootKey(B)
    requires ps'[y].parent == P && ps'[y].leftChild == x && ps'[y].rightChild == RootKey(C)
    requires B.Node? ==>
      0 <= B.key < |ps| && ps'[B.key].parent == x
      && ps'[B.key].leftChild == ps[B.key].leftChild && ps'[B.key].rightChild == ps[B.key].rightChild
    requires P != NULL ==> 0 <= P < |ps| && RedirectedAt(ps, ps', P, x, y)
    requires forall k :: 0 <= k < |ps| && k != x && k != y && k != RootKey(B) && k != P ==> SameLinks(ps'[k], ps[k])
    ensures Wired(ps', Replace(t, x, RotL(Sub(t, x)))) && BackLinked(ps', NULL, Replace(t, x, RotL(Sub(t, x))))
  {
    RotationApart(ps, t, x);
    var s := Sub(t, x);
    SubFacts(t, x);
    ApartL(x, A, y, B, C, P);
    RotationPieces(ps, ps', P, x, y, A, B, C, x, y);
    var u := RotL(s);
    assert Wired(ps', u) && BackLinked(ps', P, u);
    RedirectFromParent(ps, ps', t, x, y);
    RotLKeys(s);
    ReplaceLinked(ps, ps', t, NULL, x, u);
  }

  /** rightRotate's links: the mirror image of RotLLinked. */
  lemma RotRLinked(ps: seq<Peer>, ps': seq<Peer>, t: Shape, x: int, A: Shape, y: int, B: Shape, C: Shape, P: int)
    requires Wired(ps, t) && BackLinked(ps, NULL, t) && Distinct(t) && x in Keys(t)
    requires Sub(t, x) == Node(x, Node(y, A, B), C) && P == ParentOf(t, x, NULL) && |ps'| == |ps|
    requires 0 <= x < |ps| && 0 <= y < |ps|
    requires ps'[x].parent == y && ps'[x].leftChild == RootKey(B) && ps'[x].rightChild == RootKey(C)
    requires ps'[y].parent == P && ps'[y].leftChild == RootKey(A) && ps'[y].rightChild == x
    requires B.Node? ==>
      0 <= B.key < |ps| && ps'[B.key].parent == x
      && ps'[B.key].leftChild == ps[B.key].leftChild && ps'[B.key].rightChild == ps[B.key].rightChild
    requires P != NULL ==> 0 <= P < |ps| && RedirectedAt(ps, ps', P, x, y)
    requires forall k :: 0 <= k < |ps| && k != x && k != y && k != RootKey(B) && k != P ==> SameLinks(ps'[k], ps[k])
    ensures Wired(ps', Replace(t, x, RotR(Sub(t, x)))) && BackLinked(ps', NULL, Replace(t, x, RotR(Sub(t, x))))
  {
    RotationApart(ps, t, x);
    var s := Sub(t, x);
    SubFacts(t, x);
    ApartR(x, A, y, B, C, P);
    RotationPieces(ps, ps', P, x, y, A, B, C, y, x);
    var u := RotR(s);
    assert Wired(ps', u) && BackLinked(ps', P, u);
    RedirectFromParent(ps, ps', t, x, y);
    RotRKeys(s);
    ReplaceLinked(ps, ps', t, NULL, x, u);
  }

  /** A, B and C keep their cached heights when only x and y change. */
  lemma PiecesHeights(ps: seq<Peer>, ps': seq<Peer>, x: int, y: int, A: Shape, B: Shape, C: Shape)
    requires x !in Keys(A) && x !in Keys(B) && x !in Keys(C)
    requires y !in Keys(A) && y !in Keys(B) && y !in Keys(C)
    requires |ps'| == |ps| && HeightsOK(ps, A) && HeightsOK(ps, B) && HeightsOK(ps, C)
    requires forall k :: 0 <= k < |ps| && k != x && k != y ==> ps'[k].height == ps[k].height
    ensures HeightsOK(ps', A) && HeightsOK(ps', B) && HeightsOK(ps', C)
  {
    HeightsFrame(ps, ps', A, {});
    HeightsFrame(ps, ps', B, {});
    HeightsFrame(ps, ps', C, {});
  }

  /**
   * leftRotate's heights: once x and y cache the heights of their new
   * subtrees, only x's proper ancestors remain stale.
   */
  lemma RotLHeights(ps: seq<Peer>, ps': seq<Peer>, t: Shape, x: int, A: Shape, y: int, B: Shape, C: Shape)
    requires Distinct(t) && x in Keys(t) && Sub(t, x) == Node(x, A, Node(y, B, C)) && |ps'| == |ps|
    requires HeightsOKExcept(ps, t, Anc(t, x))
    requires 0 <= x < |ps| && 0 <= y < |ps|
    requires ps'[x].height == Height(Node(x, A, B)) && ps'[y].height == Height(RotL(Sub(t, x)))
    requires forall k :: 0 <= k < |ps| && k != x && k != y ==> ps'[k].height == ps[k].height
    ensures HeightsOKExcept(ps', Replace(t, x, RotL(Sub(t, x))), Anc(t, x) - {x})
  {
    SubFacts(t, x);
    HeightsBelow(ps, t, x);
    assert Keys(Node(y, B, C)) == {y} + Keys(B) + Keys(C);
    PiecesHeights(ps, ps', x, y, A, B, C);
    RotatedHeights(ps, ps', t, x, RotL(Sub(t, x)));
  }

  /** rightRotate's heights: the mirror image of RotLHeights. */
  lemma RotRHeights(ps: seq<Peer>, ps': seq<Peer>, t: Shape, x: int, A: Shape, y: int, B: Shape, C: Shape)
    requires Distinct(t) && x in Keys(t) && Sub(t, x) == Node(x, Node(y, A, B), C) && |ps'| == |ps|
    requires HeightsOKExcept(ps, t, Anc(t, x))
    requires 0 <= x < |ps| && 0 <= y < |ps|
    requires ps'[x].height == Height(Node(x, B, C)) && ps'[y].height == Height(RotR(Sub(t, x)))
    requires forall k :: 0 <= k < |ps| && k != x && k != y ==> ps'[k].height == ps[k].height
    ensures HeightsOKExcept(ps', Replace(t, x, RotR(Sub(t, x))), Anc(t, x) - {x})
  {
    SubFacts(t, x);
    HeightsBelow(ps, t, x);
    assert Keys(Node(y, A, B)) == {y} + Keys(A) + Keys(B);
    PiecesHeights(ps, ps', x, y, A, B, C);
    RotatedHeights(ps, ps', t, x, RotR(Sub(t, x)));
  }

  /** A rearranged subtree u with all heights cached, put in x's place, leaves only x's proper ancestors stale. */
  lemma RotatedHeights(ps: seq<Peer>, ps': seq<Peer>, t: Shape, x: int, u: Shape)
    requires Distinct(t) && x in Keys(t) && |ps'| == |ps| && Keys(u) == Keys(Sub(t, x))
    requires HeightsOKExcept(ps, t, Anc(t, x)) && HeightsOK(ps', u)
    requires forall k :: k in Ctx(t, x) && 0 <= k < |ps| ==> ps'[k].height == ps[k].height
    ensures HeightsOKExcept(ps', Replace(t, x, u), Anc(t, x) - {x})
  {
    ReplaceHeightsAt(ps, ps', t, x, u);
  }

  // ------------------------------------------------------------ rotation steps

  /** The links leftRotate reads around x, and that the pieces it moves are apart. */
  lemma RotLReads(ps: seq<Peer>, t: Shape, x: int, A: Shape, y: int, B: Shape, C: Shape, P: int)
    requires Wired(ps, t) && BackLinked(ps, NULL, t) && Distinct(t) && x in Keys(t)
    requires Sub(t, x) == Node(x, A, Node(y, B, C)) && P == ParentOf(t, x, NULL)
    ensures 0 <= x < |ps| && 0 <= y < |ps| && x != y
    ensures ps[x].rightChild == y && ps[x].leftChild == RootKey(A) && ps[x].parent == P
    ensures ps[y].leftChild == RootKey(B) && ps[y].rightChild == RootKey(C)
    ensures RootKey(A) != x && RootKey(A) != y && RootKey(B) != x && RootKey(B) != y
    ensures RootKey(C) != x && RootKey(C) != y
    ensures P == NULL || (0 <= P < |ps| && P != x && P != y && P != RootKey(B)
      && (ps[P].leftChild == x) != (ps[P].rightChild == x))
  {
    RotationApart(ps, t, x);
    SubFacts(t, x);
    ApartL(x, A, y, B, C, P);
  }

  /** The links rightRotate reads around x: the mirror image of RotLReads. */
  lemma RotRReads(ps: seq<Peer>, t: Shape, x: int, A: Shape, y: int, B: Shape, C: Shape, P: int)
    requires Wired(ps, t) && BackLinked(ps, NULL, t) && Distinct(t) && x in Keys(t)
    requires Sub(t, x) == Node(x, Node(y, A, B), C) && P == ParentOf(t, x, NULL)
    ensures 0 <= x < |ps| && 0 <= y < |ps| && x != y
    ensures ps[x].leftChild == y && ps[x].rightChild == RootKey(C) && ps[x].parent == P
    ensures ps[y].leftChild == RootKey(A) && ps[y].rightChild == RootKey(B)
    ensures RootKey(A) != x && RootKey(A) != y && RootKey(B) != x && RootKey(B) != y
    ensures RootKey(C) != x && RootKey(C) != y
    ensures P == NULL || (0 <= P < |ps| && P != x && P != y && P != RootKey(B)
      && (ps[P].leftChild == x) != (ps[P].rightChild == x))
  {
    RotationApart(ps, t, x);
    SubFacts(t, x);
    ApartR(x, A, y, B, C, P);
  }

  /** The pieces leftRotate moves cache their true heights. */
  lemma RotLCached(ps: seq<Peer>, t: Shape, x: int, A: Shape, y: int, B: Shape, C: Shape)
    requires Wired(ps, t) && Distinct(t) && x in Keys(t)
    requires Sub(t, x) == Node(x, A, Node(y, B, C))
    requires HeightsOKExcept(ps, t, Anc(t, x))
    ensures IsRef(ps, RootKey(A)) && IsRef(ps, RootKey(B)) && IsRef(ps, RootKey(C))
    ensures GetHeight(ps, RootKey(A)) == Height(A) && GetHeight(ps, RootKey(B)) == Height(B)
    ensures GetHeight(ps, RootKey(C)) == Height(C)
  {
    SubWired(ps, t, x, NULL);
    HeightsBelow(ps, t, x);
    PartsL(ps, x, A, y, B, C);
  }

  lemma PartsL(ps: seq<Peer>, x: int, A: Shape, y: int, B: Shape, C: Shape)
    requires HeightsOK(ps, A) && HeightsOK(ps, Node(y, B, C)) && Wired(ps, Node(x, A, Node(y, B, C)))
    ensures IsRef(ps, RootKey(A)) && IsRef(ps, RootKey(B)) && IsRef(ps, RootKey(C))
    ensures GetHeight(ps, RootKey(A)) == Height(A) && GetHeight(ps, RootKey(B)) == Height(B)
    ensures GetHeight(ps, RootKey(C)) == Height(C)
  {
    assert HeightsOK(ps, Node(y, B, C)) && Wired(ps, Node(y, B, C));
    CachedRoot(ps, A);
    CachedRoot(ps, B);
    CachedRoot(ps, C);
  }

  /** The pieces rightRotate moves cache their true heights. */
  lemma RotRCached(ps: seq<Peer>, t: Shape, x: int, A: Shape, y: int, B: Shape, C: Shape)
    requires Wired(ps, t) && Distinct(t) && x in Keys(t)
    requires Sub(t, x) == Node(x, Node(y, A, B), C)
    requires HeightsOKExcept(ps, t, Anc(t, x))
    ensures IsRef(ps, RootKey(A)) && IsRef(ps, RootKey(B)) && IsRef(ps, RootKey(C))
    ensures GetHeight(ps, RootKey(A)) == Height(A) && GetHeight(ps, RootKey(B)) == Height(B)
    ensures GetHeight(ps, RootKey(C)) == Height(C)
  {
    SubWired(ps, t, x, NULL);
    HeightsBelow(ps, t, x);
    PartsR(ps, x, A, y, B, C);
  }

  lemma PartsR(ps: seq<Peer>, x: int, A: Shape, y: int, B: Shape, C: Shape)
    requires HeightsOK(ps, Node(y, A, B)) && HeightsOK(ps, C) && Wired(ps, Node(x, Node(y, A, B), C))
    ensures IsRef(ps, RootKey(A)) && IsRef(ps, RootKey(B)) && IsRef(ps, RootKey(C))
    ensures GetHeight(ps, RootKey(A)) == Height(A) && GetHeight(ps, RootKey(B)) == Height(B)
    ensures GetHeight(ps, RootKey(C)) == Height(C)
  {
    assert HeightsOK(ps, Node(y, A, B)) && Wired(ps, Node(y, A, B));
    CachedRoot(ps, A);
    CachedRoot(ps, B);
    CachedRoot(ps, C);
  }

  /**
   * After leftRotate's writes (x, y, B's root and x's parent, nothing
   * else) the arena links the rotated tree.
   */
  lemma RotLWrites(ps: seq<Peer>, ps': seq<Peer>, t: Shape, x: int, A: Shape, y: int, B: Shape, C: Shape, P: int)
    requires Wired(ps, t) && BackLinked(ps, NULL, t) && Distinct(t) && x in Keys(t)
    requires Sub(t, x) == Node(x, A, Node(y, B, C)) && P == ParentOf(t, x, NULL)
    requires 0 <= x < |ps| && 0 <= y < |ps| && |ps'| == |ps|
    requires ps'[x] == ps[x].(parent := y, rightChild := RootKey(B), height := Height(Node(x, A, B)))
    requires ps'[y] == ps[y].(parent := P, leftChild := x, height := Height(RotL(Sub(t, x))))
    requires B.Node? ==> 0 <= B.key < |ps| && ps'[B.key] == ps[B.key].(parent := x)
    requires P != NULL ==>
      0 <= P < |ps| && ps'[P] == ps[P].(leftChild := Redir(ps[P].leftChild, x, y), rightChild := Redir(ps[P].rightChild, x, y))
    requires forall k :: 0 <= k < |ps| && k != x && k != y && k != RootKey(B) && k != P ==> ps'[k] == ps[k]
    ensures Wired(ps', Replace(t, x, RotL(Sub(t, x)))) && BackLinked(ps', NULL, Replace(t, x, RotL(Sub(t, x))))
  {
    RotLReads(ps, t, x, A, y, B, C, P);
    RotLLinked(ps, ps', t, x, A, y, B, C, P);
  }

  /** After rightRotate's writes the arena links the rotated tree: the mirror image of RotLWrites. */
  lemma RotRWrites(ps: seq<Peer>, ps': seq<Peer>, t: Shape, x: int, A: Shape, y: int, B: Shape, C: Shape, P: int)
    requires Wired(ps, t) && BackLinked(ps, NULL, t) && Distinct(t) && x in Keys(t)
    requires Sub(t, x) == Node(x, Node(y, A, B), C) && P == ParentOf(t, x, NULL)
    requires 0 <= x < |ps| && 0 <= y < |ps| && |ps'| == |ps|
    requires ps'[x] == ps[x].(parent := y, leftChild := RootKey(B), height := Height(Node(x, B, C)))
    requires ps'[y] == ps[y].(parent := P, rightChild := x, height := Height(RotR(Sub(t, x))))
    requires B.Node? ==> 0 <= B.key < |ps| && ps'[B.key] == ps[B.key].(parent := x)
    requires P != NULL ==>
      0 <= P < |ps| && ps'[P] == ps[P].(leftChild := Redir(ps[P].leftChild, x, y), rightChild := Redir(ps[P].rightChild, x, y))
    requires forall k :: 0 <= k < |ps| && k != x && k != y && k != RootKey(B) && k != P ==> ps'[k] == ps[k]
    ensures Wired(ps', Replace(t, x, RotR(Sub(t, x)))) && BackLinked(ps', NULL, Replace(t, x, RotR(Sub(t, x))))
  {
    RotRReads(ps, t, x, A, y, B, C, P);
    RotRLinked(ps, ps', t, x, A, y, B, C, P);
  }

  /**
   * After leftRotate's writes (x, y, B's root and x's parent, nothing
   * else) the arena realises the rotated tree, with y as the root when x
   * was, only x's proper ancestors stale and no peer's payload changed.
   */
  lemma RotLDone(ps: seq<Peer>, ps': seq<Peer>, t: Shape, x: int, A: Shape, y: int, B: Shape, C: Shape, P: int)
    requires Wired(ps, t) && BackLinked(ps, NULL, t) && Distinct(t) && x in Keys(t)
    requires Sub(t, x) == Node(x, A, Node(y, B, C)) && P == ParentOf(t, x, NULL)
    requires HeightsOKExcept(ps, t, Anc(t, x))
    requires 0 <= x < |ps| && 0 <= y < |ps| && |ps'| == |ps|
    requires ps'[x] == ps[x].(parent := y, rightChild := RootKey(B), height := Height(Node(x, A, B)))
    requires ps'[y] == ps[y].(parent := P, leftChild := x, height := Height(RotL(Sub(t, x))))
    requires B.Node? ==> 0 <= B.key < |ps| && ps'[B.key] == ps[B.key].(parent := x)
    requires P != NULL ==>
      0 <= P < |ps| && ps'[P] == ps[P].(leftChild := Redir(ps[P].leftChild, x, y), rightChild := Redir(ps[P].rightChild, x, y))
    requires forall k :: 0 <= k < |ps| && k != x && k != y && k != RootKey(B) && k != P ==> ps'[k] == ps[k]
    ensures var t' := Replace(t, x, RotL(Sub(t, x)));
      TreeLinked(ps', if P == NULL then y else RootKey(t), t')
      && HeightsOKExcept(ps', t', Anc(t, x) - {x}) && SamePayload(ps, ps')
  {
    var s := Sub(t, x);
    RotLWrites(ps, ps', t, x, A, y, B, C, P);
    RotLHeights(ps, ps', t, x, A, y, B, C);
    SubFacts(t, x);
    RotLKeys(s);
    RearrangeAt(t, x, RotL(s));
    RootKeyReplace(t, x, RotL(s));
    RotationApart(ps, t, x);
    PayloadFrame(ps, ps', x, y, RootKey(B), P);
  }

  /** After rightRotate's writes: the mirror image of RotLDone. */
  lemma RotRDone(ps: seq<Peer>, ps': seq<Peer>, t: Shape, x: int, A: Shape, y: int, B: Shape, C: Shape, P: int)
    requires Wired(ps, t) && BackLinked(ps, NULL, t) && Distinct(t) && x in Keys(t)
    requires Sub(t, x) == Node(x, Node(y, A, B), C) && P == ParentOf(t, x, NULL)
    requires HeightsOKExcept(ps, t, Anc(t, x))
    requires 0 <= x < |ps| && 0 <= y < |ps| && |ps'| == |ps|
    requires ps'[x] == ps[x].(parent := y, leftChild := RootKey(B), height := Height(Node(x, B, C)))
    requires ps'[y] == ps[y].(parent := P, rightChild := x, height := Height(RotR(Sub(t, x))))
    requires B.Node? ==> 0 <= B.key < |ps| && ps'[B.key] == ps[B.key].(parent := x)
    requires P != NULL ==>
      0 <= P < |ps| && ps'[P] == ps[P].(leftChild := Redir(ps[P].leftChild, x, y), rightChild := Redir(ps[P].rightChild, x, y))
    requires forall k :: 0 <= k < |ps| && k != x && k != y && k != RootKey(B) && k != P ==> ps'[k] == ps[k]
    ensures var t' := Replace(t, x, RotR(Sub(t, x)));
      TreeLinked(ps', if P == NULL then y else RootKey(t), t')
      && HeightsOKExcept(ps', t', Anc(t, x) - {x}) && SamePayload(ps, ps')
  {
    var s := Sub(t, x);
    RotRWrites(ps, ps', t, x, A, y, B, C, P);
    RotRHeights(ps, ps', t, x, A, y, B, C);
    SubFacts(t, x);
    RotRKeys(s);
    RearrangeAt(t, x, RotR(s));
    RootKeyReplace(t, x, RotR(s));
    RotationApart(ps, t, x);
    PayloadFrame(ps, ps', x, y, RootKey(B), P);
  }
}

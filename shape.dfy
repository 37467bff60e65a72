/**
 * The abstract shape of a peer tree: a binary tree whose nodes are arena
 * indices. The tree object keeps one as a ghost field and ties the arena's
 * links to it; the lemmas here are the facts about subtrees, subtree
 * replacement and ancestor paths that the link surgery of tree.go needs.
 */
module Shapes {
  import opened Util
  import opened PeerNode

  datatype Shape = Nil | Node(key: int, left: Shape, right: Shape)

  /** The reference a link to this subtree holds: NULL for the empty subtree. */
  function RootKey(t: Shape): int
  {
    if t.Nil? then NULL else t.key
  }

  function Keys(t: Shape): set<int>
  {
    match t
    case Nil => {}
    case Node(k, l, r) => {k} + Keys(l) + Keys(r)
  }

  function Size(t: Shape): nat
  {
    match t
    case Nil => 0
    case Node(_, l, r) => 1 + Size(l) + Size(r)
  }

  /** No arena index occurs twice. */
  predicate Distinct(t: Shape)
  {
    match t
    case Nil => true
    case Node(k, l, r) =>
      k !in Keys(l) && k !in Keys(r) && Keys(l) !! Keys(r) && Distinct(l) && Distinct(r)
  }

  /** Height with the convention of peer.go: -1 for the empty tree, 0 for a leaf. */
  function Height(t: Shape): (h: int)
    ensures h >= -1
    ensures t.Node? ==> h >= 0
  {
    match t
    case Nil => -1
    case Node(_, l, r) => 1 + Max(Height(l), Height(r))
  }

  /** Balance factor computed from true heights; 0 for the empty tree. */
  function BF(t: Shape): int
  {
    match t
    case Nil => 0
    case Node(_, l, r) => Height(l) - Height(r)
  }

  predicate Unbalanced(t: Shape)
  {
    BF(t) > 1 || BF(t) < -1
  }

  /** Sum of the heights of all nodes; it bounds how often the fix-up can rotate in place. */
  function SumH(t: Shape): nat
  {
    match t
    case Nil => 0
    case Node(_, l, r) => Height(t) + SumH(l) + SumH(r)
  }

  /** The subtree rooted at index k (Nil when k is absent). */
  function Sub(t: Shape, k: int): Shape
  {
    match t
    case Nil => Nil
    case Node(j, l, r) =>
      if j == k then t else if k in Keys(l) then Sub(l, k) else Sub(r, k)
  }

  /** t with the subtree rooted at x replaced by u. */
  function Replace(t: Shape, x: int, u: Shape): Shape
  {
    match t
    case Nil => Nil
    case Node(j, l, r) =>
      if j == x then u
      else if x in Keys(l) then Node(j, Replace(l, x, u), r)
      else Node(j, l, Replace(r, x, u))
  }

  /** The parent index of x in t, where `par` is the parent of t's root. */
  function ParentOf(t: Shape, x: int, par: int): int
  {
    match t
    case Nil => NULL
    case Node(j, l, r) =>
      if j == x then par
      else if x in Keys(l) then ParentOf(l, x, j)
      else ParentOf(r, x, j)
  }

  /** The indices on the path from the root down to x, both included; empty when x is absent. */
  function Anc(t: Shape, x: int): set<int>
  {
    match t
    case Nil => {}
    case Node(j, l, r) =>
      if j == x then {j}
      else if x in Keys(l) then {j} + Anc(l, x)
      else if x in Keys(r) then {j} + Anc(r, x)
      else {}
  }

  /** The child links of the arena follow t. */
  predicate Wired(ps: seq<Peer>, t: Shape)
  {
    match t
    case Nil => true
    case Node(k, l, r) =>
      0 <= k < |ps| && ps[k].leftChild == RootKey(l) && ps[k].rightChild == RootKey(r)
      && Wired(ps, l) && Wired(ps, r)
  }

  /** The parent links of the arena follow t, t's root pointing to `par`. */
  predicate BackLinked(ps: seq<Peer>, par: int, t: Shape)
    decreases t
  {
    match t
    case Nil => true
    case Node(k, l, r) =>
      0 <= k < |ps| && ps[k].parent == par && BackLinked(ps, k, l) && BackLinked(ps, k, r)
  }

  /** Every node of t outside S caches its true height. */
  predicate HeightsOKExcept(ps: seq<Peer>, t: Shape, S: set<int>)
  {
    match t
    case Nil => true
    case Node(k, l, r) =>
      0 <= k < |ps| && (k !in S ==> ps[k].height == Height(t))
      && HeightsOKExcept(ps, l, S) && HeightsOKExcept(ps, r, S)
  }

  predicate HeightsOK(ps: seq<Peer>, t: Shape)
  {
    HeightsOKExcept(ps, t, {})
  }

  /** A link after redirecting references to x so that they point to w. */
  function Redir(v: int, x: int, w: int): int
  {
    if v == x then w else v
  }

  predicate SameLinks(a: Peer, b: Peer)
  {
    a.parent == b.parent && a.leftChild == b.leftChild && a.rightChild == b.rightChild
  }

  // ---------------------------------------------------------------- subtrees

  lemma SubFacts(t: Shape, k: int)
    requires k in Keys(t)
    ensures Sub(t, k).Node? && Sub(t, k).key == k
    ensures Keys(Sub(t, k)) <= Keys(t)
    ensures Distinct(t) ==> Distinct(Sub(t, k))
  {
    match t
    case Node(j, l, r) =>
      if j != k {
        if k in Keys(l) { SubFacts(l, k); } else { SubFacts(r, k); }
      }
  }

  lemma SubWired(ps: seq<Peer>, t: Shape, k: int, par: int)
    requires k in Keys(t)
    ensures Wired(ps, t) ==> Wired(ps, Sub(t, k))
    ensures BackLinked(ps, par, t) ==> BackLinked(ps, ParentOf(t, k, par), Sub(t, k))
    ensures forall S :: HeightsOKExcept(ps, t, S) ==> HeightsOKExcept(ps, Sub(t, k), S)
  {
    match t
    case Node(j, l, r) =>
      if j != k {
        if k in Keys(l) { SubWired(ps, l, k, j); } else { SubWired(ps, r, k, j); }
      }
  }

  lemma WiredInRange(ps: seq<Peer>, t: Shape)
    requires Wired(ps, t)
    ensures forall k :: k in Keys(t) ==> 0 <= k < |ps|
  {
    match t
    case Nil =>
    case Node(_, l, r) => WiredInRange(ps, l); WiredInRange(ps, r);
  }

  /** Appending a peer to the arena keeps every link and cached height t describes. */
  lemma {:induction false} AppendKeeps(ps: seq<Peer>, p: Peer, par: int, t: Shape, S: set<int>)
    requires Wired(ps, t) && BackLinked(ps, par, t) && HeightsOKExcept(ps, t, S)
    ensures Wired(ps + [p], t) && BackLinked(ps + [p], par, t) && HeightsOKExcept(ps + [p], t, S)
    decreases t
  {
    match t
    case Nil =>
    case Node(k, l, r) =>
      assert (ps + [p])[k] == ps[k];
      AppendKeeps(ps, p, k, l, S);
      AppendKeeps(ps, p, k, r, S);
  }

  lemma BackLinkedParent(ps: seq<Peer>, par: int, t: Shape, k: int)
    decreases t
    requires BackLinked(ps, par, t) && k in Keys(t)
    ensures 0 <= k < |ps| && ps[k].parent == ParentOf(t, k, par)
  {
    SubWired(ps, t, k, par);
    SubFacts(t, k);
  }

  /** In a well-keyed tree only x's parent has a link to x. */
  lemma OnlyParentPoints(ps: seq<Peer>, t: Shape, par: int, x: int, k: int)
    requires Wired(ps, t) && Distinct(t) && x in Keys(t) && k in Keys(t) && 0 <= k < |ps|
    requires ps[k].leftChild == x || ps[k].rightChild == x
    ensures k == ParentOf(t, x, par)
  {
    match t
    case Node(j, l, r) =>
      WiredInRange(ps, t);
      if j == k {
        assert x == RootKey(l) || x == RootKey(r);
        assert x != j;
      } else if k in Keys(l) {
        SubFacts(l, k);
        if x !in Keys(l) {
          ChildLinkInside(ps, l, k);
          assert false;
        }
        OnlyParentPoints(ps, l, j, x, k);
      } else {
        if x !in Keys(r) {
          ChildLinkInside(ps, r, k);
          assert false;
        }
        OnlyParentPoints(ps, r, j, x, k);
      }
  }

  /** A node's child links stay inside its tree (or are NULL). */
  lemma ChildLinkInside(ps: seq<Peer>, t: Shape, k: int)
    requires Wired(ps, t) && k in Keys(t) && 0 <= k < |ps|
    ensures ps[k].leftChild == NULL || ps[k].leftChild in Keys(t)
    ensures ps[k].rightChild == NULL || ps[k].rightChild in Keys(t)
  {
    match t
    case Node(j, l, r) =>
      if j != k {
        if k in Keys(l) { ChildLinkInside(ps, l, k); } else { ChildLinkInside(ps, r, k); }
      }
  }

  /** With distinct peers, the size of a tree is the number of its peers. */
  lemma {:induction false} SizeKeys(t: Shape)
    requires Distinct(t)
    ensures Size(t) == |Keys(t)|
  {
    match t
    case Nil =>
    case Node(k, l, r) =>
      SizeKeys(l);
      SizeKeys(r);
      assert Keys(t) == {k} + (Keys(l) + Keys(r));
  }
}

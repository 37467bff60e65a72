/**
 * The peer node record (functionTree/peer.go). Peers live in an arena: a
 * peer reference is an index into `Arena.peers`, and `NULL` (-1) is the
 * absent reference, as `NULL = -1` in tree.go.
 */
module PeerNode {

  /** The absent peer reference. */
  const NULL: int := -1

  /** One tree node: identity, topology links, cached height and transport metadata. */
  datatype Peer = Peer(
    id: int,
    parent: int,
    leftChild: int,
    rightChild: int,
    height: int,
    addr: string,
    port: string,
    ready: bool)

  /** A reference that is either absent or names a peer of the arena. */
  predicate IsRef(ps: seq<Peer>, n: int)
  {
    n == NULL || 0 <= n < |ps|
  }

  /** A peer with no topology links and the height of a single node. */
  predicate Detached(p: Peer)
  {
    p.parent == NULL && p.leftChild == NULL && p.rightChild == NULL && p.height == 0
  }

  /** The record a freshly allocated peer holds (NewPeer at peer.go:17-25). */
  function InitialPeer(): (p: Peer)
    ensures Detached(p)
    ensures !p.ready && p.addr == "" && p.port == "" && p.id == 0
  {
    Peer(0, NULL, NULL, NULL, 0, "", "", false)
  }

  /** Cached height, tolerating the absent peer, whose height is -1. */
  function GetHeight(ps: seq<Peer>, n: int): (h: int)
    requires IsRef(ps, n)
    ensures n == NULL ==> h == -1
    ensures n != NULL ==> h == ps[n].height
  {
    if n == NULL then -1 else ps[n].height
  }

  /** Left height minus right height; 0 for the absent peer. */
  function GetBalanceFactor(ps: seq<Peer>, n: int): (b: int)
    requires IsRef(ps, n)
    requires n != NULL ==> IsRef(ps, ps[n].leftChild) && IsRef(ps, ps[n].rightChild)
    ensures n == NULL ==> b == 0
    ensures n != NULL ==> b == GetHeight(ps, ps[n].leftChild) - GetHeight(ps, ps[n].rightChild)
  {
    if n == NULL then 0 else GetHeight(ps, ps[n].leftChild) - GetHeight(ps, ps[n].rightChild)
  }

  /** A present peer with no children is balanced. */
  lemma LeafIsBalanced(ps: seq<Peer>, n: int)
    requires 0 <= n < |ps| && ps[n].leftChild == NULL && ps[n].rightChild == NULL
    ensures GetBalanceFactor(ps, n) == 0
  {
  }

  function GetId(ps: seq<Peer>, n: int): (id: int)
    requires 0 <= n < |ps|
    ensures id == ps[n].id
  {
    ps[n].id
  }

  function GetParent(ps: seq<Peer>, n: int): (p: int)
    requires 0 <= n < |ps|
    ensures p == ps[n].parent
  {
    ps[n].parent
  }

  function GetAddr(ps: seq<Peer>, n: int): (a: string)
    requires 0 <= n < |ps|
    ensures a == ps[n].addr
  {
    ps[n].addr
  }

  function IsReady(ps: seq<Peer>, n: int): (b: bool)
    requires 0 <= n < |ps|
    ensures b == ps[n].ready
  {
    ps[n].ready
  }

  /**
   * Writing a peer's address is seen by GetAddr on that peer and by no
   * other query: ids, parents, heights, readiness and the other peers'
   * addresses read as before.
   */
  lemma SetAddrOnlyAddr(ps: seq<Peer>, n: int, a: string, m: int)
    requires 0 <= n < |ps| && 0 <= m < |ps|
    ensures var ps' := ps[n := ps[n].(addr := a)];
      GetAddr(ps', n) == a && (m != n ==> GetAddr(ps', m) == GetAddr(ps, m))
      && GetId(ps', m) == GetId(ps, m) && GetParent(ps', m) == GetParent(ps, m)
      && GetHeight(ps', m) == GetHeight(ps, m) && IsReady(ps', m) == IsReady(ps, m)
  {
  }

  /**
   * Marking a peer ready is seen by IsReady on that peer, marking it twice
   * is the same as once, and no other query changes.
   */
  lemma SetReadyOnlyReady(ps: seq<Peer>, n: int, m: int)
    requires 0 <= n < |ps| && 0 <= m < |ps|
    ensures var ps' := ps[n := ps[n].(ready := true)];
      IsReady(ps', n) && ps'[n := ps'[n].(ready := true)] == ps'
      && (m != n ==> IsReady(ps', m) == IsReady(ps, m))
      && GetId(ps', m) == GetId(ps, m) && GetParent(ps', m) == GetParent(ps, m)
      && GetHeight(ps', m) == GetHeight(ps, m) && GetAddr(ps', m) == GetAddr(ps, m)
  {
  }

  /** The store of all peers; allocation appends, setters update one record in place. */
  class Arena {
    var peers: seq<Peer>

    constructor ()
      ensures peers == []
    {
      peers := [];
    }

    /** NewPeer: allocate a detached, not-ready peer with empty address and port. */
    method NewPeer() returns (n: int)
      modifies this
      ensures n == |old(peers)| && peers == old(peers) + [InitialPeer()]
      ensures Detached(peers[n]) && !IsReady(peers, n) && GetAddr(peers, n) == ""
    {
      n := |peers|;
      peers := peers + [InitialPeer()];
    }

    /** SetAddr: afterwards GetAddr returns `a`; no other field and no other peer changes. */
    method SetAddr(n: int, a: string)
      requires 0 <= n < |peers|
      modifies this
      ensures peers == old(peers)[n := old(peers)[n].(addr := a)]
      ensures GetAddr(peers, n) == a
    {
      peers := peers[n := peers[n].(addr := a)];
    }

    /** SetReady: afterwards IsReady holds; setting it again changes nothing. */
    method SetReady(n: int)
      requires 0 <= n < |peers|
      modifies this
      ensures peers == old(peers)[n := old(peers)[n].(ready := true)]
      ensures IsReady(peers, n)
      ensures old(peers[n].ready) ==> peers == old(peers)
    {
      peers := peers[n := peers[n].(ready := true)];
    }
  }
}

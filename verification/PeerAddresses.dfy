/**
 How many sessions one address can have (p2p/peer_pool.py). The check on inbound connections means
 to allow two; these runs show what it allows.
 */
module PeerAddresses {
  import opened Collections
  import opened ResourceLocks
  import opened PeerPools

  /** Node 0 lives alone, all others share an address. */
  function Shared(n: Node): Address
  {
    if n == 0 then 0 else 1
  }

  /** An attempt to connect to a node nobody else is connecting to, from the first check to the end. */
  method Connect(pool: PeerPool, t: Task, n: Node, outbound: bool, session: Session) returns (added: bool)
    requires pool.Valid() && pool.tasks == map[] && session !in pool.connected
    modifies pool, pool.locks
    ensures pool.Valid() && pool.tasks == map[]
    ensures added <==> |old(pool.connected)| < pool.maxPeers && Absent(old(pool.connected), n) &&
                       (outbound || Admits(old(pool.connected), pool.ipOf, n))
    ensures pool.connected == if added then old(pool.connected)[session := Peer(n, !outbound)] else old(pool.connected)
    ensures var a := pool.ipOf(n);
            added ==> |SessionsAt(pool.connected, pool.ipOf, a)| == |SessionsAt(old(pool.connected), pool.ipOf, a)| + 1
  {
    hide Tracked, Single, AddressesBounded, SessionsAt, Admits;
    hide ResourceLock.Valid;
    added := false;
    pool.BeginTask(t, n, outbound, true);
    if t !in pool.tasks {
      return;
    }
    if outbound {
      pool.DialFinished(t, true);
    }
    added := pool.PeerStarted(t, session, true, true);
    pool.LeaveTask(t);
  }

  /** Node 0 was dialed, and k nodes at the shared address connected. */
  ghost predicate Crowd(connected: map<Session, Peer>, k: nat)
  {
    && |connected| == k + 1 && |SessionsAt(connected, Shared, 1)| == k == |InboundSessions(connected)|
    && forall s :: s in connected ==> 0 <= s <= k && connected[s] == Peer(s, s > 0)
  }

  lemma CrowdStarts(connected: map<Session, Peer>)
    requires connected == map[0 := Peer(0, false)]
    ensures Crowd(connected, 0)
  {
  }

  lemma CrowdGrows(connected: map<Session, Peer>, k: nat)
    requires Crowd(connected, k)
    ensures Crowd(connected[k + 1 := Peer(k + 1, true)], k + 1)
  {
    hide SessionsAt, InboundSessions;
    AddedAt(connected, Shared, k + 1, Peer(k + 1, true), 1);
  }

  /** With one session elsewhere to keep the share of inbound ones down, one address gets three inbound sessions. */
  method ThreeFromOneAddress() returns (pool: PeerPool)
    ensures pool.Valid() && |SessionsAt(pool.connected, pool.ipOf, 1)| == 3
    ensures forall s :: s in SessionsAt(pool.connected, pool.ipOf, 1) ==> pool.connected[s].inbound
  {
    hide Tracked, Single, AddressesBounded;
    hide ResourceLock.Valid;
    pool := new PeerPool(4, Shared);
    var added := Connect(pool, 0, 0, true, 0);
    CrowdStarts(pool.connected);
    for k := 0 to 3
      invariant pool.Valid() && pool.tasks == map[] && fresh(pool) && fresh(pool.locks)
      invariant Crowd(pool.connected, k)
    {
      CrowdGrows(pool.connected, k);
      AdmitsIs(pool.connected, Shared, k + 1);
      added := Connect(pool, k + 1, k + 1, false, k + 1);
    }
  }

  /** Outbound connections are not checked: one address can fill the whole pool. */
  method AnyNumberToOneAddress(k: nat) returns (pool: PeerPool)
    ensures pool.Valid() && |SessionsAt(pool.connected, pool.ipOf, 1)| == k == pool.maxPeers
  {
    hide Tracked, Single, AddressesBounded, InboundSessions;
    hide ResourceLock.Valid;
    pool := new PeerPool(k, Shared);
    assert SessionsAt(pool.connected, Shared, 1) == {};
    for i := 0 to k
      invariant pool.Valid() && pool.tasks == map[] && fresh(pool) && fresh(pool.locks)
      invariant |pool.connected| == i && |SessionsAt(pool.connected, Shared, 1)| == i
      invariant forall s :: s in pool.connected ==> 0 <= s < i && pool.connected[s].node == s + 1
    {
      var added := Connect(pool, i, i + 1, true, i);
    }
  }
}

/**
 Admitting peers (p2p/peer_pool.py, and trinity/server.py for inbound connections).

 A connection task takes its node's lock, checks, waits, checks again and adds a peer. Each method
 is what happens between two suspension points.
 */
module PeerPools {
  import opened Collections
  import opened ResourceLocks

  /** The identity of one connection. */
  type Session = int

  /** Where a connection task is: waiting for its node's lock, dialing, starting its peer, or done deciding. */
  datatype Phase = Queued | Dialing | Starting | Settled

  /** Who is connected, and who opened the connection. */
  datatype Peer = Peer(node: Node, inbound: bool)

  type Address = int

  datatype Conn = Conn(node: Node, outbound: bool, phase: Phase)

  /** The tasks inside the lock region, with the phase their hold on the lock implies. */
  ghost predicate Tracked(tasks: map<Task, Conn>, users: map<Task, Use>)
  {
    && tasks.Keys == users.Keys
    && (forall t :: t in tasks ==> tasks[t].node == users[t].node)
    && (forall t :: t in tasks ==> (tasks[t].phase.Queued? <==> !users[t].holding))
  }

  ghost predicate Absent(connected: map<Session, Peer>, n: Node)
  {
    forall s :: s in connected ==> connected[s].node != n
  }

  /** No node has two sessions, and an outbound task past its check still finds its node absent. */
  ghost predicate Single(tasks: map<Task, Conn>, connected: map<Session, Peer>)
  {
    && (forall s, r :: s in connected && r in connected && connected[s].node == connected[r].node ==> s == r)
    && (forall t :: t in tasks && tasks[t].outbound && (tasks[t].phase.Dialing? || tasks[t].phase.Starting?) ==>
                      Absent(connected, tasks[t].node))
  }

  /** Some connection task for node n is inside the lock region or waiting for it. */
  ghost predicate Busy(tasks: map<Task, Conn>, n: Node)
  {
    exists t :: t in tasks && tasks[t].node == n
  }

  /** What a task does once it holds its node's lock: leave if there is no point, else dial or start its peer. */
  ghost function Granted(tasks: map<Task, Conn>, connected: map<Session, Peer>, t: Task): map<Task, Conn>
    requires t in tasks
  {
    var c := tasks[t];
    if c.outbound && !Absent(connected, c.node) then tasks - {t}
    else tasks[t := c.(phase := if c.outbound then Dialing else Starting)]
  }

  // -------------------------------------------------------------------------------------------
  // The policies for inbound connections
  // -------------------------------------------------------------------------------------------

  const SAME_ADDRESS_LIMIT := 2

  /** The sessions with nodes at one address. */
  function SessionsAt(connected: map<Session, Peer>, ipOf: Node -> Address, a: Address): set<Session>
  {
    set s | s in connected && ipOf(connected[s].node) == a
  }

  function InboundSessions(connected: map<Session, Peer>): set<Session>
  {
    set s | s in connected && connected[s].inbound
  }

  /** No address has more than three sessions that its nodes opened. */
  ghost predicate AddressesBounded(connected: map<Session, Peer>, ipOf: Node -> Address)
  {
    forall a :: |SessionsAt(connected, ipOf, a) * InboundSessions(connected)| <= SAME_ADDRESS_LIMIT + 1
  }

  lemma AddAtAddress(connected: map<Session, Peer>, ipOf: Node -> Address, s: Session, p: Peer)
    requires s !in connected && AddressesBounded(connected, ipOf)
    ensures |SessionsAt(connected[s := p], ipOf, ipOf(p.node))| == |SessionsAt(connected, ipOf, ipOf(p.node))| + 1
    ensures !p.inbound || |SessionsAt(connected, ipOf, ipOf(p.node))| <= SAME_ADDRESS_LIMIT ==>
              AddressesBounded(connected[s := p], ipOf)
  {
    hide SessionsAt, InboundSessions;
    var connected' := connected[s := p];
    if !p.inbound || |SessionsAt(connected, ipOf, ipOf(p.node))| <= SAME_ADDRESS_LIMIT {
      forall a
        ensures |SessionsAt(connected', ipOf, a) * InboundSessions(connected')| <= SAME_ADDRESS_LIMIT + 1
      {
        AddedAt(connected, ipOf, s, p, a);
        SubsetSize(SessionsAt(connected, ipOf, a) * InboundSessions(connected), SessionsAt(connected, ipOf, a));
      }
    }
    AddedAt(connected, ipOf, s, p, ipOf(p.node));
  }

  lemma AddedAt(connected: map<Session, Peer>, ipOf: Node -> Address, s: Session, p: Peer, a: Address)
    requires s !in connected
    ensures var at, inbound := SessionsAt(connected, ipOf, a), InboundSessions(connected);
            var at', inbound' := SessionsAt(connected[s := p], ipOf, a), InboundSessions(connected[s := p]);
            && s !in at && s !in inbound
            && at' == (if a == ipOf(p.node) then at + {s} else at)
            && inbound' == (if p.inbound then inbound + {s} else inbound)
            && at' * inbound' == if a == ipOf(p.node) && p.inbound then at * inbound + {s} else at * inbound
  {
  }

  ghost function OutboundSessions(connected: map<Session, Peer>): set<Session>
  {
    set s | s in connected && !connected[s].inbound
  }

  /** Nobody was dialed and nobody is being dialed. */
  ghost predicate InboundOnly(tasks: map<Task, Conn>, connected: map<Session, Peer>)
  {
    && (forall t :: t in tasks ==> !tasks[t].outbound)
    && (forall s :: s in connected ==> connected[s].inbound)
    && |connected| <= 2
  }

  lemma SessionsSplit(connected: map<Session, Peer>)
    ensures |connected| == |InboundSessions(connected)| + |OutboundSessions(connected)|
  {
    var inbound, outbound := InboundSessions(connected), OutboundSessions(connected);
    assert connected.Keys == inbound + outbound && inbound !! outbound;
    assert |connected| == |connected.Keys|;
  }

  /** At most three inbound sessions to each outbound one, and one more; or two at the start. */
  ghost predicate ShareBounded(connected: map<Session, Peer>)
  {
    || |InboundSessions(connected)| <= 3 * |OutboundSessions(connected)| + 1
    || |InboundSessions(connected)| <= 2
  }

  lemma AddedCounts(connected: map<Session, Peer>, s: Session, p: Peer)
    requires s !in connected
    ensures |InboundSessions(connected[s := p])| == |InboundSessions(connected)| + (if p.inbound then 1 else 0)
    ensures |OutboundSessions(connected[s := p])| == |OutboundSessions(connected)| + (if p.inbound then 0 else 1)
  {
    hide InboundSessions, OutboundSessions;
    AddedDirection(connected, s, p);
  }

  lemma AddedDirection(connected: map<Session, Peer>, s: Session, p: Peer)
    requires s !in connected
    ensures var inbound, outbound := InboundSessions(connected), OutboundSessions(connected);
            && s !in inbound && s !in outbound
            && InboundSessions(connected[s := p]) == (if p.inbound then inbound + {s} else inbound)
            && OutboundSessions(connected[s := p]) == (if p.inbound then outbound else outbound + {s})
  {
  }

  lemma LeaveAddress(connected: map<Session, Peer>, ipOf: Node -> Address, s: Session)
    requires AddressesBounded(connected, ipOf)
    ensures AddressesBounded(connected - {s}, ipOf)
  {
    var connected' := connected - {s};
    forall a
      ensures |SessionsAt(connected', ipOf, a) * InboundSessions(connected')| <= SAME_ADDRESS_LIMIT + 1
    {
      SubsetSize(SessionsAt(connected', ipOf, a) * InboundSessions(connected'),
                 SessionsAt(connected, ipOf, a) * InboundSessions(connected));
    }
  }

  /**
   What an inbound connection must find besides a free place and no session with its node: at most
   two sessions at its address, and at most three quarters of the sessions inbound once there are two.
   */
  ghost predicate Admits(connected: map<Session, Peer>, ipOf: Node -> Address, n: Node)
  {
    && |set s | s in connected && ipOf(connected[s].node) == ipOf(n)| <= 2
    && (|connected| <= 1 || |InboundSessions(connected)| <= 3 * |OutboundSessions(connected)|)
  }

  lemma AddKeepsShare(connected: map<Session, Peer>, ipOf: Node -> Address, s: Session, p: Peer)
    requires s !in connected && ShareBounded(connected) && (p.inbound ==> Admits(connected, ipOf, p.node))
    ensures ShareBounded(connected[s := p])
  {
    hide InboundSessions, OutboundSessions;
    SessionsSplit(connected);
    AddedCounts(connected, s, p);
  }

  /** What both bounds need of a peer that is about to be added. */
  lemma StartKeeps(tasks: map<Task, Conn>, connected: map<Session, Peer>, ipOf: Node -> Address, c: Conn, s: Session)
    requires s !in connected
    ensures ShareBounded(connected) && (!c.outbound ==> Admits(connected, ipOf, c.node)) ==>
              ShareBounded(connected[s := Peer(c.node, !c.outbound)])
    ensures InboundOnly(tasks, connected) && Admits(connected, ipOf, c.node) ==> |connected| <= 1
  {
    hide Admits, ShareBounded, InboundOnly;
    if ShareBounded(connected) && (!c.outbound ==> Admits(connected, ipOf, c.node)) {
      AddKeepsShare(connected, ipOf, s, Peer(c.node, !c.outbound));
    }
    if InboundOnly(tasks, connected) && Admits(connected, ipOf, c.node) {
      AllInbound(tasks, connected, ipOf, c.node);
    }
  }

  lemma AllInbound(tasks: map<Task, Conn>, connected: map<Session, Peer>, ipOf: Node -> Address, n: Node)
    requires InboundOnly(tasks, connected) && Admits(connected, ipOf, n)
    ensures |connected| <= 1
  {
    SessionsSplit(connected);
    forall s
      ensures s !in OutboundSessions(connected)
    {
    }
  }

  lemma AdmitsIs(connected: map<Session, Peer>, ipOf: Node -> Address, n: Node)
    ensures Admits(connected, ipOf, n) <==>
              && |SessionsAt(connected, ipOf, ipOf(n))| <= SAME_ADDRESS_LIMIT
              && !(|connected| > 1 && 4 * |InboundSessions(connected)| > 3 * |connected|)
  {
    hide InboundSessions, OutboundSessions;
    SessionsSplit(connected);
    assert (set s | s in connected && ipOf(connected[s].node) == ipOf(n)) == SessionsAt(connected, ipOf, ipOf(n));
  }

  class PeerPool {
    const maxPeers: nat
    const ipOf: Node -> Address
    const locks: ResourceLock
    var connected: map<Session, Peer>
    var tasks: map<Task, Conn>

    ghost predicate Valid()
      reads this, locks
    {
      && locks.Valid() && Tracked(tasks, locks.users) && Exclusive(locks.users)
      && Single(tasks, connected) && |connected| <= maxPeers && AddressesBounded(connected, ipOf)
    }

    constructor (maxPeers: nat, ipOf: Node -> Address)
      ensures Valid() && connected == map[] && tasks == map[] && fresh(locks)
      ensures this.maxPeers == maxPeers && this.ipOf == ipOf
    {
      this.maxPeers, this.ipOf := maxPeers, ipOf;
      locks := new ResourceLock();
      connected, tasks := map[], map[];
    }

    predicate IsFull()
      reads this
    {
      |connected| >= maxPeers
    }

    predicate IsConnectedTo(n: Node)
      reads this
    {
      exists s :: s in connected && connected[s].node == n
    }

    /** The check on inbound connections from one address: it passes while there are two or fewer. */
    predicate IsValidCandidate(n: Node)
      reads this
    {
      |SessionsAt(connected, ipOf, ipOf(n))| <= SAME_ADDRESS_LIMIT
    }

    /** More than three quarters of the sessions are inbound. */
    predicate TooManyInbound()
      reads this
    {
      |connected| > 1 && 4 * |InboundSessions(connected)| > 3 * |connected|
    }

    /** A connection task asks for its node's lock; an outbound one gives up early if there is no point. */
    method BeginTask(t: Task, n: Node, outbound: bool, running: bool)
      requires Valid() && t !in tasks
      modifies this, locks
      ensures Valid() && connected == old(connected)
      ensures tasks == if outbound && (|connected| >= maxPeers || !running) then old(tasks)
                       else if Busy(old(tasks), n) then old(tasks)[t := Conn(n, outbound, Queued)]
                       else Granted(old(tasks)[t := Conn(n, outbound, Queued)], connected, t)
    {
      hide ResourceLock.Valid, Tracked, Single, UsersOf, Busy, Granted, Absent;
      if outbound && (IsFull() || !running) {
        return;
      }
      SameTasks(tasks, locks.users, n);
      ghost var users := locks.users;
      var acquired := locks.Enter(t, n);
      ExclusiveHolders(locks);
      tasks := tasks[t := Conn(n, outbound, Queued)];
      NewTask(old(tasks), users, connected, t, n, outbound, locks.users[t].lock, acquired);
      if acquired {
        AfterLock(t);
      }
    }

    /** The first waiter of node n has been woken and runs. */
    method ResumeTask(n: Node) returns (t: Task)
      requires Valid() && n in locks.locks && locks.locks[n] in locks.objects && locks.objects[locks.locks[n]].woken
      modifies this, locks
      ensures Valid() && connected == old(connected)
      ensures old(locks.objects)[old(locks.locks)[n]].waiters != []
      ensures t == old(locks.objects)[old(locks.locks)[n]].waiters[0]
      ensures t in old(tasks) && old(tasks)[t].node == n && tasks == Granted(old(tasks), connected, t)
    {
      hide ResourceLock.Valid, Granted;
      t := locks.Resume(n);
      ExclusiveHolders(locks);
      AfterLock(t);
    }

    /** With the lock: an outbound task checks for an existing session, an inbound one starts its peer. */
    method AfterLock(t: Task)
      requires locks.Valid() && Exclusive(locks.users) && t in tasks && tasks[t].phase.Queued? && t in locks.users
      requires locks.users[t].holding
      requires tasks.Keys == locks.users.Keys && tasks[t].node == locks.users[t].node
      requires Tracked(tasks[t := tasks[t].(phase := Settled)], locks.users)
      requires Single(tasks, connected) && |connected| <= maxPeers && AddressesBounded(connected, ipOf)
      modifies this`tasks, locks
      ensures Valid() && tasks == Granted(old(tasks), connected, t)
    {
      hide ResourceLock.Valid, Tracked, Single;
      var c := tasks[t];
      if c.outbound && IsConnectedTo(c.node) {
        tasks := tasks[t := c.(phase := Settled)];
        SetPhase(old(tasks), locks.users, connected, t, Settled);
        assert tasks - {t} == old(tasks) - {t};
        LeaveTask(t);
      } else {
        var phase := if c.outbound then Dialing else Starting;
        tasks := tasks[t := c.(phase := phase)];
        SetPhase(old(tasks), locks.users, connected, t, phase);
      }
    }

    /** The handshake with the remote ended. */
    method DialFinished(t: Task, ok: bool)
      requires Valid() && t in tasks && tasks[t].phase.Dialing?
      modifies this`tasks, locks
      ensures Valid()
      ensures tasks == if ok then old(tasks)[t := old(tasks)[t].(phase := Starting)] else old(tasks) - {t}
    {
      hide ResourceLock.Valid;
      if ok {
        tasks := tasks[t := tasks[t].(phase := Starting)];
      } else {
        tasks := tasks[t := tasks[t].(phase := Settled)];
        assert tasks - {t} == old(tasks) - {t};
        LeaveTask(t);
      }
    }

    /**
     The peer was started, or failed to. The decision to add it and the adding itself happen without
     a suspension in between.
     */
    method PeerStarted(t: Task, session: Session, ok: bool, running: bool) returns (added: bool)
      requires Valid() && t in tasks && tasks[t].phase.Starting? && session !in connected
      modifies this`tasks, this`connected, locks
      ensures Valid()
      ensures var c := old(tasks)[t];
              connected == if added then old(connected)[session := Peer(c.node, !c.outbound)] else old(connected)
      ensures var c := old(tasks)[t];
              added <==> ok && |old(connected)| < maxPeers && Absent(old(connected), c.node) &&
                         if c.outbound then running else Admits(old(connected), ipOf, c.node)
      ensures var a := ipOf(old(tasks)[t].node);
              added ==> |SessionsAt(connected, ipOf, a)| == |SessionsAt(old(connected), ipOf, a)| + 1
      ensures tasks == if ok then old(tasks)[t := old(tasks)[t].(phase := Settled)] else old(tasks) - {t}
    {
      hide ResourceLock.Valid, Tracked, Single, AddressesBounded, SessionsAt, InboundSessions, Admits;
      var c := tasks[t];
      AdmitsIs(connected, ipOf, c.node);
      added := false;
      Settle(tasks, locks.users, connected, t);
      tasks := tasks[t := c.(phase := Settled)];
      if !ok {
        assert tasks - {t} == old(tasks) - {t};
        LeaveTask(t);
      } else if c.outbound {
        if !IsFull() && running {
          added := true;
        }
      } else {
        if !IsConnectedTo(c.node) && !IsFull() && IsValidCandidate(c.node) && !TooManyInbound() {
          added := true;
        }
      }
      if added {
        AddPeer(t, session);
      }
    }

    /** Adding a peer whose node has no session, by the task that holds the node's lock. */
    method AddPeer(t: Task, session: Session)
      requires Valid() && session !in connected && !IsFull()
      requires t in tasks && tasks[t].phase.Settled? && !IsConnectedTo(tasks[t].node)
      requires tasks[t].outbound || IsValidCandidate(tasks[t].node)
      modifies this`connected
      ensures Valid() && connected == old(connected)[session := Peer(tasks[t].node, !tasks[t].outbound)]
      ensures var a := ipOf(tasks[t].node);
              |SessionsAt(connected, ipOf, a)| == |SessionsAt(old(connected), ipOf, a)| + 1
    {
      hide ResourceLock.Valid, Tracked, Single, AddressesBounded, SessionsAt;
      AddAtAddress(connected, ipOf, session, Peer(tasks[t].node, !tasks[t].outbound));
      connected := connected[session := Peer(tasks[t].node, !tasks[t].outbound)];
      AddKeepsSingle(tasks, locks.users, old(connected), t, session);
    }

    /** A task whose decision is made leaves the lock region. */
    method LeaveTask(t: Task)
      requires Valid() && t in tasks && tasks[t].phase.Settled?
      modifies this`tasks, locks
      ensures Valid() && tasks == old(tasks) - {t}
    {
      hide ResourceLock.Valid;
      locks.Exit(t, tasks[t].node);
      ExclusiveHolders(locks);
      tasks := tasks - {t};
    }

    /** A peer finished, at any time; an unknown session is ignored. */
    method PeerFinished(session: Session)
      requires Valid()
      modifies this`connected
      ensures Valid() && connected == old(connected) - {session}
    {
      hide ResourceLock.Valid, AddressesBounded;
      LeaveAddress(connected, ipOf, session);
      if session in connected {
        connected := connected - {session};
      }
    }

    /** One thing that happens to the pool; what cannot happen in the current state is skipped. */
    method Happen(e: Event)
      requires Valid()
      modifies this, locks
      ensures Valid()
      ensures old(InboundOnly(tasks, connected)) && (e.Begin? ==> !e.outbound) ==> InboundOnly(tasks, connected)
      ensures old(ShareBounded(connected)) && !e.Finished? ==> ShareBounded(connected)
    {
      hide ResourceLock.Valid, Tracked, Single, AddressesBounded, ShareBounded, Admits;
      match e
      case Begin(t, n, outbound, running) =>
        if t !in tasks {
          BeginTask(t, n, outbound, running);
        }
      case Resumed(n) =>
        if n in locks.locks && locks.locks[n] in locks.objects && locks.objects[locks.locks[n]].woken {
          var _ := ResumeTask(n);
        }
      case Dialed(t, ok) =>
        if t in tasks && tasks[t].phase.Dialing? {
          DialFinished(t, ok);
        }
      case Started(t, s, ok, running) =>
        if t in tasks && tasks[t].phase.Starting? && s !in connected {
          var c := tasks[t];
          StartKeeps(tasks, connected, ipOf, c, s);
          var _ := PeerStarted(t, s, ok, running);
        }
      case Left(t) =>
        if t in tasks && tasks[t].phase.Settled? {
          LeaveTask(t);
        }
      case Finished(s) => PeerFinished(s);
    }

    /** Every interleaving of connection tasks and peer exits. */
    method Run(events: seq<Event>)
      requires Valid()
      modifies this, locks
      ensures Valid()
      ensures |connected| <= maxPeers
      ensures forall s, r :: s in connected && r in connected && connected[s].node == connected[r].node ==> s == r
      ensures forall a :: |SessionsAt(connected, ipOf, a) * InboundSessions(connected)| <= SAME_ADDRESS_LIMIT + 1
      ensures old(tasks == map[] && connected == map[]) && (forall e :: e in events && e.Begin? ==> !e.outbound) ==>
                |connected| <= 2
      ensures old(connected == map[]) && (forall e :: e in events ==> !e.Finished?) ==>
                || |InboundSessions(connected)| <= 3 * |OutboundSessions(connected)| + 1
                || |InboundSessions(connected)| <= 2
    {
      for i := 0 to |events|
        invariant Valid()
        invariant old(connected == map[]) && (forall e :: e in events ==> !e.Finished?) ==> ShareBounded(connected)
        invariant old(tasks == map[] && connected == map[]) && (forall e :: e in events && e.Begin? ==> !e.outbound) ==>
                    InboundOnly(tasks, connected)
      {
        assert events[i] in events;
        Happen(events[i]);
      }
    }
  }

  datatype Event =
    | Begin(t: Task, n: Node, outbound: bool, running: bool)
    | Resumed(n: Node)
    | Dialed(t: Task, ok: bool)
    | Started(t: Task, session: Session, ok: bool, running: bool)
    | Left(t: Task)
    | Finished(session: Session)

  lemma ExclusiveHolders(locks: ResourceLock)
    requires locks.Valid()
    ensures Exclusive(locks.users)
  {
  }

  lemma SameTasks(tasks: map<Task, Conn>, users: map<Task, Use>, n: Node)
    requires Tracked(tasks, users)
    ensures tasks.Keys == users.Keys && (Busy(tasks, n) <==> UsersOf(users, n) != {})
  {
    assert forall t :: t in UsersOf(users, n) <==> t in tasks && tasks[t].node == n;
  }

  lemma NewTask(tasks: map<Task, Conn>, users: map<Task, Use>, connected: map<Session, Peer>, t: Task, n: Node,
                outbound: bool, id: LockId, acquired: bool)
    requires Tracked(tasks, users) && Single(tasks, connected) && t !in tasks
    ensures var c, u := Conn(n, outbound, Queued), users[t := Use(n, id, acquired)];
            && Single(tasks[t := c], connected)
            && Tracked(tasks[t := if acquired then c.(phase := Settled) else c], u)
            && tasks[t := c].Keys == u.Keys
            && tasks[t := c][t := c.(phase := Settled)] == tasks[t := c.(phase := Settled)]
  {
  }

  /** A holder may take any phase past waiting, an outbound one only while its node is absent. */
  lemma SetPhase(tasks: map<Task, Conn>, users: map<Task, Use>, connected: map<Session, Peer>, t: Task, phase: Phase)
    requires t in tasks && Tracked(tasks[t := tasks[t].(phase := Settled)], users) && Single(tasks, connected)
    requires !phase.Queued?
    requires tasks[t].outbound && !phase.Settled? ==> Absent(connected, tasks[t].node)
    ensures Tracked(tasks[t := tasks[t].(phase := phase)], users)
    ensures Single(tasks[t := tasks[t].(phase := phase)], connected)
  {
  }

  /** A task that started its peer may settle; an outbound one still finds its node absent. */
  lemma Settle(tasks: map<Task, Conn>, users: map<Task, Use>, connected: map<Session, Peer>, t: Task)
    requires t in tasks && tasks[t].phase.Starting? && Tracked(tasks, users) && Single(tasks, connected)
    ensures Tracked(tasks[t := tasks[t].(phase := Settled)], users)
    ensures Single(tasks[t := tasks[t].(phase := Settled)], connected)
    ensures tasks[t].outbound ==> Absent(connected, tasks[t].node)
  {
  }

  lemma AddKeepsSingle(tasks: map<Task, Conn>, users: map<Task, Use>, connected: map<Session, Peer>, t: Task,
                       session: Session)
    requires Tracked(tasks, users) && Exclusive(users) && Single(tasks, connected)
    requires t in tasks && tasks[t].phase.Settled? && Absent(connected, tasks[t].node)
    ensures Single(tasks, connected[session := Peer(tasks[t].node, !tasks[t].outbound)])
  {
  }
}

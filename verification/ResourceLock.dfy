/**
 A reference-counted lock per resource (p2p/resource_lock.py).

 Each method is what one task does between two suspension points; any interleaving is a sequence of
 such calls. `asyncio.Lock` is modelled as it is implemented.
 */
module ResourceLocks {
  import opened Collections

  type Node = int
  /** A connection task inside lock(). */
  type Task = nat
  /** The identity of a lock object. */
  type LockId = nat

  /** An asyncio.Lock: its flag, its waiters, and whether the first of them was woken. */
  datatype AsyncLock = AsyncLock(locked: bool, waiters: seq<Task>, woken: bool)

  /** A task between entering and leaving lock(node), the lock object it uses, and whether it has it. */
  datatype Use = Use(node: Node, lock: LockId, holding: bool)

  ghost function UsersOf(users: map<Task, Use>, n: Node): set<Task>
  {
    set t | t in users && users[t].node == n
  }

  ghost function WaitersOf(users: map<Task, Use>, n: Node): set<Task>
  {
    set t | t in users && users[t].node == n && !users[t].holding
  }

  ghost predicate Held(users: map<Task, Use>, n: Node)
  {
    exists t :: t in users && users[t].node == n && users[t].holding
  }

  /** A lock object agrees with the tasks that use it for node n. */
  ghost predicate Agrees(lock: AsyncLock, users: map<Task, Use>, n: Node)
  {
    && NoDuplicates(lock.waiters) && Elements(lock.waiters) == WaitersOf(users, n)
    && (lock.locked <==> Held(users, n))
    && (lock.woken ==> lock.waiters != [] && !lock.locked)
    && (lock.waiters != [] ==> lock.locked || lock.woken)
  }

  /** The reference count of a node is the number of tasks using its lock object. */
  ghost predicate Counted(count: nat, lock: AsyncLock, users: map<Task, Use>, n: Node)
  {
    count == |UsersOf(users, n)| && count > 0 && Agrees(lock, users, n)
  }

  /** No two tasks hold the lock of the same node. */
  ghost predicate Exclusive(users: map<Task, Use>)
  {
    forall t, u ::
      t in users && u in users && users[t].node == users[u].node && users[t].holding && users[u].holding ==> t == u
  }

  /** Lock objects exist exactly for the nodes in use, and all tasks of a node use the same one. */
  ghost predicate Table(locks: map<Node, LockId>, refs: map<Node, nat>, objects: map<LockId, AsyncLock>,
                        users: map<Task, Use>)
  {
    && refs.Keys == locks.Keys
    && (forall n, m :: n in locks && m in locks && locks[n] == locks[m] ==> n == m)
    && (forall t :: t in users ==> users[t].node in locks && users[t].lock == locks[users[t].node])
    && (forall n :: n in locks ==> locks[n] in objects && Counted(refs[n], objects[locks[n]], users, n))
    && Exclusive(users)
  }

  class ResourceLock {
    var locks: map<Node, LockId>
    var refs: map<Node, nat>
    var objects: map<LockId, AsyncLock>
    var nextId: LockId
    ghost var users: map<Task, Use>

    ghost predicate Valid()
      reads this
    {
      Table(locks, refs, objects, users) && forall id :: id in objects ==> id < nextId
    }

    constructor ()
      ensures Valid() && users == map[]
    {
      locks, refs, objects, nextId, users := map[], map[], map[], 0, map[];
    }

    /** Entering lock(n): make sure there is a lock object, count the reference, try to take it. */
    method Enter(t: Task, n: Node) returns (acquired: bool)
      requires Valid() && t !in users
      modifies this
      ensures Valid()
      ensures exists id :: users == old(users)[t := Use(n, id, acquired)]
      ensures acquired <==> old(UsersOf(users, n)) == {}
    {
      hide Table;
      if n !in locks {
        NoUsers(locks, refs, objects, users, n);
        EnterNew(locks, refs, objects, users, nextId, t, n);
        objects := objects[nextId := AsyncLock(true, [], false)];
        locks := locks[n := nextId];
        refs := refs[n := 1];
        users := users[t := Use(n, nextId, true)];
        nextId := nextId + 1;
        return true;
      }
      SomeUser(locks, refs, objects, users, n);
      refs := refs[n := refs[n] + 1];
      var id := locks[n];
      var lock := objects[id];
      // acquire(): immediate only if the lock is free and nobody waits
      acquired := !lock.locked && lock.waiters == [];
      EnterOld(locks, old(refs), objects, users, t, n);
      objects := objects[id := if acquired then lock.(locked := true) else lock.(waiters := lock.waiters + [t])];
      users := users[t := Use(n, id, acquired)];
    }

    /** A woken waiter of node n runs again and takes the lock. */
    method Resume(n: Node) returns (t: Task)
      requires Valid() && n in locks && locks[n] in objects && objects[locks[n]].woken
      modifies this`objects, this`users
      ensures Valid()
      ensures old(objects)[locks[n]].waiters != [] && t == old(objects)[locks[n]].waiters[0]
      ensures t in old(users) && old(users)[t].node == n && !old(users)[t].holding
      ensures users == old(users)[t := old(users)[t].(holding := true)]
    {
      hide Table;
      ResumeKeeps(locks, refs, objects, users, n);
      var lock := objects[locks[n]];
      t := lock.waiters[0];
      objects := objects[locks[n] := AsyncLock(true, lock.waiters[1..], false)];
      users := users[t := users[t].(holding := true)];
    }

    /** Leaving lock(n): release, drop the reference, and drop the lock object with the last one. */
    method Exit(t: Task, n: Node)
      requires Valid() && t in users && users[t].holding && users[t].node == n
      modifies this
      ensures Valid() && users == old(users) - {t}
      ensures n in locks <==> UsersOf(users, n) != {}
    {
      hide Table;
      HolderFacts(locks, refs, objects, users, t);
      var id := locks[n];
      var lock := objects[id];
      if refs[n] > 1 {
        ExitShared(locks, refs, objects, users, t, n);
      } else {
        ExitLast(locks, refs, objects, users, t, n, AsyncLock(false, lock.waiters, lock.waiters != []));
      }
      objects := objects[id := AsyncLock(false, lock.waiters, lock.waiters != [])];
      refs := refs[n := refs[n] - 1];
      users := users - {t};
      if refs[n] <= 0 {
        assert refs - {n} == old(refs) - {n};
        refs := refs - {n};
        locks := locks - {n};
        NoUsers(locks, refs, objects, users, n);
      } else {
        SomeUser(locks, refs, objects, users, n);
      }
    }

    /** Mutual exclusion, whatever lock objects were created and dropped on the way. */
    lemma OneHolder(t: Task, u: Task)
      requires Valid() && t in users && u in users && users[t].node == users[u].node
      requires users[t].holding && users[u].holding
      ensures t == u
    {
    }
  }

  lemma NoUsers(locks: map<Node, LockId>, refs: map<Node, nat>, objects: map<LockId, AsyncLock>,
                users: map<Task, Use>, n: Node)
    requires Table(locks, refs, objects, users) && n !in locks
    ensures UsersOf(users, n) == {} && refs.Keys == locks.Keys
  {
  }

  /** A node that has a lock object has a task using it, so the lock is taken or waited for. */
  lemma SomeUser(locks: map<Node, LockId>, refs: map<Node, nat>, objects: map<LockId, AsyncLock>,
                 users: map<Task, Use>, n: Node)
    requires Table(locks, refs, objects, users) && n in locks
    ensures UsersOf(users, n) != {} && n in refs && locks[n] in objects
    ensures var lock := objects[locks[n]]; lock.locked || lock.waiters != []
  {
    var lock := objects[locks[n]];
    assert |UsersOf(users, n)| > 0;
    var t := Pick(UsersOf(users, n));
    if !users[t].holding {
      assert t in WaitersOf(users, n) && t in Elements(lock.waiters);
    }
  }

  /** What changes for one task of another node does not concern node m. */
  lemma OtherNode(count: nat, lock: AsyncLock, users: map<Task, Use>, users': map<Task, Use>, t: Task, m: Node)
    requires Counted(count, lock, users, m)
    requires forall u :: u != t ==> (u in users <==> u in users') && (u in users ==> users[u] == users'[u])
    requires t in users ==> users[t].node != m
    requires t in users' ==> users'[t].node != m
    ensures Counted(count, lock, users', m)
  {
    assert UsersOf(users', m) == UsersOf(users, m) && WaitersOf(users', m) == WaitersOf(users, m);
    SameHolders(users, users', m);
  }

  lemma SameHolders(users: map<Task, Use>, users': map<Task, Use>, n: Node)
    requires forall t :: (t in users && users[t].node == n && users[t].holding) <==>
                         (t in users' && users'[t].node == n && users'[t].holding)
    ensures Held(users', n) <==> Held(users, n)
  {
  }

  lemma FirstUser(users: map<Task, Use>, id: LockId, t: Task, n: Node)
    requires t !in users && forall u :: u in users ==> users[u].node != n
    ensures Counted(1, AsyncLock(true, [], false), users[t := Use(n, id, true)], n)
  {
    var users' := users[t := Use(n, id, true)];
    assert UsersOf(users', n) == {t};
    assert WaitersOf(users', n) == {};
    assert users'[t].holding && users'[t].node == n;
  }

  lemma EnterNew(locks: map<Node, LockId>, refs: map<Node, nat>, objects: map<LockId, AsyncLock>, users: map<Task, Use>,
                 id: LockId, t: Task, n: Node)
    requires Table(locks, refs, objects, users) && n !in locks && id !in objects && t !in users
    ensures Table(locks[n := id], refs[n := 1], objects[id := AsyncLock(true, [], false)], users[t := Use(n, id, true)])
  {
    hide Counted;
    var users' := users[t := Use(n, id, true)];
    FirstUser(users, id, t, n);
    forall m | m in locks
      ensures Counted(refs[m], objects[locks[m]], users', m)
    {
      OtherNode(refs[m], objects[locks[m]], users, users', t, m);
    }
  }

  lemma Join(count: nat, lock: AsyncLock, users: map<Task, Use>, id: LockId, t: Task, n: Node)
    requires Counted(count, lock, users, n) && t !in users && (lock.locked || lock.waiters != [])
    ensures Counted(count + 1, lock.(waiters := lock.waiters + [t]), users[t := Use(n, id, false)], n)
  {
    var users' := users[t := Use(n, id, false)];
    assert UsersOf(users', n) == UsersOf(users, n) + {t};
    assert WaitersOf(users', n) == WaitersOf(users, n) + {t};
    assert t !in Elements(lock.waiters);
    AppendElement(lock.waiters, t);
    SameHolders(users, users', n);
  }

  lemma EnterOld(locks: map<Node, LockId>, refs: map<Node, nat>, objects: map<LockId, AsyncLock>, users: map<Task, Use>,
                 t: Task, n: Node)
    requires Table(locks, refs, objects, users) && n in locks && t !in users
    requires n in refs && locks[n] in objects
    requires var lock := objects[locks[n]]; lock.locked || lock.waiters != []
    ensures var id := locks[n];
            var lock := objects[id];
            Table(locks, refs[n := refs[n] + 1], objects[id := lock.(waiters := lock.waiters + [t])],
                  users[t := Use(n, id, false)])
  {
    hide Counted;
    var id := locks[n];
    var lock := objects[id];
    var users' := users[t := Use(n, id, false)];
    Join(refs[n], lock, users, id, t, n);
    forall m | m in locks && m != n
      ensures Counted(refs[m], objects[locks[m]], users', m)
    {
      OtherNode(refs[m], objects[locks[m]], users, users', t, m);
    }
  }

  /** The woken waiter takes the lock. */
  lemma Promote(count: nat, lock: AsyncLock, users: map<Task, Use>, t: Task, n: Node)
    requires Counted(count, lock, users, n) && lock.woken && t == lock.waiters[0]
    ensures t in users && users[t].node == n && !users[t].holding && !Held(users, n)
    ensures Counted(count, AsyncLock(true, lock.waiters[1..], false), users[t := users[t].(holding := true)], n)
  {
    DropElement(lock.waiters, 0);
    assert lock.waiters[0..] == lock.waiters;
    assert t in Elements(lock.waiters) && t in WaitersOf(users, n);
    var users' := users[t := users[t].(holding := true)];
    assert UsersOf(users', n) == UsersOf(users, n);
    assert WaitersOf(users', n) == WaitersOf(users, n) - {t};
    assert users'[t].holding && users'[t].node == n;
  }

  lemma ResumeKeeps(locks: map<Node, LockId>, refs: map<Node, nat>, objects: map<LockId, AsyncLock>,
                    users: map<Task, Use>, n: Node)
    requires Table(locks, refs, objects, users) && n in locks && locks[n] in objects && objects[locks[n]].woken
    ensures var lock := objects[locks[n]];
            && lock.waiters != []
            && var t := lock.waiters[0];
               && t in users && users[t].node == n && !users[t].holding && users[t].lock == locks[n]
               && Table(locks, refs, objects[locks[n] := AsyncLock(true, lock.waiters[1..], false)],
                        users[t := users[t].(holding := true)])
  {
    WokenHasWaiter(refs[n], objects[locks[n]], users, n);
    hide Counted;
    var lock := objects[locks[n]];
    var t := lock.waiters[0];
    Promote(refs[n], lock, users, t, n);
    var users' := users[t := users[t].(holding := true)];
    forall m | m in locks && m != n
      ensures Counted(refs[m], objects[locks[m]], users', m)
    {
      OtherNode(refs[m], objects[locks[m]], users, users', t, m);
    }
    NewHolder(users, t);
  }

  lemma WokenHasWaiter(count: nat, lock: AsyncLock, users: map<Task, Use>, n: Node)
    requires Counted(count, lock, users, n)
    ensures lock.woken ==> lock.waiters != []
  {
  }

  lemma NewHolder(users: map<Task, Use>, t: Task)
    requires Exclusive(users) && t in users && !Held(users, users[t].node)
    ensures Exclusive(users[t := users[t].(holding := true)])
  {
  }

  /** The holder leaves: the first waiter is woken, or the lock object has no user left. */
  lemma Leave(count: nat, lock: AsyncLock, users: map<Task, Use>, t: Task, n: Node)
    requires Counted(count, lock, users, n) && Exclusive(users) && t in users && users[t].node == n && users[t].holding
    ensures count > 1 ==> Counted(count - 1, AsyncLock(false, lock.waiters, lock.waiters != []), users - {t}, n)
    ensures count == 1 ==> UsersOf(users - {t}, n) == {}
  {
    var users' := users - {t};
    assert t in UsersOf(users, n) && UsersOf(users', n) == UsersOf(users, n) - {t};
    assert |UsersOf(users', n)| == count - 1;
    assert WaitersOf(users', n) == WaitersOf(users, n);
    assert !Held(users', n);
  }

  lemma HolderFacts(locks: map<Node, LockId>, refs: map<Node, nat>, objects: map<LockId, AsyncLock>,
                    users: map<Task, Use>, t: Task)
    requires Table(locks, refs, objects, users) && t in users
    ensures var n := users[t].node;
            n in locks && n in refs && refs[n] > 0 && locks[n] in objects && users[t].lock == locks[n]
  {
  }

  lemma OthersKept(locks: map<Node, LockId>, refs: map<Node, nat>, objects: map<LockId, AsyncLock>,
                   users: map<Task, Use>, t: Task)
    requires Table(locks, refs, objects, users) && t in users
    ensures forall m :: m in locks && m != users[t].node ==> Counted(refs[m], objects[locks[m]], users - {t}, m)
  {
    hide Counted;
    forall m | m in locks && m != users[t].node
      ensures Counted(refs[m], objects[locks[m]], users - {t}, m)
    {
      OtherNode(refs[m], objects[locks[m]], users, users - {t}, t, m);
    }
  }

  lemma ExitShared(locks: map<Node, LockId>, refs: map<Node, nat>, objects: map<LockId, AsyncLock>,
                   users: map<Task, Use>, t: Task, n: Node)
    requires Table(locks, refs, objects, users) && t in users && users[t].holding && users[t].node == n
    requires n in refs && n in locks && locks[n] in objects && refs[n] > 1
    ensures var lock := objects[locks[n]];
            Table(locks, refs[n := refs[n] - 1],
                  objects[locks[n] := AsyncLock(false, lock.waiters, lock.waiters != [])], users - {t})
  {
    hide Counted;
    Leave(refs[n], objects[locks[n]], users, t, n);
    OthersKept(locks, refs, objects, users, t);
  }

  lemma ExitLast(locks: map<Node, LockId>, refs: map<Node, nat>, objects: map<LockId, AsyncLock>,
                 users: map<Task, Use>, t: Task, n: Node, o: AsyncLock)
    requires Table(locks, refs, objects, users) && t in users && users[t].holding && users[t].node == n
    requires n in refs && n in locks && locks[n] in objects && refs[n] == 1
    ensures Table(locks - {n}, refs - {n}, objects[locks[n] := o], users - {t})
  {
    hide Counted;
    Leave(refs[n], objects[locks[n]], users, t, n);
    OthersKept(locks, refs, objects, users, t);
    var users' := users - {t};
    forall u | u in users'
      ensures users'[u].node != n
    {
      assert u !in UsersOf(users', n);
    }
  }
}

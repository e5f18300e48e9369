/** The routing table with replacement caches, and the XOR distance it is built on (p2p/kademlia.py). */
module Kademlia {
  import opened Collections
  import opened Bits

  /** Node ids read as big-endian integers. */
  type NodeId = nat

  const ID_BITS := 256
  const NUM_BUCKETS := 256

  ghost predicate IsId(x: nat)
  {
    x < Pow2(ID_BITS)
  }

  // -------------------------------------------------------------------------------------------
  // Distance
  // -------------------------------------------------------------------------------------------

  function Distance(a: NodeId, b: NodeId): nat
  {
    Xor(a, b)
  }

  /** The logarithmic distance of distinct ids; the source refuses equal ones. */
  function LogDistance(a: NodeId, b: NodeId): Option<nat>
  {
    if a == b then None else Some(BitLength(Distance(a, b)))
  }

  /** Log distance at most k means agreement on everything above the lowest k bits. */
  lemma {:induction false} LogDistanceIsPrefix(a: NodeId, b: NodeId, k: nat)
    ensures BitLength(Distance(a, b)) <= k <==> a / Pow2(k) == b / Pow2(k)
    decreases k
  {
    if k == 0 {
      XorZero(a);
      if Xor(a, b) == 0 {
        XorZero(b);
        XorInjective(a, b, b);
      }
    } else {
      XorHalves(a, b);
      LogDistanceIsPrefix(a / 2, b / 2, k - 1);
      HalfThenShift(a, Pow2(k - 1));
      HalfThenShift(b, Pow2(k - 1));
    }
  }

  lemma HalfThenShift(a: nat, p: nat)
    requires p > 0
    ensures a / 2 / p == a / (2 * p)
  {
    var q := a / (2 * p);
    var r := a % (2 * p);
    assert a == q * (2 * p) + r;
    assert a / 2 == q * p + r / 2 by { assert a == 2 * (q * p) + r; }
    assert 0 <= r / 2 < p;
    Quotient(a / 2, p, q, r / 2);
  }

  lemma Quotient(a: nat, p: nat, q: nat, r: nat)
    requires a == q * p + r && r < p
    ensures a / p == q
  {
    var k := q - a / p;
    assert k * p == a % p - r;
    MultipleIsBig(k, p);
  }

  lemma MultipleIsBig(k: int, p: int)
    requires p > 0
    ensures k >= 1 ==> k * p >= p
    ensures k <= -1 ==> k * p <= -p
  {
  }

  /** Every id but the center has a bucket. */
  lemma LogDistanceInRange(a: NodeId, b: NodeId)
    requires IsId(a) && IsId(b) && a != b
    ensures LogDistance(a, b).Some? && 1 <= LogDistance(a, b).value <= NUM_BUCKETS
  {
    hide Pow2;
    XorBelow(a, b, ID_BITS);
    BitLengthBounds(Xor(a, b), ID_BITS);
    if Xor(a, b) == 0 {
      XorZero(b);
      XorInjective(a, b, b);
    }
  }

  // -------------------------------------------------------------------------------------------
  // One bucket and its replacement cache
  // -------------------------------------------------------------------------------------------

  datatype Slot = Slot(bucket: seq<NodeId>, cache: seq<NodeId>)
  {
    ghost function Members(): set<NodeId>
    {
      Elements(bucket) + Elements(cache)
    }

    /** No id twice, the bucket within its size, and a cache only behind a full bucket. */
    ghost predicate Sound(size: nat)
    {
      && NoDuplicates(bucket) && NoDuplicates(cache) && Elements(bucket) !! Elements(cache)
      && |bucket| <= size && (cache != [] ==> |bucket| == size)
    }
  }

  /** A bounded deque drops from its other end when it is full. */
  function PushLeft(s: seq<NodeId>, x: NodeId, maxlen: nat): seq<NodeId>
  {
    if |s| < maxlen then [x] + s else ([x] + s)[..maxlen]
  }

  function PushRight(s: seq<NodeId>, x: NodeId, maxlen: nat): seq<NodeId>
  {
    if |s| < maxlen then s + [x] else (s + [x])[|s| + 1 - maxlen..]
  }

  lemma {:induction false} WithoutLength(s: seq<NodeId>, x: NodeId)
    requires NoDuplicates(s)
    ensures |Without(s, x)| == if x in s then |s| - 1 else |s|
  {
    if s != [] {
      assert s == [s[0]] + s[1..];
      assert NoDuplicates(s[1..]) && s[0] !in s[1..];
      WithoutLength(s[1..], x);
    }
  }

  lemma PrependFresh(s: seq<NodeId>, x: NodeId)
    requires NoDuplicates(s) && x !in s
    ensures NoDuplicates([x] + s) && Elements([x] + s) == Elements(s) + {x}
  {
  }

  lemma WithoutElements(s: seq<NodeId>, x: NodeId)
    requires NoDuplicates(s)
    ensures NoDuplicates(Without(s, x)) && Elements(Without(s, x)) == Elements(s) - {x} && x !in Without(s, x)
  {
    WithoutSpec(s, x);
    assert forall y :: y in Elements(Without(s, x)) <==> y in Elements(s) - {x};
  }

  /** Moving an id to the front of its bucket, when it is there already or there is room. */
  lemma TouchSlot(s: Slot, x: NodeId, size: nat)
    requires s.Sound(size) && (x in s.bucket || |s.bucket| < size)
    ensures var s' := Slot(PushLeft(Without(s.bucket, x), x, size), Without(s.cache, x));
            && s'.Sound(size) && s'.Members() == s.Members() + {x}
            && s'.bucket == [x] + Without(s.bucket, x) && s'.cache == s.cache
  {
    WithoutElements(s.bucket, x);
    WithoutLength(s.bucket, x);
    WithoutElements(s.cache, x);
    WithoutLength(s.cache, x);
    PrependFresh(Without(s.bucket, x), x);
    assert x in s.bucket ==> x in Elements(s.bucket);
    AbsentUnchanged(s.cache, x);
  }

  lemma {:induction false} AbsentUnchanged(s: seq<NodeId>, x: NodeId)
    ensures x !in s ==> Without(s, x) == s
  {
    if s != [] && x !in s {
      assert s == [s[0]] + s[1..];
      AbsentUnchanged(s[1..], x);
    }
  }

  lemma CacheSlot(s: Slot, x: NodeId, size: nat)
    requires s.Sound(size) && x !in s.bucket && |s.bucket| == size
    ensures var s' := Slot(s.bucket, [x] + Without(s.cache, x));
            s'.Sound(size) && s'.Members() == s.Members() + {x}
  {
    WithoutElements(s.cache, x);
    PrependFresh(Without(s.cache, x), x);
    assert x !in Elements(s.bucket);
  }

  /** Removing from the bucket promotes the newest cache entry to the oldest place. */
  lemma RemoveFromBucket(s: Slot, x: NodeId, size: nat)
    requires s.Sound(size) && x in s.bucket
    ensures var rest := Without(s.bucket, x);
            var s' := if s.cache == [] then Slot(rest, []) else Slot(PushRight(rest, s.cache[0], size), s.cache[1..]);
            s'.Sound(size) && s'.Members() == s.Members() - {x} && (s.cache != [] ==> s'.bucket == rest + [s.cache[0]])
  {
    WithoutElements(s.bucket, x);
    WithoutLength(s.bucket, x);
    assert x in Elements(s.bucket);
    if s.cache != [] {
      var rest, r := Without(s.bucket, x), s.cache[0];
      DropElement(s.cache, 0);
      assert s.cache[0..] == s.cache;
      assert r in Elements(s.cache) && r !in Elements(rest);
      AppendElement(rest, r);
    }
  }

  lemma RemoveFromCache(s: Slot, x: NodeId, size: nat)
    requires s.Sound(size) && x in s.cache
    ensures var s' := Slot(s.bucket, Without(s.cache, x));
            s'.Sound(size) && s'.Members() == s.Members() - {x}
  {
    WithoutElements(s.cache, x);
    assert x in Elements(s.cache);
  }

  // -------------------------------------------------------------------------------------------
  // Recency of the buckets
  // -------------------------------------------------------------------------------------------

  /** When each bucket was last updated. */
  type Stamps = map<nat, nat>

  /** `order` lists the buckets in use, the most recently updated first. */
  ghost predicate Ranked(order: seq<nat>, inUse: set<nat>, stamps: Stamps, clock: nat)
  {
    && Elements(order) == inUse && inUse <= stamps.Keys
    && (forall i :: i in inUse ==> stamps[i] < clock)
    && Falling(order, stamps)
  }

  ghost predicate Falling(order: seq<nat>, stamps: Stamps)
  {
    && (forall i :: i in order ==> i in stamps)
    && (forall j, k :: 0 <= j < k < |order| ==> stamps[order[j]] > stamps[order[k]])
  }

  lemma {:induction false} FallingWithout(order: seq<nat>, stamps: Stamps, i: nat)
    requires Falling(order, stamps)
    ensures Falling(Without(order, i), stamps)
  {
    if order != [] {
      var rest := Without(order[1..], i);
      assert order == [order[0]] + order[1..];
      FallingWithout(order[1..], stamps, i);
      WithoutSpec(order[1..], i);
      forall x | x in rest
        ensures stamps[x] < stamps[order[0]]
      {
        assert x in order[1..];
      }
    }
  }

  lemma FallingDistinct(order: seq<nat>, stamps: Stamps)
    requires Falling(order, stamps)
    ensures NoDuplicates(order)
  {
  }

  lemma Touch(order: seq<nat>, inUse: set<nat>, stamps: Stamps, clock: nat, i: nat)
    requires Ranked(order, inUse, stamps, clock)
    ensures Ranked([i] + Without(order, i), inUse + {i}, stamps[i := clock], clock + 1)
  {
    var rest, stamps' := Without(order, i), stamps[i := clock];
    FallingDistinct(order, stamps);
    WithoutElements(order, i);
    FallingWithout(order, stamps, i);
    PrependFresh(rest, i);
    forall x | x in rest
      ensures x in inUse && x != i && stamps'[x] == stamps[x] < clock
    {
      assert x in Elements(rest);
    }
    assert Falling([i] + rest, stamps');
  }

  lemma Forget(order: seq<nat>, inUse: set<nat>, stamps: Stamps, clock: nat, i: nat)
    requires Ranked(order, inUse, stamps, clock)
    ensures Ranked(Without(order, i), inUse - {i}, stamps, clock)
  {
    FallingDistinct(order, stamps);
    WithoutElements(order, i);
    FallingWithout(order, stamps, i);
  }

  // -------------------------------------------------------------------------------------------
  // Recency within a bucket
  // -------------------------------------------------------------------------------------------

  /** When each id was last passed to update(). */
  type Heard = map<NodeId, nat>

  /**
   A bucket lists the ids that were updated in it, the latest first, and behind them those that were
   promoted from the cache since.
   */
  ghost predicate Seated(s: Slot, heard: Heard, promoted: set<NodeId>, clock: nat)
  {
    && (forall x :: x in s.bucket || x in s.cache ==> x in heard && heard[x] < clock)
    && InTurn(s.bucket, heard, promoted)
  }

  ghost predicate InTurn(bucket: seq<NodeId>, heard: Heard, promoted: set<NodeId>)
  {
    && (forall x :: x in bucket ==> x in heard)
    && forall j, k :: 0 <= j < k < |bucket| && bucket[k] !in promoted ==>
         bucket[j] !in promoted && heard[bucket[j]] > heard[bucket[k]]
  }

  lemma {:induction false} InTurnWithout(bucket: seq<NodeId>, heard: Heard, promoted: set<NodeId>, x: NodeId)
    requires InTurn(bucket, heard, promoted)
    ensures InTurn(Without(bucket, x), heard, promoted)
  {
    if bucket != [] {
      var rest := Without(bucket[1..], x);
      assert bucket == [bucket[0]] + bucket[1..];
      InTurnWithout(bucket[1..], heard, promoted, x);
      WithoutSpec(bucket[1..], x);
      forall y | y in rest && y !in promoted
        ensures bucket[0] !in promoted && heard[bucket[0]] > heard[y]
      {
        assert y in bucket[1..];
        var k :| 0 <= k < |bucket[1..]| && bucket[1..][k] == y;
        assert bucket[k + 1] == y;
      }
    }
  }

  /** An id that is updated in its bucket takes the first seat. */
  lemma SeatFirst(s: Slot, heard: Heard, promoted: set<NodeId>, clock: nat, x: NodeId)
    requires Seated(s, heard, promoted, clock) && x !in s.cache
    ensures Seated(Slot([x] + Without(s.bucket, x), s.cache), heard[x := clock], promoted - {x}, clock + 1)
  {
    var rest := Without(s.bucket, x);
    InTurnWithout(s.bucket, heard, promoted, x);
    WithoutSpec(s.bucket, x);
    forall y | y in rest
      ensures y in s.bucket && y != x && y in heard && heard[y] < clock
    {
    }
  }

  /** An id that is cached, or one of another bucket, takes no seat. */
  lemma SeatNone(s: Slot, s': Slot, heard: Heard, promoted: set<NodeId>, clock: nat, x: NodeId)
    requires Seated(s, heard, promoted, clock) && s'.bucket == s.bucket && x !in s.bucket
    requires forall y :: y in s'.cache ==> y in s.cache || y == x
    ensures Seated(s', heard[x := clock], promoted, clock + 1)
    ensures Seated(s', heard[x := clock], promoted - {x}, clock + 1)
  {
    forall y | y in s.bucket
      ensures y != x
    {
    }
  }

  /** A promoted id takes the last seat. */
  lemma SeatLast(s: Slot, heard: Heard, promoted: set<NodeId>, clock: nat, x: NodeId)
    requires Seated(s, heard, promoted, clock) && s.cache != [] && s.cache[0] !in s.bucket
    ensures Seated(Slot(Without(s.bucket, x) + [s.cache[0]], s.cache[1..]), heard, promoted + {s.cache[0]}, clock)
  {
    hide InTurn;
    var rest, c := Without(s.bucket, x), s.cache[0];
    InTurnWithout(s.bucket, heard, promoted, x);
    WithoutSpec(s.bucket, x);
    assert c in s.cache;
    assert forall y :: y in s.cache[1..] ==> y in s.cache;
    InTurnLast(rest, heard, promoted, c);
  }

  lemma InTurnLast(bucket: seq<NodeId>, heard: Heard, promoted: set<NodeId>, c: NodeId)
    requires InTurn(bucket, heard, promoted) && c in heard && c !in bucket
    ensures InTurn(bucket + [c], heard, promoted + {c})
  {
    var longer := bucket + [c];
    forall j, k | 0 <= j < k < |longer| && longer[k] !in promoted + {c}
      ensures longer[j] !in promoted + {c} && heard[longer[j]] > heard[longer[k]]
    {
      assert longer[k] == bucket[k] && longer[j] == bucket[j] && bucket[j] in bucket;
    }
  }

  lemma SeatElsewhere(s: Slot, heard: Heard, promoted: set<NodeId>, clock: nat, c: NodeId)
    requires Seated(s, heard, promoted, clock) && c !in s.bucket
    ensures Seated(s, heard, promoted + {c}, clock)
  {
    forall y | y in s.bucket
      ensures y != c
    {
    }
  }

  lemma SeatGone(s: Slot, s': Slot, heard: Heard, promoted: set<NodeId>, clock: nat, x: NodeId)
    requires Seated(s, heard, promoted, clock) && (s'.bucket == s.bucket || s'.bucket == Without(s.bucket, x))
    requires forall y :: y in s'.cache ==> y in s.cache
    ensures Seated(s', heard, promoted, clock)
  {
    InTurnWithout(s.bucket, heard, promoted, x);
    WithoutSpec(s.bucket, x);
  }

  /** Of the ids in a bucket this one was not updated for the longest time, unless it was promoted. */
  ghost predicate Oldest(bucket: seq<NodeId>, x: NodeId, heard: Heard, promoted: set<NodeId>)
  {
    && x in bucket && (forall y :: y in bucket ==> y in heard)
    && (x !in promoted ==> forall y :: y in bucket && y != x ==> heard[x] < heard[y])
  }

  ghost predicate AllSeated(slots: seq<Slot>, heard: Heard, promoted: set<NodeId>, clock: nat)
  {
    forall i :: 0 <= i < |slots| ==> Seated(slots[i], heard, promoted, clock)
  }

  // -------------------------------------------------------------------------------------------
  // The routing table
  // -------------------------------------------------------------------------------------------

  ghost function InUse(slots: seq<Slot>): set<nat>
  {
    set i | 0 <= i < |slots| && slots[i].bucket != []
  }

  ghost function AllMembers(slots: seq<Slot>): set<NodeId>
  {
    set i, x | 0 <= i < |slots| && x in slots[i].Members() :: x
  }

  /** Every id sits in the slot of its own log distance to the center. */
  ghost predicate Filed(center: NodeId, slots: seq<Slot>)
  {
    forall i, x :: 0 <= i < |slots| && x in slots[i].Members() ==> IsId(x) && LogDistance(center, x) == Some(i + 1)
  }

  lemma ReplaceSlot(center: NodeId, slots: seq<Slot>, i: nat, s: Slot, x: NodeId)
    requires Filed(center, slots) && i < |slots| && IsId(x) && LogDistance(center, x) == Some(i + 1)
    requires s.Members() == slots[i].Members() + {x} || s.Members() == slots[i].Members() - {x}
    ensures Filed(center, slots[i := s])
    ensures s.Members() == slots[i].Members() + {x} ==> AllMembers(slots[i := s]) == AllMembers(slots) + {x}
    ensures s.Members() == slots[i].Members() - {x} ==> AllMembers(slots[i := s]) == AllMembers(slots) - {x}
  {
    hide IsId, LogDistance;
    hide Slot.Members;
    var slots' := slots[i := s];
    forall j, y | 0 <= j < |slots'| && y in slots'[j].Members()
      ensures IsId(y) && LogDistance(center, y) == Some(j + 1)
    {
      assert y == x || y in slots[j].Members();
    }
    forall y | y != x
      ensures y in AllMembers(slots') <==> y in AllMembers(slots)
    {
      if y in AllMembers(slots) {
        var j :| 0 <= j < |slots| && y in slots[j].Members();
        assert y in slots'[j].Members();
      }
      if y in AllMembers(slots') {
        var j :| 0 <= j < |slots'| && y in slots'[j].Members();
        assert y in slots[j].Members();
      }
    }
    if x in s.Members() {
      assert x in slots'[i].Members();
    } else {
      forall j | 0 <= j < |slots'|
        ensures x !in slots'[j].Members()
      {
        assert j != i ==> LogDistance(center, x) != Some(j + 1);
      }
    }
  }

  lemma ReplaceInUse(slots: seq<Slot>, i: nat, s: Slot)
    requires i < |slots|
    ensures InUse(slots[i := s]) == if s.bucket != [] then InUse(slots) + {i} else InUse(slots) - {i}
  {
  }

  /** The id sits nowhere but in its own slot. */
  lemma NotElsewhere(center: NodeId, slots: seq<Slot>, i: nat, x: NodeId, j: nat)
    requires Filed(center, slots) && i < |slots| && j < |slots| && j != i && LogDistance(center, x) == Some(i + 1)
    ensures x !in slots[j].bucket && x !in slots[j].cache
  {
    hide IsId, LogDistance;
  }

  /** A slot without an id; a free place in the bucket goes to the first id in the cache. */
  ghost function Vacated(s: Slot, x: NodeId): Slot
  {
    if x !in s.bucket then if x in s.cache then Slot(s.bucket, Without(s.cache, x)) else s
    else if s.cache == [] then Slot(Without(s.bucket, x), [])
    else Slot(Without(s.bucket, x) + [s.cache[0]], s.cache[1..])
  }

  lemma VacateSlot(s: Slot, x: NodeId, size: nat)
    requires s.Sound(size)
    ensures Vacated(s, x).Sound(size) && Vacated(s, x).Members() == s.Members() - {x}
    ensures |s.bucket| <= size && (s.cache != [] ==> |s.bucket| == size)
    ensures Vacated(s, x).bucket != [] ==> s.bucket != []
    ensures x in s.bucket && s.cache != [] ==>
              PushRight(Without(s.bucket, x), s.cache[0], size) == Vacated(s, x).bucket
  {
    if x in s.bucket {
      RemoveFromBucket(s, x, size);
    } else if x in s.cache {
      RemoveFromCache(s, x, size);
    } else {
      assert x !in s.Members();
    }
  }

  lemma AllVacated(center: NodeId, slots: seq<Slot>, i: nat, x: NodeId, heard: Heard, promoted: set<NodeId>, clock: nat)
    requires Filed(center, slots) && i < |slots| && AllSeated(slots, heard, promoted, clock)
    requires slots[i].cache != [] ==> slots[i].cache[0] !in slots[i].bucket
    ensures var s := slots[i];
            AllSeated(slots[i := Vacated(s, x)], heard,
                      if x in s.bucket && s.cache != [] then promoted + {s.cache[0]} else promoted, clock)
  {
    hide Filed, AllSeated;
    var s := slots[i];
    if x in s.bucket && s.cache != [] {
      AllSeatLast(center, slots, i, x, heard, promoted, clock);
    } else {
      AllSeatGone(slots, i, Vacated(s, x), x, heard, promoted, clock);
    }
  }

  lemma AllSeatFirst(center: NodeId, slots: seq<Slot>, i: nat, x: NodeId, heard: Heard, promoted: set<NodeId>,
                     clock: nat)
    requires Filed(center, slots) && i < |slots| && LogDistance(center, x) == Some(i + 1) && x !in slots[i].cache
    requires AllSeated(slots, heard, promoted, clock)
    ensures var s := slots[i];
            AllSeated(slots[i := Slot([x] + Without(s.bucket, x), s.cache)], heard[x := clock], promoted - {x},
                      clock + 1)
  {
    hide Seated, Filed, LogDistance;
    SeatFirst(slots[i], heard, promoted, clock, x);
    forall j | 0 <= j < |slots| && j != i
      ensures Seated(slots[j], heard[x := clock], promoted - {x}, clock + 1)
    {
      NotElsewhere(center, slots, i, x, j);
      SeatNone(slots[j], slots[j], heard, promoted, clock, x);
    }
  }

  lemma AllSeatNone(center: NodeId, slots: seq<Slot>, i: nat, x: NodeId, heard: Heard, promoted: set<NodeId>,
                    clock: nat)
    requires Filed(center, slots) && i < |slots| && LogDistance(center, x) == Some(i + 1) && x !in slots[i].bucket
    requires AllSeated(slots, heard, promoted, clock)
    ensures var s := slots[i];
            AllSeated(slots[i := Slot(s.bucket, [x] + Without(s.cache, x))], heard[x := clock], promoted, clock + 1)
  {
    hide Seated, Filed, LogDistance;
    WithoutSpec(slots[i].cache, x);
    SeatNone(slots[i], Slot(slots[i].bucket, [x] + Without(slots[i].cache, x)), heard, promoted, clock, x);
    forall j | 0 <= j < |slots| && j != i
      ensures Seated(slots[j], heard[x := clock], promoted, clock + 1)
    {
      NotElsewhere(center, slots, i, x, j);
      SeatNone(slots[j], slots[j], heard, promoted, clock, x);
    }
  }

  lemma AllSeatLast(center: NodeId, slots: seq<Slot>, i: nat, x: NodeId, heard: Heard, promoted: set<NodeId>,
                    clock: nat)
    requires Filed(center, slots) && i < |slots| && slots[i].cache != [] && slots[i].cache[0] !in slots[i].bucket
    requires AllSeated(slots, heard, promoted, clock)
    ensures var s := slots[i];
            AllSeated(slots[i := Slot(Without(s.bucket, x) + [s.cache[0]], s.cache[1..])], heard,
                      promoted + {s.cache[0]}, clock)
  {
    hide Seated;
    var c := slots[i].cache[0];
    assert c in slots[i].Members() && LogDistance(center, c) == Some(i + 1) by {
      assert c in slots[i].cache;
    }
    hide Filed, LogDistance;
    SeatLast(slots[i], heard, promoted, clock, x);
    forall j | 0 <= j < |slots| && j != i
      ensures Seated(slots[j], heard, promoted + {c}, clock)
    {
      NotElsewhere(center, slots, i, c, j);
      SeatElsewhere(slots[j], heard, promoted, clock, c);
    }
  }

  lemma AllSeatGone(slots: seq<Slot>, i: nat, s': Slot, x: NodeId, heard: Heard, promoted: set<NodeId>, clock: nat)
    requires i < |slots| && AllSeated(slots, heard, promoted, clock)
    requires s'.bucket == slots[i].bucket || s'.bucket == Without(slots[i].bucket, x)
    requires s'.cache == [] || s'.cache == slots[i].cache || s'.cache == Without(slots[i].cache, x)
    ensures AllSeated(slots[i := s'], heard, promoted, clock)
  {
    hide Seated;
    WithoutSpec(slots[i].cache, x);
    SeatGone(slots[i], s', heard, promoted, clock, x);
  }

  /** Who has the last seat is the oldest. */
  lemma LastIsOldest(slots: seq<Slot>, i: nat, heard: Heard, promoted: set<NodeId>, clock: nat)
    requires i < |slots| && AllSeated(slots, heard, promoted, clock) && slots[i].bucket != []
    ensures var bucket := slots[i].bucket;
            Oldest(bucket, bucket[|bucket| - 1], heard, promoted)
  {
    var bucket := slots[i].bucket;
    var last := bucket[|bucket| - 1];
    assert Seated(slots[i], heard, promoted, clock) && last in bucket;
    forall y | y in bucket && y != last && last !in promoted
      ensures heard[last] < heard[y]
    {
      var k :| 0 <= k < |bucket| && bucket[k] == y;
    }
  }

  lemma NotCached(s: Slot, x: NodeId, size: nat)
    requires s.Sound(size) && (x in s.bucket || |s.bucket| < size)
    ensures x !in s.cache
  {
    assert forall y :: y in s.bucket ==> y in Elements(s.bucket);
    assert forall y :: y in s.cache ==> y in Elements(s.cache);
  }

  lemma CacheApart(slots: seq<Slot>, size: nat)
    requires forall i :: 0 <= i < |slots| ==> slots[i].Sound(size)
    ensures forall i :: 0 <= i < |slots| && slots[i].cache != [] ==> slots[i].cache[0] !in slots[i].bucket
  {
    forall i | 0 <= i < |slots| && slots[i].cache != []
      ensures slots[i].cache[0] !in slots[i].bucket
    {
      var s := slots[i];
      assert s.cache[0] in Elements(s.cache);
    }
  }

  lemma RankedLater(order: seq<nat>, inUse: set<nat>, stamps: Stamps, clock: nat)
    requires Ranked(order, inUse, stamps, clock)
    ensures Ranked(order, inUse, stamps, clock + 1)
  {
  }

  class RoutingTable {
    const center: NodeId
    const bucketSize: nat
    var slots: seq<Slot>
    var updateOrder: seq<nat>
    ghost var stamps: Stamps
    ghost var heard: Heard
    ghost var promoted: set<NodeId>
    ghost var clock: nat

    ghost predicate Valid()
      reads this
    {
      && IsId(center) && bucketSize >= 1 && |slots| == NUM_BUCKETS
      && (forall i :: 0 <= i < |slots| ==> slots[i].Sound(bucketSize))
      && Filed(center, slots)
      && Ranked(updateOrder, InUse(slots), stamps, clock)
      && AllSeated(slots, heard, promoted, clock)
    }

    /** Every id in the table, in a bucket or a replacement cache. */
    ghost function Members(): set<NodeId>
      reads this
    {
      AllMembers(slots)
    }

    constructor (center: NodeId, bucketSize: nat)
      requires IsId(center) && bucketSize >= 1
      ensures Valid() && Members() == {} && this.center == center && this.bucketSize == bucketSize
      ensures heard == map[] && promoted == {} && forall i :: 0 <= i < |slots| ==> slots[i] == Slot([], [])
    {
      hide IsId;
      this.center, this.bucketSize := center, bucketSize;
      slots := seq(NUM_BUCKETS, _ => Slot([], []));
      updateOrder, stamps, heard, promoted, clock := [], map[], map[], {}, 0;
      new;
      assert forall i :: 0 <= i < |slots| ==> slots[i] == Slot([], []) && slots[i].Members() == {};
    }

    /** Which slot an id belongs to. */
    method Locate(x: NodeId) returns (i: nat)
      requires Valid() && IsId(x) && x != center
      ensures i < |slots| && LogDistance(center, x) == Some(i + 1)
    {
      hide IsId;
      LogDistanceInRange(center, x);
      i := LogDistance(center, x).value - 1;
    }

    /** Inserts an id or moves it to the front; with a full bucket it goes to the replacement cache. */
    method Update(x: NodeId) returns (ok: bool, eviction: Option<NodeId>)
      requires Valid() && IsId(x)
      modifies this
      ensures Valid() && (ok <==> x != center)
      ensures Members() == if ok then old(Members()) + {x} else old(Members())
      ensures ok ==>
                exists i :: 0 <= i < |slots| && LogDistance(center, x) == Some(i + 1) &&
                  Updated(old(slots), old(updateOrder), i, x, eviction)
      ensures ok ==> heard == old(heard)[x := old(clock)] && clock == old(clock) + 1 && promoted <= old(promoted)
      ensures eviction.Some? ==>
                exists i :: 0 <= i < |slots| && Oldest(slots[i].bucket, eviction.value, heard, promoted)
      ensures !ok ==> unchanged(this)
    {
      hide IsId, Ranked, Filed, LogDistance, AllMembers, AllSeated, Oldest;
      hide Slot.Sound;
      hide Slot.Members;
      if x == center {
        return false, None;
      }
      var i := Locate(x);
      var s := slots[i];
      SoundSize(s, bucketSize);
      if x in s.bucket || |s.bucket| < bucketSize {
        UpdateBucketUnchecked(i, x);
        eviction := None;
      } else {
        CacheSlot(s, x, bucketSize);
        var s' := Slot(s.bucket, [x] + Without(s.cache, x));
        ReplaceSlot(center, slots, i, s', x);
        ReplaceInUse(slots, i, s');
        assert InUse(slots) + {i} == InUse(slots);
        AllSeatNone(center, slots, i, x, heard, promoted, clock);
        RankedLater(updateOrder, InUse(slots), stamps, clock);
        slots := slots[i := s'];
        heard, clock := heard[x := clock], clock + 1;
        eviction := Some(s.bucket[|s.bucket| - 1]);
        LastIsOldest(slots, i, heard, promoted, clock);
      }
      assert Updated(old(slots), old(updateOrder), i, x, eviction);
      ok := true;
    }

    /** The effect of an update on slot i: the id is in front, or cached with the oldest id up for eviction. */
    ghost predicate Updated(slots0: seq<Slot>, order0: seq<nat>, i: nat, x: NodeId, eviction: Option<NodeId>)
      requires i < |slots0|
      reads this
    {
      var s := slots0[i];
      if x in s.bucket || |s.bucket| < bucketSize then
        && slots == slots0[i := Slot([x] + Without(s.bucket, x), s.cache)]
        && updateOrder == [i] + Without(order0, i) && eviction == None
      else
        && slots == slots0[i := Slot(s.bucket, [x] + Without(s.cache, x))]
        && updateOrder == order0 && s.bucket != [] && eviction == Some(s.bucket[|s.bucket| - 1])
    }

    method UpdateBucketUnchecked(i: nat, x: NodeId)
      requires Valid() && i < |slots| && IsId(x) && LogDistance(center, x) == Some(i + 1)
      requires x in slots[i].bucket || |slots[i].bucket| < bucketSize
      modifies this
      ensures Valid() && Members() == old(Members()) + {x}
      ensures slots == old(slots)[i := Slot([x] + Without(old(slots)[i].bucket, x), old(slots)[i].cache)]
      ensures updateOrder == [i] + Without(old(updateOrder), i)
      ensures heard == old(heard)[x := old(clock)] && clock == old(clock) + 1 && promoted <= old(promoted)
    {
      hide IsId, Ranked, Filed, LogDistance, AllMembers, AllSeated;
      NotCached(slots[i], x, bucketSize);
      hide Slot.Sound;
      hide Slot.Members;
      var s := slots[i];
      AllSeatFirst(center, slots, i, x, heard, promoted, clock);
      var bucket, cache := Without(s.bucket, x), Without(s.cache, x);
      TouchSlot(s, x, bucketSize);
      var s' := Slot(PushLeft(bucket, x, bucketSize), cache);
      ReplaceSlot(center, slots, i, s', x);
      ReplaceInUse(slots, i, s');
      Touch(updateOrder, InUse(slots), stamps, clock, i);
      slots := slots[i := s'];
      updateOrder := [i] + Without(updateOrder, i);
      heard, promoted := heard[x := clock], promoted - {x};
      stamps, clock := stamps[i := clock], clock + 1;
    }

    /** Removes an id wherever it is; an id from a bucket is replaced from the cache. */
    method Remove(x: NodeId) returns (ok: bool)
      requires Valid() && IsId(x)
      modifies this
      ensures Valid() && (ok <==> x != center)
      ensures Members() == if ok then old(Members()) - {x} else old(Members())
      ensures ok ==>
                exists i :: 0 <= i < |slots| && LogDistance(center, x) == Some(i + 1) &&
                  Removed(old(slots), old(updateOrder), i, x)
      ensures heard == old(heard) && clock == old(clock)
      ensures forall c :: c in promoted && c !in old(promoted) ==>
                exists i :: 0 <= i < |old(slots)| && c in old(slots)[i].cache
      ensures !ok ==> unchanged(this)
    {
      hide IsId, Ranked, Filed, LogDistance, AllMembers, AllSeated, Vacated;
      CacheApart(slots, bucketSize);
      hide Slot.Sound;
      hide Slot.Members;
      if x == center {
        return false;
      }
      var i := Locate(x);
      var s := slots[i];
      VacateSlot(s, x, bucketSize);
      AllVacated(center, slots, i, x, heard, promoted, clock);
      var s' := TakeFrom(s, x);
      promoted := if x in s.bucket && s.cache != [] then promoted + {s.cache[0]} else promoted;
      ReplaceSlot(center, slots, i, s', x);
      ReplaceInUse(slots, i, s');
      Forget(updateOrder, InUse(slots), stamps, clock, i);
      slots := slots[i := s'];
      if s'.bucket == [] {
        updateOrder := Without(updateOrder, i);
      } else {
        assert InUse(slots) == old(InUse(slots));
      }
      assert Removed(old(slots), old(updateOrder), i, x);
      ok := true;
    }

    method TakeFrom(s: Slot, x: NodeId) returns (s': Slot)
      requires s.Sound(bucketSize)
      ensures s' == Vacated(s, x)
    {
      VacateSlot(s, x, bucketSize);
      hide Slot.Sound;
      s' := s;
      if x in s.bucket {
        var rest := Without(s.bucket, x);
        s' := if s.cache == [] then Slot(rest, []) else Slot(PushRight(rest, s.cache[0], bucketSize), s.cache[1..]);
      } else if x in s.cache {
        s' := Slot(s.bucket, Without(s.cache, x));
      }
    }

    ghost predicate Removed(slots0: seq<Slot>, order0: seq<nat>, i: nat, x: NodeId)
      requires i < |slots0|
      reads this
    {
      && i < |slots| && slots == slots0[i := Vacated(slots0[i], x)]
      && updateOrder == if slots[i].bucket == [] then Without(order0, i) else order0
    }

    /** The log distance of the bucket in use that was updated longest ago. */
    method LeastRecentlyUpdated() returns (d: Option<nat>)
      requires Valid()
      ensures d.None? <==> InUse(slots) == {}
      ensures d.Some? ==> d.value > 0 && d.value - 1 in InUse(slots) &&
                          forall i :: i in InUse(slots) && i != d.value - 1 ==> stamps[d.value - 1] < stamps[i]
    {
      hide IsId;
      if updateOrder == [] {
        assert Elements(updateOrder) == {};
        return None;
      }
      var last := updateOrder[|updateOrder| - 1];
      assert last in Elements(updateOrder);
      forall i | i in InUse(slots) && i != last
        ensures stamps[last] < stamps[i]
      {
        assert i in updateOrder;
        var j :| 0 <= j < |updateOrder| && updateOrder[j] == i;
      }
      return Some(last + 1);
    }
  }

  lemma SoundSize(s: Slot, size: nat)
    requires s.Sound(size)
    ensures |s.bucket| <= size && (s.cache != [] ==> |s.bucket| == size)
  {
  }

  lemma ThirdSlot(x: NodeId)
    requires 4 <= x < 8
    ensures IsId(x) && IsId(0) && x != 0 && LogDistance(0, x) == Some(3)
  {
    XorZero(x);
    assert BitLength(x / 4) == 1 && BitLength(x / 2) == 2;
    Pow2Grows(3, ID_BITS);
    assert Pow2(3) == 8;
  }

  lemma {:induction false} Pow2Grows(j: nat, k: nat)
    requires j <= k
    ensures Pow2(j) <= Pow2(k)
    decreases k
  {
    if j < k {
      Pow2Grows(j, k - 1);
    }
  }

  /** Updates an id of the third slot, with room for two. */
  method UpdateThird(table: RoutingTable, x: NodeId) returns (eviction: Option<NodeId>)
    requires table.Valid() && table.center == 0 && table.bucketSize == 2 && 4 <= x < 8
    requires x !in table.slots[2].bucket && x !in table.slots[2].cache
    modifies table
    ensures table.Valid() && table.heard == old(table.heard)[x := old(table.clock)]
    ensures table.clock == old(table.clock) + 1 && |table.slots| > 2
    ensures var s := old(table.slots)[2];
            if |s.bucket| < 2 then table.slots[2] == Slot([x] + s.bucket, s.cache) && eviction == None
            else |s.bucket| == 2 && table.slots[2] == Slot(s.bucket, [x] + s.cache) && eviction == Some(s.bucket[1])
  {
    hide IsId, LogDistance, AllMembers, Ranked, Filed, AllSeated, Oldest;
    SoundSize(table.slots[2], 2);
    hide Slot.Sound;
    hide Slot.Members;
    ThirdSlot(x);
    AbsentUnchanged(table.slots[2].bucket, x);
    AbsentUnchanged(table.slots[2].cache, x);
    var ok;
    ok, eviction := table.Update(x);
  }

  method RemoveThird(table: RoutingTable, x: NodeId)
    requires table.Valid() && table.center == 0 && 4 <= x < 8
    modifies table
    ensures table.Valid() && table.heard == old(table.heard) && table.clock == old(table.clock)
    ensures |table.slots| > 2
    ensures table.slots[2] == Vacated(old(table.slots)[2], x)
  {
    hide IsId, LogDistance, AllMembers, Ranked, Filed, AllSeated, Oldest, Vacated;
    hide Slot.Sound;
    hide Slot.Members;
    ThirdSlot(x);
    var ok := table.Remove(x);
  }

  /**
   The eviction candidate is not always the id that was not updated for the longest time. With room
   for two, 4 and 5 fill a bucket, 6 is cached, and 5 is removed: 6 takes the last seat behind the
   older 4, and is the one to go when 7 comes.
   */
  method NewcomerEvictedFirst() returns (table: RoutingTable, eviction: Option<NodeId>)
    ensures table.Valid() && eviction == Some(6)
    ensures 4 in table.heard && 6 in table.heard && table.heard[4] < table.heard[6]
    ensures table.slots[2].bucket == [4, 6]
  {
    hide RoutingTable.Valid;
    ThirdSlot(4);
    hide IsId;
    table := new RoutingTable(0, 2);
    ManySlots(table);
    var _ := UpdateThird(table, 4);
    var _ := UpdateThird(table, 5);
    assert table.slots[2] == Slot([5, 4], []);
    var _ := UpdateThird(table, 6);
    assert table.slots[2] == Slot([5, 4], [6]);
    RemoveThird(table, 5);
    assert Without([5, 4], 5) == [4] by {
      assert [5, 4][1..] == [4] && [4][1..] == [];
    }
    assert table.slots[2] == Slot([4, 6], []);
    eviction := UpdateThird(table, 7);
  }

  lemma ManySlots(table: RoutingTable)
    requires table.Valid()
    ensures |table.slots| > 2
  {
  }
}

/**
 The iterative node lookup (p2p/discovery.py) over the XOR distance (p2p/kademlia.py).

 Which nodes answer, and with what, is not known: the answers are an arbitrary function of the
 round and of the node asked.
 */
module Lookup {
  import opened Collections
  import opened Bits
  import opened Kademlia

  const BUCKET_SIZE := 16
  const FIND_CONCURRENCY := 3

  // -------------------------------------------------------------------------------------------
  // Sorting by distance
  // -------------------------------------------------------------------------------------------

  ghost predicate ByDistance(target: NodeId, ids: seq<NodeId>)
  {
    forall i, j :: 0 <= i < j < |ids| ==> Distance(ids[i], target) < Distance(ids[j], target)
  }

  function InsertByDistance(target: NodeId, x: NodeId, ids: seq<NodeId>): seq<NodeId>
  {
    if ids == [] || Distance(x, target) < Distance(ids[0], target) then [x] + ids
    else if x == ids[0] then ids
    else [ids[0]] + InsertByDistance(target, x, ids[1..])
  }

  /** The distinct ids, nearest first. */
  function SortByDistance(target: NodeId, ids: seq<NodeId>): seq<NodeId>
  {
    if ids == [] then [] else InsertByDistance(target, ids[0], SortByDistance(target, ids[1..]))
  }

  function Take(ids: seq<NodeId>, k: nat): seq<NodeId>
  {
    if k <= |ids| then ids[..k] else ids
  }

  lemma {:induction false} InsertByDistanceSpec(target: NodeId, x: NodeId, ids: seq<NodeId>)
    requires ByDistance(target, ids)
    ensures ByDistance(target, InsertByDistance(target, x, ids))
    ensures forall y :: y in InsertByDistance(target, x, ids) <==> y == x || y in ids
  {
    if ids != [] && !(Distance(x, target) < Distance(ids[0], target)) && x != ids[0] {
      var rest := InsertByDistance(target, x, ids[1..]);
      if Distance(x, target) == Distance(ids[0], target) {
        XorInjective(x, ids[0], target);
      }
      assert ids == [ids[0]] + ids[1..];
      InsertByDistanceSpec(target, x, ids[1..]);
      forall i | 0 <= i < |rest|
        ensures Distance(ids[0], target) < Distance(rest[i], target)
      {
        var y := rest[i];
        assert y in rest;
      }
    }
  }

  lemma {:induction false} SortByDistanceSpec(target: NodeId, ids: seq<NodeId>)
    ensures ByDistance(target, SortByDistance(target, ids))
    ensures Elements(SortByDistance(target, ids)) == Elements(ids)
  {
    if ids != [] {
      SortByDistanceSpec(target, ids[1..]);
      InsertByDistanceSpec(target, ids[0], SortByDistance(target, ids[1..]));
      var sorted := SortByDistance(target, ids);
      assert ids == [ids[0]] + ids[1..];
      forall y
        ensures y in sorted <==> y in ids
      {
        assert y in SortByDistance(target, ids[1..]) <==> y in Elements(SortByDistance(target, ids[1..]));
      }
    }
  }

  // -------------------------------------------------------------------------------------------
  // The k nearest
  // -------------------------------------------------------------------------------------------

  /** `near` are the k nearest of `all`, or all of them. */
  ghost predicate Nearest(target: NodeId, all: set<NodeId>, k: nat, near: set<NodeId>)
  {
    && near <= all && |near| == (if |all| < k then |all| else k)
    && forall x, y :: x in all - near && y in near ==> Distance(y, target) < Distance(x, target)
  }

  ghost function Closer(target: NodeId, ids: set<NodeId>, x: NodeId): set<NodeId>
  {
    set y | y in ids && Distance(y, target) < Distance(x, target)
  }

  /** What `some` leaves out of `all` cannot be among the k nearest. */
  ghost predicate Represents(target: NodeId, all: set<NodeId>, k: nat, some: set<NodeId>)
  {
    some <= all && forall x :: x in all - some ==> |Closer(target, some, x)| >= k
  }

  lemma SortedPrefixIsNearest(target: NodeId, ids: seq<NodeId>, k: nat)
    requires ByDistance(target, ids)
    ensures Nearest(target, Elements(ids), k, Elements(Take(ids, k)))
  {
    assert NoDuplicates(ids);
    CountElements(ids);
    var near := Take(ids, k);
    assert NoDuplicates(near);
    CountElements(near);
    forall x, y | x in ids && x !in near && y in near
      ensures Distance(y, target) < Distance(x, target)
    {
      var i :| 0 <= i < |ids| && ids[i] == x;
      var j :| 0 <= j < |near| && near[j] == y;
      assert i >= k && ids[j] == y;
    }
    forall x | x in near
      ensures x in ids
    {
    }
  }

  lemma Nearer(target: NodeId, all: set<NodeId>, k: nat, near: set<NodeId>, x: NodeId, y: NodeId)
    requires Nearest(target, all, k, near) && x in all && x !in near && y in near
    ensures Distance(y, target) < Distance(x, target)
  {
  }

  /** There is only one set of k nearest nodes, so the rounds of a lookup are determined by the answers. */
  lemma NearestUnique(target: NodeId, all: set<NodeId>, k: nat, a: set<NodeId>, b: set<NodeId>)
    requires Nearest(target, all, k, a) && Nearest(target, all, k, b)
    ensures a == b
  {
    assert |a - b| + |a * b| == |a| && |b - a| + |a * b| == |b|;
    if a - b != {} {
      assert |b - a| > 0;
      var x := Pick(a - b);
      var y := Pick(b - a);
      Nearer(target, all, k, a, y, x);
      Nearer(target, all, k, b, x, y);
      assert false;
    }
    SubsetSize(a, b);
  }

  lemma NearestRepresents(target: NodeId, all: set<NodeId>, k: nat, near: set<NodeId>)
    requires Nearest(target, all, k, near)
    ensures Represents(target, all, k, near)
  {
    forall x | x in all - near
      ensures |Closer(target, near, x)| >= k
    {
      SubsetSize(near, all);
      assert Closer(target, near, x) == near;
    }
  }

  /** Keeping only the k nearest so far loses nothing: the k nearest of those and the news are right. */
  lemma NearestOfMore(target: NodeId, all: set<NodeId>, k: nat, some: set<NodeId>, news: set<NodeId>, near: set<NodeId>)
    requires Represents(target, all, k, some) && Nearest(target, some + news, k, near)
    ensures Nearest(target, all + news, k, near)
  {
    forall x | x in (all + news) - (some + news)
      ensures |near| == k && forall y :: y in near ==> Distance(y, target) < Distance(x, target)
    {
      LeftOutIsFar(target, all, k, some, news, near, x);
    }
    var left := (all + news) - (some + news);
    SubsetSize(some + news, all + news);
    SubsetSize(near, all + news);
    if left == {} {
      forall x | x in all + news
        ensures x in some + news
      {
        assert x !in left;
      }
      assert all + news == some + news;
    } else {
      var x := Pick(left);
    }
  }

  lemma LeftOutIsFar(target: NodeId, all: set<NodeId>, k: nat, some: set<NodeId>, news: set<NodeId>,
                     near: set<NodeId>, x: NodeId)
    requires Represents(target, all, k, some) && Nearest(target, some + news, k, near)
    requires x in all && x !in some && x !in news
    ensures |near| == k && forall y :: y in near ==> Distance(y, target) < Distance(x, target)
  {
    assert |Closer(target, some, x)| >= k;
    SubsetSize(Closer(target, some, x), some + news);
    forall y | y in near
      ensures Distance(y, target) < Distance(x, target)
    {
      if !(Distance(y, target) < Distance(x, target)) {
        FarOnesAddUp(target, k, some, news, near, x, y);
      }
    }
  }

  /** If a chosen id is no nearer than x, everything known to be nearer than x was chosen as well. */
  lemma FarOnesAddUp(target: NodeId, k: nat, some: set<NodeId>, news: set<NodeId>, near: set<NodeId>, x: NodeId,
                     y: NodeId)
    requires Nearest(target, some + news, k, near) && y in near && Distance(x, target) <= Distance(y, target)
    ensures |near| > |Closer(target, some, x)|
  {
    var closer := Closer(target, some, x);
    forall z | z in closer
      ensures z in near
    {
      assert z in (some + news) - near ==> Distance(y, target) < Distance(z, target);
    }
    SubsetSize(closer + {y}, near);
    assert |closer + {y}| == |closer| + 1;
  }

  // -------------------------------------------------------------------------------------------
  // The lookup
  // -------------------------------------------------------------------------------------------

  function NotAsked(ids: seq<NodeId>, asked: set<NodeId>): seq<NodeId>
  {
    if ids == [] then [] else (if ids[0] in asked then [] else [ids[0]]) + NotAsked(ids[1..], asked)
  }

  lemma {:induction false} NotAskedSpec(ids: seq<NodeId>, asked: set<NodeId>)
    ensures Elements(NotAsked(ids, asked)) == Elements(ids) - asked
  {
    if ids != [] {
      NotAskedSpec(ids[1..], asked);
      var rest := NotAsked(ids[1..], asked);
      assert ids == [ids[0]] + ids[1..];
      assert forall y :: y in rest <==> y in Elements(rest);
      assert forall y :: y in NotAsked(ids, asked) <==> y in ids && y !in asked;
    }
  }

  /** The nearest few that were not asked yet. */
  function ExcludeIfAsked(target: NodeId, ids: seq<NodeId>, asked: set<NodeId>): seq<NodeId>
  {
    Take(SortByDistance(target, NotAsked(ids, asked)), FIND_CONCURRENCY)
  }

  lemma ExcludeIfAskedSpec(target: NodeId, ids: seq<NodeId>, asked: set<NodeId>)
    ensures var toAsk := ExcludeIfAsked(target, ids, asked);
            && NoDuplicates(toAsk) && |toAsk| <= FIND_CONCURRENCY
            && Nearest(target, Elements(ids) - asked, FIND_CONCURRENCY, Elements(toAsk))
            && (toAsk == [] <==> Elements(ids) <= asked)
  {
    hide NotAsked, SortByDistance, Nearest, Distance;
    var sorted := SortByDistance(target, NotAsked(ids, asked));
    NotAskedSpec(ids, asked);
    SortByDistanceSpec(target, NotAsked(ids, asked));
    SortedPrefixIsNearest(target, sorted, FIND_CONCURRENCY);
    assert NoDuplicates(sorted);
    var open := Elements(ids) - asked;
    assert Elements(sorted) == open;
    if sorted != [] {
      assert sorted[0] in open;
    } else {
      assert forall x :: x in ids ==> x in Elements(ids) && x !in open;
    }
  }

  /** Everything the asked nodes answered in one round. */
  function Gather(answers: (nat, NodeId) -> seq<NodeId>, round: nat, toAsk: seq<NodeId>): seq<NodeId>
  {
    if toAsk == [] then [] else answers(round, toAsk[0]) + Gather(answers, round, toAsk[1..])
  }

  ghost predicate AllIds(ids: seq<NodeId>)
  {
    forall x :: x in ids ==> IsId(x)
  }

  lemma {:induction false} GatheredIds(answers: (nat, NodeId) -> seq<NodeId>, round: nat, toAsk: seq<NodeId>)
    requires forall r, n :: AllIds(answers(r, n))
    ensures AllIds(Gather(answers, round, toAsk))
  {
    if toAsk != [] {
      GatheredIds(answers, round, toAsk[1..]);
      assert AllIds(answers(round, toAsk[0]));
    }
  }

  ghost function AllNodeIds(): set<NodeId>
  {
    set x: nat | x < Pow2(ID_BITS) && IsId(x)
  }

  lemma AllNodeIdsSpec(ids: seq<NodeId>)
    requires AllIds(ids)
    ensures Elements(ids) <= AllNodeIds()
  {
  }

  lemma NothingIsNearest(target: NodeId)
    ensures Nearest(target, {}, BUCKET_SIZE, {}) && ByDistance(target, [])
  {
  }

  /** The nodes asked in all rounds, in order. */
  ghost function Flat(rounds: seq<seq<NodeId>>): seq<NodeId>
  {
    if rounds == [] then [] else Flat(rounds[..|rounds| - 1]) + rounds[|rounds| - 1]
  }

  /** Everything answered by the nodes asked in each round, in that round. */
  ghost function Heard(answers: (nat, NodeId) -> seq<NodeId>, rounds: seq<seq<NodeId>>): set<NodeId>
  {
    if rounds == [] then {}
    else Heard(answers, rounds[..|rounds| - 1]) + Elements(Gather(answers, |rounds| - 1, rounds[|rounds| - 1]))
  }

  lemma {:induction false} GatheredAll(answers: (nat, NodeId) -> seq<NodeId>, round: nat, toAsk: seq<NodeId>)
    ensures forall n :: n in toAsk ==> Elements(answers(round, n)) <= Elements(Gather(answers, round, toAsk))
    ensures forall x :: x in Gather(answers, round, toAsk) ==> exists n :: n in toAsk && x in answers(round, n)
  {
    if toAsk != [] {
      GatheredAll(answers, round, toAsk[1..]);
      assert toAsk == [toAsk[0]] + toAsk[1..];
    }
  }

  lemma {:induction false} HeardSpec(answers: (nat, NodeId) -> seq<NodeId>, rounds: seq<seq<NodeId>>, x: NodeId)
    ensures x in Heard(answers, rounds) <==> exists r, n :: 0 <= r < |rounds| && n in rounds[r] && x in answers(r, n)
  {
    if rounds != [] {
      var before, r := rounds[..|rounds| - 1], |rounds| - 1;
      HeardSpec(answers, before, x);
      GatheredAll(answers, r, rounds[r]);
      if x in Gather(answers, r, rounds[r]) {
        var n :| n in rounds[r] && x in answers(r, n);
      } else if x in Heard(answers, before) {
        var q, n :| 0 <= q < |before| && n in before[q] && x in answers(q, n);
        assert n in rounds[q];
      }
      if q, n :| 0 <= q < |rounds| && n in rounds[q] && x in answers(q, n) {
        if q < r {
          assert n in before[q];
        } else {
          assert x in Elements(answers(r, n));
        }
      }
    }
  }

  /**
   Round r asks the nearest three unasked nodes among the 16 nearest known so far. The first round
   still chooses from all initial nodes.
   */
  ghost predicate RoundIs(target: NodeId, initial: seq<NodeId>, answers: (nat, NodeId) -> seq<NodeId>,
                          rounds: seq<seq<NodeId>>, r: nat)
    requires r < |rounds|
  {
    var known, asked := Elements(initial) + Heard(answers, rounds[..r]), Elements(Flat(rounds[..r]));
    && rounds[r] != [] && NoDuplicates(rounds[r])
    && exists near ::
         && (if r == 0 then near == known else Nearest(target, known, 16, near))
         && Nearest(target, near - asked, 3, Elements(rounds[r]))
  }

  ghost predicate Rounds(target: NodeId, initial: seq<NodeId>, answers: (nat, NodeId) -> seq<NodeId>,
                         rounds: seq<seq<NodeId>>)
  {
    forall r :: 0 <= r < |rounds| ==> RoundIs(target, initial, answers, rounds, r)
  }

  lemma RoundsMore(target: NodeId, initial: seq<NodeId>, answers: (nat, NodeId) -> seq<NodeId>,
                   rounds: seq<seq<NodeId>>, toAsk: seq<NodeId>, near: set<NodeId>)
    requires Rounds(target, initial, answers, rounds) && toAsk != [] && NoDuplicates(toAsk)
    requires var known := Elements(initial) + Heard(answers, rounds);
             if rounds == [] then near == known else Nearest(target, known, BUCKET_SIZE, near)
    requires Nearest(target, near - Elements(Flat(rounds)), FIND_CONCURRENCY, Elements(toAsk))
    ensures Rounds(target, initial, answers, rounds + [toAsk])
    ensures Flat(rounds + [toAsk]) == Flat(rounds) + toAsk
    ensures Heard(answers, rounds + [toAsk]) == Heard(answers, rounds) + Elements(Gather(answers, |rounds|, toAsk))
  {
    hide Nearest, Gather;
    var more, n := rounds + [toAsk], |rounds|;
    assert more[..n] == rounds && more[n] == toAsk;
    forall r | 0 <= r < |more|
      ensures RoundIs(target, initial, answers, more, r)
    {
      if r < n {
        assert RoundIs(target, initial, answers, rounds, r);
        assert more[..r] == rounds[..r] && more[r] == rounds[r];
      }
    }
  }

  ghost function Learned(initial: seq<NodeId>, answers: (nat, NodeId) -> seq<NodeId>,
                         rounds: seq<seq<NodeId>>): set<NodeId>
  {
    Elements(initial) + Heard(answers, rounds)
  }

  /** The nodes kept stand for all that were learned; from the first round on they are the nearest of them. */
  ghost predicate Kept(target: NodeId, learned: set<NodeId>, closest: seq<NodeId>, first: bool)
  {
    && Represents(target, learned, BUCKET_SIZE, Elements(closest)) && Elements(closest) <= learned <= AllNodeIds()
    && if first then Elements(closest) == learned
       else Nearest(target, learned, BUCKET_SIZE, Elements(closest)) && ByDistance(target, closest)
  }

  /** The nodes to ask next are the nearest ones kept that were not asked. */
  ghost predicate Chosen(target: NodeId, closest: seq<NodeId>, asked: set<NodeId>, toAsk: seq<NodeId>)
  {
    && NoDuplicates(toAsk) && Elements(toAsk) <= Elements(closest) && Elements(toAsk) !! asked
    && (toAsk == [] <==> Elements(closest) <= asked)
    && Nearest(target, Elements(closest) - asked, FIND_CONCURRENCY, Elements(toAsk))
  }

  /** What has been asked so far, as a sequence, as a set and by round. */
  ghost predicate Consistent(target: NodeId, initial: seq<NodeId>, answers: (nat, NodeId) -> seq<NodeId>,
                             queried: seq<NodeId>, asked: set<NodeId>, rounds: seq<seq<NodeId>>)
  {
    && Rounds(target, initial, answers, rounds) && queried == Flat(rounds) && NoDuplicates(queried)
    && asked == Elements(queried) && asked <= Learned(initial, answers, rounds)
  }

  /** Sorting and cutting the known nodes after a round. */
  method Keep(target: NodeId, closest: seq<NodeId>, news: seq<NodeId>, ghost learned: set<NodeId>)
    returns (kept: seq<NodeId>)
    requires Represents(target, learned, BUCKET_SIZE, Elements(closest))
    ensures Nearest(target, learned + Elements(news), BUCKET_SIZE, Elements(kept)) && ByDistance(target, kept)
    ensures Represents(target, learned + Elements(news), BUCKET_SIZE, Elements(kept))
    ensures Elements(kept) <= learned + Elements(news)
    ensures learned + Elements(news) <= AllNodeIds() ==> Kept(target, learned + Elements(news), kept, false)
  {
    hide AllNodeIds;
    var sorted := SortByDistance(target, closest + news);
    kept := Take(sorted, BUCKET_SIZE);
    SortByDistanceSpec(target, closest + news);
    ElementsConcat(closest, news);
    SortedPrefixIsNearest(target, sorted, BUCKET_SIZE);
    NearestOfMore(target, learned, BUCKET_SIZE, Elements(closest), Elements(news), Elements(kept));
    NearestRepresents(target, learned + Elements(news), BUCKET_SIZE, Elements(kept));
  }

  /** The nodes chosen for the next round: known, not asked before, none twice. */
  method Choose(target: NodeId, closest: seq<NodeId>, asked: set<NodeId>) returns (toAsk: seq<NodeId>)
    ensures Chosen(target, closest, asked, toAsk) && |toAsk| <= FIND_CONCURRENCY
    ensures toAsk == [] <==> Elements(closest) <= asked
  {
    ExcludeIfAskedSpec(target, closest, asked);
    toAsk := ExcludeIfAsked(target, closest, asked);
  }

  /**
   Asks ever nearer nodes until the nearest known ones have all been asked. `queried` lists the
   nodes selected for a query in order, `rounds` the same by round.
   */
  method FindNearest(target: NodeId, initial: seq<NodeId>, answers: (nat, NodeId) -> seq<NodeId>)
    returns (closest: seq<NodeId>, queried: seq<NodeId>, ghost rounds: seq<seq<NodeId>>)
    requires AllIds(initial) && forall r, n :: AllIds(answers(r, n))
    ensures Rounds(target, initial, answers, rounds) && queried == Flat(rounds) && NoDuplicates(queried)
    ensures var learned := Elements(initial) + Heard(answers, rounds);
            && Nearest(target, learned, 16, Elements(closest)) && ByDistance(target, closest)
            && Elements(closest) <= Elements(queried) <= learned
  {
    hide Kept, Chosen, Nearest, Represents, ByDistance, AllNodeIds, IsId, Rounds, Flat, Heard;
    NoRoundYet(target, initial, answers);
    closest, queried, rounds := initial, [], [];
    var asked: set<NodeId> := {};
    var toAsk := Choose(target, closest, asked);
    if toAsk == [] {
      NothingIsNearest(target);
      closest := [];
      assert Elements(initial) == {};
      return;
    }
    StartKept(target, initial);
    var round := 0;
    while toAsk != []
      invariant |rounds| == round && Kept(target, Learned(initial, answers, rounds), closest, round == 0)
      invariant Chosen(target, closest, asked, toAsk) && (toAsk == [] ==> round > 0)
      invariant Consistent(target, initial, answers, queried, asked, rounds)
      decreases AllNodeIds() - asked
    {
      rounds := AskMore(target, initial, answers, queried, asked, rounds, closest, toAsk);
      asked := asked + set n | n in toAsk;
      queried := queried + toAsk;
      var news := Gather(answers, round, toAsk);
      closest := Keep(target, closest, news, Learned(initial, answers, rounds[..round]));
      toAsk := Choose(target, closest, asked);
      round := round + 1;
    }
    NothingLeft(target, Learned(initial, answers, rounds), closest, asked);
  }

  lemma StartKept(target: NodeId, initial: seq<NodeId>)
    requires AllIds(initial)
    ensures Kept(target, Elements(initial), initial, true)
  {
  }

  /** Recording one more round. */
  lemma AskMore(target: NodeId, initial: seq<NodeId>, answers: (nat, NodeId) -> seq<NodeId>, queried: seq<NodeId>,
                asked: set<NodeId>, rounds: seq<seq<NodeId>>, closest: seq<NodeId>, toAsk: seq<NodeId>)
    returns (more: seq<seq<NodeId>>)
    requires forall r, n :: AllIds(answers(r, n))
    requires Consistent(target, initial, answers, queried, asked, rounds) && toAsk != []
    requires Kept(target, Learned(initial, answers, rounds), closest, rounds == [])
    requires Chosen(target, closest, asked, toAsk)
    ensures more == rounds + [toAsk] && more[..|rounds|] == rounds
    ensures Consistent(target, initial, answers, queried + toAsk, asked + (set n | n in toAsk), more)
    ensures Learned(initial, answers, more)
            == Learned(initial, answers, rounds) + Elements(Gather(answers, |rounds|, toAsk))
    ensures Learned(initial, answers, more) <= AllNodeIds()
    ensures Represents(target, Learned(initial, answers, rounds), BUCKET_SIZE, Elements(closest))
    ensures asked < asked + (set n | n in toAsk) <= AllNodeIds()
  {
    hide Nearest, Represents, ByDistance, AllNodeIds, Gather, IsId, Rounds, Flat, Heard;
    AskedMore(queried, toAsk);
    RoundsMore(target, initial, answers, rounds, toAsk, Elements(closest));
    GatheredIds(answers, |rounds|, toAsk);
    AllNodeIdsSpec(Gather(answers, |rounds|, toAsk));
    more := rounds + [toAsk];
  }

  lemma NothingLeft(target: NodeId, learned: set<NodeId>, closest: seq<NodeId>, asked: set<NodeId>)
    requires Kept(target, learned, closest, false) && Chosen(target, closest, asked, [])
    ensures Nearest(target, learned, BUCKET_SIZE, Elements(closest)) && ByDistance(target, closest)
    ensures Elements(closest) <= asked
  {
  }

  lemma NoRoundYet(target: NodeId, initial: seq<NodeId>, answers: (nat, NodeId) -> seq<NodeId>)
    ensures Rounds(target, initial, answers, []) && Flat([]) == [] && Heard(answers, []) == {}
    ensures Elements(initial) + {} == Elements(initial) && Elements<NodeId>([]) == {}
  {
  }

  lemma AskedMore(queried: seq<NodeId>, toAsk: seq<NodeId>)
    requires NoDuplicates(queried) && NoDuplicates(toAsk) && Elements(toAsk) !! Elements(queried)
    ensures NoDuplicates(queried + toAsk) && Elements(queried + toAsk) == Elements(queried) + Elements(toAsk)
    ensures Elements(toAsk) == set n | n in toAsk
    ensures toAsk != [] ==> Elements(toAsk) != {}
  {
    forall y | y in queried
      ensures y !in toAsk
    {
      assert y in Elements(queried) && (y in toAsk ==> y in Elements(toAsk));
    }
    ConcatNoDuplicates(queried, toAsk);
    ElementsConcat(queried, toAsk);
    if toAsk != [] {
      assert toAsk[0] in Elements(toAsk);
    }
  }
}

/**
 What OrderedTaskPreparation (trinity/_utils/datastructures.py) knows about its tasks, as values:
 when a task deserves to be ready, what a log of registrations and releases must look like, what a
 cascade or a registration keeps, and what pruning removes.
 */
module TaskFacts {
  import opened Collections
  import opened TreeRoots

  /** Tasks are named by the ids the id extractor gives them. */
  type TaskId = NodeId
  type Prereq = int

  /** What has happened so far, in order. */
  datatype Event = Registered(t: TaskId) | Declared(t: TaskId) | Ready(t: TaskId)

  datatype TaskError = NoError | RepeatedInCall | DuplicateTasks | MissingDependency | NothingRegistered | UnknownTask
                     | AlreadyComplete | UnknownPrereq | PrereqDone | Unexpected

  datatype TakeResult = Taken | Waits | NoneRequested

  // -------------------------------------------------------------------------------------------
  // Readiness, as a property of the tracked facts
  // -------------------------------------------------------------------------------------------

  /** The facts readiness depends on. */
  datatype Facts = Facts(done: map<TaskId, set<Prereq>>, unready: set<TaskId>, declared: set<TaskId>,
                         prereqs: set<Prereq>, dep: TaskId -> TaskId)
  {
    ghost predicate Complete(t: TaskId)
    {
      t in done && done[t] == prereqs
    }

    /** The source's `_is_ready`: declared finished, or tracked and no longer unready. */
    ghost predicate DepReady(t: TaskId)
    {
      dep(t) in declared || (dep(t) in done && dep(t) !in unready)
    }

    /** Every task that could be ready is, except for the ones in `pending`. */
    ghost predicate NoneStuckBut(pending: set<TaskId>)
    {
      forall t :: t in unready && Complete(t) && DepReady(t) ==> t in pending
    }

    /** Every task that is ready deserves it: the other half of the fixed point. */
    ghost predicate NoneEarly()
    {
      && unready <= done.Keys && declared <= done.Keys && declared !! unready
      && forall t :: t in done && t !in unready ==> t in declared || (Complete(t) && DepReady(t))
    }

    ghost predicate Settled()
    {
      NoneStuckBut({}) && NoneEarly()
    }

    /** Readiness is closed towards the roots: above a ready task there are only ready tasks. */
    ghost predicate Closed()
    {
      && unready <= done.Keys && declared !! unready
      && (forall c :: c in done && c !in unready && dep(c) in done ==> dep(c) !in unready)
    }

    /** What a disciplined caller maintains: nor has a task handed to the consumer become unready again. */
    ghost predicate Disciplined(handed: set<TaskId>)
    {
      Closed() && forall t :: t in handed && t in done ==> t !in unready
    }

    /** No present task that depends on t is ready already. */
    ghost predicate NoReadyChild(t: TaskId)
    {
      forall c :: c in done && dep(c) == t ==> c in unready
    }

    /** Registering t now is disciplined: it has no ready child and is not on its way to the consumer. */
    ghost predicate MayRegister(t: TaskId, handed: set<TaskId>)
    {
      t !in handed && NoReadyChild(t)
    }

    /** Whatever is ready has all its prerequisites finished. */
    ghost predicate OnlyCompleteReady()
    {
      forall t :: t in done && t !in unready ==> Complete(t)
    }

    /** Complete, and waiting for a dependency that is ready already and will not announce it again. */
    ghost predicate Stuck(t: TaskId)
    {
      t in done && t in unready && Complete(t) && dep(t) in done && dep(t) !in unready
    }

    /** The tasks that are no longer unready. */
    ghost function ReadySet(): set<TaskId>
    {
      done.Keys - unready
    }

    /** One round of "declared finished, or complete and depending on a member of s". */
    ghost function Step(s: set<TaskId>): set<TaskId>
    {
      set t | t in done && (t in declared || (Complete(t) && dep(t) in s))
    }
  }

  /**
   What every step in which tasks only become ready keeps; h and h' are the tasks handed out
   before and after.
   */
  ghost predicate Follows(f: Facts, h: set<TaskId>, f': Facts, h': set<TaskId>)
  {
    && (f.NoneEarly() ==> f'.NoneEarly())
    && (f.Closed() ==> f'.Closed())
    && (f.Disciplined(h) ==> f'.Disciplined(h'))
    && (forall u :: u !in f.done && f.NoReadyChild(u) ==> f'.NoReadyChild(u))
    && (forall u :: u !in f.done && f.MayRegister(u, h) ==> f'.MayRegister(u, h'))
  }

  lemma FollowsKeeps(f: Facts, h: set<TaskId>, f': Facts, h': set<TaskId>)
    requires Follows(f, h, f', h')
    ensures f.NoneEarly() ==> f'.NoneEarly()
    ensures f.Closed() ==> f'.Closed()
    ensures f.Disciplined(h) ==> f'.Disciplined(h')
  {
  }

  lemma FollowsRefl(f: Facts, h: set<TaskId>)
    ensures Follows(f, h, f, h)
  {
  }

  lemma FollowsTrans(f: Facts, h: set<TaskId>, f': Facts, h': set<TaskId>, f'': Facts, h'': set<TaskId>)
    requires Follows(f, h, f', h') && Follows(f', h', f'', h'') && f.done.Keys == f'.done.Keys
    ensures Follows(f, h, f'', h'')
  {
    hide Facts.NoneEarly;
    hide Facts.Closed;
    hide Facts.Disciplined;
    hide Facts.NoReadyChild;
    hide Facts.MayRegister;
  }

  /** t is n steps below `first`, over complete tasks that were waiting. */
  ghost predicate Below(f: Facts, first: TaskId, t: TaskId, n: nat)
    decreases n
  {
    if n == 0 then t == first
    else t in f.done && t in f.unready && f.Complete(t) && Below(f, first, f.dep(t), n - 1)
  }

  /** What a cascade that starts with `first` releases. */
  ghost function Due(f: Facts, first: TaskId): set<TaskId>
  {
    set t | t in f.unready && exists n: nat :: Below(f, first, t, n)
  }

  /** With a task, s holds the complete tasks that were waiting for it. */
  ghost predicate ClosedBelow(f: Facts, s: set<TaskId>)
  {
    forall c :: c in f.unready && c in f.done && f.Complete(c) && f.dep(c) in s ==> c in s
  }

  /** That is the least set with `first` in it that is closed in this way. */
  lemma DueIsLeast(f: Facts, first: TaskId)
    requires first in f.unready
    ensures first in Due(f, first) && ClosedBelow(f, Due(f, first))
    ensures forall s :: first in s && ClosedBelow(f, s) ==> Due(f, first) <= s
  {
    assert Below(f, first, first, 0);
    forall t | t in f.unready && t in f.done && f.Complete(t) && f.dep(t) in Due(f, first)
      ensures t in Due(f, first)
    {
      var n: nat :| Below(f, first, f.dep(t), n);
      assert Below(f, first, t, n + 1);
    }
    forall s, t | first in s && ClosedBelow(f, s) && t in Due(f, first)
      ensures t in s
    {
      var n: nat :| Below(f, first, t, n);
      BelowWithin(f, first, s, t, n);
    }
  }

  lemma {:induction false} BelowWithin(f: Facts, first: TaskId, s: set<TaskId>, t: TaskId, n: nat)
    requires first in s && ClosedBelow(f, s) && Below(f, first, t, n)
    ensures t in s
    decreases n
  {
    if n > 0 {
      BelowWithin(f, first, s, f.dep(t), n - 1);
    }
  }

  /** A task that may be ready now is released with all that follows. */
  ghost function Release(f: Facts, t: TaskId): Facts
  {
    if t in f.unready && f.Complete(t) && f.DepReady(t) then f.(unready := f.unready - Due(f, t)) else f
  }

  ghost function FinishedOne(f: Facts, p: Prereq, t: TaskId): Facts
  {
    if t in f.done then Release(f.(done := f.done[t := f.done[t] + {p}]), t) else f
  }

  /** One more finished prerequisite for each of the tasks, in order. */
  ghost function FinishedAll(f: Facts, p: Prereq, ts: seq<TaskId>): Facts
  {
    if ts == [] then f else FinishedOne(FinishedAll(f, p, ts[..|ts| - 1]), p, ts[|ts| - 1])
  }

  lemma FinishedStep(f: Facts, p: Prereq, ts: seq<TaskId>, i: nat)
    ensures FinishedAll(f, p, []) == f && ts[..0] == []
    ensures i < |ts| ==> FinishedAll(f, p, ts[..i + 1]) == FinishedOne(FinishedAll(f, p, ts[..i]), p, ts[i])
  {
    if i < |ts| {
      assert ts[..i + 1][..i] == ts[..i];
    }
  }

  ghost function RegisteredOne(f: Facts, t: TaskId): Facts
  {
    Release(f.(done := f.done[t := {}], unready := f.unready + {t}), t)
  }

  /** New tasks with nothing finished yet, in order. */
  ghost function RegisteredAll(f: Facts, ts: seq<TaskId>): Facts
  {
    if ts == [] then f else RegisteredOne(RegisteredAll(f, ts[..|ts| - 1]), ts[|ts| - 1])
  }

  lemma RegisteredNone(f: Facts)
    ensures RegisteredAll(f, []) == f
  {
  }

  lemma RegisteredStep(f: Facts, ts: seq<TaskId>, t: TaskId)
    ensures RegisteredAll(f, ts + [t]) == RegisteredOne(RegisteredAll(f, ts), t)
  {
    assert (ts + [t])[..|ts|] == ts;
  }

  /**
   In the middle of a cascade from `first` that began in f, with u still unready: what was released
   and what the wave holds is due, and whatever is due next is in the wave.
   */
  ghost predicate Cascading(f: Facts, u: set<TaskId>, wave: seq<TaskId>, first: TaskId)
  {
    && u <= f.unready && (first in u ==> first in wave)
    && (forall x :: x in f.unready && x !in u ==> x in Due(f, first))
    && (forall x :: x in wave ==> x in Due(f, first))
    && (forall c :: c in u && c in f.done && f.Complete(c) && f.dep(c) in f.unready && f.dep(c) !in u ==> c in wave)
  }

  lemma CascadeStarts(f: Facts, first: TaskId)
    requires first in f.unready
    ensures Cascading(f, f.unready, [first], first)
  {
    assert Below(f, first, first, 0);
  }

  lemma CascadeOne(f: Facts, u: set<TaskId>, p: seq<TaskId>, first: TaskId, kids: seq<TaskId>)
    requires Cascading(f, u, p, first) && p != [] && p[0] in u
    requires forall c :: c in kids <==> c in f.done && f.dep(c) == p[0] && c in u - {p[0]} && f.Complete(c)
    ensures Cascading(f, u - {p[0]}, p[1..] + kids, first)
  {
    var x, p' := p[0], p[1..] + kids;
    assert x in p && forall y :: y in p ==> y == x || y in p[1..];
    var n: nat :| Below(f, first, x, n);
    forall c | c in kids
      ensures c in Due(f, first)
    {
      assert Below(f, first, c, n + 1);
    }
    assert forall y :: y in p[1..] ==> y in p;
    assert forall y :: y in p' <==> y in p[1..] || y in kids;
  }

  lemma CascadeEnds(f: Facts, u: set<TaskId>, first: TaskId)
    requires Cascading(f, u, [], first) && first in f.unready
    ensures u == f.unready - Due(f, first) && Cascades(f.unready, u, f.dep, first)
  {
    forall t | t in Due(f, first)
      ensures t !in u
    {
      var n: nat :| Below(f, first, t, n);
      AllReleased(f, u, first, t, n);
    }
    forall t
      ensures t in u <==> t in f.unready - Due(f, first)
    {
      if t in f.unready && t !in u {
        assert t in Due(f, first);
      }
    }
    forall t | t in f.unready && t !in u
      ensures t == first || f.dep(t) in f.unready
    {
      var n: nat :| Below(f, first, t, n);
      assert n > 0 ==> Below(f, first, f.dep(t), n - 1);
    }
  }

  lemma {:induction false} AllReleased(f: Facts, u: set<TaskId>, first: TaskId, t: TaskId, n: nat)
    requires Cascading(f, u, [], first) && first in f.unready && Below(f, first, t, n)
    ensures t in f.unready && t !in u
    decreases n
  {
    if n > 0 {
      AllReleased(f, u, first, f.dep(t), n - 1);
    }
  }

  /** A cascade that starts with `first` releases nothing else but tasks whose dependency it releases too. */
  ghost predicate Cascades(u: set<TaskId>, u': set<TaskId>, dep: TaskId -> TaskId, first: TaskId)
  {
    forall t :: t in u && t !in u' ==> t == first || dep(t) in u
  }

  /** No stuck task is released. */
  ghost predicate StillStuck(f: Facts, f': Facts)
  {
    forall t :: f.Stuck(t) ==> f'.Stuck(t)
  }

  /** If nothing is ready too early, being settled means that nothing is stuck. */
  lemma SettledUnlessStuck(f: Facts)
    requires f.NoneEarly()
    ensures f.Settled() <==> forall t :: !f.Stuck(t)
  {
    if !f.Settled() {
      var t :| t in f.unready && f.Complete(t) && f.DepReady(t);
      assert f.Stuck(t);
    } else {
      forall t
        ensures !f.Stuck(t)
      {
        assert f.Stuck(t) ==> f.DepReady(t);
      }
    }
  }

  lemma SameStuck(f: Facts)
    ensures StillStuck(f, f)
  {
  }

  lemma StillStuckTrans(f: Facts, f': Facts, f'': Facts)
    requires StillStuck(f, f') && StillStuck(f', f'')
    ensures StillStuck(f, f'')
  {
  }

  lemma DeclareKeepsStuck(f: Facts, d: TaskId)
    requires d !in f.done
    ensures StillStuck(f, f.(done := f.done[d := f.prereqs], declared := f.declared + {d}))
  {
  }

  lemma FinishKeepsStuck(f: Facts, f': Facts, t: TaskId, p: Prereq)
    requires t in f.done && p in f.prereqs && p !in f.done[t]
    requires f' == f.(done := f.done[t := f.done[t] + {p}], unready := f'.unready)
    requires f'.unready <= f.unready && Cascades(f.unready, f'.unready, f.dep, t)
    ensures StillStuck(f, f')
  {
  }

  lemma RegisterKeepsStuck(f: Facts, f': Facts, t: TaskId)
    requires t !in f.done
    requires f' == f.(done := f.done[t := {}], unready := f'.unready)
    requires f'.unready <= f.unready + {t} && Cascades(f.unready + {t}, f'.unready, f.dep, t)
    ensures StillStuck(f, f')
  {
  }

  /** Tracked tasks moved from the unready set to the queue, each once, and nothing else did. */
  ghost predicate Moved(q: seq<TaskId>, u: set<TaskId>, q': seq<TaskId>, u': set<TaskId>, tracked: set<TaskId>)
  {
    && q <= q' && u' <= u && NoDuplicates(q'[|q|..])
    && Elements(q'[|q|..]) == u - u' && u - u' <= tracked
  }

  lemma MovedShrinks(q: seq<TaskId>, u: set<TaskId>, q': seq<TaskId>, u': set<TaskId>, tracked: set<TaskId>)
    requires Moved(q, u, q', u', tracked)
    ensures u' <= u
  {
  }

  lemma NothingMoved(q: seq<TaskId>, u: set<TaskId>, tracked: set<TaskId>)
    ensures Moved(q, u, q, u, tracked)
  {
  }

  lemma OneMoved(q: seq<TaskId>, u: set<TaskId>, t: TaskId, tracked: set<TaskId>)
    requires t in u && t in tracked
    ensures Moved(q, u, q + [t], u - {t}, tracked)
  {
  }

  /** Moves in sequence; in between, untracked tasks may be registered as unready. */
  lemma MovedTwice(q: seq<TaskId>, u: set<TaskId>, q': seq<TaskId>, u': set<TaskId>, tracked: set<TaskId>,
                   more: set<TaskId>, q'': seq<TaskId>, u'': set<TaskId>, tracked': set<TaskId>)
    requires Moved(q, u, q', u', tracked) && Moved(q', u' + more, q'', u'', tracked')
    requires more !! tracked && tracked <= tracked'
    ensures Moved(q, u + more, q'', u'', tracked')
  {
    var a, b := q'[|q|..], q''[|q'|..];
    assert q'' == q' + b && q' == q + a;
    assert q''[|q|..] == a + b;
    forall y | y in a
      ensures y !in b
    {
      assert y in Elements(a) && (y in b ==> y in Elements(b));
    }
    ConcatNoDuplicates(a, b);
    ElementsConcat(a, b);
  }

  /** What registering the tasks in `ts`, which were not tracked, keeps and under which conditions. */
  ghost predicate Registers(f: Facts, h: set<TaskId>, f': Facts, h': set<TaskId>, ts: set<TaskId>)
  {
    && (f.NoneEarly() ==> f'.NoneEarly())
    && (f.Closed() && (forall t :: t in ts ==> f.NoReadyChild(t)) ==> f'.Closed())
    && (f.Disciplined(h) && (forall t :: t in ts ==> f.MayRegister(t, h)) ==> f'.Disciplined(h'))
    && (forall u :: u !in f.done && u !in ts && f.NoReadyChild(u) ==> f'.NoReadyChild(u))
    && (forall u :: u !in f.done && u !in ts && f.MayRegister(u, h) ==> f'.MayRegister(u, h'))
  }

  lemma RegistersOneMore(f: Facts, h: set<TaskId>, f': Facts, h': set<TaskId>, f'': Facts, h'': set<TaskId>,
                         ts: set<TaskId>, t: TaskId)
    requires Registers(f, h, f', h', ts) && Registers(f', h', f'', h'', {t})
    requires f'.done.Keys == f.done.Keys + ts && t !in f'.done
    ensures Registers(f, h, f'', h'', ts + {t})
  {
  }

  lemma RegistersThenFollows(f: Facts, h: set<TaskId>, f': Facts, h': set<TaskId>, f'': Facts, h'': set<TaskId>,
                             t: TaskId)
    requires Registers(f, h, f', h', {t}) && Follows(f', h', f'', h'') && f'.done.Keys == f.done.Keys + {t}
    ensures Registers(f, h, f'', h'', {t})
  {
  }

  lemma RegistersKeeps(f: Facts, h: set<TaskId>, f': Facts, h': set<TaskId>, registered: seq<TaskId>,
                       added: seq<TaskId>,
                       ts: seq<TaskId>)
    requires Registers(f, h, f', h', Elements(registered)) && registered <= added
    requires forall t :: t in added ==> t in ts && t !in f.done
    ensures f.NoneEarly() ==> f'.NoneEarly()
    ensures f.Closed() && (forall t :: t in ts && t !in f.done ==> f.NoReadyChild(t)) ==> f'.Closed()
    ensures f.Disciplined(h) && (forall t :: t in ts && t !in f.done ==> f.MayRegister(t, h)) ==> f'.Disciplined(h')
  {
  }

  /** In a settled state the ready tasks are a fixed point of the readiness rule... */
  lemma SettledIsFixedPoint(f: Facts)
    requires f.Settled()
    ensures f.Step(f.ReadySet()) == f.ReadySet()
  {
    var r := f.ReadySet();
    forall t | t in f.Step(r)
      ensures t in r
    {
      assert t in f.unready ==> f.DepReady(t);
    }
    forall t | t in r
      ensures t in f.Step(r)
    {
      assert t in f.declared || f.DepReady(t);
    }
  }

  /** ... and the least one: anything closed under the rule contains all of them. */
  lemma {:induction false} SettledIsLeast(f: Facts, rank: TaskId -> nat, s: set<TaskId>, t: TaskId)
    requires f.Settled() && f.Step(s) <= s
    requires forall u :: u in f.done ==> rank(f.dep(u)) < rank(u)
    requires t in f.ReadySet()
    ensures t in s
    decreases rank(t)
  {
    if t !in f.declared {
      assert f.Complete(t) && f.DepReady(t);
      assert f.dep(t) in f.ReadySet();
      SettledIsLeast(f, rank, s, f.dep(t));
    }
    assert t in f.Step(s);
  }

  /** Declaring d finished keeps the ready tasks settled exactly when no task was waiting for d alone. */
  lemma DeclareKeepsSettled(f: Facts, d: TaskId)
    requires f.Settled() && d !in f.done && f.dep(d) != d
    ensures var f' := f.(done := f.done[d := f.prereqs], declared := f.declared + {d});
            f'.Settled() <==> !exists c :: c in f.unready && f.Complete(c) && f.dep(c) == d
  {
  }

  lemma DeclareKeepsDiscipline(f: Facts, handed: set<TaskId>, d: TaskId)
    requires f.Closed() && d !in f.done
    requires f.dep(d) in f.done ==> f.dep(d) !in f.unready
    ensures var f' := f.(done := f.done[d := f.prereqs], declared := f.declared + {d});
            f'.Closed() && (f.Disciplined(handed) ==> f'.Disciplined(handed))
  {
  }

  // -------------------------------------------------------------------------------------------
  // The log of everything that became ready
  // -------------------------------------------------------------------------------------------

  function ReadyIds(log: seq<Event>): seq<TaskId>
  {
    if log == [] then []
    else ReadyIds(log[..|log| - 1]) + (if log[|log| - 1].Ready? then [log[|log| - 1].t] else [])
  }

  lemma ReadyIdsAppend(log: seq<Event>, e: Event)
    ensures ReadyIds(log + [e]) == ReadyIds(log) + (if e.Ready? then [e.t] else [])
  {
  }

  /** The log without the readiness it records: what the caller did. */
  ghost function Calls(log: seq<Event>): seq<Event>
  {
    if log == [] then []
    else Calls(log[..|log| - 1]) + (if log[|log| - 1].Ready? then [] else [log[|log| - 1]])
  }

  lemma CallsAppend(log: seq<Event>, e: Event)
    ensures Calls(log + [e]) == Calls(log) + (if e.Ready? then [] else [e])
  {
  }

  ghost function Registrations(ts: seq<TaskId>): seq<Event>
  {
    seq(|ts|, i requires 0 <= i < |ts| => Registered(ts[i]))
  }

  lemma NoRegistrations()
    ensures Registrations([]) == []
  {
  }

  ghost predicate Justified(log: seq<Event>, t: TaskId)
  {
    Ready(t) in log || Declared(t) in log
  }

  /** Whatever became ready did so after its dependency became ready or was declared finished. */
  ghost predicate InOrder(log: seq<Event>, dep: TaskId -> TaskId)
  {
    forall i :: 0 <= i < |log| && log[i].Ready? ==> Justified(log[..i], dep(log[i].t))
  }

  /** No task became ready more often than it was registered; an unready one has a turn left. */
  ghost predicate OncePerRegistration(log: seq<Event>, unready: set<TaskId>)
  {
    forall t :: multiset(log)[Ready(t)] + (if t in unready then 1 else 0) <= multiset(log)[Registered(t)]
  }

  lemma InOrderAppend(log: seq<Event>, dep: TaskId -> TaskId, e: Event)
    requires InOrder(log, dep)
    requires e.Ready? ==> Justified(log, dep(e.t))
    ensures InOrder(log + [e], dep)
  {
    var log' := log + [e];
    forall i | 0 <= i < |log'| && log'[i].Ready?
      ensures Justified(log'[..i], dep(log'[i].t))
    {
      assert log'[..i] == log[..i];
      assert log[..|log|] == log;
    }
  }

  lemma OnceAppend(log: seq<Event>, unready: set<TaskId>, e: Event, unready': set<TaskId>)
    requires OncePerRegistration(log, unready)
    requires match e
             case Registered(t) => unready' == unready + {t}
             case Declared(t) => unready' == unready
             case Ready(t) => t in unready && unready' == unready - {t}
    ensures OncePerRegistration(log + [e], unready')
  {
  }

  /** The tracked facts agree with each other, with the log, and with the `out`put so far. */
  ghost predicate Recorded(f: Facts, log: seq<Event>, out: seq<TaskId>)
  {
    && f.declared <= f.done.Keys
    && (forall t :: t in f.done ==> f.done[t] <= f.prereqs)
    && (forall t :: t in f.declared ==> Declared(t) in log)
    && (forall t :: t in f.done && t !in f.unready ==> f.Complete(t) && Justified(log, t))
    && InOrder(log, f.dep)
    && OncePerRegistration(log, f.unready)
    && ReadyIds(log) == out
  }

  lemma RecordedComplete(f: Facts, log: seq<Event>, out: seq<TaskId>)
    requires Recorded(f, log, out)
    ensures f.OnlyCompleteReady()
  {
  }

  lemma RecordReady(f: Facts, log: seq<Event>, out: seq<TaskId>, t: TaskId)
    requires Recorded(f, log, out) && t in f.unready && f.Complete(t) && f.DepReady(t)
    ensures Recorded(f.(unready := f.unready - {t}), log + [Ready(t)], out + [t])
  {
    hide InOrder, OncePerRegistration, ReadyIds;
    assert Justified(log, f.dep(t));
    InOrderAppend(log, f.dep, Ready(t));
    ReadyIdsAppend(log, Ready(t));
    OnceAppend(log, f.unready, Ready(t), f.unready - {t});
  }

  lemma RecordRegistered(f: Facts, log: seq<Event>, out: seq<TaskId>, t: TaskId)
    requires Recorded(f, log, out) && t !in f.done
    ensures Recorded(f.(done := f.done[t := {}], unready := f.unready + {t}), log + [Registered(t)], out)
  {
    hide InOrder, OncePerRegistration, ReadyIds;
    InOrderAppend(log, f.dep, Registered(t));
    ReadyIdsAppend(log, Registered(t));
    OnceAppend(log, f.unready, Registered(t), f.unready + {t});
  }

  lemma RegisterFacts(f: Facts, handed: set<TaskId>, t: TaskId)
    requires t !in f.done && f.declared <= f.done.Keys && f.dep(t) != t
    ensures var f' := f.(done := f.done[t := {}], unready := f.unready + {t});
            && Registers(f, handed, f', handed, {t})
            && (f.NoneStuckBut({}) ==> f'.NoneStuckBut({t}))
            && (f.NoneStuckBut({}) && !(f'.Complete(t) && f'.DepReady(t)) ==> f'.NoneStuckBut({}))
  {
  }

  lemma FinishFacts(f: Facts, log: seq<Event>, out: seq<TaskId>, handed: set<TaskId>, t: TaskId, p: Prereq)
    requires t in f.done && t in f.unready && p in f.prereqs && Recorded(f, log, out)
    ensures var f' := f.(done := f.done[t := f.done[t] + {p}]);
            && Recorded(f', log, out) && Follows(f, handed, f', handed)
            && (f.NoneStuckBut({}) ==> f'.NoneStuckBut({t}))
            && (f.NoneStuckBut({}) && !(f'.Complete(t) && f'.DepReady(t)) ==> f'.NoneStuckBut({}))
  {
  }

  lemma RecordDeclared(f: Facts, log: seq<Event>, out: seq<TaskId>, t: TaskId)
    requires Recorded(f, log, out) && t !in f.done
    ensures Recorded(f.(done := f.done[t := f.prereqs], declared := f.declared + {t}), log + [Declared(t)], out)
  {
    hide InOrder, OncePerRegistration, ReadyIds;
    InOrderAppend(log, f.dep, Declared(t));
    ReadyIdsAppend(log, Declared(t));
    OnceAppend(log, f.unready, Declared(t), f.unready);
  }

  lemma {:induction false} OutputInOrder(log: seq<Event>, dep: TaskId -> TaskId, i: nat)
    requires InOrder(log, dep) && i < |ReadyIds(log)|
    ensures dep(ReadyIds(log)[i]) in ReadyIds(log)[..i] || Declared(dep(ReadyIds(log)[i])) in log
  {
    var n := |log| - 1;
    var init, e := log[..n], log[n];
    assert log == init + [e];
    ReadyIdsAppend(init, e);
    var out := ReadyIds(init);
    forall k | 0 <= k < n && init[k].Ready?
      ensures Justified(init[..k], dep(init[k].t))
    {
      assert init[..k] == log[..k] && log[k] == init[k];
    }
    if i < |out| {
      OutputInOrder(init, dep, i);
      assert ReadyIds(log)[..i] == out[..i];
    } else {
      assert ReadyIds(log)[..i] == out;
      assert Justified(init, dep(e.t));
      if Ready(dep(e.t)) in init {
        ReadyIdsHas(init, dep(e.t));
      }
    }
  }

  lemma {:induction false} ReadyIdsHas(log: seq<Event>, t: TaskId)
    requires Ready(t) in log
    ensures t in ReadyIds(log)
  {
    var n := |log| - 1;
    assert log == log[..n] + [log[n]];
    if log[n] != Ready(t) {
      ReadyIdsHas(log[..n], t);
    }
  }

  /** What a wave holds: distinct, complete, still unready tasks with a ready dependency. */
  ghost predicate Pending(f: Facts, wave: seq<TaskId>, first: TaskId)
  {
    && NoDuplicates(wave)
    && (forall x :: x in wave ==> x in f.done && x in f.unready && f.Complete(x) && f.DepReady(x))
    && (wave == [first] || forall x :: x in wave ==> f.dep(x) !in f.unready)
  }

  lemma PendingOne(f: Facts, t: TaskId)
    requires t in f.done && t in f.unready && f.Complete(t) && f.DepReady(t)
    ensures Pending(f, [t], t)
  {
  }

  lemma PendingHead(f: Facts, p: seq<TaskId>, first: TaskId)
    requires Pending(f, p, first) && p != []
    ensures p[0] in f.done && p[0] in f.unready && f.Complete(p[0]) && f.DepReady(p[0])
  {
    var x := p[0];
    assert x in p;
  }

  /** Marking the first pending task ready and queueing its complete children keeps the wave sound. */
  lemma Advance(f: Facts, p: seq<TaskId>, first: TaskId, kids: seq<TaskId>, handed: set<TaskId>)
    requires Pending(f, p, first) && p != [] && NoDuplicates(kids) && f.declared <= f.done.Keys
    requires forall c :: c in kids <==> c in f.done && f.dep(c) == p[0] && c in f.unready - {p[0]} && f.Complete(c)
    ensures var f' := f.(unready := f.unready - {p[0]});
            && Pending(f', p[1..] + kids, first)
            && (f.NoneStuckBut(Elements(p)) ==> f'.NoneStuckBut(Elements(p[1..] + kids)))
            && Follows(f, handed, f', handed + {p[0]})
  {
    var x, rest, f' := p[0], p[1..], f.(unready := f.unready - {p[0]});
    assert p == [x] + rest;
    assert NoDuplicates(rest);
    forall y | y in rest
      ensures f.dep(y) != x && y !in kids && y != x
    {
      assert y in p;
    }
    ConcatNoDuplicates(rest, kids);
    forall t | t in f'.unready && f'.Complete(t) && f'.DepReady(t) && f.NoneStuckBut(Elements(p))
      ensures t in Elements(rest + kids)
    {
      if f.DepReady(t) {
        assert t in Elements(p);
      }
    }
  }

  /** The tracked tasks and the newly registered ones, which have nothing finished. */
  ghost function WithNew(tasks: map<TaskId, set<Prereq>>, ts: seq<TaskId>): map<TaskId, set<Prereq>>
  {
    map t | t in tasks.Keys + Elements(ts) :: if t in tasks then tasks[t] else {}
  }

  lemma WithNewStep(tasks: map<TaskId, set<Prereq>>, ts: seq<TaskId>, t: TaskId)
    ensures WithNew(tasks, []) == tasks
    ensures t !in tasks ==> WithNew(tasks, ts + [t]) == WithNew(tasks, ts)[t := {}]
  {
  }

  lemma PrefixMore(a: seq<TaskId>, b: seq<TaskId>)
    requires a < b
    ensures a + [b[|a|]] <= b
  {
  }

  lemma WholePrefix(a: seq<TaskId>, b: seq<TaskId>)
    requires a <= b && |a| >= |b|
    ensures a == b
  {
  }

  lemma WithNewKeys(tasks: map<TaskId, set<Prereq>>, ts: seq<TaskId>)
    ensures forall t :: t in WithNew(tasks, ts) <==> t in tasks || t in ts
    ensures WithNew(tasks, ts).Keys == tasks.Keys + Elements(ts)
  {
  }

  /** Everything in `registered` came with its dependency; the next one, if any, does not. */
  ghost predicate AsFarAs(acceptDangling: bool, dep: TaskId -> TaskId, added: seq<TaskId>, registered: seq<TaskId>,
                          known: set<TaskId>)
  {
    && registered <= added
    && (!acceptDangling ==> forall i :: 0 <= i < |registered| ==>
          dep(registered[i]) in known || dep(registered[i]) in registered[..i])
    && (registered < added ==>
          var missing := dep(added[|registered|]);
          !acceptDangling && missing !in known && missing !in registered)
  }

  /** The tasks that are not known yet, each once, in the order of their first mention. */
  ghost function FirstNew(ts: seq<TaskId>, known: set<TaskId>): seq<TaskId>
  {
    if ts == [] then []
    else
      var init, t := ts[..|ts| - 1], ts[|ts| - 1];
      FirstNew(init, known) + (if t in known || t in init then [] else [t])
  }

  /** They keep the order in which the list first mentions them. */
  lemma {:induction false} FirstNewInOrder(ts: seq<TaskId>, known: set<TaskId>, i: nat, j: nat)
    requires i < j < |FirstNew(ts, known)|
    ensures exists m :: 0 <= m <= |ts| && FirstNew(ts, known)[i] in ts[..m] && FirstNew(ts, known)[j] !in ts[..m]
  {
    var n := |ts| - 1;
    var init, t := ts[..n], ts[n];
    var before := FirstNew(init, known);
    FirstNewSpec(init, known);
    if j < |before| {
      FirstNewInOrder(init, known, i, j);
      var m :| 0 <= m <= n && before[i] in init[..m] && before[j] !in init[..m];
      assert ts[..m] == init[..m];
    } else {
      assert before[i] in before;
      assert before[i] in ts[..n] && t !in ts[..n];
    }
  }

  lemma {:induction false} FirstNewSpec(ts: seq<TaskId>, known: set<TaskId>)
    ensures NoDuplicates(FirstNew(ts, known)) && forall t :: t in FirstNew(ts, known) <==> t in ts && t !in known
  {
    if ts != [] {
      FirstNewSpec(ts[..|ts| - 1], known);
      assert ts == ts[..|ts| - 1] + [ts[|ts| - 1]];
    }
  }

  /** What a registration is about: the facts, the tasks handed out, the queue, and the calls so far. */
  datatype Standing = Standing(facts: Facts, handed: set<TaskId>, queue: seq<TaskId>, calls: seq<Event>)

  /** Everything that registering the new tasks `rs` does and keeps. */
  ghost predicate Enrolled(s: Standing, s': Standing, rs: seq<TaskId>)
  {
    var f, f' := s.facts, s'.facts;
    && f' == f.(done := WithNew(f.done, rs), unready := f'.unready) && f' == RegisteredAll(f, rs)
    && s'.calls == s.calls + Registrations(rs)
    && Moved(s.queue, f.unready + Elements(rs), s'.queue, f'.unready, f'.done.Keys)
    && (f.prereqs != {} ==> f'.unready == f.unready + Elements(rs) && s'.queue == s.queue)
    && (f.NoneStuckBut({}) ==> f'.NoneStuckBut({}))
    && Registers(f, s.handed, f', s'.handed, Elements(rs)) && StillStuck(f, f')
  }

  lemma NothingEnrolled(s: Standing)
    ensures Enrolled(s, s, [])
  {
  }

  lemma OneEnrolled(s: Standing, s': Standing, t: TaskId)
    requires var f, f' := s.facts, s'.facts;
             && t !in f.done
             && f' == f.(done := f.done[t := {}], unready := f'.unready) && f' == RegisteredOne(f, t)
             && s'.calls == s.calls + [Registered(t)]
             && Moved(s.queue, f.unready + {t}, s'.queue, f'.unready, f'.done.Keys)
             && (f.prereqs != {} ==> f'.unready == f.unready + {t} && s'.queue == s.queue)
             && (f.NoneStuckBut({}) ==> f'.NoneStuckBut({}))
             && Registers(f, s.handed, f', s'.handed, {t}) && StillStuck(f, f')
    ensures Enrolled(s, s', [t])
  {
    hide RegisteredOne;
    RegisteredStep(s.facts, [], t);
    assert [] + [t] == [t];
  }

  lemma EnrollMore(s: Standing, s': Standing, s'': Standing, rs: seq<TaskId>, t: TaskId)
    requires Enrolled(s, s', rs) && Enrolled(s', s'', [t]) && t !in s'.facts.done
    ensures Enrolled(s, s'', rs + [t])
  {
    hide Moved, Registers, StillStuck, WithNew, Registrations, Elements, RegisteredOne, RegisteredAll;
    hide Facts.NoneStuckBut;
    var f, f', f'' := s.facts, s'.facts, s''.facts;
    RegisteredStep(f, rs, t);
    RegisteredStep(f', [], t);
    assert [] + [t] == [t];
    RegisteredNone(f');
    EnrolledSets(f.done, rs, t);
    AppendElement(rs, t);
    assert f.unready + Elements(rs) + {t} == f.unready + (Elements(rs) + {t});
    MovedTwice(s.queue, f.unready + Elements(rs), s'.queue, f'.unready, f'.done.Keys, {t}, s''.queue, f''.unready,
               f''.done.Keys);
    RegistersOneMore(f, s.handed, f', s'.handed, f'', s''.handed, Elements(rs), t);
    StillStuckTrans(f, f', f'');
    assert s.calls + Registrations(rs) + [Registered(t)] == s.calls + (Registrations(rs) + [Registered(t)]);
  }

  lemma EnrolledSets(done: map<TaskId, set<Prereq>>, rs: seq<TaskId>, t: TaskId)
    requires t !in WithNew(done, rs)
    ensures WithNew(done, rs).Keys == done.Keys + Elements(rs) && Elements([t]) == {t}
    ensures WithNew(WithNew(done, rs), [t]) == WithNew(done, rs + [t])
    ensures done.Keys + Elements(rs) <= WithNew(done, rs + [t]).Keys
    ensures Registrations(rs + [t]) == Registrations(rs) + [Registered(t)] && Registrations([t]) == [Registered(t)]
  {
  }

  lemma RecordPruned(f: Facts, log: seq<Event>, out: seq<TaskId>, handed: set<TaskId>, r: TaskId)
    requires Recorded(f, log, out)
    ensures var f' := f.(done := f.done - {r}, declared := f.declared - {r});
            && Recorded(f', log, out)
            && (f.NoneStuckBut({}) ==> f'.NoneStuckBut({}))
            && (f.Disciplined(handed) && r !in f.unready ==> f'.Disciplined(handed))
  {
  }

  // -------------------------------------------------------------------------------------------
  // What pruning removes
  // -------------------------------------------------------------------------------------------

  ghost function EdgesOf(ts: set<TaskId>, dep: TaskId -> TaskId): Edges
  {
    map t | t in ts :: dep(t)
  }

  /** What one pruning from t removes: the root of its tree, if that is more than maxDepth above t. */
  ghost function Cut(ts: set<TaskId>, dep: TaskId -> TaskId, t: TaskId, maxDepth: nat): set<TaskId>
  {
    set r | r in ts && exists d :: d > maxDepth && IsRoot(EdgesOf(ts, dep), t, r, d)
  }

  /** What n prunings from t in a row remove. */
  ghost function CutTimes(ts: set<TaskId>, dep: TaskId -> TaskId, t: TaskId, maxDepth: nat, n: nat): set<TaskId>
  {
    if n == 0 then {}
    else
      var before := CutTimes(ts, dep, t, maxDepth, n - 1);
      before + Cut(ts - before, dep, t, maxDepth)
  }

  /** What two prunings from each task of a batch remove, in order. */
  ghost function CutAll(ts: set<TaskId>, dep: TaskId -> TaskId, batch: seq<TaskId>, maxDepth: nat): set<TaskId>
  {
    if batch == [] then {}
    else
      var t, before := batch[|batch| - 1], CutAll(ts, dep, batch[..|batch| - 1], maxDepth);
      before + CutTimes(ts - before, dep, t, maxDepth, 2)
  }

  lemma MapLess<V>(m: map<TaskId, V>, a: set<TaskId>, b: set<TaskId>)
    ensures (m - a).Keys == m.Keys - a && (m - a) - b == m - (a + b)
  {
  }

  lemma CutIs(ts: set<TaskId>, dep: TaskId -> TaskId, t: TaskId, maxDepth: nat, root: TaskId, depth: int)
    requires IsRoot(EdgesOf(ts, dep), t, root, depth)
    ensures Cut(ts, dep, t, maxDepth) == if depth > maxDepth then {root} else {}
  {
    forall r, d | IsRoot(EdgesOf(ts, dep), t, r, d)
      ensures r == root && d == depth
    {
      RootUnique(EdgesOf(ts, dep), t, r, d, root, depth);
    }
  }

  lemma CutTwice(ts: set<TaskId>, dep: TaskId -> TaskId, t: TaskId, maxDepth: nat)
    ensures var first := Cut(ts, dep, t, maxDepth);
            CutTimes(ts, dep, t, maxDepth, 2) == first + Cut(ts - first, dep, t, maxDepth)
  {
    hide Cut;
    assert CutTimes(ts, dep, t, maxDepth, 0) == {} && ts - {} == ts;
    assert CutTimes(ts, dep, t, maxDepth, 1) == Cut(ts, dep, t, maxDepth);
  }

  lemma CutAllNext(ts: set<TaskId>, dep: TaskId -> TaskId, batch: seq<TaskId>, t: TaskId, maxDepth: nat)
    ensures CutAll(ts, dep, [], maxDepth) == {}
    ensures var before := CutAll(ts, dep, batch, maxDepth);
            CutAll(ts, dep, batch + [t], maxDepth) == before + CutTimes(ts - before, dep, t, maxDepth, 2)
  {
  }

  /** A pruning removes at most one task; t and its nearest maxDepth ancestors stay, in place. */
  lemma NearAncestorsStay(ts: set<TaskId>, dep: TaskId -> TaskId, rank: TaskId -> nat, t: TaskId, maxDepth: nat, k: nat)
    requires Acyclic(EdgesOf(ts, dep), rank) && t in ts && k <= maxDepth
    ensures var cut := Cut(ts, dep, t, maxDepth);
            && cut <= ts && |cut| <= 1 && t !in cut
            && Climb(EdgesOf(ts - cut, dep), t, k) == Climb(EdgesOf(ts, dep), t, k)
  {
    var edges := EdgesOf(ts, dep);
    var r, d := RootExists(edges, rank, t);
    CutIs(ts, dep, t, maxDepth, r, d);
    if d > maxDepth {
      assert EdgesOf(ts - {r}, dep) == edges - {r};
      ClimbStays(edges, t, r, d, k);
      ClimbStays(edges, t, r, d, 0);
    } else {
      assert ts - {} == ts;
    }
  }

  lemma {:induction false} ClimbStays(edges: Edges, n: NodeId, r: NodeId, d: nat, k: nat)
    requires IsRoot(edges, n, r, d) && k < d
    ensures n != r && Climb(edges - {r}, n, k) == Climb(edges, n, k)
    decreases k
  {
    if n == r {
      RootUnique(edges, n, r, d, n, 0);
    }
    assert Climb(edges, n, d) == Climb(edges, edges[n], d - 1);
    if k > 0 {
      ClimbStays(edges, edges[n], r, d - 1, k - 1);
    }
  }

  /** In a closed state every present ancestor of a ready task is ready. */
  lemma {:induction false} ReadyUpwards(f: Facts, t: TaskId, k: nat)
    requires f.Closed() && t in f.done && t !in f.unready
    ensures var up := Climb(EdgesOf(f.done.Keys, f.dep), t, k);
            up.Some? ==> up.value in f.done && up.value !in f.unready
    decreases k
  {
    var edges := EdgesOf(f.done.Keys, f.dep);
    if k > 0 && f.dep(t) in f.done {
      assert Climb(edges, t, k) == Climb(edges, f.dep(t), k - 1);
      ReadyUpwards(f, f.dep(t), k - 1);
    }
  }

  lemma {:induction false} ClimbTwice(edges: Edges, n: NodeId, j: nat, k: nat)
    ensures var mid := Climb(edges, n, j);
            && (mid.Some? ==> mid.value in edges)
            && Climb(edges, n, j + k) == if mid.Some? then Climb(edges, mid.value, k) else None
    decreases j
  {
    if n in edges && j > 0 {
      ClimbTwice(edges, edges[n], j - 1, k);
    }
  }

  /** How far above t the root is after n prunings, if it was d steps above before. */
  function DepthAfter(d: nat, maxDepth: nat, n: nat): (k: nat)
    ensures k <= d
  {
    if d <= maxDepth then d else if d - n > maxDepth then d - n else maxDepth
  }

  /**
   Exactly the ancestors of t from d down to just above k are cut; those up to k are left, in place,
   the last as root.
   */
  ghost predicate CutDownTo(ts: set<TaskId>, dep: TaskId -> TaskId, t: TaskId, d: nat, cut: set<TaskId>, k: nat)
  {
    var edges, left := EdgesOf(ts, dep), EdgesOf(ts - cut, dep);
    && k <= d
    && (forall x :: x in cut <==> exists j: nat :: k < j <= d && Climb(edges, t, j) == Some(x))
    && (forall j: nat :: j <= k ==> Climb(left, t, j) == Climb(edges, t, j))
    && Climb(edges, t, k).Some? && IsRoot(left, t, Climb(edges, t, k).value, k)
  }

  lemma CutOnceMore(ts: set<TaskId>, dep: TaskId -> TaskId, t: TaskId, maxDepth: nat, d: nat, cut: set<TaskId>, k: nat)
    requires CutDownTo(ts, dep, t, d, cut, k)
    ensures k <= maxDepth ==> Cut(ts - cut, dep, t, maxDepth) == {}
    ensures k > maxDepth ==> CutDownTo(ts, dep, t, d, cut + Cut(ts - cut, dep, t, maxDepth), k - 1)
  {
    hide Cut;
    var edges, left := EdgesOf(ts, dep), EdgesOf(ts - cut, dep);
    var root := Climb(edges, t, k).value;
    CutIs(ts - cut, dep, t, maxDepth, root, k);
    if k > maxDepth {
      var rest := EdgesOf(ts - (cut + {root}), dep);
      assert rest == left - {root};
      forall j: nat | j <= k - 1
        ensures Climb(rest, t, j) == Climb(edges, t, j)
      {
        ClimbStays(left, t, root, k, j);
      }
      ClimbTwice(left, t, k - 1, 1);
      ClimbTwice(rest, t, k - 1, 0);
      assert Climb(left, t, k - 1 + 1) == Some(root);
    }
  }

  /**
   n prunings from t remove exactly its ancestors above the new root; what is below them stays in
   place.
   */
  lemma {:induction false} CutTimesAre(ts: set<TaskId>, dep: TaskId -> TaskId, t: TaskId, maxDepth: nat, n: nat,
                                       r: TaskId, d: nat)
    requires IsRoot(EdgesOf(ts, dep), t, r, d)
    ensures CutDownTo(ts, dep, t, d, CutTimes(ts, dep, t, maxDepth, n), DepthAfter(d, maxDepth, n))
    decreases n
  {
    if n == 0 {
      assert ts - {} == ts;
    } else {
      CutTimesAre(ts, dep, t, maxDepth, n - 1, r, d);
      var before := CutTimes(ts, dep, t, maxDepth, n - 1);
      CutOnceMore(ts, dep, t, maxDepth, d, before, DepthAfter(d, maxDepth, n - 1));
      assert before + {} == before;
    }
  }

  ghost predicate ReadyAbove(f: Facts, t: TaskId, k: nat)
  {
    var up := Climb(EdgesOf(f.done.Keys, f.dep), t, k);
    up.Some? && up.value !in f.unready
  }

  /**
   Exactly when n prunings from t spare all unready tasks: when the lowest ancestor they remove, if
   they remove any, is ready.
   */
  lemma PruningSparesUnready(f: Facts, t: TaskId, maxDepth: nat, n: nat, r: TaskId, d: nat)
    requires f.Closed() && IsRoot(EdgesOf(f.done.Keys, f.dep), t, r, d)
    ensures CutTimes(f.done.Keys, f.dep, t, maxDepth, n) !! f.unready <==>
            n == 0 || d <= maxDepth || ReadyAbove(f, t, if d - n > maxDepth then d - n + 1 else maxDepth + 1)
  {
    hide CutTimes;
    var edges := EdgesOf(f.done.Keys, f.dep);
    var cut := CutTimes(f.done.Keys, f.dep, t, maxDepth, n);
    CutTimesAre(f.done.Keys, f.dep, t, maxDepth, n, r, d);
    if n > 0 && d > maxDepth {
      var lowest := DepthAfter(d, maxDepth, n) + 1;
      ClimbTwice(edges, t, lowest, d - lowest);
      var x := Climb(edges, t, lowest).value;
      assert x in cut;
      if x !in f.unready {
        forall y | y in cut
          ensures y !in f.unready
        {
          var k: nat :| lowest <= k <= d && Climb(edges, t, k) == Some(y);
          ClimbTwice(edges, t, lowest, k - lowest);
          ReadyUpwards(f, x, k - lowest);
        }
      }
    } else {
      assert forall x :: x !in cut;
    }
  }

  /** Two prunings from t, which is what the source does for each task of a batch, spare all unready tasks. */
  ghost predicate TaskSpares(f: Facts, t: TaskId, maxDepth: nat)
  {
    forall r, d: nat :: IsRoot(EdgesOf(f.done.Keys, f.dep), t, r, d) ==>
      d <= maxDepth || ReadyAbove(f, t, if d - 1 > maxDepth then d - 1 else d)
  }

  /** So do the prunings from all tasks of a batch, each in the state the ones before it leave. */
  ghost predicate BatchSpares(f: Facts, batch: seq<TaskId>, maxDepth: nat)
  {
    if batch == [] then true
    else
      var before, t := batch[..|batch| - 1], batch[|batch| - 1];
      && BatchSpares(f, before, maxDepth)
      && TaskSpares(Pruned(f, CutAll(f.done.Keys, f.dep, before, maxDepth)), t, maxDepth)
  }

  ghost function Pruned(f: Facts, cut: set<TaskId>): Facts
  {
    f.(done := f.done - cut, declared := f.declared - cut)
  }

  lemma TaskSparesIff(f: Facts, t: TaskId, maxDepth: nat, rank: TaskId -> nat)
    requires f.Closed() && Acyclic(EdgesOf(f.done.Keys, f.dep), rank)
    ensures CutTimes(f.done.Keys, f.dep, t, maxDepth, 2) !! f.unready <==> TaskSpares(f, t, maxDepth)
  {
    hide CutTimes, ReadyAbove;
    var edges := EdgesOf(f.done.Keys, f.dep);
    if t in edges {
      var r, d := RootExists(edges, rank, t);
      PruningSparesUnready(f, t, maxDepth, 2, r, d);
      forall r', d': nat | IsRoot(edges, t, r', d')
        ensures r' == r && d' == d
      {
        RootUnique(edges, t, r', d', r, d);
      }
    } else {
      AbsentCutsNothing(f.done.Keys, f.dep, t, maxDepth);
    }
  }

  lemma AbsentCutsNothing(ts: set<TaskId>, dep: TaskId -> TaskId, t: TaskId, maxDepth: nat)
    requires t !in ts
    ensures CutTimes(ts, dep, t, maxDepth, 2) == {} && forall r, d :: !IsRoot(EdgesOf(ts, dep), t, r, d)
  {
    assert CutTimes(ts, dep, t, maxDepth, 1) == {};
    assert ts - {} == ts;
  }

  /** Exactly when one call of ready_tasks() prunes no unready task. */
  lemma {:induction false} BatchSparesIff(f: Facts, batch: seq<TaskId>, maxDepth: nat, rank: TaskId -> nat)
    requires f.Closed() && Acyclic(EdgesOf(f.done.Keys, f.dep), rank)
    ensures CutAll(f.done.Keys, f.dep, batch, maxDepth) !! f.unready <==> BatchSpares(f, batch, maxDepth)
  {
    if batch != [] {
      var before, t := batch[..|batch| - 1], batch[|batch| - 1];
      BatchSparesIff(f, before, maxDepth, rank);
      var cut := CutAll(f.done.Keys, f.dep, before, maxDepth);
      if cut !! f.unready {
        var f' := Pruned(f, cut);
        assert f'.done.Keys == f.done.Keys - cut;
        PrunedClosed(f, cut, rank);
        TaskSparesIff(f', t, maxDepth, rank);
      }
    }
  }

  lemma {:induction false} CutAllWithin(ts: set<TaskId>, dep: TaskId -> TaskId, batch: seq<TaskId>, maxDepth: nat)
    ensures CutAll(ts, dep, batch, maxDepth) <= ts
  {
    if batch != [] {
      var before, t := batch[..|batch| - 1], batch[|batch| - 1];
      CutAllWithin(ts, dep, before, maxDepth);
      CutAllNext(ts, dep, before, t, maxDepth);
      CutTwice(ts - CutAll(ts, dep, before, maxDepth), dep, t, maxDepth);
      assert batch == before + [t];
    }
  }

  lemma PrunedClosed(f: Facts, cut: set<TaskId>, rank: TaskId -> nat)
    requires f.Closed() && Acyclic(EdgesOf(f.done.Keys, f.dep), rank) && cut !! f.unready
    ensures Pruned(f, cut).Closed() && Acyclic(EdgesOf(Pruned(f, cut).done.Keys, f.dep), rank)
  {
    var edges, left := EdgesOf(f.done.Keys, f.dep), EdgesOf(Pruned(f, cut).done.Keys, f.dep);
    assert forall n :: n in left ==> n in edges && left[n] == edges[n];
  }
}
